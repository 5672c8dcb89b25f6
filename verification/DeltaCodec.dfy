/**
 internal/sync/delta_compressor.go: the pass-through compressor. A change is framed as the
 length of its data in four big-endian bytes, followed by the data; nothing else of a
 change is carried.
 */
module DeltaCodec {

  import opened Bytes

  /** sync.Change (internal/sync/batch_manager.go). */
  datatype Change = Change(data: seq<byte>, priority: int, timestamp: int, sourceRegion: string, changeType: string)

  function Data(changes: seq<Change>): (ds: seq<seq<byte>>)
    ensures |ds| == |changes| && forall i :: 0 <= i < |ds| ==> ds[i] == changes[i].data
  {
    seq(|changes|, i requires 0 <= i < |changes| => changes[i].data)
  }

  // ----- frames -----

  /** The header the encoder writes: the length truncated to 32 bits, most significant byte first. */
  function Header(length: nat): (h: seq<byte>)
    ensures |h| == HEADER
  {
    WriteBig(length, HEADER)
  }

  lemma HeaderRoundTrip(length: nat)
    ensures ReadBig(Header(length)) == length % TWO32
  {
    BigRoundTrip(length, HEADER);
    HeaderRange();
  }

  function Frame(d: seq<byte>): (f: seq<byte>)
    ensures |f| == HEADER + |d|
  {
    Header(|d|) + d
  }

  function Encode(ds: seq<seq<byte>>): (p: seq<byte>) {
    if ds == [] then [] else Frame(ds[0]) + Encode(ds[1..])
  }

  /** The datum of the first frame is complete. */
  predicate HasFrame(p: seq<byte>) {
    |p| >= HEADER && HEADER + ReadBig(p[..HEADER]) <= |p|
  }

  function Decode(p: seq<byte>): (ds: seq<seq<byte>>)
    decreases |p|
  {
    if HasFrame(p) then
      var n := ReadBig(p[..HEADER]);
      [p[HEADER..HEADER + n]] + Decode(p[HEADER + n..])
    else []
  }

  /** The four bytes of a header, most significant first. */
  lemma HeaderBytes(n: nat)
    ensures Header(n) == [n / 16777216 % 256, n / 65536 % 256, n / 256 % 256, n % 256]
  {
    var a, b, c := n / 256, n / 256 / 256, n / 256 / 256 / 256;
    assert b == n / 65536 && c == n / 16777216;
    assert WriteBig(c / 256, 0) == [];
    assert WriteBig(c, 1) == [c % 256];
    assert WriteBig(b, 2) == [c % 256, b % 256];
    assert WriteBig(a, 3) == [c % 256, b % 256, a % 256];
  }

  /** On the wire each datum follows its header, one frame after the other. */
  lemma EncodeIs(d: seq<byte>, ds: seq<seq<byte>>)
    ensures Encode([]) == [] && Encode([d] + ds) == Header(|d|) + d + Encode(ds)
  {
    assert ([d] + ds)[1..] == ds;
  }

  // ----- the loops -----

  lemma {:induction false} EncodeAppend(ds: seq<seq<byte>>, d: seq<byte>)
    ensures Encode(ds + [d]) == Encode(ds) + Frame(d)
  {
    if ds == [] {
      assert [d][1..] == [];
      assert Encode([d]) == Frame(d);
      assert ds + [d] == [d];
    } else {
      assert (ds + [d])[1..] == ds[1..] + [d];
      EncodeAppend(ds[1..], d);
    }
  }

  method Compress(changes: seq<Change>) returns (buf: seq<byte>)
    ensures buf == Encode(Data(changes))
  {
    buf := [];
    for i := 0 to |changes|
      invariant buf == Encode(Data(changes[..i]))
    {
      var c := changes[i];
      buf := buf + Header(|c.data|);
      buf := buf + c.data;
      EncodeAppend(Data(changes[..i]), c.data);
      assert Data(changes[..i + 1]) == Data(changes[..i]) + [c.data];
    }
    assert changes[..|changes|] == changes;
  }

  /** One turn of the decoder, at offset i. */
  lemma DecodeAt(p: seq<byte>, i: nat)
    requires i <= |p|
    ensures i + HEADER > |p| ==> Decode(p[i..]) == []
    ensures i + HEADER <= |p| ==>
              var n := ReadBig(p[i..i + HEADER]);
              Decode(p[i..]) == if i + HEADER + n > |p| then [] else [p[i + HEADER..i + HEADER + n]] + Decode(p[i + HEADER + n..])
  {
    var rest := p[i..];
    if i + HEADER <= |p| {
      assert rest[..HEADER] == p[i..i + HEADER];
      var n := ReadBig(rest[..HEADER]);
      if i + HEADER + n <= |p| {
        assert rest[HEADER..HEADER + n] == p[i + HEADER..i + HEADER + n] && rest[HEADER + n..] == p[i + HEADER + n..];
      }
    }
  }

  lemma DataAppend(cs: seq<Change>, c: Change, rest: seq<seq<byte>>)
    ensures Data(cs) + ([c.data] + rest) == Data(cs + [c]) + rest
  {
    assert Data(cs + [c]) == Data(cs) + [c.data];
  }

  /** Decodes what it can; an incomplete tail is ignored. Only the data of a change comes back. */
  method Decompress(payload: seq<byte>) returns (res: seq<Change>)
    ensures Data(res) == Decode(payload)
    ensures forall c <- res :: c == Change(c.data, 0, 0, "", "")
  {
    res := [];
    var i := 0;
    assert payload[0..] == payload;
    while i < |payload|
      invariant i <= |payload|
      invariant Decode(payload) == Data(res) + Decode(payload[i..])
      invariant forall c <- res :: c == Change(c.data, 0, 0, "", "")
    {
      DecodeAt(payload, i);
      if i + HEADER > |payload| {
        break;
      }
      var n := ReadBig(payload[i..i + HEADER]);
      if i + HEADER + n > |payload| {
        break;
      }
      var d := payload[i + HEADER..i + HEADER + n];
      DataAppend(res, Change(d, 0, 0, "", ""), Decode(payload[i + HEADER + n..]));
      res := res + [Change(d, 0, 0, "", "")];
      i := i + HEADER + n;
    }
  }

  // ----- what the codec promises -----

  /** Every datum is short enough for its length to fit the header. */
  predicate Short(ds: seq<seq<byte>>) {
    forall d <- ds :: |d| < TWO32
  }

  lemma FrameParts(d: seq<byte>, rest: seq<byte>)
    ensures var p := Frame(d) + rest;
            p[..HEADER] == Header(|d|) && p[HEADER..HEADER + |d|] == d && p[HEADER + |d|..] == rest
  {
  }

  lemma DecodeFirst(p: seq<byte>, n: nat)
    requires HEADER + n <= |p| && ReadBig(p[..HEADER]) == n
    ensures Decode(p) == [p[HEADER..HEADER + n]] + Decode(p[HEADER + n..])
  {
  }

  lemma DecodeFrame(d: seq<byte>, rest: seq<byte>)
    requires |d| < TWO32
    ensures Decode(Frame(d) + rest) == [d] + Decode(rest)
  {
    FrameParts(d, rest);
    HeaderRoundTrip(|d|);
    DecodeFirst(Frame(d) + rest, |d|);
  }

  lemma {:induction false} DecodeEncode(ds: seq<seq<byte>>)
    requires Short(ds)
    ensures Decode(Encode(ds)) == ds
  {
    if ds != [] {
      DecodeFrame(ds[0], Encode(ds[1..]));
      DecodeEncode(ds[1..]);
    }
  }

  /** An oversized datum is never read back: its header names a smaller length. */
  lemma OversizedFrame(d: seq<byte>, rest: seq<byte>)
    requires |d| >= TWO32
    ensures Decode(Frame(d) + rest) != [] && |Decode(Frame(d) + rest)[0]| < |d|
  {
    FrameParts(d, rest);
    HeaderRoundTrip(|d|);
    assert HasFrame(Frame(d) + rest);
  }

  /** Decompressing a compressed batch returns exactly its data, in order, if and only if every datum is short. */
  lemma {:induction false} RoundTrip(ds: seq<seq<byte>>)
    ensures Decode(Encode(ds)) == ds <==> Short(ds)
  {
    if Short(ds) {
      DecodeEncode(ds);
    } else if |ds[0]| >= TWO32 {
      OversizedFrame(ds[0], Encode(ds[1..]));
    } else {
      DecodeFrame(ds[0], Encode(ds[1..]));
      RoundTrip(ds[1..]);
      assert ds == [ds[0]] + ds[1..];
      assert Decode(Encode(ds))[1..] == Decode(Encode(ds[1..]));
    }
  }

  function Zeros(n: nat): (d: seq<byte>)
    ensures |d| == n
  {
    seq(n, _ => 0)
  }

  /** A datum of 2^32 bytes does not come back. */
  lemma LargeDatumIsLost()
    ensures Decode(Encode([Zeros(TWO32)])) != [Zeros(TWO32)]
  {
    assert Zeros(TWO32) in [Zeros(TWO32)];
    RoundTrip([Zeros(TWO32)]);
  }

  lemma DecodeTruncatedFrame(d: seq<byte>, rest: seq<byte>, k: nat)
    requires |d| < TWO32 && k < |Frame(d)|
    ensures Decode((Frame(d) + rest)[..k]) == []
  {
    var p := (Frame(d) + rest)[..k];
    if k >= HEADER {
      assert p[..HEADER] == Header(|d|);
      HeaderRoundTrip(|d|);
    }
  }

  /** A truncated batch decodes to the frames that are wholly inside it. */
  lemma {:induction false} Truncation(ds: seq<seq<byte>>, k: nat) returns (m: nat)
    requires Short(ds) && k <= |Encode(ds)|
    ensures m <= |ds| && Decode(Encode(ds)[..k]) == ds[..m]
    ensures |Encode(ds[..m])| <= k
    ensures m < |ds| ==> k < |Encode(ds[..m + 1])|
    decreases |ds|
  {
    if ds == [] {
      return 0;
    }
    var f, rest := Frame(ds[0]), Encode(ds[1..]);
    if k < |f| {
      m := 0;
      DecodeTruncatedFrame(ds[0], rest, k);
      assert ds[..1] == [ds[0]] && ds[..1][1..] == [];
    } else {
      var m' := Truncation(ds[1..], k - |f|);
      m := m' + 1;
      TruncatedBehind(ds, k, m');
    }
  }

  lemma DecodeBehind(d: seq<byte>, rest: seq<byte>, k: nat)
    requires |d| < TWO32 && |Frame(d)| <= k <= |Frame(d) + rest|
    ensures Decode((Frame(d) + rest)[..k]) == [d] + Decode(rest[..k - |Frame(d)|])
  {
    var f := Frame(d);
    assert (f + rest)[..k] == f + rest[..k - |f|];
    DecodeFrame(d, rest[..k - |f|]);
  }

  /** A cut behind the first frame cuts the rest. */
  lemma TruncatedBehind(ds: seq<seq<byte>>, k: nat, m: nat)
    requires Short(ds) && ds != [] && |Frame(ds[0])| <= k <= |Encode(ds)| && m <= |ds| - 1
    requires Decode(Encode(ds[1..])[..k - |Frame(ds[0])|]) == ds[1..][..m]
    requires |Encode(ds[1..][..m])| <= k - |Frame(ds[0])|
    requires m < |ds| - 1 ==> k - |Frame(ds[0])| < |Encode(ds[1..][..m + 1])|
    ensures Decode(Encode(ds)[..k]) == ds[..m + 1]
    ensures |Encode(ds[..m + 1])| <= k
    ensures m + 1 < |ds| ==> k < |Encode(ds[..m + 2])|
  {
    DecodeBehind(ds[0], Encode(ds[1..]), k);
    EncodePrefix(ds, m);
    assert ds[..m + 1] == [ds[0]] + ds[1..][..m];
    if m + 1 < |ds| {
      EncodePrefix(ds, m + 1);
    }
  }

  lemma EncodePrefix(ds: seq<seq<byte>>, j: nat)
    requires j < |ds|
    ensures Encode(ds[..j + 1]) == Frame(ds[0]) + Encode(ds[1..][..j])
  {
    assert ds[..j + 1][1..] == ds[1..][..j];
  }

  /** The first frame, re-encoded, is the bytes it was read from. */
  lemma FrameRewrite(p: seq<byte>)
    requires HasFrame(p)
    ensures var n := ReadBig(p[..HEADER]);
            n < TWO32 && Frame(p[HEADER..HEADER + n]) == p[..HEADER + n]
  {
    var h := p[..HEADER];
    BigRewrite(h);
    BigBound(h);
    HeaderRange();
    var n := ReadBig(h);
    assert p[..HEADER + n] == h + p[HEADER..HEADER + n];
  }

  lemma {:induction false} DecodedAreShort(p: seq<byte>)
    ensures Short(Decode(p))
    decreases |p|
  {
    if HasFrame(p) {
      FrameRewrite(p);
      DecodedAreShort(p[HEADER + ReadBig(p[..HEADER])..]);
    }
  }

  /** The decoded part of a payload, then a rest that holds no complete frame. */
  ghost predicate SplitsAs(p: seq<byte>, q: seq<byte>) {
    q <= p && !HasFrame(p[|q|..])
  }

  lemma SplitShift(f: seq<byte>, p: seq<byte>, q: seq<byte>)
    requires SplitsAs(p, q)
    ensures SplitsAs(f + p, f + q)
  {
    assert (f + p)[|f + q|..] == p[|q|..];
  }

  /** Re-encoding what was decoded gives back the decoded part of the payload, and the rest holds no frame. */
  lemma {:induction false} EncodeDecode(p: seq<byte>)
    ensures SplitsAs(p, Encode(Decode(p)))
    decreases |p|
  {
    if HasFrame(p) {
      var n := ReadBig(p[..HEADER]);
      var d, rest := p[HEADER..HEADER + n], p[HEADER + n..];
      FrameRewrite(p);
      EncodeDecode(rest);
      EncodeIs(d, Decode(rest));
      SplitShift(Frame(d), rest, Encode(Decode(rest)));
      assert p == Frame(d) + rest;
    } else {
      assert p[0..] == p;
    }
  }
}
