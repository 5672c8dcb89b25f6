/**
 internal/protocol/serializer.go: length-prefixed messages and batches of them. The protobuf
 and zstd codecs are parameters; what is modelled is the framing around them.
 */
module Framing {
  import opened Common
  import opened Bytes

  /** The codecs: protobuf and zstd. A message says whether it asks for compression. */
  datatype Codec<!Msg> = Codec(
    marshal: Msg -> Option<seq<byte>>,
    unmarshal: seq<byte> -> Option<Msg>,
    compress: seq<byte> -> seq<byte>,
    decompress: seq<byte> -> Option<seq<byte>>,
    zstd: Msg -> bool)

  /** Both codecs decode what they encoded. */
  ghost predicate Correct<Msg(!new)>(codec: Codec<Msg>) {
    && (forall m: Msg {:trigger codec.marshal(m)} :: codec.marshal(m).Some? ==> codec.unmarshal(codec.marshal(m).value) == Some(m))
    && (forall b: seq<byte> {:trigger codec.compress(b)} :: codec.decompress(codec.compress(b)) == Some(b))
  }

  function Prefix(n: nat): (h: seq<byte>)
    ensures |h| == HEADER
  {
    WriteLittle(n, HEADER)
  }

  lemma PrefixRoundTrip(n: nat)
    ensures ReadLittle(Prefix(n)) == n % TWO32
  {
    LittleRoundTrip(n, HEADER);
    HeaderRange();
  }

  // ----- one message -----

  /** The bytes a message is framed with: marshalled, then compressed when it asks for it. */
  function Body<Msg>(codec: Codec<Msg>, m: Msg): (b: Option<seq<byte>>) {
    match codec.marshal(m)
    case None => None
    case Some(data) => Some(if codec.zstd(m) then codec.compress(data) else data)
  }

  function Serialize<Msg>(codec: Codec<Msg>, m: Msg): (r: Option<seq<byte>>) {
    match Body(codec, m)
    case None => None
    case Some(data) => Some(Prefix(|data|) + data)
  }

  /** Decodes a body: a first unmarshalling tells whether to decompress, a second gives the message. */
  function Unwrap<Msg>(codec: Codec<Msg>, payload: seq<byte>): (r: Option<Msg>) {
    match codec.unmarshal(payload)
    case Some(peek) =>
      if codec.zstd(peek) then
        match codec.decompress(payload)
        case None => None
        case Some(raw) => codec.unmarshal(raw)
      else Some(peek)
    case None => None
  }

  function Deserialize<Msg>(codec: Codec<Msg>, data: seq<byte>): (r: Option<Msg>) {
    if |data| < HEADER then None
    else if (|data| - HEADER) % TWO32 != ReadLittle(data[..HEADER]) then None
    else Unwrap(codec, data[HEADER..])
  }

  lemma FramedRoundTrip<Msg(!new)>(codec: Codec<Msg>, m: Msg)
    requires Body(codec, m).Some?
    ensures Deserialize(codec, Serialize(codec, m).value) == Unwrap(codec, Body(codec, m).value)
  {
    var data := Body(codec, m).value;
    var framed := Prefix(|data|) + data;
    PrefixRoundTrip(|data|);
    assert framed[..HEADER] == Prefix(|data|) && framed[HEADER..] == data;
  }

  /**
   A marshalled message comes back exactly when it is uncompressed, or when its compressed
   bytes happen to unmarshal to a message that itself asks for compression: the receiver
   looks for the flag before it decompresses.
   */
  lemma RoundTripExact<Msg(!new)>(codec: Codec<Msg>, m: Msg)
    requires Correct(codec) && codec.marshal(m).Some?
    ensures Serialize(codec, m).Some?
    ensures var peek := codec.unmarshal(codec.compress(codec.marshal(m).value));
            Deserialize(codec, Serialize(codec, m).value) == Some(m) <==>
            !codec.zstd(m) || (peek.Some? && codec.zstd(peek.value))
  {
    FramedRoundTrip(codec, m);
    var data := codec.marshal(m).value;
    assert codec.decompress(codec.compress(data)) == Some(data);
  }

  /** A codec over two messages, of which one asks for compression; compression puts a byte in front. */
  function Flags(): (codec: Codec<bool>) {
    Codec(
      (m: bool) => Some(if m then [1] else [0]),
      (b: seq<byte>) => if b == [1] then Some(true) else if b == [0] then Some(false) else None,
      (b: seq<byte>) => [7] + b,
      (b: seq<byte>) => if b != [] && b[0] == 7 then Some(b[1..]) else None,
      (m: bool) => m)
  }

  /** A correct codec with a compressed message that does not come back. */
  lemma CompressedIsLost()
    ensures Correct(Flags()) && Flags().zstd(true) && Serialize(Flags(), true).Some?
    ensures Deserialize(Flags(), Serialize(Flags(), true).value) == None
  {
    var codec := Flags();
    forall b: seq<byte> ensures codec.decompress(codec.compress(b)) == Some(b) {
      assert ([7] + b)[1..] == b;
    }
    FramedRoundTrip(codec, true);
    assert |[7] + [1]| == 2;
  }

  /** A message is read only if its header gives the length of the rest, modulo 2^32. */
  lemma LengthIsChecked<Msg>(codec: Codec<Msg>, data: seq<byte>)
    requires |data| < 4 || (|data| - 4) % 0x1_0000_0000 != ReadLittle(data[..4])
    ensures Deserialize(codec, data) == None
  {
  }

  lemma HeaderOf<Msg>(codec: Codec<Msg>, m: Msg)
    requires Serialize(codec, m).Some?
    ensures var f := Serialize(codec, m).value;
            |f| >= 4 && ReadLittle(f[..4]) == (|f| - 4) % 0x1_0000_0000
  {
    var data := Body(codec, m).value;
    var f := Prefix(|data|) + data;
    assert f[..4] == Prefix(|data|);
    PrefixRoundTrip(|data|);
  }

  lemma DifferentRemainder(a: nat, b: nat)
    requires a != b && -0x1_0000_0000 < a - b < 0x1_0000_0000
    ensures a % 0x1_0000_0000 != b % 0x1_0000_0000
  {
    var m := 0x1_0000_0000;
    if a % m == b % m {
      assert a == m * (a / m) + a % m && b == m * (b / m) + b % m;
      assert a - b == m * (a / m - b / m);
      SmallMultiple(m, a / m - b / m);
    }
  }

  /** A single frame that is cut short, or followed by other bytes, is refused, up to 2^32 bytes of difference. */
  lemma WrongLengthIsRefused<Msg>(codec: Codec<Msg>, m: Msg, k: nat, tail: seq<byte>)
    requires Serialize(codec, m).Some?
    ensures var f := Serialize(codec, m).value;
            && (k < |f| && |f| - k < 0x1_0000_0000 ==> Deserialize(codec, f[..k]) == None)
            && (0 < |tail| < 0x1_0000_0000 ==> Deserialize(codec, f + tail) == None)
  {
    var f := Serialize(codec, m).value;
    HeaderOf(codec, m);
    if k < |f| && |f| - k < 0x1_0000_0000 {
      if k >= 4 {
        assert f[..k][..4] == f[..4];
        DifferentRemainder(k - 4, |f| - 4);
      }
      LengthIsChecked(codec, f[..k]);
    }
    if 0 < |tail| < 0x1_0000_0000 {
      assert (f + tail)[..4] == f[..4];
      DifferentRemainder(|f + tail| - 4, |f| - 4);
      LengthIsChecked(codec, f + tail);
    }
  }

  /** The four bytes of a header, least significant first. */
  lemma PrefixBytes(n: nat)
    ensures Prefix(n) == [n % 256, n / 256 % 256, n / 65536 % 256, n / 16777216 % 256]
  {
    var a, b, c := n / 256, n / 256 / 256, n / 256 / 256 / 256;
    assert b == n / 65536 && c == n / 16777216;
    assert WriteLittle(c / 256, 0) == [];
    assert WriteLittle(c, 1) == [c % 256];
    assert WriteLittle(b, 2) == [b % 256, c % 256];
    assert WriteLittle(a, 3) == [a % 256, b % 256, c % 256];
  }

  /** A frame: the length of the body in four bytes, then the marshalled message, compressed if it asks for it. */
  lemma FrameIs<Msg>(codec: Codec<Msg>, m: Msg)
    requires codec.marshal(m).Some?
    ensures var data := codec.marshal(m).value;
            var body := if codec.zstd(m) then codec.compress(data) else data;
            Serialize(codec, m) == Some(Prefix(|body|) + body)
  {
  }

  // ----- batches -----

  const MAX_BATCH: nat := 1000

  /** The frames of the messages one after another, if each can be marshalled. */
  function Frames<Msg>(codec: Codec<Msg>, ms: seq<Msg>): (r: Option<seq<byte>>) {
    if ms == [] then Some([])
    else
      var first, rest := Serialize(codec, ms[0]), Frames(codec, ms[1..]);
      if first.None? || rest.None? then None else Some(first.value + rest.value)
  }

  function SerializeBatchOf<Msg>(codec: Codec<Msg>, ms: seq<Msg>): (r: Option<seq<byte>>) {
    if ms == [] || Frames(codec, ms).None? then None else Some(Prefix(|ms|) + Frames(codec, ms).value)
  }

  /** The length of the first frame, when it is complete. */
  function FrameLength(data: seq<byte>): (n: Option<nat>)
    ensures n.Some? ==> HEADER <= n.value <= |data|
  {
    if |data| < HEADER then None
    else
      var total := HEADER + ReadLittle(data[..HEADER]);
      if total <= |data| then Some(total) else None
  }

  /** Decodes a number of frames from the front of the data. */
  function ReadFrames<Msg>(codec: Codec<Msg>, data: seq<byte>, count: nat): (r: Option<seq<Msg>>)
    ensures r.Some? ==> |r.value| == count
    decreases count
  {
    if count == 0 then Some([])
    else
      match FrameLength(data)
      case None => None
      case Some(n) =>
        var first := Deserialize(codec, data[..n]);
        var rest := ReadFrames(codec, data[n..], count - 1);
        if first.None? || rest.None? then None else Some([first.value] + rest.value)
  }

  function DeserializeBatchOf<Msg>(codec: Codec<Msg>, data: seq<byte>): (r: Option<seq<Msg>>) {
    if |data| < HEADER then None
    else
      var count := ReadLittle(data[..HEADER]);
      if count == 0 || count > MAX_BATCH then None else ReadFrames(codec, data[HEADER..], count)
  }

  // ----- the loops -----

  function Join(parts: seq<seq<byte>>): (r: seq<byte>) {
    if parts == [] then [] else Join(parts[..|parts| - 1]) + parts[|parts| - 1]
  }

  lemma {:induction false} FramesAppend<Msg>(codec: Codec<Msg>, ms: seq<Msg>, m: Msg)
    ensures Frames(codec, ms + [m]) ==
            if Frames(codec, ms).None? || Serialize(codec, m).None? then None
            else Some(Frames(codec, ms).value + Serialize(codec, m).value)
  {
    if ms == [] {
      assert ms + [m] == [m] && [m][1..] == [];
      assert Frames(codec, [m][1..]) == Some([]);
      var last := Serialize(codec, m);
      if last.Some? {
        assert last.value + [] == last.value == [] + last.value;
      }
    } else {
      assert (ms + [m])[1..] == ms[1..] + [m];
      FramesAppend(codec, ms[1..], m);
      var first, rest, last := Serialize(codec, ms[0]), Frames(codec, ms[1..]), Serialize(codec, m);
      if first.Some? && rest.Some? && last.Some? {
        assert first.value + (rest.value + last.value) == first.value + rest.value + last.value;
      }
    }
  }

  lemma {:induction false} FramesPrefix<Msg>(codec: Codec<Msg>, ms: seq<Msg>, k: nat)
    requires k <= |ms| && Frames(codec, ms[..k]).None?
    ensures Frames(codec, ms).None?
    decreases |ms| - k
  {
    if k < |ms| {
      assert ms[..k + 1] == ms[..k] + [ms[k]];
      FramesAppend(codec, ms[..k], ms[k]);
      FramesPrefix(codec, ms, k + 1);
    } else {
      assert ms[..k] == ms;
    }
  }

  /** Serializes each message, then writes the count and the frames into one buffer. */
  method SerializeBatch<Msg>(codec: Codec<Msg>, messages: seq<Msg>) returns (r: Option<seq<byte>>)
    ensures r == SerializeBatchOf(codec, messages)
    ensures messages == [] ==> r == None
  {
    if |messages| == 0 {
      return None;
    }
    var parts := SerializeEach(codec, messages);
    if parts.None? {
      return None;
    }
    var joined := AppendAll(Prefix(|messages|), parts.value);
    return Some(joined);
  }

  method SerializeEach<Msg>(codec: Codec<Msg>, messages: seq<Msg>) returns (r: Option<seq<seq<byte>>>)
    ensures r.None? <==> Frames(codec, messages).None?
    ensures r.Some? ==> Join(r.value) == Frames(codec, messages).value
  {
    var parts: seq<seq<byte>> := [];
    for i := 0 to |messages|
      invariant Frames(codec, messages[..i]) == Some(Join(parts))
    {
      assert messages[..i + 1] == messages[..i] + [messages[i]];
      FramesAppend(codec, messages[..i], messages[i]);
      var data := Serialize(codec, messages[i]);
      if data.None? {
        FramesPrefix(codec, messages, i + 1);
        return None;
      }
      JoinAppend(parts, data.value);
      parts := parts + [data.value];
    }
    assert messages[..|messages|] == messages;
    return Some(parts);
  }

  lemma JoinAppend(parts: seq<seq<byte>>, part: seq<byte>)
    ensures Join(parts + [part]) == Join(parts) + part
  {
    assert (parts + [part])[..|parts|] == parts;
  }

  method AppendAll(header: seq<byte>, parts: seq<seq<byte>>) returns (result: seq<byte>)
    ensures result == header + Join(parts)
  {
    result := header;
    for i := 0 to |parts|
      invariant result == header + Join(parts[..i])
    {
      assert parts[..i + 1] == parts[..i] + [parts[i]];
      JoinAppend(parts[..i], parts[i]);
      result := result + parts[i];
    }
    assert parts[..|parts|] == parts;
  }

  lemma ReadStep<Msg>(codec: Codec<Msg>, data: seq<byte>, done: seq<Msg>, count: nat)
    requires count > 0
    ensures FrameLength(data).None? ==> ReadFrames(codec, data, count) == None
    ensures FrameLength(data).Some? ==>
              var n := FrameLength(data).value;
              var first := Deserialize(codec, data[..n]);
              var rest := ReadFrames(codec, data[n..], count - 1);
              && (first.None? ==> ReadFrames(codec, data, count) == None)
              && (first.Some? ==> Prepend(done, ReadFrames(codec, data, count)) == Prepend(done + [first.value], rest))
  {
    if FrameLength(data).Some? {
      var n := FrameLength(data).value;
      var first := Deserialize(codec, data[..n]);
      var rest := ReadFrames(codec, data[n..], count - 1);
      if first.Some? && rest.Some? {
        assert done + ([first.value] + rest.value) == (done + [first.value]) + rest.value;
      }
    }
  }

  ghost function Prepend<Msg>(done: seq<Msg>, rest: Option<seq<Msg>>): (r: Option<seq<Msg>>) {
    if rest.None? then None else Some(done + rest.value)
  }

  lemma SliceOfTail(data: seq<byte>, offset: nat, n: nat)
    requires offset + n <= |data|
    ensures data[offset..][..n] == data[offset..offset + n] && data[offset..][n..] == data[offset + n..]
  {
  }

  lemma PrependNothing<Msg>(rest: Option<seq<Msg>>)
    ensures Prepend([], rest) == rest
  {
    if rest.Some? {
      assert [] + rest.value == rest.value;
    }
  }

  /** Reads the count, then that many frames; bytes behind them are ignored. */
  method DeserializeBatch<Msg>(codec: Codec<Msg>, data: seq<byte>) returns (r: Option<seq<Msg>>)
    ensures r == DeserializeBatchOf(codec, data)
  {
    if |data| < HEADER {
      return None;
    }
    var count := ReadLittle(data[..HEADER]);
    if count == 0 || count > MAX_BATCH {
      return None;
    }
    r := ReadMessages(codec, data, HEADER, count);
    PrependNothing(ReadFrames(codec, data[HEADER..], count));
  }

  /** The outcome when some messages are read and some frames are left at the offset. */
  ghost function Outcome<Msg>(codec: Codec<Msg>, data: seq<byte>, messages: seq<Msg>, offset: nat, left: nat): (r: Option<seq<Msg>>)
    requires offset <= |data|
  {
    Prepend(messages, ReadFrames(codec, data[offset..], left))
  }

  lemma OutcomeStep<Msg>(codec: Codec<Msg>, data: seq<byte>, messages: seq<Msg>, offset: nat, left: nat)
    requires offset <= |data| && left > 0
    ensures offset + HEADER > |data| ==> Outcome(codec, data, messages, offset, left) == None
    ensures offset + HEADER <= |data| ==>
              var total := HEADER + ReadLittle(data[offset..offset + HEADER]);
              && (offset + total > |data| ==> Outcome(codec, data, messages, offset, left) == None)
              && (offset + total <= |data| ==>
                    var msg := Deserialize(codec, data[offset..offset + total]);
                    && (msg.None? ==> Outcome(codec, data, messages, offset, left) == None)
                    && (msg.Some? ==> Outcome(codec, data, messages, offset, left)
                                      == Outcome(codec, data, messages + [msg.value], offset + total, left - 1)))
  {
    ReadStep(codec, data[offset..], messages, left);
    if offset + HEADER <= |data| {
      SliceOfTail(data, offset, HEADER);
      var total := HEADER + ReadLittle(data[offset..offset + HEADER]);
      if offset + total <= |data| {
        SliceOfTail(data, offset, total);
      }
    }
  }

  lemma NoneLeft<Msg>(codec: Codec<Msg>, data: seq<byte>, messages: seq<Msg>, offset: nat)
    requires offset <= |data|
    ensures Outcome(codec, data, messages, offset, 0) == Some(messages)
  {
    assert messages + [] == messages;
  }

  /** Reads the frame at the offset; the outcome of the whole read does not change. */
  method ReadMessage<Msg>(codec: Codec<Msg>, data: seq<byte>, offset: nat, ghost messages: seq<Msg>, ghost left: nat)
    returns (msg: Option<Msg>, end: nat)
    requires offset <= |data| && left > 0
    ensures offset <= end <= |data|
    ensures msg.None? ==> Outcome(codec, data, messages, offset, left) == None
    ensures msg.Some? ==> Outcome(codec, data, messages, offset, left) == Outcome(codec, data, messages + [msg.value], end, left - 1)
  {
    OutcomeStep(codec, data, messages, offset, left);
    if offset + HEADER > |data| {
      return None, offset;
    }
    var total := HEADER + ReadLittle(data[offset..offset + HEADER]);
    if offset + total > |data| {
      return None, offset;
    }
    return Deserialize(codec, data[offset..offset + total]), offset + total;
  }

  method ReadMessages<Msg>(codec: Codec<Msg>, data: seq<byte>, start: nat, count: nat) returns (r: Option<seq<Msg>>)
    requires start <= |data|
    ensures r == Outcome(codec, data, [], start, count)
  {
    var messages: seq<Msg> := [];
    var offset: nat := start;
    ghost var outcome := Outcome(codec, data, [], start, count);
    for i := 0 to count
      invariant start <= offset <= |data|
      invariant outcome == Outcome(codec, data, messages, offset, count - i)
    {
      var msg, end := ReadMessage(codec, data, offset, messages, count - i);
      if msg.None? {
        return None;
      }
      messages := messages + [msg.value];
      offset := end;
    }
    NoneLeft(codec, data, messages, offset);
    return Some(messages);
  }

  // ----- what the framing promises -----

  /** Messages that come back one by one: marshallable, uncompressed, and short enough for the header. */
  ghost predicate Plain<Msg>(codec: Codec<Msg>, ms: seq<Msg>) {
    forall m <- ms :: codec.marshal(m).Some? && !codec.zstd(m) && |codec.marshal(m).value| < TWO32
  }

  lemma ReadOneFrame<Msg(!new)>(codec: Codec<Msg>, m: Msg, rest: seq<byte>)
    requires Correct(codec) && Plain(codec, [m])
    ensures Serialize(codec, m).Some?
    ensures var f := Serialize(codec, m).value;
            FrameLength(f + rest) == Some(|f|) && (f + rest)[..|f|] == f && (f + rest)[|f|..] == rest
    ensures Deserialize(codec, Serialize(codec, m).value) == Some(m)
  {
    assert m in [m];
    var data := codec.marshal(m).value;
    var f := Serialize(codec, m).value;
    PrefixRoundTrip(|data|);
    assert (f + rest)[..HEADER] == Prefix(|data|);
    RoundTripExact(codec, m);
  }

  lemma ReadOneMore<Msg(!new)>(codec: Codec<Msg>, m: Msg, rest: seq<byte>, ms: seq<Msg>)
    requires Correct(codec) && Plain(codec, [m]) && ReadFrames(codec, rest, |ms|) == Some(ms)
    ensures Serialize(codec, m).Some?
    ensures ReadFrames(codec, Serialize(codec, m).value + rest, |ms| + 1) == Some([m] + ms)
  {
    ReadOneFrame(codec, m, rest);
  }

  lemma FramesOfFirst<Msg>(codec: Codec<Msg>, ms: seq<Msg>, tail: seq<byte>)
    requires ms != [] && Serialize(codec, ms[0]).Some? && Frames(codec, ms[1..]).Some?
    ensures Frames(codec, ms).Some?
    ensures Frames(codec, ms).value + tail == Serialize(codec, ms[0]).value + (Frames(codec, ms[1..]).value + tail)
  {
  }

  lemma {:induction false} ReadWrittenFrames<Msg(!new)>(codec: Codec<Msg>, ms: seq<Msg>, tail: seq<byte>)
    requires Correct(codec) && Plain(codec, ms)
    ensures Frames(codec, ms).Some?
    ensures ReadFrames(codec, Frames(codec, ms).value + tail, |ms|) == Some(ms)
  {
    if ms != [] {
      ReadWrittenFrames(codec, ms[1..], tail);
      ReadOneMore(codec, ms[0], Frames(codec, ms[1..]).value + tail, ms[1..]);
      FramesOfFirst(codec, ms, tail);
      assert ms == [ms[0]] + ms[1..];
    }
  }

  lemma SmallModulus(n: nat, m: nat)
    requires n < m
    ensures n % m == n
  {
  }

  lemma Behind(header: seq<byte>, frames: seq<byte>, tail: seq<byte>)
    requires |header| == HEADER
    ensures var data := header + frames + tail; data[..HEADER] == header && data[HEADER..] == frames + tail
  {
  }

  lemma BatchLayout<Msg>(codec: Codec<Msg>, ms: seq<Msg>, tail: seq<byte>)
    requires ms != [] && Frames(codec, ms).Some?
    ensures SerializeBatchOf(codec, ms).Some?
    ensures var data := SerializeBatchOf(codec, ms).value + tail;
            data[..HEADER] == Prefix(|ms|) && data[HEADER..] == Frames(codec, ms).value + tail
  {
    Behind(Prefix(|ms|), Frames(codec, ms).value, tail);
  }

  /**
   A batch of plain messages, with any bytes behind it, is read back as sent exactly when it has
   at most 1000 messages: larger batches can be written but are refused by the reader.
   */
  lemma BatchRoundTrip<Msg(!new)>(codec: Codec<Msg>, ms: seq<Msg>, tail: seq<byte>)
    requires Correct(codec) && Plain(codec, ms) && ms != []
    ensures SerializeBatchOf(codec, ms).Some?
    ensures DeserializeBatchOf(codec, SerializeBatchOf(codec, ms).value + tail) == Some(ms) <==> |ms| <= 1000
  {
    ReadWrittenFrames(codec, ms, tail);
    BatchLayout(codec, ms, tail);
    PrefixRoundTrip(|ms|);
    if |ms| <= MAX_BATCH {
      SmallModulus(|ms|, TWO32);
    }
  }

  /** The bytes that a number of frames take at the front of the data. */
  function FramesLength(data: seq<byte>, count: nat): (n: Option<nat>)
    ensures n.Some? ==> n.value <= |data|
    decreases count
  {
    if count == 0 then Some(0)
    else
      match FrameLength(data)
      case None => None
      case Some(n) =>
        var rest := FramesLength(data[n..], count - 1);
        if rest.None? then None else Some(n + rest.value)
  }

  lemma CutBehind(data: seq<byte>, n: nat, k: nat, tail: seq<byte>)
    requires HEADER <= n && n + k <= |data|
    ensures var data' := data[..n + k] + tail;
            && data'[..HEADER] == data[..HEADER]
            && data'[..n] == data[..n]
            && data'[n..] == data[n..][..k] + tail
  {
  }

  /** The first frame of a successful read, its message, and the frames behind it. */
  lemma FirstRead<Msg>(codec: Codec<Msg>, data: seq<byte>, count: nat, ms: seq<Msg>) returns (n: nat)
    requires ReadFrames(codec, data, count) == Some(ms) && count > 0
    ensures HEADER <= n <= |data| && |ms| == count && FrameLength(data) == Some(n)
    ensures Deserialize(codec, data[..n]) == Some(ms[0]) && ReadFrames(codec, data[n..], count - 1) == Some(ms[1..])
  {
    n := FrameLength(data).value;
    var rest := ReadFrames(codec, data[n..], count - 1).value;
    assert ms == [ms[0]] + rest && ([ms[0]] + rest)[1..] == rest;
  }

  lemma LengthOfFirst(data: seq<byte>, count: nat, n: nat)
    requires count > 0 && n <= |data| && FrameLength(data) == Some(n)
    ensures var rest := FramesLength(data[n..], count - 1);
            FramesLength(data, count) == if rest.None? then None else Some(n + rest.value)
  {
  }

  lemma {:induction false} ReadHasLength<Msg>(codec: Codec<Msg>, data: seq<byte>, count: nat, ms: seq<Msg>)
    requires ReadFrames(codec, data, count) == Some(ms)
    ensures FramesLength(data, count).Some?
    decreases count
  {
    if count > 0 {
      var n := FirstRead(codec, data, count, ms);
      ReadHasLength(codec, data[n..], count - 1, ms[1..]);
      LengthOfFirst(data, count, n);
    }
  }

  /** A read of data that begin with a given frame. */
  lemma ReadFirst<Msg>(codec: Codec<Msg>, data: seq<byte>, n: nat, count: nat, m: Msg, rest: seq<Msg>)
    requires n <= |data| && FrameLength(data) == Some(n) && Deserialize(codec, data[..n]) == Some(m)
    requires count > 0 && ReadFrames(codec, data[n..], count - 1) == Some(rest)
    ensures ReadFrames(codec, data, count) == Some([m] + rest)
  {
  }

  lemma SameFirstFrame(data: seq<byte>, data': seq<byte>, n: nat)
    requires FrameLength(data) == Some(n) && n <= |data'| && data'[..HEADER] == data[..HEADER]
    ensures FrameLength(data') == Some(n)
  {
  }

  lemma JoinFirstFrame<Msg>(codec: Codec<Msg>, data: seq<byte>, n: nat, k: nat, tail: seq<byte>, count: nat, m: Msg, rest: seq<Msg>)
    requires HEADER <= n && n + k <= |data| && FrameLength(data) == Some(n) && Deserialize(codec, data[..n]) == Some(m)
    requires count > 0 && ReadFrames(codec, data[n..][..k] + tail, count - 1) == Some(rest)
    ensures ReadFrames(codec, data[..n + k] + tail, count) == Some([m] + rest)
  {
    CutBehind(data, n, k, tail);
    SameFirstFrame(data, data[..n + k] + tail, n);
    ReadFirst(codec, data[..n + k] + tail, n, count, m, rest);
  }

  lemma SplitLength(data: seq<byte>, count: nat, len: nat, n: nat) returns (k: nat)
    requires count > 0 && n <= |data| && FrameLength(data) == Some(n) && FramesLength(data, count) == Some(len)
    ensures len == n + k && FramesLength(data[n..], count - 1) == Some(k)
  {
    LengthOfFirst(data, count, n);
    k := FramesLength(data[n..], count - 1).value;
  }

  lemma LengthInside(data: seq<byte>, count: nat, len: nat)
    requires FramesLength(data, count) == Some(len)
    ensures len <= |data|
  {
  }

  /** The messages are read from so many bytes, whatever is behind them. */
  ghost predicate ReadsPrefix<Msg>(codec: Codec<Msg>, data: seq<byte>, count: nat, tail: seq<byte>, len: nat, ms: seq<Msg>) {
    len <= |data| && ReadFrames(codec, data[..len] + tail, count) == Some(ms)
  }

  lemma PrefixOfFirst<Msg>(codec: Codec<Msg>, data: seq<byte>, n: nat, k: nat, tail: seq<byte>, count: nat, ms: seq<Msg>)
    requires HEADER <= n <= |data| && FrameLength(data) == Some(n) && |ms| == count > 0
    requires Deserialize(codec, data[..n]) == Some(ms[0]) && ReadsPrefix(codec, data[n..], count - 1, tail, k, ms[1..])
    ensures ReadsPrefix(codec, data, count, tail, n + k, ms)
  {
    JoinFirstFrame(codec, data, n, k, tail, count, ms[0], ms[1..]);
    assert ms == [ms[0]] + ms[1..];
  }

  /** Frames that were read lie inside the data, and only their bytes matter. */
  lemma {:induction false} FramesIgnoreRest<Msg>(codec: Codec<Msg>, data: seq<byte>, count: nat, tail: seq<byte>, len: nat, ms: seq<Msg>)
    requires ReadFrames(codec, data, count) == Some(ms) && FramesLength(data, count) == Some(len)
    ensures ReadsPrefix(codec, data, count, tail, len, ms)
    decreases count
  {
    LengthInside(data, count, len);
    if count > 0 {
      var n := FirstRead(codec, data, count, ms);
      var k := SplitLength(data, count, len, n);
      FramesIgnoreRest(codec, data[n..], count - 1, tail, k, ms[1..]);
      PrefixOfFirst(codec, data, n, k, tail, count, ms);
    }
  }

  lemma CutInside(data: seq<byte>, n: nat, k: nat)
    requires n <= k <= |data|
    ensures data[..k][..n] == data[..n] && data[..k][n..] == data[n..][..k - n]
  {
  }

  /** And all of them matter: frames cut anywhere before the last one ends are refused. */
  lemma {:induction false} CutFramesAreRefused<Msg>(codec: Codec<Msg>, data: seq<byte>, count: nat, k: nat)
    requires FramesLength(data, count).Some? && k < FramesLength(data, count).value
    ensures ReadFrames(codec, data[..k], count) == None
    decreases count
  {
    if count > 0 && HEADER <= k {
      var n := FrameLength(data).value;
      CutInside(data, HEADER, k);
      if n <= k {
        CutInside(data, n, k);
        CutFramesAreRefused(codec, data[n..], count - 1, k - n);
      }
    }
  }

  /** The bytes that a batch takes: its count and its frames. */
  function BatchLength(data: seq<byte>): (n: Option<nat>)
    ensures n.Some? ==> HEADER <= n.value <= |data|
  {
    if |data| < HEADER then None
    else
      match FramesLength(data[HEADER..], ReadLittle(data[..HEADER]))
      case None => None
      case Some(k) => Some(HEADER + k)
  }

  lemma BehindHeader(data: seq<byte>, k: nat, tail: seq<byte>)
    requires HEADER + k <= |data|
    ensures var data' := data[..HEADER + k] + tail;
            |data'| >= HEADER && data'[..HEADER] == data[..HEADER] && data'[HEADER..] == data[HEADER..][..k] + tail
  {
  }

  /**
   On any input, a batch that is accepted consumes its header and its frames, all inside the data,
   and nothing else: with any other bytes behind them the answer is the same.
   */
  lemma OnlyFramesMatter<Msg>(codec: Codec<Msg>, data: seq<byte>, tail: seq<byte>)
    requires DeserializeBatchOf(codec, data).Some?
    ensures BatchLength(data).Some?
    ensures DeserializeBatchOf(codec, data[..BatchLength(data).value] + tail) == DeserializeBatchOf(codec, data)
  {
    var count := ReadLittle(data[..HEADER]);
    var ms := DeserializeBatchOf(codec, data).value;
    ReadHasLength(codec, data[HEADER..], count, ms);
    var len := FramesLength(data[HEADER..], count).value;
    FramesIgnoreRest(codec, data[HEADER..], count, tail, len, ms);
    BehindHeader(data, len, tail);
  }

  /** A batch cut anywhere before its last frame ends is refused. */
  lemma CutBatchIsRefused<Msg>(codec: Codec<Msg>, data: seq<byte>, k: nat)
    requires BatchLength(data).Some? && k < BatchLength(data).value
    ensures DeserializeBatchOf(codec, data[..k]) == None
  {
    if k >= HEADER {
      var count := ReadLittle(data[..HEADER]);
      CutInside(data, HEADER, k);
      CutFramesAreRefused(codec, data[HEADER..], count, k - HEADER);
    }
  }
}
