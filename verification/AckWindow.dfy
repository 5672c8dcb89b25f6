/**
 internal/network/kcp_channel.go: the acknowledgement window of a KCP channel, the newest
 received sequence and a 32-bit mask of the ones before it. Sequences are plain uint32
 values; the code has no wrap-around rule. Sequence 0, which is never sent first, counts
 as received from the start.
 */
module AckWindow {
  import opened Common

  type uint32 = n: int | 0 <= n < 0x1_0000_0000

  /** A 32-bit mask, bit 0 first. */
  type Mask = m: seq<bool> | |m| == 32 witness seq(32, _ => false)

  function NoBits(): (m: Mask)
    ensures forall i :: 0 <= i < 32 ==> !m[i]
  {
    seq(32, _ => false)
  }

  /** Go's `m << s`. */
  function ShiftLeft(m: Mask, s: nat): (r: Mask) {
    seq(32, i requires 0 <= i < 32 => i >= s && m[i - s])
  }

  /** Go's `m | 1 << j`. */
  function Mark(m: Mask, j: nat): (r: Mask)
    requires j < 32
  {
    m[j := true]
  }

  datatype Window = Window(newest: uint32, bits: Mask)

  /** The window after one arrival. */
  function Update(w: Window, sequence: uint32): (w': Window) {
    if sequence > w.newest then
      var shift := sequence - w.newest;
      Window(sequence, if shift < 32 then Mark(ShiftLeft(w.bits, shift), shift - 1) else NoBits())
    else if sequence < w.newest then
      var diff := w.newest - sequence;
      if diff < 32 then Window(w.newest, Mark(w.bits, diff - 1)) else w
    else w
  }

  /** The window after any sequence of arrivals: lost, repeated or out of order. */
  function After(arrivals: seq<uint32>): (w: Window) {
    if arrivals == [] then Window(0, NoBits()) else Update(After(arrivals[..|arrivals| - 1]), arrivals[|arrivals| - 1])
  }

  ghost function Received(arrivals: seq<uint32>): (r: set<int>) {
    {0} + set x | x in arrivals
  }

  lemma AfterOne(arrivals: seq<uint32>, x: uint32)
    ensures After(arrivals + [x]) == Update(After(arrivals), x)
  {
    assert (arrivals + [x])[..|arrivals|] == arrivals;
  }

  // ----- what the window knows -----

  /** Bit i is right: bits 0..30 are set exactly for received sequences, bit 31 only for received ones. */
  ghost predicate BitRight(w: Window, received: set<int>, i: nat)
    requires i < 32
  {
    var known := w.newest - 1 - i in received;
    if i < 31 then w.bits[i] <==> known else w.bits[i] ==> known
  }

  /** The newest received, exact bits 0..30, and a bit 31 that is never set falsely. */
  ghost predicate Describes(w: Window, received: set<int>) {
    && w.newest in received
    && (forall x <- received :: 0 <= x <= w.newest)
    && (forall i: nat :: i < 32 ==> BitRight(w, received, i))
  }

  lemma UpdateDescribes(w: Window, received: set<int>, x: uint32)
    requires Describes(w, received)
    ensures Describes(Update(w, x), received + {x})
  {
    var w' := Update(w, x);
    forall i: nat | i < 32
      ensures BitRight(w', received + {x}, i)
    {
      assert BitRight(w, received, i);
      if i >= x - w.newest > 0 {
        assert BitRight(w, received, i - (x - w.newest));
      }
    }
  }

  lemma {:induction false} AfterDescribes(arrivals: seq<uint32>)
    ensures Describes(After(arrivals), Received(arrivals))
  {
    if arrivals != [] {
      var front, x := arrivals[..|arrivals| - 1], arrivals[|arrivals| - 1];
      AfterDescribes(front);
      assert Received(arrivals) == Received(front) + {x};
      UpdateDescribes(After(front), Received(front), x);
    }
  }

  // ----- what the peer reads -----

  /** The sequences a peer takes as acknowledged. */
  predicate Acked(w: Window, x: int) {
    x == w.newest || (0 <= w.newest - 1 - x < 32 && w.bits[w.newest - 1 - x])
  }

  /**
   Whatever the order of arrivals, nothing is acknowledged that was not received, and every
   received sequence at most 31 behind the newest is acknowledged.
   */
  lemma AcksAreReceipts(arrivals: seq<uint32>, x: int)
    ensures var w := After(arrivals);
            && (Acked(w, x) ==> x in Received(arrivals))
            && (x in Received(arrivals) ==> x <= w.newest)
            && (x >= w.newest - 31 ==> (Acked(w, x) <==> x in Received(arrivals)))
  {
    AfterDescribes(arrivals);
    var w := After(arrivals);
    if 0 <= w.newest - 1 - x < 32 {
      assert BitRight(w, Received(arrivals), w.newest - 1 - x);
    }
  }

  lemma SameDescription(a: Window, b: Window, received: set<int>)
    requires Describes(a, received) && Describes(b, received)
    ensures a.newest == b.newest && a.bits[..31] == b.bits[..31]
  {
    forall i: nat | i < 31
      ensures a.bits[i] == b.bits[i]
    {
      assert BitRight(a, received, i) && BitRight(b, received, i);
    }
  }

  /** The newest sequence and the first 31 bits depend only on which sequences were received. */
  lemma OrderDoesNotMatter(a: seq<uint32>, b: seq<uint32>)
    requires Received(a) == Received(b)
    ensures After(a).newest == After(b).newest
    ensures After(a).bits[..31] == After(b).bits[..31]
  {
    AfterDescribes(a);
    AfterDescribes(b);
    SameDescription(After(a), After(b), Received(a));
  }

  /** Bit 31 can depend on the order: the same four sequences, with and without their oldest acknowledged. */
  lemma TopBitDependsOnOrder()
    ensures Received([1, 2, 33]) == Received([33, 1, 2])
    ensures After([1, 2, 33]).bits[31] && !After([33, 1, 2]).bits[31]
  {
    var a: seq<uint32>, b: seq<uint32> := [1, 2, 33], [33, 1, 2];
    assert a[..2] == [1, 2] && a[..2][..1] == [1] && a[..2][..1][..0] == [];
    assert b[..2] == [33, 1] && b[..2][..1] == [33] && b[..2][..1][..0] == [];
    assert After([1]) == Update(Window(0, NoBits()), 1);
    assert After([1, 2]) == Update(After([1]), 2);
    assert After([33]) == Update(Window(0, NoBits()), 33);
    assert After([33, 1]) == Update(After([33]), 1);
  }

  /** The arrival at j brought the newest sequence. */
  ghost predicate BringsNewest(arrivals: seq<uint32>, j: nat) {
    && j < |arrivals|
    && (forall k :: 0 <= k < j ==> arrivals[k] < arrivals[j])
    && (forall k :: j <= k < |arrivals| ==> arrivals[k] <= arrivals[j])
    && arrivals[j] > 0
  }

  /** The arrival of the newest sequence decides bit 31. */
  lemma TopBitAtAdvance(w: Window, received: set<int>, x: uint32)
    requires Describes(w, received) && x > w.newest
    ensures Update(w, x).bits[31] <==> x as int - 32 in received && w.newest as int > x as int - 32
  {
    var shift := x - w.newest;
    if shift < 32 {
      assert BitRight(w, received, 31 - shift);
    }
  }

  /**
   Exactly when bit 31 is set: the sequence 32 behind the newest was received before the
   newest one arrived, and was not itself the newest at that moment.
   */
  lemma {:induction false} TopBitExact(arrivals: seq<uint32>, j: nat)
    requires BringsNewest(arrivals, j)
    ensures var oldest: int := arrivals[j] as int - 32;
            var before := Received(arrivals[..j]);
            After(arrivals).bits[31] <==> oldest in before && exists q :: q in before && q > oldest
  {
    var front, x := arrivals[..|arrivals| - 1], arrivals[|arrivals| - 1];
    var w := After(front);
    AfterDescribes(front);
    if j == |arrivals| - 1 {
      assert arrivals[..j] == front;
      TopBitAtAdvance(w, Received(front), x);
    } else {
      assert front[..j] == arrivals[..j] && front[j] == arrivals[j];
      TopBitExact(front, j);
      assert arrivals[j] in Received(front);
    }
  }

  // ----- the machine word -----

  predicate Bit(m: bv32, i: nat)
    requires i < 32
  {
    (m >> i) & 1 == 1
  }

  ghost function ToMask(m: bv32): (mask: Mask) {
    seq(32, i requires 0 <= i < 32 => Bit(m, i))
  }

  lemma ShiftBitVector(m: bv32, s: bv6, i: bv6)
    requires s < 32 && i < 32
    ensures ((m << s) >> i) & 1 == 1 <==> i >= s && (m >> (i - s)) & 1 == 1
  {
  }

  lemma SetBitVector(m: bv32, s: bv6, i: bv6)
    requires s < 32 && i < 32
    ensures ((m | (1 << s)) >> i) & 1 == 1 <==> (m >> i) & 1 == 1 || i == s
  {
  }

  /** Small numbers and their bit vectors count alike. */
  lemma IndexStep(i: nat)
    requires 0 < i < 32
    ensures i as bv6 == (i - 1) as bv6 + 1 && (i - 1) as bv6 < 31
  {
    assert i == 1 || i == 2 || i == 3 || i == 4 || i == 5 || i == 6 || i == 7 || i == 8 || i == 9 || i == 10 || i == 11
        || i == 12 || i == 13 || i == 14 || i == 15 || i == 16 || i == 17 || i == 18 || i == 19 || i == 20 || i == 21
        || i == 22 || i == 23 || i == 24 || i == 25 || i == 26 || i == 27 || i == 28 || i == 29 || i == 30 || i == 31;
  }

  lemma {:induction false} IndexOrder(s: nat, i: nat)
    requires s <= i < 32
    ensures s as bv6 <= i as bv6 < 32 && (s < i ==> s as bv6 < i as bv6)
    ensures (i - s) as bv6 == i as bv6 - s as bv6
    decreases i - s
  {
    if s < i {
      IndexStep(i);
      IndexOrder(s, i - 1);
      IndexStep(i - s);
    } else if i > 0 {
      IndexStep(i);
    }
  }

  lemma IndexCompare(s: nat, i: nat)
    requires s < 32 && i < 32
    ensures i >= s <==> i as bv6 >= s as bv6
    ensures i >= s ==> (i - s) as bv6 == i as bv6 - s as bv6
  {
    if s <= i {
      IndexOrder(s, i);
    } else {
      IndexOrder(i, s);
    }
  }

  lemma ShiftBit(m: bv32, s: nat, i: nat)
    requires s < 32 && i < 32
    ensures Bit(m << s, i) <==> i >= s && Bit(m, i - s)
  {
    ShiftBitVector(m, s as bv6, i as bv6);
    IndexCompare(s, i);
  }

  lemma SetBit(m: bv32, j: nat, i: nat)
    requires j < 32 && i < 32
    ensures Bit(m | (1 << j), i) <==> Bit(m, i) || i == j
  {
    SetBitVector(m, j as bv6, i as bv6);
    IndexCompare(j, i);
    IndexCompare(i, j);
  }

  lemma ZeroBit(i: nat)
    requires i < 32
    ensures !Bit(0, i)
  {
  }

  /** The word operations of the code are the mask operations of the window. */
  lemma WordOperations(m: bv32, s: nat)
    requires s < 32
    ensures ToMask(m << s) == ShiftLeft(ToMask(m), s)
    ensures ToMask(m | (1 << s)) == Mark(ToMask(m), s)
    ensures ToMask(0) == NoBits()
  {
    forall i: nat | i < 32
      ensures ToMask(m << s)[i] == ShiftLeft(ToMask(m), s)[i]
      ensures ToMask(m | (1 << s))[i] == Mark(ToMask(m), s)[i]
      ensures !ToMask(0)[i]
    {
      ShiftBit(m, s, i);
      SetBit(m, s, i);
      ZeroBit(i);
    }
  }

  method ShiftIn(word: bv32, shift: nat) returns (r: bv32)
    requires shift < 32
    ensures ToMask(r) == ShiftLeft(ToMask(word), shift)
  {
    WordOperations(word, shift);
    r := word << shift;
  }

  method SetIn(word: bv32, j: nat) returns (r: bv32)
    requires j < 32
    ensures ToMask(r) == Mark(ToMask(word), j)
  {
    WordOperations(word, j);
    r := word | (1 << j);
  }

  method Cleared() returns (r: bv32)
    ensures ToMask(r) == NoBits()
  {
    r := 0;
    WordOperations(r, 0);
  }

  // ----- the channel -----

  /** The sequence fields a message carries. */
  datatype Stamp = Stamp(sequence: uint32, ack: uint32, ackBits: bv32)

  class KCPChannel {
    var sendSequence: uint32
    var receiveSequence: uint32
    var ackBits: bv32
    ghost var arrivals: seq<uint32>

    constructor ()
      ensures Valid() && arrivals == [] && sendSequence == 0
    {
      var word := Cleared();
      sendSequence, receiveSequence, ackBits, arrivals := 0, 0, word, [];
    }

    /** The fields are the window of everything that arrived. */
    ghost predicate Valid()
      reads this
    {
      Window(receiveSequence, ToMask(ackBits)) == After(arrivals)
    }

    method UpdateAckBits(sequence: uint32)
      requires Valid()
      modifies `receiveSequence, `ackBits, `arrivals
      ensures Valid() && arrivals == old(arrivals) + [sequence]
    {
      if sequence > receiveSequence {
        var shift := sequence - receiveSequence;
        if shift < 32 {
          ackBits := ShiftIn(ackBits, shift);
          ackBits := SetIn(ackBits, shift - 1);
        } else {
          ackBits := Cleared();
        }
        receiveSequence := sequence;
      } else if sequence < receiveSequence {
        var diff := receiveSequence - sequence;
        if diff < 32 {
          ackBits := SetIn(ackBits, diff - 1);
        }
      }
      arrivals := arrivals + [sequence];
      AfterOne(old(arrivals), sequence);
    }

    /**
     Stamps an outgoing message: the next sequence, and acknowledgements of receipts only. A channel
     that is not connected refuses and changes nothing.
     */
    method Send(connected: bool) returns (stamp: Option<Stamp>)
      requires Valid()
      modifies `sendSequence
      ensures stamp.Some? <==> connected
      ensures stamp.None? ==> sendSequence == old(sendSequence)
      ensures stamp.Some? ==> sendSequence == (old(sendSequence) + 1) % 0x1_0000_0000 == stamp.value.sequence
      ensures stamp.Some? ==>
                var w := Window(stamp.value.ack, ToMask(stamp.value.ackBits));
                && (forall x: int :: Acked(w, x) ==> x in Received(arrivals))
                && (forall x <- Received(arrivals) :: x >= w.newest - 31 ==> Acked(w, x))
    {
      if !connected {
        return None;
      }
      sendSequence := (sendSequence + 1) % 0x1_0000_0000;
      stamp := Some(Stamp(sendSequence, receiveSequence, ackBits));
      forall x: int {
        AcksAreReceipts(arrivals, x);
      }
    }
  }
}
