/**
 internal/network/kcp_channel.go: Send reads the newest sequence and then the mask while the receive
 loop may be updating them; neither holds a lock. An arrival writes the mask first and the newest
 sequence after it.
 */
module TornStamp {
  import opened Common
  import opened AckWindow

  datatype State = State(
    newest: uint32,               // receiveSequence
    bits: Mask,                   // ackBits
    seen: seq<uint32>,            // the arrivals, including one whose newest sequence is still to be written
    writing: bool,                // the receive loop is between its two writes
    read: Option<uint32>)         // what Send has read as the newest sequence

  const INIT := State(0, NoBits(), [], false, None)

  datatype Step =
    | WriteBits(x: uint32)        // an arrival; one that is not newer writes nothing else
    | WriteNewest
    | ReadNewest
    | ReadBits                    // completes the stamp

  function Next(s: State, step: Step): (s': State) {
    match step
    case WriteBits(x) =>
      if s.writing then s
      else s.(bits := Update(Window(s.newest, s.bits), x).bits, seen := s.seen + [x], writing := x > s.newest)
    case WriteNewest =>
      if s.writing && s.seen != [] then s.(newest := s.seen[|s.seen| - 1], writing := false) else s
    case ReadNewest => s.(read := Some(s.newest))
    case ReadBits => s.(read := None)
  }

  function After(steps: seq<Step>): (s: State) {
    if steps == [] then INIT else Next(After(steps[..|steps| - 1]), steps[|steps| - 1])
  }

  /** The window before the arrival that is being written. */
  ghost function Settled(s: State): (arrivals: seq<uint32>) {
    if s.writing && s.seen != [] then s.seen[..|s.seen| - 1] else s.seen
  }

  /** The mask is that of all arrivals, the newest sequence that of the arrivals written completely. */
  ghost predicate Inv(s: State) {
    && (s.writing ==> s.seen != [] && s.seen[|s.seen| - 1] > s.newest)
    && s.newest == AckWindow.After(Settled(s)).newest
    && s.bits == AckWindow.After(s.seen).bits
    && (s.read.Some? ==> s.read.value as int in Received(s.seen) && s.read.value <= s.newest)
  }

  lemma NextInv(s: State, step: Step)
    requires Inv(s)
    ensures Inv(Next(s, step))
  {
    match step
    case WriteBits(x) => WriteBitsInv(s, x);
    case WriteNewest => WriteNewestInv(s);
    case ReadNewest => AfterDescribes(Settled(s));
    case ReadBits =>
  }

  lemma WriteBitsInv(s: State, x: uint32)
    requires Inv(s)
    ensures Inv(Next(s, WriteBits(x)))
  {
    if !s.writing {
      AfterOne(s.seen, x);
      assert (s.seen + [x])[..|s.seen|] == s.seen;
    }
  }

  lemma WriteNewestInv(s: State)
    requires Inv(s)
    ensures Inv(Next(s, WriteNewest))
  {
    if s.writing {
      var front, x := s.seen[..|s.seen| - 1], s.seen[|s.seen| - 1];
      AfterOne(front, x);
      assert front + [x] == s.seen;
    }
  }

  lemma {:induction false} RunInv(steps: seq<Step>)
    ensures Inv(After(steps))
  {
    if steps != [] {
      RunInv(steps[..|steps| - 1]);
      NextInv(After(steps[..|steps| - 1]), steps[|steps| - 1]);
    }
  }

  /** The stamp that a read of the mask would complete acknowledges a sequence that never arrived. */
  ghost predicate FalseAt(s: State, x: int)
    requires s.read.Some?
  {
    Acked(Window(s.read.value, s.bits), x) && x !in Received(s.seen)
  }

  ghost predicate AcksFalsely(s: State)
    requires s.read.Some?
  {
    exists x: int :: FalseAt(s, x)
  }

  /** How far the newest sequence of the mask is ahead of the one that was read. */
  ghost function Lag(s: State): (d: int)
    requires s.read.Some?
  {
    AckWindow.After(s.seen).newest - s.read.value
  }

  /** The mask acknowledges, besides its newest sequence, one whose number less d never arrived. */
  ghost predicate ShiftedAt(s: State, d: int, y: int) {
    var w := AckWindow.After(s.seen);
    y < w.newest && Acked(w, y) && y - d !in Received(s.seen)
  }

  ghost predicate ShiftedFalsely(s: State, d: int) {
    exists y: int :: ShiftedAt(s, d, y)
  }

  lemma StampShifted(s: State, x: int)
    requires Inv(s) && s.read.Some? && x < s.read.value
    ensures Acked(Window(s.read.value, s.bits), x) <==> Acked(AckWindow.After(s.seen), x + Lag(s))
  {
  }

  lemma FalseIsShifted(s: State, x: int)
    requires Inv(s) && s.read.Some?
    ensures FalseAt(s, x) <==> ShiftedAt(s, Lag(s), x + Lag(s))
  {
    if x < s.read.value {
      StampShifted(s, x);
    }
  }

  lemma LagIsNatural(s: State)
    requires Inv(s) && s.read.Some?
    ensures Lag(s) >= 0
  {
    AfterDescribes(s.seen);
  }

  lemma UnshiftedIsReceived(s: State, y: int)
    ensures !ShiftedAt(s, 0, y)
  {
    AcksAreReceipts(s.seen, y);
  }

  /**
   In every run, a stamp acknowledges falsely exactly when an arrival newer than the sequence read came
   in between, and the mask, read as counting back from the older sequence, points at one that never
   arrived: an acknowledged sequence less the lag was not received.
   */
  lemma TornExactly(steps: seq<Step>)
    requires After(steps).read.Some?
    ensures var s := After(steps);
            Lag(s) >= 0 && (AcksFalsely(s) <==> Lag(s) > 0 && ShiftedFalsely(s, Lag(s)))
  {
    RunInv(steps);
    TornState(After(steps));
  }

  lemma TornState(s: State)
    requires Inv(s) && s.read.Some?
    ensures Lag(s) >= 0 && (AcksFalsely(s) <==> Lag(s) > 0 && ShiftedFalsely(s, Lag(s)))
  {
    LagIsNatural(s);
    if x :| FalseAt(s, x) {
      FalseThenShifted(s, x);
    } else if y :| ShiftedAt(s, Lag(s), y) {
      ShiftedThenFalse(s, y);
    }
  }

  lemma FalseThenShifted(s: State, x: int)
    requires Inv(s) && s.read.Some? && FalseAt(s, x)
    ensures Lag(s) != 0 && ShiftedFalsely(s, Lag(s))
  {
    FalseIsShifted(s, x);
    UnshiftedIsReceived(s, x);
    assert ShiftedAt(s, Lag(s), x + Lag(s));
  }

  lemma ShiftedThenFalse(s: State, y: int)
    requires Inv(s) && s.read.Some? && ShiftedAt(s, Lag(s), y)
    ensures AcksFalsely(s)
  {
    FalseIsShifted(s, y - Lag(s));
    assert FalseAt(s, y - Lag(s));
  }

  /** Without a newer arrival between the two reads a stamp acknowledges receipts only. */
  lemma UntornIsSound(steps: seq<Step>)
    requires After(steps).read.Some? && Lag(After(steps)) == 0
    ensures !AcksFalsely(After(steps))
  {
    TornExactly(steps);
  }

  lemma Extended(steps: seq<Step>, step: Step) returns (longer: seq<Step>)
    ensures After(longer) == Next(After(steps), step)
  {
    longer := steps + [step];
    assert longer[..|steps|] == steps;
  }

  lemma FirstArrival(x: uint32) returns (steps: seq<Step>)
    requires x > 0
    ensures var s := After(steps); s.newest == x && s.seen == [x] && !s.writing && s.bits == Update(Window(0, NoBits()), x).bits
  {
    assert After([]) == INIT;
    steps := Extended([], WriteBits(x));
    steps := Extended(steps, WriteNewest);
  }

  /** Sequence 10 arrives, Send reads it, the mask of arrival 12 is written, and 8 is acknowledged. */
  lemma TornStampAcksFalsely() returns (steps: seq<Step>)
    ensures var s := After(steps); s.seen == [10, 12] && s.read == Some(10) && AcksFalsely(s)
  {
    steps := FirstArrival(10);
    steps := Extended(steps, ReadNewest);
    var c := After(steps);
    steps := Extended(steps, WriteBits(12));
    var d := After(steps);
    assert d.bits == Update(Window(10, c.bits), 12).bits && d.bits[1];
    assert FalseAt(d, 8);
  }
}
