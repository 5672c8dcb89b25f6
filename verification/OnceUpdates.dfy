/**
 internal/world/bigchunk.go: blocks scheduled for a single update. A tick phase takes a snapshot
 of the scheduled positions, clears the schedule, and visits the snapshot; updates and other
 goroutines may schedule positions meanwhile.
 */
module OnceUpdates {
  import opened Common
  import opened Grid

  type Chunks = map<Vec2, map<Vec2, nat>>

  /** What a block's TickUpdate does: new chunk contents, and positions it schedules. */
  datatype Effect = Effect(chunks: Chunks, scheduled: set<Vec2>)

  /** One visit: the chunks as found, whether TickUpdate was called, and its effect. */
  datatype Turn = Turn(pos: Vec2, found: Chunks, ticked: bool, effect: Effect)

  function Members(ps: seq<Vec2>): (r: set<Vec2>) {
    set p | p in ps
  }

  /** A duplicate-free listing of a set. */
  ghost predicate Lists(ps: seq<Vec2>, s: set<Vec2>) {
    Distinct(ps) && Members(ps) == s
  }

  function Positions(turns: seq<Turn>): (ps: seq<Vec2>)
    ensures |ps| == |turns| && forall i | 0 <= i < |ps| :: ps[i] == turns[i].pos
  {
    seq(|turns|, i requires 0 <= i < |turns| => turns[i].pos)
  }

  /** Loaded and with a registered behaviour. */
  predicate Ready(chunks: Chunks, registered: nat -> bool, pos: Vec2) {
    ToChunkCoords(pos) in chunks && registered(BlockId(chunks[ToChunkCoords(pos)], LocalInChunk(pos)))
  }

  function BlockId(chunk: map<Vec2, nat>, local: Vec2): (id: nat) {
    if local in chunk then chunk[local] else 0
  }

  /** A turn that finds the given chunks, and ticks exactly when the block is ready. */
  ghost predicate Follows(turn: Turn, found: Chunks, registered: nat -> bool, tick: (Chunks, Vec2) -> Effect) {
    && turn.found == found
    && turn.ticked == Ready(found, registered, turn.pos)
    && turn.effect == if turn.ticked then tick(found, turn.pos) else Effect(found, {})
  }

  /** Each turn finds the chunks as the turn before left them. */
  ghost predicate Chained(turns: seq<Turn>, start: Chunks, registered: nat -> bool, tick: (Chunks, Vec2) -> Effect) {
    forall i | 0 <= i < |turns| :: Follows(turns[i], Left(turns[..i], start), registered, tick)
  }

  function Scheduled(turns: seq<Turn>): (r: set<Vec2>) {
    set i, p | 0 <= i < |turns| && p in turns[i].effect.scheduled :: p
  }

  function Left(turns: seq<Turn>, start: Chunks): (r: Chunks) {
    if turns == [] then start else turns[|turns| - 1].effect.chunks
  }

  // ----- the object -----

  class BigChunk {
    var chunks: Chunks
    var onceTickables: set<Vec2>

    constructor (chunks: Chunks)
      ensures this.chunks == chunks && onceTickables == {}
    {
      this.chunks := chunks;
      onceTickables := {};
    }

    method AddOnceTickable(pos: Vec2)
      modifies this`onceTickables
      ensures onceTickables == old(onceTickables) + {pos}
    {
      onceTickables := onceTickables + {pos};
    }

    /** Copies the schedule, in whatever order the map yields it, and clears it. */
    method TakeOnce() returns (blocks: seq<Vec2>)
      modifies this`onceTickables
      ensures Lists(blocks, old(onceTickables)) && onceTickables == {}
    {
      blocks := [];
      var left := onceTickables;
      while left != {}
        invariant Distinct(blocks) && left <= onceTickables && Members(blocks) == onceTickables - left
      {
        var pos :| pos in left;
        assert pos !in Members(blocks);
        assert Members(blocks + [pos]) == Members(blocks) + {pos};
        blocks := blocks + [pos];
        left := left - {pos};
      }
      onceTickables := {};
    }

    /**
     Each scheduled position has exactly one turn, and is ticked in it exactly when its block is
     ready then; what the updates schedule is left for the next phase, visited before or not.
     */
    method UpdateOnceBlocks(registered: nat -> bool, tick: (Chunks, Vec2) -> Effect) returns (turns: seq<Turn>)
      modifies this
      ensures Lists(Positions(turns), old(onceTickables))
      ensures Chained(turns, old(chunks), registered, tick)
      ensures chunks == Left(turns, old(chunks)) && onceTickables == Scheduled(turns)
      ensures forall i | 0 <= i < |turns| :: TicksExactly(turns[i], registered)
    {
      ghost var start := chunks;
      var blocks := TakeOnce();
      turns := [];
      for i := 0 to |blocks|
        invariant Positions(turns) == blocks[..i]
        invariant Chained(turns, start, registered, tick)
        invariant chunks == Left(turns, start) && onceTickables == Scheduled(turns)
      {
        var pos := blocks[i];
        var ready := Ready(chunks, registered, pos);
        var effect := if ready then tick(chunks, pos) else Effect(chunks, {});
        var turn := Turn(pos, chunks, ready, effect);
        TurnAppended(turns, turn, start, registered, tick);
        Snoc(blocks, i);
        chunks := effect.chunks;
        onceTickables := onceTickables + effect.scheduled;
        turns := turns + [turn];
      }
      assert blocks[..|blocks|] == blocks;
      forall i | 0 <= i < |turns| ensures TicksExactly(turns[i], registered) {
        TickMeans(turns, i, start, registered, tick);
      }
    }
  }

  /** The block was updated exactly when its chunk was loaded and the behaviour of its id registered. */
  ghost predicate TicksExactly(turn: Turn, registered: nat -> bool) {
    var chunk, local := ToChunkCoords(turn.pos), LocalInChunk(turn.pos);
    turn.ticked <==>
      chunk in turn.found && registered(if local in turn.found[chunk] then turn.found[chunk][local] else 0)
  }

  lemma TickMeans(turns: seq<Turn>, i: nat, start: Chunks, registered: nat -> bool, tick: (Chunks, Vec2) -> Effect)
    requires Chained(turns, start, registered, tick) && i < |turns|
    ensures TicksExactly(turns[i], registered)
    ensures turns[i].ticked ==> turns[i].effect == tick(turns[i].found, turns[i].pos)
    ensures !turns[i].ticked ==> turns[i].effect.chunks == turns[i].found && turns[i].effect.scheduled == {}
  {
    assert Follows(turns[i], Left(turns[..i], start), registered, tick);
  }

  /** A position is in the next schedule exactly when an update of this phase scheduled it. */
  lemma ScheduledExactly(turns: seq<Turn>, p: Vec2)
    ensures p in Scheduled(turns) <==> exists i :: 0 <= i < |turns| && p in turns[i].effect.scheduled
  {
  }

  lemma Snoc(ps: seq<Vec2>, i: nat)
    requires i < |ps|
    ensures ps[..i + 1] == ps[..i] + [ps[i]]
  {
  }

  lemma ScheduledMore(turns: seq<Turn>, turn: Turn)
    ensures Scheduled(turns + [turn]) == Scheduled(turns) + turn.effect.scheduled
  {
    var all := turns + [turn];
    forall p | p in Scheduled(turns) + turn.effect.scheduled ensures p in Scheduled(all) {
      if p in turn.effect.scheduled {
        assert p in all[|turns|].effect.scheduled;
      } else {
        var i :| 0 <= i < |turns| && p in turns[i].effect.scheduled;
        assert p in all[i].effect.scheduled;
      }
    }
  }

  lemma TurnAppended(turns: seq<Turn>, turn: Turn, start: Chunks, registered: nat -> bool, tick: (Chunks, Vec2) -> Effect)
    requires Chained(turns, start, registered, tick)
    requires Follows(turn, Left(turns, start), registered, tick)
    ensures Chained(turns + [turn], start, registered, tick)
    ensures Left(turns + [turn], start) == turn.effect.chunks
    ensures Scheduled(turns + [turn]) == Scheduled(turns) + turn.effect.scheduled
    ensures Positions(turns + [turn]) == Positions(turns) + [turn.pos]
  {
    var all := turns + [turn];
    forall i | 0 <= i < |all| ensures Follows(all[i], Left(all[..i], start), registered, tick) {
      assert all[..i] == turns[..i];
      if i < |turns| {
        assert Follows(turns[i], Left(turns[..i], start), registered, tick);
      } else {
        assert turns[..i] == turns;
      }
    }
    ScheduledMore(turns, turn);
  }

  // ----- interleavings -----

  /** Anyone may request a position at any time, also during a phase. */
  datatype Step = Request(pos: Vec2) | Snapshot(order: seq<Vec2>) | Visit

  datatype State = State(once: set<Vec2>, todo: seq<Vec2>)

  ghost predicate Enabled(s: State, step: Step) {
    match step
    case Request(_) => true
    case Snapshot(order) => s.todo == [] && Lists(order, s.once)
    case Visit => s.todo != []
  }

  function Next(s: State, step: Step): (s': State) {
    match step
    case Request(p) => s.(once := s.once + {p})
    case Snapshot(order) => State({}, order)
    case Visit => if s.todo == [] then s else s.(todo := s.todo[1..])
  }

  function After(run: seq<Step>): (s: State) {
    if run == [] then State({}, []) else Next(After(run[..|run| - 1]), run[|run| - 1])
  }

  ghost predicate Run(run: seq<Step>) {
    forall i | 0 <= i < |run| :: Enabled(After(run[..i]), run[i])
  }

  /** The positions requested since the last snapshot. */
  function Requested(run: seq<Step>): (ps: set<Vec2>) {
    if run == [] then {}
    else
      match run[|run| - 1]
      case Request(p) => Requested(run[..|run| - 1]) + {p}
      case Snapshot(_) => {}
      case Visit => Requested(run[..|run| - 1])
  }

  /** The positions that had been requested when the last snapshot was taken. */
  function Served(run: seq<Step>): (ps: set<Vec2>) {
    if run == [] then {}
    else if run[|run| - 1].Snapshot? then Requested(run[..|run| - 1])
    else Served(run[..|run| - 1])
  }

  /** How often a position has been visited since the last snapshot. */
  function Visits(run: seq<Step>, p: Vec2): (n: nat) {
    if run == [] || run[|run| - 1].Snapshot? then 0
    else
      var before := run[..|run| - 1];
      Visits(before, p) + if run[|run| - 1].Visit? && After(before).todo != [] && After(before).todo[0] == p then 1 else 0
  }

  function One(b: bool): (n: nat) {
    if b then 1 else 0
  }

  lemma RunSplits(run: seq<Step>)
    requires Run(run) && run != []
    ensures Run(run[..|run| - 1]) && Enabled(After(run[..|run| - 1]), run[|run| - 1])
  {
    var before := run[..|run| - 1];
    forall i | 0 <= i < |before| ensures Enabled(After(before[..i]), before[i]) {
      assert before[..i] == run[..i] && Enabled(After(run[..i]), run[i]);
    }
  }

  /** In every run: the schedule holds what was requested since the snapshot, and visits plus what is left is what was served. */
  lemma {:induction false} VisitsAreOwed(run: seq<Step>, p: Vec2)
    requires Run(run)
    ensures After(run).once == Requested(run)
    ensures Distinct(After(run).todo)
    ensures Visits(run, p) + One(p in After(run).todo) == One(p in Served(run))
  {
    if run != [] {
      var before, step := run[..|run| - 1], run[|run| - 1];
      RunSplits(run);
      VisitsAreOwed(before, p);
      var s := After(before);
      match step
      case Request(_) =>
      case Snapshot(order) => assert p in order <==> p in Members(order);
      case Visit => assert s.todo == [s.todo[0]] + s.todo[1..];
    }
  }

  /** When a phase is over, each position was visited once if it was requested before the phase, and not otherwise. */
  lemma PhaseServesEachOnce(run: seq<Step>, p: Vec2)
    requires Run(run) && After(run).todo == []
    ensures Visits(run, p) == One(p in Served(run))
  {
    VisitsAreOwed(run, p);
  }

  /** However many requests are made meanwhile, a phase ends after as many visits as it has positions. */
  lemma {:induction false} PhaseEnds(run: seq<Step>, more: seq<Step>)
    requires Run(run + more) && forall i | 0 <= i < |more| :: !more[i].Snapshot?
    ensures |After(run + more).todo| + VisitCount(more) == |After(run).todo|
    ensures Served(run + more) == Served(run)
  {
    if more == [] {
      assert run + more == run;
    } else {
      var all, rest := run + more, more[..|more| - 1];
      RunSplits(all);
      assert all[..|all| - 1] == run + rest && all[|all| - 1] == more[|more| - 1];
      PhaseEnds(run, rest);
      StepShortens(After(run + rest), all[|all| - 1]);
    }
  }

  lemma StepShortens(s: State, step: Step)
    requires Enabled(s, step) && !step.Snapshot?
    ensures |Next(s, step).todo| + One(step.Visit?) == |s.todo|
  {
  }

  function VisitCount(steps: seq<Step>): (n: nat) {
    if steps == [] then 0 else VisitCount(steps[..|steps| - 1]) + One(steps[|steps| - 1].Visit?)
  }

  // ----- every request is served -----

  lemma RunSnoc(run: seq<Step>, step: Step)
    requires Run(run) && Enabled(After(run), step)
    ensures Run(run + [step]) && After(run + [step]) == Next(After(run), step)
    ensures Requested(run + [step]) ==
            if step.Snapshot? then {} else Requested(run) + (if step.Request? then {step.pos} else {})
    ensures Served(run + [step]) == if step.Snapshot? then Requested(run) else Served(run)
  {
    var all := run + [step];
    assert all[..|run|] == run;
    forall i | 0 <= i < |all| ensures Enabled(After(all[..i]), all[i]) {
      if i < |run| {
        assert all[..i] == run[..i] && all[i] == run[i];
      }
    }
  }

  /** The i-th step requests the position, and no phase has begun since. */
  ghost predicate Waits(run: seq<Step>, p: Vec2, i: nat) {
    i < |run| && run[i] == Request(p) && forall j | i < j < |run| :: !run[j].Snapshot?
  }

  lemma WaitsBefore(run: seq<Step>, p: Vec2, i: nat)
    requires i < |run| - 1
    ensures Waits(run, p, i) <==> Waits(run[..|run| - 1], p, i) && !run[|run| - 1].Snapshot?
  {
    var before := run[..|run| - 1];
    assert before[i] == run[i];
    if Waits(run, p, i) {
      assert forall j | i < j < |before| :: before[j] == run[j];
    }
  }

  /** A position waits for the next phase exactly when it was requested after the last snapshot. */
  lemma {:induction false} RequestedExactly(run: seq<Step>, p: Vec2)
    ensures p in Requested(run) <==> exists i :: Waits(run, p, i)
  {
    if run != [] {
      var n := |run| - 1;
      RequestedExactly(run[..n], p);
      forall i | 0 <= i < n ensures Waits(run, p, i) <==> Waits(run[..n], p, i) && !run[n].Snapshot? {
        WaitsBefore(run, p, i);
      }
      assert Waits(run, p, n) <==> run[n] == Request(p);
    }
  }

  /** In every run anyone may request any position. */
  lemma AnyoneMayRequest(run: seq<Step>, p: Vec2)
    requires Run(run)
    ensures Run(run + [Request(p)]) && After(run + [Request(p)]) == State(After(run).once + {p}, After(run).todo)
  {
    RunSnoc(run, Request(p));
  }

  /** A phase can be finished. */
  lemma {:induction false} Finished(run: seq<Step>) returns (all: seq<Step>)
    requires Run(run)
    ensures run <= all && Run(all) && After(all) == State(After(run).once, [])
    ensures Requested(all) == Requested(run) && Served(all) == Served(run)
    decreases |After(run).todo|
  {
    if After(run).todo == [] {
      all := run;
    } else {
      RunSnoc(run, Visit);
      all := Finished(run + [Visit]);
    }
  }

  lemma {:induction false} Listing(s: set<Vec2>) returns (order: seq<Vec2>)
    ensures Lists(order, s)
    decreases |s|
  {
    if s == {} {
      order := [];
    } else {
      var p :| p in s;
      var rest := Listing(s - {p});
      assert p !in Members(rest);
      order := rest + [p];
      assert Members(order) == Members(rest) + {p};
    }
  }

  /** A phase that begins now serves what is requested by now. */
  lemma NextPhase(run: seq<Step>) returns (all: seq<Step>)
    requires Run(run) && After(run).todo == []
    ensures run <= all && Run(all) && After(all) == State({}, [])
    ensures Served(all) == Requested(run)
  {
    var order := Listing(After(run).once);
    RunSnoc(run, Snapshot(order));
    all := Finished(run + [Snapshot(order)]);
  }

  /** Every run goes on to one that serves exactly what is requested by now: each position is visited once and no other. */
  lemma RequestsAreServed(run: seq<Step>) returns (all: seq<Step>)
    requires Run(run)
    ensures run <= all && Run(all) && After(all) == State({}, [])
    ensures forall p :: Visits(all, p) == if p in Requested(run) then 1 else 0
  {
    var finished := Finished(run);
    all := NextPhase(finished);
    forall p ensures Visits(all, p) == if p in Requested(run) then 1 else 0 {
      PhaseServesEachOnce(all, p);
    }
  }
}
