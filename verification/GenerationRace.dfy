/**
 internal/world/world.go: accessors that meet on a chunk not loaded yet. Each looks the chunk up,
 generates its own copy when there is none, stores the copy only if there is still none, and goes on
 with its own copy in any case. These are separate critical sections, so accessors may interleave.
 */
module GenerationRace {
  import opened Common
  import opened WorldBlocks

  /** An accessor at work on a chunk object. */
  datatype Accessor = Accessor(
    obj: nat,            // the object it uses
    storing: bool,       // it generated the object and is about to store it
    overtaken: bool,     // another accessor stored its own object between the lookup and the store
    own: ChunkData)      // history: the generated contents with just its own writes

  /** The chunk objects made so far for one chunk, the stored one, and the accessors at work. */
  datatype State = State(objects: seq<ChunkData>, stored: Option<nat>, at: map<nat, Accessor>)

  /** A block's id and each key of its payload are written under the chunk's lock, one by one. */
  datatype Edit = SetId(coord: BlockCoord, id: nat) | SetKey(coord: BlockCoord, key: string, value: string)

  function Edited(ch: ChunkData, edit: Edit): (r: ChunkData) {
    match edit
    case SetId(coord, id) => WithId(ch, coord, id)
    case SetKey(coord, key, value) => WithMeta(ch, coord, map[key := value])
  }

  datatype Step =
    | Lookup(w: nat)
    | Store(w: nat)
    | Write(w: nat, edit: Edit)
    | Leave(w: nat)

  predicate Enabled(s: State, step: Step) {
    match step
    case Lookup(w) => w !in s.at
    case Store(w) => w in s.at && s.at[w].storing
    case Write(w, _) => w in s.at && !s.at[w].storing && s.at[w].obj < |s.objects|
    case Leave(w) => w in s.at && !s.at[w].storing
  }

  /** The accessors after w has stored its object: all others about to store have been overtaken. */
  function Overtaken(at: map<nat, Accessor>, w: nat): (r: map<nat, Accessor>) {
    map v | v in at :: if v != w && at[v].storing then at[v].(overtaken := true) else at[v]
  }

  function Next(generated: ChunkData, s: State, step: Step): (s': State)
    requires Enabled(s, step)
  {
    match step
    case Lookup(w) =>
      if s.stored.Some? then s.(at := s.at[w := Accessor(s.stored.value, false, false, generated)])
      else s.(objects := s.objects + [generated], at := s.at[w := Accessor(|s.objects|, true, false, generated)])
    case Store(w) =>
      var mine := s.at[w].(storing := false);
      if s.stored.Some? then s.(at := s.at[w := mine])
      else s.(stored := Some(s.at[w].obj), at := Overtaken(s.at, w)[w := mine])
    case Write(w, edit) =>
      var k, own := s.at[w].obj, s.at[w].own;
      s.(objects := s.objects[k := Edited(s.objects[k], edit)],
         at := s.at[w := s.at[w].(own := Edited(own, edit))])
    case Leave(w) => s.(at := s.at - {w})
  }

  /** The accessor's object is its own copy, which nobody else uses. */
  ghost predicate Private(a: Accessor) {
    a.storing || a.overtaken
  }

  ghost predicate Inv(generated: ChunkData, s: State) {
    && (s.stored.None? ==> forall k | 0 <= k < |s.objects| :: s.objects[k] == generated)
    && (s.stored.Some? ==> s.stored.value < |s.objects|)
    && (forall w <- s.at :: s.at[w].obj < |s.objects|)
    && (forall w <- s.at :: if s.at[w].storing then s.at[w].overtaken <==> s.stored.Some? else s.stored.Some?)
    && (forall w <- s.at :: s.stored.Some? ==> (s.at[w].obj == s.stored.value <==> !s.at[w].overtaken))
    && (forall w <- s.at, v <- s.at :: w != v && Private(s.at[w]) ==> s.at[w].obj != s.at[v].obj)
    && (forall w <- s.at :: Private(s.at[w]) ==> s.objects[s.at[w].obj] == s.at[w].own)
  }

  lemma LookupInv(generated: ChunkData, s: State, w: nat)
    requires Inv(generated, s) && Enabled(s, Lookup(w))
    ensures Inv(generated, Next(generated, s, Lookup(w)))
  {
  }

  lemma StoreInv(generated: ChunkData, s: State, w: nat)
    requires Inv(generated, s) && Enabled(s, Store(w))
    ensures Inv(generated, Next(generated, s, Store(w)))
  {
  }

  lemma WriteInv(generated: ChunkData, s: State, step: Step)
    requires Inv(generated, s) && step.Write? && Enabled(s, step)
    ensures Inv(generated, Next(generated, s, step))
  {
    var s' := Next(generated, s, step);
    forall v <- s'.at | v != step.w ensures s'.at[v] == s.at[v] {
    }
  }

  lemma StepInv(generated: ChunkData, s: State, step: Step)
    requires Inv(generated, s) && Enabled(s, step)
    ensures Inv(generated, Next(generated, s, step))
  {
    match step
    case Lookup(w) => LookupInv(generated, s, w);
    case Store(w) => StoreInv(generated, s, w);
    case Write(_, _) => WriteInv(generated, s, step);
    case Leave(_) =>
  }

  ghost predicate IsRun(generated: ChunkData, states: seq<State>, steps: seq<Step>) {
    && |states| == |steps| + 1
    && states[0] == State([], None, map[])
    && (forall i {:trigger steps[i]} :: 0 <= i < |steps| ==>
          Enabled(states[i], steps[i]) && states[i + 1] == Next(generated, states[i], steps[i]))
  }

  lemma {:induction false} RunInv(generated: ChunkData, states: seq<State>, steps: seq<Step>, i: nat)
    requires IsRun(generated, states, steps) && i < |states|
    ensures Inv(generated, states[i])
  {
    if i > 0 {
      RunInv(generated, states, steps, i - 1);
      StepInv(generated, states[i - 1], steps[i - 1]);
    }
  }

  /** In every run nobody waits for another: each accessor can look up, then store if it generated, then write, then leave. */
  lemma AccessorsProceed(generated: ChunkData, states: seq<State>, steps: seq<Step>, i: nat, w: nat, edit: Edit)
    requires IsRun(generated, states, steps) && i < |states|
    ensures var s := states[i];
            && (w !in s.at ==> Enabled(s, Lookup(w)))
            && (w in s.at && s.at[w].storing ==> Enabled(s, Store(w)))
            && (w in s.at && !s.at[w].storing ==> Enabled(s, Write(w, edit)) && Enabled(s, Leave(w)))
  {
    RunInv(generated, states, steps, i);
  }

  /** What later accessors find. */
  function Visible(generated: ChunkData, s: State): (ch: ChunkData) {
    if s.stored.Some? && s.stored.value < |s.objects| then s.objects[s.stored.value] else generated
  }

  /**
   In every run, a write shows exactly when its accessor was not overtaken between looking the chunk
   up and storing it; otherwise the write is lost and nothing visible changes.
   */
  lemma WriteShowsExactly(generated: ChunkData, states: seq<State>, steps: seq<Step>, i: nat)
    requires IsRun(generated, states, steps) && i < |steps| && steps[i].Write?
    ensures var step := steps[i];
            var was := Visible(generated, states[i]);
            && step.w in states[i].at
            && Visible(generated, states[i + 1]) ==
               if states[i].at[step.w].overtaken then was
               else match step.edit
                 case SetId(coord, id) => WithId(was, coord, id)
                 case SetKey(coord, key, value) => WithMeta(was, coord, map[key := value])
  {
    RunInv(generated, states, steps, i);
    assert states[i + 1] == Next(generated, states[i], steps[i]);
  }

  /** In every run, an accessor reads what is visible, or, if it was overtaken, the generated contents with just its own writes. */
  lemma ReadSeesExactly(generated: ChunkData, states: seq<State>, steps: seq<Step>, i: nat, w: nat)
    requires IsRun(generated, states, steps) && i < |states| && w in states[i].at && !states[i].at[w].storing
    ensures var s := states[i];
            && s.at[w].obj < |s.objects|
            && s.objects[s.at[w].obj] == if s.at[w].overtaken then s.at[w].own else Visible(generated, s)
  {
    RunInv(generated, states, steps, i);
  }

  /** No other step changes what is visible. */
  lemma OnlyWritesShow(generated: ChunkData, states: seq<State>, steps: seq<Step>, i: nat)
    requires IsRun(generated, states, steps) && i < |steps| && !steps[i].Write?
    ensures Visible(generated, states[i + 1]) == Visible(generated, states[i])
  {
    RunInv(generated, states, steps, i);
    assert states[i + 1] == Next(generated, states[i], steps[i]);
  }

  /**
   An accessor is overtaken exactly when it found no chunk at its lookup but finds one when it
   stores; after that no step changes this.
   */
  lemma StoreDecides(generated: ChunkData, states: seq<State>, steps: seq<Step>, i: nat, w: nat)
    requires IsRun(generated, states, steps) && i < |steps| && w in states[i + 1].at
    ensures var now := states[i + 1].at[w];
            && (steps[i] == Lookup(w) ==> (now.storing <==> states[i].stored.None?) && !now.overtaken)
            && (steps[i] == Store(w) ==> (now.overtaken <==> states[i].stored.Some?))
            && (w in states[i].at && !states[i].at[w].storing ==> now == states[i].at[w].(own := now.own))
  {
    RunInv(generated, states, steps, i);
    assert states[i + 1] == Next(generated, states[i], steps[i]);
  }

  /** Two accessors that both find no chunk: the one that stores second loses its write. */
  lemma SecondWriteIsLost(generated: ChunkData, edit: Edit)
    ensures var s := Next(generated, State([], None, map[]), Lookup(0));
            var t := Next(generated, s, Lookup(1));
            var u := Next(generated, t, Store(0));
            var v := Next(generated, u, Store(1));
            && Enabled(v, Write(1, edit))
            && Visible(generated, Next(generated, v, Write(1, edit))) == generated
  {
  }
}
