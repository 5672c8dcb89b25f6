/**
 internal/storage_adapter/file_storage.go: calls that meet on one chunk. SaveBlock looks the chunk up in
 the cache, reads its file if it is not there, edits its copy, puts the copy into the cache and, with
 autoSave, writes it to the file; LoadBlock puts a file that it had to read into the cache; FlushCache
 writes what it found in the cache. Each of these is a step of its own, so calls may interleave.
 */
module SaveRace {
  import opened Common
  import opened Grid
  import opened FileStorage

  datatype Edit = Edit(local: Vec2, block: Block)

  /** Where a call stands; a LoadBlock has no edit. */
  datatype Call =
    | Reading(edit: Option<Edit>)                    // the chunk is not cached; its file is next
    | Editing(copy: ChunkData, edit: Option<Edit>)   // the chunk is read; the cache is next
    | Writing(data: ChunkData)                       // the file is next

  datatype State = State(cached: Option<ChunkData>, file: Option<ChunkData>, calls: map<nat, Call>)

  datatype Step =
    | Lookup(w: nat, edit: Option<Edit>)
    | ReadFile(w: nat)
    | Put(w: nat)
    | Flush(w: nat)
    | WriteFile(w: nat, ok: bool)

  function Contents(file: Option<ChunkData>): (data: ChunkData) {
    if file.Some? then file.value else ChunkData(map[], map[], 1)
  }

  /** What a call that is not interrupted reads. */
  function Visible(s: State): (data: ChunkData) {
    if s.cached.Some? then s.cached.value else Contents(s.file)
  }

  function Edited(copy: ChunkData, edit: Option<Edit>): (data: ChunkData) {
    match edit
    case None => copy
    case Some(e) => FileStorage.Put(copy, e.local, e.block).(version := copy.version + 1)
  }

  /** One step; a step that cannot happen changes nothing. */
  function Next(autoSave: bool, s: State, step: Step): (s': State) {
    match step
    case Lookup(w, edit) =>
      if w in s.calls || (s.cached.Some? && edit.None?) then s
      else s.(calls := s.calls[w := if s.cached.Some? then Editing(s.cached.value, edit) else Reading(edit)])
    case ReadFile(w) =>
      if w !in s.calls || !s.calls[w].Reading? then s
      else if s.file.None? && s.calls[w].edit.None? then s.(calls := s.calls - {w})
      else s.(calls := s.calls[w := Editing(Contents(s.file), s.calls[w].edit)])
    case Put(w) =>
      if w !in s.calls || !s.calls[w].Editing? then s
      else
        var data := Edited(s.calls[w].copy, s.calls[w].edit);
        s.(cached := Some(data),
           calls := if autoSave && s.calls[w].edit.Some? then s.calls[w := Writing(data)] else s.calls - {w})
    case Flush(w) =>
      if w in s.calls || s.cached.None? then s else s.(calls := s.calls[w := Writing(s.cached.value)])
    case WriteFile(w, ok) =>
      if w !in s.calls || !s.calls[w].Writing? then s
      else s.(file := if ok then Some(s.calls[w].data) else s.file, calls := s.calls - {w})
  }

  function After(autoSave: bool, s: State, steps: seq<Step>): (s': State) {
    if steps == [] then s else Next(autoSave, After(autoSave, s, steps[..|steps| - 1]), steps[|steps| - 1])
  }

  lemma {:induction false} CallStays(autoSave: bool, s: State, steps: seq<Step>, w: nat)
    requires w in s.calls && forall step <- steps :: step.w != w
    ensures w in After(autoSave, s, steps).calls && After(autoSave, s, steps).calls[w] == s.calls[w]
  {
    if steps != [] {
      CallStays(autoSave, s, steps[..|steps| - 1], w);
    }
  }

  lemma EditedAt(copy: ChunkData, edit: Option<Edit>, l: Vec2)
    ensures BlockIn(Edited(copy, edit), l) ==
            if edit.Some? && edit.value.local == l then Normal(edit.value.block) else BlockIn(copy, l)
  {
    if edit.Some? {
      PutThenRead(copy, edit.value.local, edit.value.block, l);
    }
  }

  // ----- the cache -----

  /** A call that missed the cache reads the file; that is the visible chunk unless the cache was filled with another meanwhile. */
  lemma FileReadExact(autoSave: bool, s: State, w: nat)
    requires w in s.calls && s.calls[w].Reading? && (s.file.Some? || s.calls[w].edit.Some?)
    ensures Next(autoSave, s, ReadFile(w)).calls[w] == Editing(Contents(s.file), s.calls[w].edit)
    ensures Contents(s.file) == Visible(s) <==> s.cached.None? || s.cached.value == Contents(s.file)
  {
  }

  /**
   From a state in which a call has read the chunk, over any steps of others: after its put its own cell
   holds its block, and every other cell what the call read. So a cell keeps its block over the put
   exactly when it is as the call read it; whatever others put in between is undone.
   */
  lemma PutRestores(autoSave: bool, s: State, w: nat, others: seq<Step>, l: Vec2)
    requires w in s.calls && s.calls[w].Editing? && forall step <- others :: step.w != w
    ensures var call := s.calls[w];
            var own := call.edit.Some? && call.edit.value.local == l;
            var before := After(autoSave, s, others);
            var after := Next(autoSave, before, Put(w));
            && BlockIn(Visible(after), l) == (if own then Normal(call.edit.value.block) else BlockIn(call.copy, l))
            && (!own ==> (BlockIn(Visible(after), l) == BlockIn(Visible(before), l) <==>
                          BlockIn(call.copy, l) == BlockIn(Visible(before), l)))
  {
    CallStays(autoSave, s, others, w);
    EditedAt(s.calls[w].copy, s.calls[w].edit, l);
  }

  /**
   A SaveBlock that nobody interrupts, from any state: its cell shows its block with all its metadata, or
   bare air, every other cell what it showed before, and with autoSave the file is the cached chunk.
   */
  lemma AloneSaves(autoSave: bool, s: State, w: nat, edit: Edit, l: Vec2)
    requires w !in s.calls
    ensures var put := Next(autoSave, Next(autoSave, Next(autoSave, s, Lookup(w, Some(edit))), ReadFile(w)), Put(w));
            var t := Next(autoSave, put, WriteFile(w, true));
            && BlockIn(Visible(t), l) == (if l != edit.local then BlockIn(Visible(s), l)
                                          else if edit.block.id == 0 then Block(0, map[]) else edit.block)
            && t.calls == s.calls && t.file == (if autoSave then t.cached else s.file)
            && t.cached.Some? && t.cached.value.version == Visible(s).version + 1
            && (s.cached.None? && s.file.None? ==> t.cached.value.version == 2)
  {
    EditedAt(Visible(s), Some(edit), l);
    NormalKeeps(edit.block);
  }

  lemma Extended(autoSave: bool, s: State, steps: seq<Step>, step: Step) returns (longer: seq<Step>)
    ensures After(autoSave, s, longer) == Next(autoSave, After(autoSave, s, steps), step)
  {
    longer := steps + [step];
    assert longer[..|steps|] == steps;
  }

  /** Two SaveBlocks of different cells of a cached chunk that overlap: the block of the one that puts first is lost. */
  lemma OverlappingSavesLose(autoSave: bool, s: State, a: Edit, b: Edit) returns (steps: seq<Step>)
    requires s.cached.Some? && s.calls == map[] && a.local != b.local
    ensures var t := After(autoSave, s, steps);
            && BlockIn(Visible(t), a.local) == Normal(a.block)
            && BlockIn(Visible(t), b.local) == BlockIn(Visible(s), b.local)
  {
    assert After(autoSave, s, []) == s;
    steps := Extended(autoSave, s, [], Lookup(0, Some(a)));
    steps := Extended(autoSave, s, steps, Lookup(1, Some(b)));
    steps := Extended(autoSave, s, steps, Put(1));
    steps := Extended(autoSave, s, steps, Put(0));
    EditedAt(s.cached.value, Some(a), a.local);
    EditedAt(s.cached.value, Some(a), b.local);
  }

  // ----- the file -----

  /** A chunk is on its way to the file. */
  ghost predicate Underway(s: State) {
    exists w :: w in s.calls && s.calls[w].Writing?
  }

  predicate WritesFile(s: State, step: Step) {
    step.WriteFile? && step.w in s.calls && s.calls[step.w].Writing?
  }

  predicate PutsLoaded(s: State, step: Step) {
    step.Put? && step.w in s.calls && s.calls[step.w].Editing? && s.calls[step.w].edit.None?
  }

  /** No step writes the file, and no LoadBlock puts what it read into the cache. */
  predicate Quiet(s: State, steps: seq<Step>) {
    steps == [] ||
    (var front, step := steps[..|steps| - 1], steps[|steps| - 1];
     Quiet(s, front) && !WritesFile(After(true, s, front), step) && !PutsLoaded(After(true, s, front), step))
  }

  lemma QuietStep(s: State, step: Step)
    requires !WritesFile(s, step) && !PutsLoaded(s, step)
    ensures Next(true, s, step).file == s.file
    ensures Underway(s) ==> Underway(Next(true, s, step))
    ensures Next(true, s, step).cached == s.cached || Underway(Next(true, s, step))
  {
    var s' := Next(true, s, step);
    if Underway(s) {
      var w :| w in s.calls && s.calls[w].Writing?;
      assert w in s'.calls && s'.calls[w] == s.calls[w];
    }
    if s'.cached != s.cached {
      assert step.w in s'.calls && s'.calls[step.w].Writing?;
    }
  }

  lemma {:induction false} QuietSteps(s: State, steps: seq<Step>)
    requires Quiet(s, steps)
    ensures var t := After(true, s, steps); t.file == s.file && (t.cached == s.cached || Underway(t))
  {
    if steps != [] {
      QuietSteps(s, steps[..|steps| - 1]);
      QuietStep(After(true, s, steps[..|steps| - 1]), steps[|steps| - 1]);
    }
  }

  /**
   With autoSave, once nothing is on its way to the file any more, the file is the cached chunk exactly
   when the last write to the file carried what was cached at that moment. Until then nothing counts as
   unsaved, so this is also when a saved chunk is on disk.
   */
  lemma DiskExact(s: State, w: nat, later: seq<Step>)
    requires w in s.calls && s.calls[w].Writing?
    requires Quiet(Next(true, s, WriteFile(w, true)), later) && !Underway(After(true, Next(true, s, WriteFile(w, true)), later))
    ensures var t := After(true, Next(true, s, WriteFile(w, true)), later);
            && t.file == Some(s.calls[w].data) && t.cached == s.cached
            && (t.cached == t.file <==> s.cached == Some(s.calls[w].data))
  {
    QuietSteps(Next(true, s, WriteFile(w, true)), later);
  }

  /** Two SaveBlocks one after the other in the cache whose file writes land in the other order: the file keeps the older chunk. */
  lemma LateWriteKeepsOlder(s: State, a: Edit, b: Edit) returns (steps: seq<Step>)
    requires s.cached.Some? && s.calls == map[]
    requires a.local != b.local && Normal(b.block) != BlockIn(s.cached.value, b.local)
    ensures var t := After(true, s, steps);
            && t.calls == map[] && t.cached.Some? && t.file.Some?
            && BlockIn(t.cached.value, b.local) == Normal(b.block)
            && BlockIn(t.file.value, b.local) == BlockIn(s.cached.value, b.local) != Normal(b.block)
  {
    var first := Edited(s.cached.value, Some(a));
    var second := Edited(first, Some(b));
    EditedAt(s.cached.value, Some(a), b.local);
    EditedAt(first, Some(b), b.local);
    var saves := SavedTwice(s, a, b);
    steps := Extended(true, s, saves, WriteFile(1, true));
    steps := Extended(true, s, steps, WriteFile(0, true));
    assert After(true, s, steps).calls == map[];
  }

  lemma SavedTwice(s: State, a: Edit, b: Edit) returns (steps: seq<Step>)
    requires s.cached.Some? && s.calls == map[]
    ensures var first := Edited(s.cached.value, Some(a));
            var second := Edited(first, Some(b));
            After(true, s, steps) == State(Some(second), s.file, map[0 := Writing(first), 1 := Writing(second)])
  {
    assert After(true, s, []) == s;
    steps := Extended(true, s, [], Lookup(0, Some(a)));
    steps := Extended(true, s, steps, Put(0));
    assert After(true, s, steps).calls == map[0 := Writing(Edited(s.cached.value, Some(a)))];
    steps := Extended(true, s, steps, Lookup(1, Some(b)));
    steps := Extended(true, s, steps, Put(1));
  }

  /** A LoadBlock that missed the cache puts the file it read: saves that are only in the cache are undone. */
  lemma LoadRestores(autoSave: bool, s: State, w: nat, others: seq<Step>)
    requires w in s.calls && s.calls[w].Editing? && s.calls[w].edit.None? && forall step <- others :: step.w != w
    ensures Visible(Next(autoSave, After(autoSave, s, others), Put(w))) == s.calls[w].copy
  {
    CallStays(autoSave, s, others, w);
  }
}
