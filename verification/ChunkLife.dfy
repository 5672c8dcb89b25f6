/**
 The life of one chunk between edits, saves and reloads (internal/world/chunk.go,
 internal/storage/world_storage.go): what a reload, which replays the stored delta onto the
 generated chunk, brings back. Generation marks every cell as changed (internal/world/generator.go).
 */
module ChunkLife {
  import opened Common
  import opened Grid
  import opened ChunkDeltas

  datatype Op =
    | SetId(p: Vec2, id: nat)
    | Merge(p: Vec2, payload: Meta)
    | OtherLayer(layer: nat, p: Vec2, id: nat)
    | Save                // a save that nothing interrupts
    | Snapshot            // a save takes the delta under the chunk's lock
    | Commit              // the same save has stored it and clears the changes
    | Apply               // replays what is stored onto the chunk
    | Regenerate          // the chunk is dropped and generated again

  /** The active layer, the cells marked as changed, whether anything changed, what is stored, and the delta of a save under way. */
  datatype Life = Life(now: Layer, changes: set<Vec2>, dirty: bool, stored: Option<Delta>, taken: Option<Delta>)

  /** One step of a life that began, and after dropping the chunk begins again, as `born`. */
  ghost function Next(born: Life, life: Life, op: Op): (life': Life) {
    match op
    case SetId(p, id) =>
      if p !in life.now then life
      else life.(now := life.now[p := life.now[p].(id := id)], changes := life.changes + {p}, dirty := true)
    case Merge(p, payload) =>
      if p !in life.now || payload == map[] then life
      else life.(now := life.now[p := Cell(life.now[p].id, life.now[p].payload + payload)],
                 changes := life.changes + {p}, dirty := true)
    case OtherLayer(layer, p, _) =>
      life.(dirty := life.dirty || (layer < MAX_LAYERS && layer != LAYER_ACTIVE && IsLocal(p)))
    case Save =>
      if !life.dirty || life.taken.Some? then life
      else Life(life.now, {}, false, Some(DeltaOf(life.now, life.changes)), None)
    case Snapshot =>
      if !life.dirty || life.taken.Some? then life else life.(taken := Some(DeltaOf(life.now, life.changes)))
    case Commit =>
      if life.taken.None? then life else Life(life.now, {}, false, life.taken, None)
    case Apply =>
      if life.stored.None? || !Total(life.now) then life
      else
        var replayed := life.stored.value.Keys * Locals();
        life.(now := Replay(life.now, life.stored.value), changes := life.changes + replayed,
              dirty := life.dirty || replayed != {})
    case Regenerate =>
      if life.taken.Some? then life else life.(now := born.now, changes := born.changes, dirty := born.dirty)
  }

  ghost function After(born: Life, ops: seq<Op>): (life: Life) {
    if ops == [] then born else Next(born, After(born, ops[..|ops| - 1]), ops[|ops| - 1])
  }

  /** How a life may begin: any marks, as long as they count as changes. */
  ghost predicate Born(life: Life) {
    Total(life.now) && life.changes <= Locals() && (life.changes != {} ==> life.dirty) && life.taken.None?
  }

  /** A generated chunk: every cell is marked. */
  ghost predicate BornGenerated(life: Life) {
    Born(life) && life.changes == Locals() && life.dirty
  }

  /** The cell was edited or replayed, or the chunk generated with a mark on it, since the last save. */
  ghost predicate Marked(born: Life, ops: seq<Op>, p: Vec2) {
    if ops == [] then p in born.changes
    else
      var front := ops[..|ops| - 1];
      var before := After(born, front);
      match ops[|ops| - 1]
      case SetId(q, _) => q == p || Marked(born, front, p)
      case Merge(q, payload) => (q == p && payload != map[]) || Marked(born, front, p)
      case OtherLayer(_, _, _) => Marked(born, front, p)
      case Save => before.taken.Some? && Marked(born, front, p)
      case Snapshot => Marked(born, front, p)
      case Commit => before.taken.None? && Marked(born, front, p)
      case Apply => (before.stored.Some? && p in before.stored.value) || Marked(born, front, p)
      case Regenerate => if before.taken.Some? then Marked(born, front, p) else p in born.changes
  }

  ghost predicate LifeOk(born: Life, life: Life)
    requires Total(born.now)
  {
    && Total(life.now) && life.changes <= Locals()
    && (life.changes != {} ==> life.dirty)
    && (forall p :: IsLocal(p) ==> born.now[p].payload.Keys <= life.now[p].payload.Keys)
    && (life.taken.Some? ==> TakenOk(born, life.taken.value))
  }

  /** A delta of cells that have kept the metadata keys they were born with. */
  ghost predicate TakenOk(born: Life, d: Delta)
    requires Total(born.now)
  {
    forall p <- d :: IsLocal(p) && born.now[p].payload.Keys <= d[p].payload.Keys
  }

  lemma NextOk(born: Life, life: Life, op: Op)
    requires Born(born) && LifeOk(born, life)
    ensures LifeOk(born, Next(born, life, op))
  {
    match op
    case Snapshot => SnapshotOk(born, life);
    case Apply => ApplyOk(born, life);
    case _ =>
  }

  lemma SnapshotOk(born: Life, life: Life)
    requires Born(born) && LifeOk(born, life)
    ensures LifeOk(born, Next(born, life, Snapshot))
  {
  }

  lemma ApplyOk(born: Life, life: Life)
    requires Born(born) && LifeOk(born, life)
    ensures LifeOk(born, Next(born, life, Apply))
  {
    var life' := Next(born, life, Apply);
    forall p | IsLocal(p) ensures born.now[p].payload.Keys <= life'.now[p].payload.Keys {
      assert life.now[p].payload.Keys <= life'.now[p].payload.Keys;
    }
  }

  lemma NextMarks(born: Life, life: Life, op: Op, p: Vec2)
    requires Born(born) && LifeOk(born, life) && IsLocal(p)
    ensures p in Next(born, life, op).changes <==>
            match op
            case SetId(q, _) => q == p || p in life.changes
            case Merge(q, payload) => (q == p && payload != map[]) || p in life.changes
            case OtherLayer(_, _, _) => p in life.changes
            case Save => life.taken.Some? && p in life.changes
            case Snapshot => p in life.changes
            case Commit => life.taken.None? && p in life.changes
            case Apply => (life.stored.Some? && p in life.stored.value) || p in life.changes
            case Regenerate => if life.taken.Some? then p in life.changes else p in born.changes
  {
  }

  lemma {:induction false} AfterOk(born: Life, ops: seq<Op>)
    requires Born(born)
    ensures LifeOk(born, After(born, ops))
    ensures forall p :: IsLocal(p) ==> (p in After(born, ops).changes <==> Marked(born, ops, p))
  {
    if ops != [] {
      var front, op := ops[..|ops| - 1], ops[|ops| - 1];
      AfterOk(born, front);
      NextOk(born, After(born, front), op);
      forall p | IsLocal(p) ensures p in After(born, ops).changes <==> Marked(born, ops, p) {
        NextMarks(born, After(born, front), op, p);
      }
    }
  }

  /** Every cell that differs from the one the chunk was born with is marked. */
  ghost predicate NothingForgotten(born: Life, ops: seq<Op>, now: Layer) {
    forall p :: IsLocal(p) ==> Marked(born, ops, p) || (p in now && p in born.now && now[p] == born.now[p])
  }

  /**
   In every life of a chunk: a save that has something to do is restored on reload exactly when every
   cell that differs from the generated one was edited, replayed or generated since the save before.
   */
  lemma ReloadExact(born: Life, ops: seq<Op>)
    requires Born(born) && After(born, ops).dirty && After(born, ops).taken.None?
    ensures var now := After(born, ops).now;
            var stored := Next(born, After(born, ops), Save).stored;
            && Total(now) && stored.Some?
            && (Replay(born.now, stored.value) == now <==> NothingForgotten(born, ops, now))
  {
    var life := After(born, ops);
    AfterOk(born, ops);
    RestoreExact(born.now, life.now, life.changes);
    assert Mendable(born.now, life.now, life.changes) <==> NothingForgotten(born, ops, life.now);
  }

  /** No save has been made. */
  predicate NoSaves(ops: seq<Op>) {
    forall op <- ops :: !op.Save? && !op.Commit?
  }

  lemma {:induction false} MarksStay(born: Life, ops: seq<Op>, p: Vec2)
    requires NoSaves(ops) && p in born.changes
    ensures Marked(born, ops, p)
  {
    if ops != [] {
      MarksStay(born, ops[..|ops| - 1], p);
    }
  }

  /** The first save of a generated chunk is restored whatever was edited, because all its cells are marked. */
  lemma FirstSaveRestores(born: Life, ops: seq<Op>)
    requires BornGenerated(born) && NoSaves(ops) && After(born, ops).dirty && After(born, ops).taken.None?
    ensures var now := After(born, ops).now;
            var stored := Next(born, After(born, ops), Save).stored;
            Total(now) && stored.Some? && Replay(born.now, stored.value) == now
  {
    ReloadExact(born, ops);
    forall p | IsLocal(p) ensures Marked(born, ops, p) {
      MarksStay(born, ops, p);
    }
  }

  // ----- a save that edits come between -----

  /**
   In every life: when a save commits, a reload brings a cell back exactly when the cell is in the
   delta and has not changed since the delta was taken, or is not in it and is as generated. So the
   save loses exactly the edits made since its snapshot, besides what is unmarked; and it unmarks them.
   */
  lemma CommitExact(born: Life, ops: seq<Op>, p: Vec2)
    requires Born(born) && After(born, ops).taken.Some? && IsLocal(p)
    ensures var life := After(born, ops);
            var done := Next(born, life, Commit);
            && Total(life.now) && done.now == life.now && done.stored == life.taken && done.changes == {}
            && (Replay(born.now, done.stored.value)[p] == life.now[p] <==>
                if p in life.taken.value then life.now[p] == life.taken.value[p] else life.now[p] == born.now[p])
  {
    AfterOk(born, ops);
    var d := After(born, ops).taken.value;
    if p in d {
      MergeAbsorbs(born.now[p].payload, d[p].payload);
    }
  }

  /** The operations with one more. */
  lemma Extended(born: Life, ops: seq<Op>, op: Op) returns (longer: seq<Op>)
    ensures After(born, longer) == Next(born, After(born, ops), op)
  {
    longer := ops + [op];
    assert longer[..|ops|] == ops;
  }

  // ----- lives that lose an edit, however they begin -----

  /** Edit a cell and save. */
  lemma EditedAndSaved(born: Life, a: Vec2, x: nat) returns (ops: seq<Op>)
    requires Born(born) && IsLocal(a)
    ensures var life := After(born, ops);
            && life.now == born.now[a := born.now[a].(id := x)] && life.changes == {}
            && !life.dirty && life.taken.None?
  {
    assert After(born, []) == born;
    ops := Extended(born, [], SetId(a, x));
    ops := Extended(born, ops, Save);
  }

  /** The second save overwrites the first: an edit saved before and not repeated is gone on reload. */
  lemma SecondSaveLoses(born: Life, a: Vec2, x: nat, b: Vec2, y: nat) returns (ops: seq<Op>)
    requires Born(born) && IsLocal(a) && IsLocal(b) && a != b && born.now[a].id != x
    ensures var life := After(born, ops);
            && life.stored.Some? && Total(life.now) && life.taken.None?
            && life.now[a].id == x && life.now[b].id == y && Replay(born.now, life.stored.value)[a] == born.now[a]
  {
    ops := EditedAndSaved(born, a, x);
    ops := Extended(born, ops, SetId(b, y));
    ops := Extended(born, ops, Save);
  }

  /** A change in another layer is enough: the next save stores an empty delta, and all saved edits are gone. */
  lemma OtherLayerLosesAll(born: Life, a: Vec2, x: nat, layer: nat, id: nat) returns (ops: seq<Op>)
    requires Born(born) && IsLocal(a) && born.now[a].id != x && layer < MAX_LAYERS && layer != LAYER_ACTIVE
    ensures var life := After(born, ops);
            && life.stored == Some(map[]) && life.taken.None?
            && Replay(born.now, map[]) == born.now != life.now
  {
    ops := EditedAndSaved(born, a, x);
    assert After(born, ops).now[a] != born.now[a];
    assert DeltaOf(After(born, ops).now, {}) == map[];
    ops := Extended(born, ops, OtherLayer(layer, a, id));
    ops := Extended(born, ops, Save);
  }

  /** An edit between the snapshot and the end of a save is gone on reload, and nothing marks it any more. */
  lemma EditDuringSaveIsLost(born: Life, a: Vec2, x: nat, b: Vec2, y: nat) returns (ops: seq<Op>)
    requires Born(born) && IsLocal(a) && IsLocal(b) && a != b && born.now[b].id != y
    ensures var life := After(born, ops);
            && life.stored.Some? && Total(life.now) && life.taken.None? && !life.dirty
            && life.now[b].id == y && Replay(born.now, life.stored.value)[b].id == born.now[b].id
  {
    assert After(born, []) == born;
    ops := Extended(born, [], SetId(a, x));
    ops := Extended(born, ops, Snapshot);
    ops := Extended(born, ops, SetId(b, y));
    ops := Extended(born, ops, Commit);
  }

  // ----- the same life on the objects -----

  ghost function StoredFor(ws: WorldStorage, coords: Vec2): (d: Option<Delta>)
    reads ws
  {
    if coords in ws.db then Some(ws.db[coords]) else None
  }

  /** The chunk and the storage are where the life says. */
  ghost predicate Holds(chunk: Chunk, ws: WorldStorage, life: Life)
    reads chunk, chunk.blocks3D, ws
  {
    && chunk.Valid() && ws.isReady
    && Total(life.now) && life.changes <= Locals()
    && (forall p {:trigger chunk.CellAt(p)} :: IsLocal(p) ==> chunk.CellAt(p) == life.now[p])
    && (forall p {:trigger chunk.Changed(p)} :: IsLocal(p) ==> (chunk.Changed(p) <==> p in life.changes))
    && (chunk.changeCounter > 0 <==> life.dirty)
    && StoredFor(ws, chunk.coords) == life.stored && life.taken.None?
  }

  /** The life that begins with a chunk and a storage as they are. */
  ghost function BornWith(chunk: Chunk, ws: WorldStorage): (life: Life)
    requires chunk.Shaped()
    reads chunk, chunk.blocks3D, ws
  {
    Life(chunk.Active(), chunk.ChangedCells(), chunk.changeCounter > 0, StoredFor(ws, chunk.coords), None)
  }

  lemma HoldsAtBirth(chunk: Chunk, ws: WorldStorage)
    requires chunk.Valid() && ws.isReady
    ensures Born(BornWith(chunk, ws)) && Holds(chunk, ws, BornWith(chunk, ws))
  {
  }

  lemma HoldsActive(chunk: Chunk, ws: WorldStorage, life: Life)
    requires Holds(chunk, ws, life)
    ensures chunk.Active() == life.now
  {
    chunk.ActiveIs(life.now);
  }

  /** One cell has been edited. */
  ghost function EditedLife(life: Life, p: Vec2, cell: Cell): (life': Life) {
    life.(now := life.now[p := cell], changes := life.changes + {p}, dirty := true)
  }

  method PerformSetId(chunk: Chunk, ws: WorldStorage, p: Vec2, id: nat, ghost born: Life, ghost life: Life)
    requires Holds(chunk, ws, life) && IsLocal(p)
    modifies chunk, chunk.blocks3D
    ensures Holds(chunk, ws, Next(born, life, SetId(p, id)))
  {
    assert Next(born, life, SetId(p, id)) == EditedLife(life, p, life.now[p].(id := id));
    SetIdHolds(chunk, ws, p, id, life);
  }

  method SetIdHolds(chunk: Chunk, ws: WorldStorage, p: Vec2, id: nat, ghost life: Life)
    requires Holds(chunk, ws, life) && IsLocal(p)
    modifies chunk, chunk.blocks3D
    ensures Holds(chunk, ws, EditedLife(life, p, life.now[p].(id := id)))
  {
    chunk.SetBlock(p, id);
  }

  method PerformMerge(chunk: Chunk, ws: WorldStorage, p: Vec2, payload: Meta, ghost born: Life, ghost life: Life)
    requires Holds(chunk, ws, life) && IsLocal(p)
    modifies chunk, chunk.blocks3D
    ensures Holds(chunk, ws, Next(born, life, Merge(p, payload)))
  {
    if payload != map[] {
      chunk.SetBlockMetadataMap(p, payload);
    }
  }

  method PerformOther(chunk: Chunk, ws: WorldStorage, layer: nat, p: Vec2, id: nat, ghost born: Life, ghost life: Life)
    requires Holds(chunk, ws, life) && IsLocal(p) && layer != LAYER_ACTIVE
    modifies chunk, chunk.blocks3D
    ensures Holds(chunk, ws, Next(born, life, OtherLayer(layer, p, id)))
  {
    chunk.SetBlockLayer(layer, p, id);
  }

  method PerformSave(chunk: Chunk, ws: WorldStorage, ghost born: Life, ghost life: Life)
    requires Holds(chunk, ws, life)
    modifies chunk, ws
    ensures Holds(chunk, ws, Next(born, life, Save))
  {
    HoldsActive(chunk, ws, life);
    assert chunk.ChangedCells() == life.changes;
    var ok := ws.SaveChunk(chunk, true);
  }

  method PerformApply(chunk: Chunk, ws: WorldStorage, ghost born: Life, ghost life: Life)
    requires Holds(chunk, ws, life)
    modifies chunk, chunk.blocks3D
    ensures Holds(chunk, ws, Next(born, life, Apply))
  {
    var ok := ws.LoadAndApplyChunk(chunk, true);
  }

  /** The operations that a chunk object and its storage perform, inside the chunk. */
  predicate Inside(op: Op) {
    match op
    case SetId(p, _) => IsLocal(p)
    case Merge(p, _) => IsLocal(p)
    case OtherLayer(layer, p, _) => IsLocal(p) && layer != LAYER_ACTIVE
    case Save => true
    case Apply => true
    case _ => false
  }

  method Perform(chunk: Chunk, ws: WorldStorage, op: Op, ghost born: Life, ghost life: Life)
    requires Holds(chunk, ws, life) && Inside(op)
    modifies chunk, chunk.blocks3D, ws
    ensures Holds(chunk, ws, Next(born, life, op))
  {
    match op
    case SetId(p, id) => PerformSetId(chunk, ws, p, id, born, life);
    case Merge(p, payload) => PerformMerge(chunk, ws, p, payload, born, life);
    case OtherLayer(layer, p, id) => PerformOther(chunk, ws, layer, p, id, born, life);
    case Save => PerformSave(chunk, ws, born, life);
    case Apply => PerformApply(chunk, ws, born, life);
  }

  lemma AfterPrefix(born: Life, ops: seq<Op>, n: nat)
    requires n < |ops|
    ensures After(born, ops[..n + 1]) == Next(born, After(born, ops[..n]), ops[n])
  {
    assert ops[..n + 1][..n] == ops[..n];
  }

  /** Any edits, saves and replays of any chunk, generated, reloaded or saved. */
  method AnyLife(chunk: Chunk, ws: WorldStorage, ops: seq<Op>)
    requires chunk.Valid() && ws.isReady
    requires forall op <- ops :: Inside(op)
    modifies chunk, chunk.blocks3D, ws
    ensures Holds(chunk, ws, After(old(BornWith(chunk, ws)), ops))
  {
    ghost var born := BornWith(chunk, ws);
    HoldsAtBirth(chunk, ws);
    for n := 0 to |ops|
      invariant Holds(chunk, ws, After(born, ops[..n]))
    {
      AfterPrefix(born, ops, n);
      Perform(chunk, ws, ops[n], born, After(born, ops[..n]));
    }
    assert ops[..|ops|] == ops;
  }

  lemma HoldsReload(chunk: Chunk, ws: WorldStorage, born: Life, ops: seq<Op>)
    requires Born(born) && After(born, ops).dirty && After(born, ops).taken.None?
    requires Holds(chunk, ws, Next(born, After(born, ops), Save))
    ensures chunk.coords in ws.db
    ensures Replay(born.now, ws.db[chunk.coords]) == chunk.Active() <==> NothingForgotten(born, ops, chunk.Active())
  {
    HoldsActive(chunk, ws, Next(born, After(born, ops), Save));
    ReloadExact(born, ops);
  }

  /**
   Any edits, saves and replays of any chunk, and then a save that has something to do. The delta in the
   store, replayed onto the chunk as it was at first, restores it exactly when every cell that differs
   was edited, replayed or, at first, marked since the save before.
   */
  method AnyLifeThenSave(chunk: Chunk, ws: WorldStorage, ops: seq<Op>)
    requires chunk.Valid() && ws.isReady
    requires forall op <- ops :: Inside(op)
    requires After(BornWith(chunk, ws), ops).dirty
    modifies chunk, chunk.blocks3D, ws
    ensures chunk.Valid() && chunk.coords in ws.db
    ensures var born := old(BornWith(chunk, ws));
            Replay(born.now, ws.db[chunk.coords]) == chunk.Active() <==> NothingForgotten(born, ops, chunk.Active())
  {
    ghost var born := BornWith(chunk, ws);
    HoldsAtBirth(chunk, ws);
    AnyLife(chunk, ws, ops);
    PerformSave(chunk, ws, born, After(born, ops));
    HoldsReload(chunk, ws, born, ops);
  }

  // ----- generation -----

  /** A local position in all layers: the ids, the active cell, and whether it is marked and ticks. */
  datatype Column = Column(floor: nat, ceiling: nat, cell: Cell, changed: bool, ticks: bool)

  ghost function ColumnAt(chunk: Chunk, q: Vec2): (c: Column)
    requires chunk.Shaped() && IsLocal(q)
    reads chunk, chunk.blocks3D
  {
    Column(chunk.IdAt(0, q), chunk.IdAt(2, q), chunk.CellAt(q), chunk.Changed(q), BlockCoord(LAYER_ACTIVE, q) in chunk.tickable3D)
  }

  method SetFloor(chunk: Chunk, p: Vec2, id: nat)
    requires chunk.Valid() && IsLocal(p)
    modifies chunk, chunk.blocks3D
    ensures chunk.Valid() && chunk.changeCounter > 0
    ensures forall q {:trigger ColumnAt(chunk, q)} :: IsLocal(q) ==>
              ColumnAt(chunk, q) == if q == p then old(ColumnAt(chunk, q)).(floor := id) else old(ColumnAt(chunk, q))
  {
    chunk.SetBlockLayer(0, p, id);
  }

  method SetActive(chunk: Chunk, p: Vec2, id: nat)
    requires chunk.Valid() && IsLocal(p)
    modifies chunk, chunk.blocks3D
    ensures chunk.Valid() && chunk.changeCounter > 0
    ensures forall q {:trigger ColumnAt(chunk, q)} :: IsLocal(q) ==>
              var was := old(ColumnAt(chunk, q));
              ColumnAt(chunk, q) == if q == p then was.(cell := was.cell.(id := id), changed := true, ticks := chunk.needsTick(id)) else was
  {
    chunk.SetBlock(p, id);
  }

  method MergeActive(chunk: Chunk, p: Vec2, payload: Meta)
    requires chunk.Valid() && IsLocal(p)
    modifies chunk, chunk.blocks3D
    ensures chunk.Valid() && (payload == map[] ==> chunk.changeCounter == old(chunk.changeCounter)) && (payload != map[] ==> chunk.changeCounter > 0)
    ensures forall q {:trigger ColumnAt(chunk, q)} :: IsLocal(q) ==>
              var was := old(ColumnAt(chunk, q));
              ColumnAt(chunk, q) == if q == p && payload != map[]
                                    then was.(cell := Cell(was.cell.id, was.cell.payload + payload), changed := true) else was
  {
    if payload != map[] {
      chunk.SetBlockMetadataMap(p, payload);
    }
  }

  /** A generated column: its floor, its active cell, marked, and ticking if its block ticks. */
  ghost function GeneratedColumn(needsTick: nat -> bool, floor: nat, ground: nat, planted: Option<Cell>): (c: Column) {
    var cell := if planted.Some? then planted.value else Cell(ground, map[]);
    Column(floor, 0, cell, true, needsTick(cell.id))
  }

  const BARE := Column(0, 0, Cell(0, map[]), false, false)

  method GenerateCell(chunk: Chunk, p: Vec2, floor: nat, ground: nat, planted: Option<Cell>)
    requires chunk.Valid() && IsLocal(p) && ColumnAt(chunk, p) == BARE
    modifies chunk, chunk.blocks3D
    ensures chunk.Valid() && chunk.changeCounter > 0
    ensures forall q {:trigger ColumnAt(chunk, q)} :: IsLocal(q) ==>
              ColumnAt(chunk, q) == if q == p then GeneratedColumn(chunk.needsTick, floor, ground, planted) else old(ColumnAt(chunk, q))
  {
    LayGround(chunk, p, floor, ground);
    if planted.Some? {
      Plant(chunk, p, planted.value);
    }
  }

  method LayGround(chunk: Chunk, p: Vec2, floor: nat, ground: nat)
    requires chunk.Valid() && IsLocal(p) && ColumnAt(chunk, p) == BARE
    modifies chunk, chunk.blocks3D
    ensures chunk.Valid() && chunk.changeCounter > 0
    ensures forall q {:trigger ColumnAt(chunk, q)} :: IsLocal(q) ==>
              ColumnAt(chunk, q) == if q == p then GeneratedColumn(chunk.needsTick, floor, ground, None) else old(ColumnAt(chunk, q))
  {
    SetFloor(chunk, p, floor);
    SetActive(chunk, p, ground);
  }

  /** An object with its metadata, where there is none yet. */
  method Plant(chunk: Chunk, p: Vec2, cell: Cell)
    requires chunk.Valid() && IsLocal(p) && ColumnAt(chunk, p).cell.payload == map[]
    modifies chunk, chunk.blocks3D
    ensures chunk.Valid() && chunk.changeCounter > 0
    ensures forall q {:trigger ColumnAt(chunk, q)} :: IsLocal(q) ==>
              ColumnAt(chunk, q) == if q == p then old(ColumnAt(chunk, q)).(cell := cell, changed := true, ticks := chunk.needsTick(cell.id))
                                    else old(ColumnAt(chunk, q))
  {
    SetActive(chunk, p, cell.id);
    MergeActive(chunk, p, cell.payload);
    assert map[] + cell.payload == cell.payload;
  }

  method GenerateRow(chunk: Chunk, y: nat, floor: Vec2 -> nat, ground: Vec2 -> nat, planted: Vec2 -> Option<Cell>)
    requires chunk.Valid() && y < 16 && forall q :: IsLocal(q) && q.y >= y ==> ColumnAt(chunk, q) == BARE
    modifies chunk, chunk.blocks3D
    ensures chunk.Valid() && chunk.changeCounter > 0
    ensures forall q {:trigger ColumnAt(chunk, q)} :: IsLocal(q) ==>
              ColumnAt(chunk, q) == if q.y == y then GeneratedColumn(chunk.needsTick, floor(q), ground(q), planted(q)) else old(ColumnAt(chunk, q))
  {
    for x := 0 to 16
      invariant chunk.Valid() && (x > 0 ==> chunk.changeCounter > 0)
      invariant forall q {:trigger ColumnAt(chunk, q)} :: IsLocal(q) ==>
                  ColumnAt(chunk, q) == if q.y == y && q.x < x then GeneratedColumn(chunk.needsTick, floor(q), ground(q), planted(q))
                                        else old(ColumnAt(chunk, q))
    {
      var p := Vec2(x, y);
      GenerateCell(chunk, p, floor(p), ground(p), planted(p));
    }
  }

  /** A generated chunk has the floor and the active blocks that generation gives, every active cell marked, and the ticking ones known. */
  method GenerateChunk(coords: Vec2, needsTick: nat -> bool, floor: Vec2 -> nat, ground: Vec2 -> nat, planted: Vec2 -> Option<Cell>)
    returns (chunk: Chunk)
    ensures fresh(chunk) && fresh(chunk.blocks3D) && chunk.Valid() && chunk.coords == coords && chunk.needsTick == needsTick
    ensures chunk.ChangedCells() == Locals() && chunk.changeCounter > 0
    ensures forall q :: IsLocal(q) ==>
              && chunk.blocks3D[0, q.x, q.y] == floor(q) && chunk.blocks3D[2, q.x, q.y] == 0
              && chunk.CellAt(q) == (if planted(q).Some? then planted(q).value else Cell(ground(q), map[]))
              && (BlockCoord(LAYER_ACTIVE, q) in chunk.tickable3D <==> needsTick(chunk.CellAt(q).id))
  {
    chunk := new Chunk(coords, needsTick);
    for y := 0 to 16
      invariant fresh(chunk) && fresh(chunk.blocks3D) && chunk.Valid() && (y > 0 ==> chunk.changeCounter > 0)
      invariant forall q {:trigger ColumnAt(chunk, q)} :: IsLocal(q) ==>
                  ColumnAt(chunk, q) == if q.y < y then GeneratedColumn(needsTick, floor(q), ground(q), planted(q)) else BARE
    {
      GenerateRow(chunk, y, floor, ground, planted);
    }
    forall q | IsLocal(q)
      ensures chunk.Changed(q) && chunk.blocks3D[0, q.x, q.y] == floor(q) && chunk.blocks3D[2, q.x, q.y] == 0
      ensures chunk.CellAt(q) == if planted(q).Some? then planted(q).value else Cell(ground(q), map[])
      ensures BlockCoord(LAYER_ACTIVE, q) in chunk.tickable3D <==> needsTick(chunk.CellAt(q).id)
    {
      assert ColumnAt(chunk, q) == GeneratedColumn(needsTick, floor(q), ground(q), planted(q));
    }
  }

  // ----- runs of sets over all layers -----

  datatype SetOp = SetOp(layer: nat, p: Vec2, id: nat)

  /** The column after an id is set in one of its layers; an unknown layer changes nothing. */
  function SetColumn(needsTick: nat -> bool, c: Column, layer: nat, id: nat): (c': Column) {
    if layer == 0 then c.(floor := id)
    else if layer == 1 then c.(cell := c.cell.(id := id), changed := true, ticks := needsTick(id))
    else if layer == 2 then c.(ceiling := id)
    else c
  }

  method SetAny(chunk: Chunk, layer: nat, p: Vec2, id: nat)
    requires chunk.Valid() && IsLocal(p)
    modifies chunk, chunk.blocks3D
    ensures chunk.Valid()
    ensures forall q {:trigger ColumnAt(chunk, q)} :: IsLocal(q) ==>
              ColumnAt(chunk, q) == if q == p then SetColumn(chunk.needsTick, old(ColumnAt(chunk, q)), layer, id) else old(ColumnAt(chunk, q))
  {
    chunk.SetBlockLayer(layer, p, id);
  }

  function ColumnAfter(needsTick: nat -> bool, ops: seq<SetOp>, q: Vec2, was: Column): (c: Column) {
    if ops == [] then was
    else
      var op, before := ops[|ops| - 1], ColumnAfter(needsTick, ops[..|ops| - 1], q, was);
      if op.p == q then SetColumn(needsTick, before, op.layer, op.id) else before
  }

  /** The last id set at a layer and position. */
  function LastSet(ops: seq<SetOp>, layer: nat, p: Vec2): (id: Option<nat>) {
    if ops == [] then None
    else
      var op := ops[|ops| - 1];
      if op.layer == layer && op.p == p then Some(op.id) else LastSet(ops[..|ops| - 1], layer, p)
  }

  function OrElse(id: Option<nat>, was: nat): (r: nat) {
    if id.Some? then id.value else was
  }

  /** Each layer holds the last id set in it, or what it held, and the column ticks as its last active id does, or as before. */
  lemma {:induction false} LastSetWins(needsTick: nat -> bool, ops: seq<SetOp>, q: Vec2, was: Column)
    ensures var c := ColumnAfter(needsTick, ops, q, was);
            && c.floor == OrElse(LastSet(ops, 0, q), was.floor)
            && c.cell.id == OrElse(LastSet(ops, 1, q), was.cell.id)
            && c.ceiling == OrElse(LastSet(ops, 2, q), was.ceiling)
            && c.ticks == (if LastSet(ops, 1, q).Some? then needsTick(LastSet(ops, 1, q).value) else was.ticks)
            && c.changed == (was.changed || LastSet(ops, 1, q).Some?)
            && c.cell.payload == was.cell.payload
  {
    if ops != [] {
      LastSetWins(needsTick, ops[..|ops| - 1], q, was);
    }
  }

  lemma ColumnStep(needsTick: nat -> bool, ops: seq<SetOp>, n: nat, q: Vec2, was: Column)
    requires n < |ops|
    ensures var before := ColumnAfter(needsTick, ops[..n], q, was);
            ColumnAfter(needsTick, ops[..n + 1], q, was) ==
            if ops[n].p == q then SetColumn(needsTick, before, ops[n].layer, ops[n].id) else before
  {
    assert ops[..n + 1][..n] == ops[..n];
  }

  /** After any sets of a chunk, every column is what the sets on it make of it, in order, and nothing else. */
  method AnySets(chunk: Chunk, ops: seq<SetOp>)
    requires chunk.Valid() && forall op <- ops :: IsLocal(op.p)
    modifies chunk, chunk.blocks3D
    ensures chunk.Valid()
    ensures forall q {:trigger ColumnAt(chunk, q)} :: IsLocal(q) ==>
              ColumnAt(chunk, q) == ColumnAfter(chunk.needsTick, ops, q, old(ColumnAt(chunk, q)))
  {
    for n := 0 to |ops|
      invariant chunk.Valid()
      invariant forall q {:trigger ColumnAt(chunk, q)} :: IsLocal(q) ==>
                  ColumnAt(chunk, q) == ColumnAfter(chunk.needsTick, ops[..n], q, old(ColumnAt(chunk, q)))
    {
      forall q | IsLocal(q)
        ensures ColumnAfter(chunk.needsTick, ops[..n + 1], q, old(ColumnAt(chunk, q))) ==
                var before := ColumnAfter(chunk.needsTick, ops[..n], q, old(ColumnAt(chunk, q)));
                if ops[n].p == q then SetColumn(chunk.needsTick, before, ops[n].layer, ops[n].id) else before
      {
        ColumnStep(chunk.needsTick, ops, n, q, old(ColumnAt(chunk, q)));
      }
      SetAny(chunk, ops[n].layer, ops[n].p, ops[n].id);
    }
    assert ops[..|ops|] == ops;
  }

  /** So its life begins with every cell marked, and its first save is restored on reload. */
  lemma GeneratedIsBorn(chunk: Chunk, ws: WorldStorage)
    requires chunk.Valid() && ws.isReady && chunk.ChangedCells() == Locals() && chunk.changeCounter > 0
    ensures BornGenerated(BornWith(chunk, ws))
  {
    HoldsAtBirth(chunk, ws);
  }
}
