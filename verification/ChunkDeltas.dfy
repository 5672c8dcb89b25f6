/**
 internal/world/chunk.go and the chunk part of internal/storage/world_storage.go: a chunk
 records which of its blocks were changed; saving writes the active layer's changed blocks
 as a delta, and loading replays a delta onto a chunk.
 */
module ChunkDeltas {
  import opened Common
  import opened Grid

  // BlockLayer (internal/world/layer.go)
  const LAYER_ACTIVE: nat := 1
  const MAX_LAYERS: nat := 3

  datatype BlockCoord = BlockCoord(layer: nat, pos: Vec2)

  /** A block of the active layer: its id and metadata. */
  datatype Cell = Cell(id: nat, payload: Meta)

  /** What is stored for a chunk: the changed positions of its active layer. */
  type Delta = map<Vec2, Cell>

  // ----- the active layer as a value -----

  ghost function Locals(): (ps: set<Vec2>)
    ensures forall p :: p in ps <==> IsLocal(p)
  {
    set x, y {:trigger Vec2(x, y)} | 0 <= x < 16 && 0 <= y < 16 :: Vec2(x, y)
  }

  /** The 256 cells of a layer. */
  type Layer = map<Vec2, Cell>

  ghost predicate Total(l: Layer) {
    l.Keys == Locals()
  }

  /** A later cell differs from an earlier one only if it is marked changed, and keeps its metadata keys. */
  predicate TracksAt(base: Cell, now: Cell, changed: bool) {
    (!changed ==> now == base) && base.payload.Keys <= now.payload.Keys
  }

  ghost predicate Tracks(base: Layer, now: Layer, changes: set<Vec2>) {
    Total(base) && Total(now) && forall p :: IsLocal(p) ==> TracksAt(base[p], now[p], p in changes)
  }

  /** A saved cell replayed onto another: the id is set, metadata keys are added or replaced. */
  function Replayed(start: Cell, saved: Cell): (r: Cell) {
    Cell(saved.id, start.payload + saved.payload)
  }

  ghost function Replay(l: Layer, d: Delta): (r: Layer)
    requires Total(l)
    ensures Total(r)
  {
    map p | p in l :: if p in d then Replayed(l[p], d[p]) else l[p]
  }

  /** The changed cells of a layer. */
  ghost function DeltaOf(now: Layer, changes: set<Vec2>): (d: Delta) {
    map p | p in now && p in changes :: now[p]
  }

  /** The saved delta, replayed onto the chunk as it was at the last save, reproduces the chunk. */
  lemma DeltaReproduces(base: Layer, now: Layer, changes: set<Vec2>)
    requires Tracks(base, now, changes)
    ensures Replay(base, DeltaOf(now, changes)) == now
  {
    forall p <- base
      ensures Replay(base, DeltaOf(now, changes))[p] == now[p]
    {
      assert IsLocal(p);
      if p in changes {
        assert base[p].payload + now[p].payload == now[p].payload;
      }
    }
  }

  /** Nothing the delta cannot mend: the same outside it, and no metadata key that the saved cell lacks. */
  ghost predicate Mendable(start: Layer, now: Layer, changes: set<Vec2>)
    requires Total(start) && Total(now)
  {
    forall p :: IsLocal(p) ==>
      if p in changes then start[p].payload.Keys <= now[p].payload.Keys else start[p] == now[p]
  }

  /**
   Replaying onto any other chunk, such as a freshly generated one, gives the saved chunk
   exactly when that chunk equals the saved one outside the delta and has no metadata key at a
   changed position that the saved block lacks.
   */
  lemma RestoreExact(start: Layer, now: Layer, changes: set<Vec2>)
    requires Total(start) && Total(now)
    ensures Replay(start, DeltaOf(now, changes)) == now <==> Mendable(start, now, changes)
  {
    var r := Replay(start, DeltaOf(now, changes));
    forall p | IsLocal(p)
      ensures r[p] == now[p] <==>
                if p in changes then start[p].payload.Keys <= now[p].payload.Keys else start[p] == now[p]
    {
      if p in changes {
        MergeAbsorbs(start[p].payload, now[p].payload);
      }
    }
    assert r == now <==> forall p :: IsLocal(p) ==> r[p] == now[p];
  }

  lemma MergeAbsorbs(a: Meta, b: Meta)
    ensures a + b == b <==> a.Keys <= b.Keys
  {
    if a + b == b {
      assert (a + b).Keys == a.Keys + b.Keys;
    }
  }

  lemma MergeStep(a: Meta, b: Meta, todo: set<string>, key: string)
    requires key in b
    ensures (a + (b - todo))[key := b[key]] == a + (b - (todo - {key}))
  {
  }

  // ----- the chunk -----

  class Chunk {
    const coords: Vec2
    const needsTick: nat -> bool       // the registered behaviours that tick
    const blocks3D: array3<nat>
    var metadata3D: map<BlockCoord, Meta>
    var changes3D: set<BlockCoord>
    var tickable3D: set<BlockCoord>
    var changeCounter: nat
    ghost var base: Layer              // the active layer when the changes were last cleared

    ghost function MetaAt(c: BlockCoord): (m: Meta)
      reads this
    {
      if c in metadata3D then metadata3D[c] else map[]
    }

    ghost predicate Shaped() {
      blocks3D.Length0 == MAX_LAYERS && blocks3D.Length1 == 16 && blocks3D.Length2 == 16
    }

    /** The id at a layer and local position. */
    ghost function IdAt(layer: nat, p: Vec2): (id: nat)
      requires Shaped() && layer < MAX_LAYERS && IsLocal(p)
      reads blocks3D
    {
      blocks3D[layer, p.x, p.y]
    }

    ghost function CellAt(p: Vec2): (c: Cell)
      requires Shaped() && IsLocal(p)
      reads this, blocks3D
    {
      Cell(blocks3D[LAYER_ACTIVE, p.x, p.y], MetaAt(BlockCoord(LAYER_ACTIVE, p)))
    }

    ghost function Active(): (l: Layer)
      requires Shaped()
      reads this, blocks3D
    {
      map p | p in Locals() :: CellAt(p)
    }

    ghost predicate Changed(p: Vec2)
      reads this
    {
      BlockCoord(LAYER_ACTIVE, p) in changes3D
    }

    lemma ActiveIs(l: Layer)
      requires Shaped() && Total(l) && forall p :: IsLocal(p) ==> CellAt(p) == l[p]
      ensures Active() == l
    {
    }

    ghost function ChangedCells(): (ps: set<Vec2>)
      reads this
    {
      set p | p in Locals() && Changed(p)
    }

    /** Everything that differs from the base is recorded as changed, and the counter knows of it. */
    ghost predicate Valid()
      reads this, blocks3D
    {
      && Shaped()
      && Total(base)
      && (forall p :: IsLocal(p) ==> TracksAt(base[p], CellAt(p), Changed(p)))
      && (changeCounter == 0 ==> changes3D == {})
      && (forall c <- changes3D :: IsLocal(c.pos))
      && (forall c <- tickable3D :: c.layer == LAYER_ACTIVE && IsLocal(c.pos) && needsTick(CellAt(c.pos).id))
    }

    constructor (coords: Vec2, needsTick: nat -> bool)
      ensures Valid() && fresh(blocks3D) && this.coords == coords && changeCounter == 0
      ensures base == Active() && forall p :: IsLocal(p) ==> CellAt(p) == Cell(0, map[])
      ensures forall l: nat, p {:trigger IdAt(l, p)} :: l < MAX_LAYERS && IsLocal(p) ==> IdAt(l, p) == 0
      ensures metadata3D == map[] && changes3D == {} && tickable3D == {} && this.needsTick == needsTick
    {
      this.coords := coords;
      this.needsTick := needsTick;
      this.blocks3D := new nat[MAX_LAYERS, 16, 16]((l, x, y) => 0);
      metadata3D, changes3D, tickable3D, changeCounter := map[], {}, {}, 0;
      new;
      base := Active();
    }

    method GetBlockLayer(layer: nat, local: Vec2) returns (id: nat)
      requires Shaped() && IsLocal(local)
      ensures id == if layer >= MAX_LAYERS then 0 else blocks3D[layer, local.x, local.y]
    {
      if layer >= MAX_LAYERS {
        return 0;
      }
      return blocks3D[layer, local.x, local.y];
    }

    method GetBlockMetadataLayer(layer: nat, local: Vec2) returns (m: Meta)
      ensures m == MetaAt(BlockCoord(layer, local))
    {
      var coord := BlockCoord(layer, local);
      return if coord in metadata3D then metadata3D[coord] else map[];
    }

    method SetBlockLayer(layer: nat, local: Vec2, id: nat)
      requires Valid() && IsLocal(local)
      modifies `changes3D, `tickable3D, `changeCounter, blocks3D
      ensures Valid()
      ensures layer >= MAX_LAYERS ==> changes3D == old(changes3D) && changeCounter == old(changeCounter)
      ensures layer < MAX_LAYERS ==> changes3D == old(changes3D) + {BlockCoord(layer, local)} && changeCounter == old(changeCounter) + 1
      ensures forall l: nat, p {:trigger IdAt(l, p)} :: l < MAX_LAYERS && IsLocal(p) ==>
                IdAt(l, p) == if l == layer && p == local then id else old(IdAt(l, p))
      ensures forall p :: IsLocal(p) ==>
                CellAt(p) == if layer == LAYER_ACTIVE && p == local then old(CellAt(p)).(id := id) else old(CellAt(p))
      ensures tickable3D == if layer != LAYER_ACTIVE then old(tickable3D)
                            else if needsTick(id) then old(tickable3D) + {BlockCoord(layer, local)}
                            else old(tickable3D) - {BlockCoord(layer, local)}
    {
      if layer >= MAX_LAYERS {
        return;
      }
      var coord := BlockCoord(layer, local);
      blocks3D[layer, local.x, local.y] := id;
      changes3D := changes3D + {coord};
      changeCounter := changeCounter + 1;
      if layer == LAYER_ACTIVE {
        tickable3D := if needsTick(id) then tickable3D + {coord} else tickable3D - {coord};
      }
    }

    method SetBlock(local: Vec2, id: nat)
      requires Valid() && IsLocal(local)
      modifies `changes3D, `tickable3D, `changeCounter, blocks3D
      ensures Valid()
      ensures changes3D == old(changes3D) + {BlockCoord(LAYER_ACTIVE, local)} && changeCounter == old(changeCounter) + 1
      ensures forall p :: IsLocal(p) ==> CellAt(p) == if p == local then old(CellAt(p)).(id := id) else old(CellAt(p))
      ensures forall l: nat, p {:trigger IdAt(l, p)} :: l < MAX_LAYERS && IsLocal(p) ==>
                IdAt(l, p) == if l == LAYER_ACTIVE && p == local then id else old(IdAt(l, p))
      ensures tickable3D == if needsTick(id) then old(tickable3D) + {BlockCoord(LAYER_ACTIVE, local)}
                            else old(tickable3D) - {BlockCoord(LAYER_ACTIVE, local)}
    {
      SetBlockLayer(LAYER_ACTIVE, local, id);
    }

    method SetBlockMetadataLayer(layer: nat, local: Vec2, key: string, value: string)
      requires Valid() && IsLocal(local)
      modifies `metadata3D, `changes3D, `changeCounter
      ensures Valid()
      ensures changes3D == old(changes3D) + {BlockCoord(layer, local)} && changeCounter == old(changeCounter) + 1
      ensures forall c :: MetaAt(c) == if c == BlockCoord(layer, local) then old(MetaAt(c))[key := value] else old(MetaAt(c))
    {
      var coord := BlockCoord(layer, local);
      var meta: Meta := if coord in metadata3D then metadata3D[coord] else map[];
      metadata3D := metadata3D[coord := meta[key := value]];
      changes3D := changes3D + {coord};
      changeCounter := changeCounter + 1;
    }

    /** Places a registered behaviour's block; metadata is created only where there is none. */
    method SetBlockWithBehavior(local: Vec2, id: nat, created: Meta)
      requires Valid() && IsLocal(local)
      modifies `metadata3D, `changes3D, `tickable3D, `changeCounter, blocks3D
      ensures Valid()
      ensures changes3D == old(changes3D) + {BlockCoord(LAYER_ACTIVE, local)} && changeCounter > 0
      ensures CellAt(local) == Cell(id, if BlockCoord(LAYER_ACTIVE, local) in old(metadata3D) then old(CellAt(local)).payload else created)
      ensures forall p :: IsLocal(p) && p != local ==> CellAt(p) == old(CellAt(p))
      ensures forall l: nat, p {:trigger IdAt(l, p)} :: l < MAX_LAYERS && IsLocal(p) ==>
                IdAt(l, p) == if l == LAYER_ACTIVE && p == local then id else old(IdAt(l, p))
      ensures forall c :: c != BlockCoord(LAYER_ACTIVE, local) ==> MetaAt(c) == old(MetaAt(c))
      ensures tickable3D == if needsTick(id) then old(tickable3D) + {BlockCoord(LAYER_ACTIVE, local)}
                            else old(tickable3D) - {BlockCoord(LAYER_ACTIVE, local)}
    {
      SetBlockLayer(LAYER_ACTIVE, local, id);
      var coord := BlockCoord(LAYER_ACTIVE, local);
      if coord !in metadata3D {
        metadata3D := metadata3D[coord := created];
      }
    }

    /** Sets several metadata keys of an active block. */
    method SetBlockMetadataMap(local: Vec2, metadata: Meta)
      requires Valid() && IsLocal(local)
      modifies `metadata3D, `changes3D, `changeCounter
      ensures Valid()
      ensures changes3D == old(changes3D) + if metadata == map[] then {} else {BlockCoord(LAYER_ACTIVE, local)}
      ensures if metadata == map[] then changeCounter == old(changeCounter) else changeCounter > 0
      ensures forall c :: c != BlockCoord(LAYER_ACTIVE, local) ==> MetaAt(c) == old(MetaAt(c))
      ensures forall p :: IsLocal(p) ==>
                CellAt(p) == if p == local then Cell(old(CellAt(p)).id, old(CellAt(p)).payload + metadata) else old(CellAt(p))
    {
      var todo := metadata.Keys;
      ghost var coord := BlockCoord(LAYER_ACTIVE, local);
      while todo != {}
        invariant Valid() && todo <= metadata.Keys
        invariant changes3D == old(changes3D) + if todo == metadata.Keys then {} else {coord}
        invariant if todo == metadata.Keys then changeCounter == old(changeCounter) else changeCounter > 0
        invariant MetaAt(coord) == old(MetaAt(coord)) + (metadata - todo)
        invariant forall c :: c != coord ==> MetaAt(c) == old(MetaAt(c))
      {
        var key :| key in todo;
        SetBlockMetadataLayer(LAYER_ACTIVE, local, key, metadata[key]);
        MergeStep(old(MetaAt(coord)), metadata, todo, key);
        todo := todo - {key};
      }
      assert metadata - {} == metadata;
    }

    method ClearChanges()
      requires Valid()
      modifies `changes3D, `changeCounter, `base
      ensures Valid() && changes3D == {} && changeCounter == 0
      ensures base == Active()
    {
      changes3D := {};
      changeCounter := 0;
      base := Active();
    }

    /** The changed cells of the active layer. */
    method ActiveDelta() returns (d: Delta)
      requires Valid()
      ensures d == DeltaOf(Active(), ChangedCells())
    {
      d := map[];
      var todo := changes3D;
      while todo != {}
        invariant todo <= changes3D
        invariant forall p :: p in d <==> IsLocal(p) && Changed(p) && BlockCoord(LAYER_ACTIVE, p) !in todo
        invariant forall p <- d :: d[p] == CellAt(p)
      {
        var coord :| coord in todo;
        todo := todo - {coord};
        if coord.layer == LAYER_ACTIVE {
          var id := GetBlockLayer(coord.layer, coord.pos);
          var meta := GetBlockMetadataLayer(coord.layer, coord.pos);
          d := d[coord.pos := Cell(id, meta)];
        }
      }
    }

    /** The delta, replayed onto the contents at the last clear, gives the present contents. */
    lemma ActiveDeltaReproduces()
      requires Valid()
      ensures Replay(base, DeltaOf(Active(), ChangedCells())) == Active()
    {
      DeltaReproduces(base, Active(), ChangedCells());
    }
  }

  class WorldStorage {
    var db: map<Vec2, Delta>
    var isReady: bool

    constructor ()
      ensures db == map[] && isReady
    {
      db, isReady := map[], true;
    }

    /**
     Saves a changed chunk. The stored delta, replayed onto the chunk as it was when its changes
     were last cleared, gives the chunk as it is; a refused or failed save changes nothing.
     */
    method SaveChunk(chunk: Chunk, dbOk: bool) returns (ok: bool)
      requires chunk.Valid()
      modifies `db, chunk`changes3D, chunk`changeCounter, chunk`base
      ensures chunk.Valid() && chunk.Active() == old(chunk.Active())
      ensures ok <==> isReady && (old(chunk.changeCounter) == 0 || dbOk)
      ensures var saved := ok && old(chunk.changeCounter) > 0;
              && (saved ==> db == old(db)[chunk.coords := DeltaOf(old(chunk.Active()), old(chunk.ChangedCells()))])
              && (saved ==> Replay(old(chunk.base), db[chunk.coords]) == chunk.Active())
              && (saved ==> chunk.base == chunk.Active() && chunk.changes3D == {} && chunk.changeCounter == 0)
              && (!saved ==> db == old(db) && unchanged(chunk))
    {
      if !isReady {
        return false;
      }
      if chunk.changeCounter == 0 {
        return true;
      }
      var delta := chunk.ActiveDelta();
      chunk.ActiveDeltaReproduces();
      if !dbOk {
        return false;
      }
      db := db[chunk.coords := delta];
      chunk.ClearChanges();
      return true;
    }

    /** Replays a delta onto a chunk, skipping positions outside it; the replayed cells count as changed. */
    method ApplyDeltaToChunk(chunk: Chunk, delta: Delta)
      requires chunk.Valid()
      modifies chunk, chunk.blocks3D
      ensures chunk.Valid() && chunk.base == old(chunk.base)
      ensures forall p :: IsLocal(p) ==>
                chunk.CellAt(p) == if p in delta then Replayed(old(chunk.CellAt(p)), delta[p]) else old(chunk.CellAt(p))
      ensures forall p :: IsLocal(p) ==> (chunk.Changed(p) <==> old(chunk.Changed(p)) || p in delta)
      ensures chunk.changeCounter > 0 <==> old(chunk.changeCounter) > 0 || exists p :: IsLocal(p) && p in delta
      ensures forall l: nat, p {:trigger chunk.IdAt(l, p)} :: l < MAX_LAYERS && l != LAYER_ACTIVE && IsLocal(p) ==>
                chunk.IdAt(l, p) == old(chunk.IdAt(l, p))
      ensures forall c: BlockCoord :: c.layer != LAYER_ACTIVE ==> chunk.MetaAt(c) == old(chunk.MetaAt(c))
    {
      var todo := delta.Keys;
      while todo != {}
        invariant chunk.Valid() && chunk.base == old(chunk.base) && todo <= delta.Keys
        invariant forall p :: IsLocal(p) ==>
                    chunk.CellAt(p) == if p in delta && p !in todo
                                       then Replayed(old(chunk.CellAt(p)), delta[p]) else old(chunk.CellAt(p))
        invariant forall p :: IsLocal(p) ==> (chunk.Changed(p) <==> old(chunk.Changed(p)) || (p in delta && p !in todo))
        invariant chunk.changeCounter > 0 <==> old(chunk.changeCounter) > 0 || exists p :: IsLocal(p) && p in delta && p !in todo
        invariant forall l: nat, p {:trigger chunk.IdAt(l, p)} :: l < MAX_LAYERS && l != LAYER_ACTIVE && IsLocal(p) ==>
                    chunk.IdAt(l, p) == old(chunk.IdAt(l, p))
        invariant forall c: BlockCoord :: c.layer != LAYER_ACTIVE ==> chunk.MetaAt(c) == old(chunk.MetaAt(c))
      {
        var pos :| pos in todo;
        todo := todo - {pos};
        if IsLocal(pos) {
          ApplyCell(chunk, pos, delta[pos]);
        }
      }
    }

    static method ApplyCell(chunk: Chunk, pos: Vec2, cell: Cell)
      requires chunk.Valid() && IsLocal(pos)
      modifies chunk, chunk.blocks3D
      ensures chunk.Valid() && chunk.base == old(chunk.base)
      ensures forall p :: IsLocal(p) ==>
                chunk.CellAt(p) == if p == pos then Replayed(old(chunk.CellAt(p)), cell) else old(chunk.CellAt(p))
      ensures chunk.changes3D == old(chunk.changes3D) + {BlockCoord(LAYER_ACTIVE, pos)} && chunk.changeCounter > 0
      ensures forall l: nat, p {:trigger chunk.IdAt(l, p)} :: l < MAX_LAYERS && l != LAYER_ACTIVE && IsLocal(p) ==>
                chunk.IdAt(l, p) == old(chunk.IdAt(l, p))
      ensures forall c: BlockCoord :: c.layer != LAYER_ACTIVE ==> chunk.MetaAt(c) == old(chunk.MetaAt(c))
      ensures chunk.tickable3D == if chunk.needsTick(cell.id) then old(chunk.tickable3D) + {BlockCoord(LAYER_ACTIVE, pos)}
                                  else old(chunk.tickable3D) - {BlockCoord(LAYER_ACTIVE, pos)}
    {
      chunk.SetBlock(pos, cell.id);
      MergePayload(chunk, pos, cell.payload);
    }

    static method MergePayload(chunk: Chunk, pos: Vec2, payload: Meta)
      requires chunk.Valid() && IsLocal(pos) && BlockCoord(LAYER_ACTIVE, pos) in chunk.changes3D && chunk.changeCounter > 0
      modifies chunk`metadata3D, chunk`changes3D, chunk`changeCounter
      ensures chunk.Valid() && chunk.changes3D == old(chunk.changes3D) && chunk.changeCounter > 0
      ensures forall p :: IsLocal(p) ==>
                chunk.CellAt(p) == if p == pos then Cell(old(chunk.CellAt(p)).id, old(chunk.CellAt(p)).payload + payload) else old(chunk.CellAt(p))
      ensures forall c :: c != BlockCoord(LAYER_ACTIVE, pos) ==> chunk.MetaAt(c) == old(chunk.MetaAt(c))
    {
      if payload != map[] {
        chunk.SetBlockMetadataMap(pos, payload);
      } else {
        assert chunk.CellAt(pos).payload + payload == chunk.CellAt(pos).payload;
      }
    }

    /** Replays what is stored for a chunk, if anything, onto it; a refused or failed read changes nothing. */
    method LoadAndApplyChunk(chunk: Chunk, dbOk: bool) returns (ok: bool)
      requires chunk.Valid()
      modifies chunk, chunk.blocks3D
      ensures ok == (isReady && dbOk)
      ensures chunk.Valid() && chunk.base == old(chunk.base)
      ensures var delta := if ok && chunk.coords in db then db[chunk.coords] else map[];
              && (forall p :: IsLocal(p) ==>
                    chunk.CellAt(p) == if p in delta then Replayed(old(chunk.CellAt(p)), delta[p]) else old(chunk.CellAt(p)))
              && (forall p :: IsLocal(p) ==> (chunk.Changed(p) <==> old(chunk.Changed(p)) || p in delta))
              && (chunk.changeCounter > 0 <==> old(chunk.changeCounter) > 0 || exists p :: IsLocal(p) && p in delta)
      ensures forall l: nat, p {:trigger chunk.IdAt(l, p)} :: l < MAX_LAYERS && l != LAYER_ACTIVE && IsLocal(p) ==>
                chunk.IdAt(l, p) == old(chunk.IdAt(l, p))
    {
      if !isReady || !dbOk {
        return false;
      }
      ApplyDeltaToChunk(chunk, if chunk.coords in db then db[chunk.coords] else map[]);
      return true;
    }
  }
}
