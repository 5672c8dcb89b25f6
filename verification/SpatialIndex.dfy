/**
 internal/world/spatial_index.go: a grid of cells over live entities.

 The index keeps, for every entity, the set of cells its box covered when it was last
 inserted or updated, and for every cell the entities registered in it. Queries visit the
 cells of the query box and test each entity's live position.
 */
module SpatialIndexing {
  import opened Common
  import opened Grid

  /** An entity id, of which only equality matters. */
  datatype Id = Id(n: nat)

  /** entity.Entity, reduced to what the index and the regions read. */
  class Entity {
    const id: Id
    var position: Vec2
    var precisePos: Point
    var size: Point

    constructor (id: Id, position: Vec2, precisePos: Point, size: Point)
      ensures this.id == id && this.position == position
      ensures this.precisePos == precisePos && this.size == size
    {
      this.id := id;
      this.position := position;
      this.precisePos := precisePos;
      this.size := size;
    }
  }

  datatype Bounds = Bounds(minX: real, minZ: real, maxX: real, maxZ: real)
  {
    predicate Ordered() {
      minX <= maxX && minZ <= maxZ
    }
  }

  function BoxAround(center: Point, halfWidth: real, halfHeight: real): (b: Bounds) {
    Bounds(center.x - halfWidth, center.y - halfHeight, center.x + halfWidth, center.y + halfHeight)
  }

  function EntityBounds(precisePos: Point, size: Point): (b: Bounds) {
    BoxAround(precisePos, size.x / 2.0, size.y / 2.0)
  }

  /** The box of an entity reaches half its size to each side of its centre. */
  lemma EntityBoundsAreCentred(p: Point, size: Point)
    ensures EntityBounds(p, size) == Bounds(p.x - size.x / 2.0, p.y - size.y / 2.0, p.x + size.x / 2.0, p.y + size.y / 2.0)
  {
  }

  /** A hitbox of non-negative extent; for others Go may ask for a negative slice capacity and panic. */
  predicate Sized(size: Point) {
    size.x >= 0.0 && size.y >= 0.0
  }

  // ----- cell cover -----

  predicate InCover(b: Bounds, size: real, k: Key)
    requires size > 0.0
  {
    && LowCell(b.minX, size) <= k.x <= HighCell(b.maxX, size)
    && LowCell(b.minZ, size) <= k.z <= HighCell(b.maxZ, size)
  }

  ghost function Cover(b: Bounds, size: real): (ks: set<Key>)
    requires size > 0.0
    ensures forall k: Key :: k in ks <==> InCover(b, size, k)
  {
    set x: int, z: int {:trigger Key(x, z)} |
      LowCell(b.minX, size) <= x <= HighCell(b.maxX, size) && LowCell(b.minZ, size) <= z <= HighCell(b.maxZ, size)
      :: Key(x, z)
  }

  /** The capacity getCellsForBounds asks for; Go panics when it is negative. */
  function Capacity(b: Bounds, size: real): (n: int)
    requires size > 0.0
  {
    (HighCell(b.maxX, size) - LowCell(b.minX, size) + 1) * (HighCell(b.maxZ, size) - LowCell(b.minZ, size) + 1)
  }

  function ToSet<T(==)>(s: seq<T>): (r: set<T>) {
    set x | x in s
  }

  /** Ordered bounds cover at least one cell, so the capacity is positive. */
  lemma OrderedBoundsHaveCells(b: Bounds, size: real)
    requires size > 0.0 && b.Ordered()
    ensures Capacity(b, size) >= 1
    ensures InCover(b, size, Key(LowCell(b.minX, size), LowCell(b.minZ, size)))
  {
    CellWindowCovers(b.minX, b.minX, b.maxX, size);
    CellWindowCovers(b.minZ, b.minZ, b.maxZ, size);
    var w := HighCell(b.maxX, size) - LowCell(b.minX, size) + 1;
    var h := HighCell(b.maxZ, size) - LowCell(b.minZ, size) + 1;
    assert w * h >= w >= 1;
  }

  method CellsForBounds(b: Bounds, size: real) returns (cells: seq<Key>)
    requires size > 0.0 && Capacity(b, size) >= 0
    ensures forall k: Key :: k in cells <==> InCover(b, size, k)
    ensures Distinct(cells)
  {
    var minX, maxX := LowCell(b.minX, size), HighCell(b.maxX, size);
    var minZ, maxZ := LowCell(b.minZ, size), HighCell(b.maxZ, size);
    cells := [];
    var x := minX;
    while x <= maxX
      invariant x >= minX
      invariant forall k :: k in cells <==> InCover(b, size, k) && k.x < x
      invariant Distinct(cells)
    {
      var z := minZ;
      while z <= maxZ
        invariant z >= minZ
        invariant forall k :: k in cells <==> InCover(b, size, k) && (k.x < x || (k.x == x && k.z < z))
        invariant Distinct(cells)
        decreases maxZ - z
      {
        assert Key(x, z) !in cells;
        cells := cells + [Key(x, z)];
        z := z + 1;
      }
      x := x + 1;
    }
  }

  // ----- queries as predicates on points -----

  datatype Query =
    | Range(center: Point, radius: real)
    | Rect(box: Bounds)
  {
    predicate WellFormed() {
      match this
      case Range(_, radius) => radius >= 0.0
      case Rect(box) => box.Ordered()
    }

    function Box(): (b: Bounds) {
      match this
      case Range(center, radius) => BoxAround(center, radius, radius)
      case Rect(box) => box
    }

    predicate Contains(p: Point) {
      match this
      case Range(center, radius) =>
        var dx, dz := p.x - center.x, p.y - center.y;
        dx * dx + dz * dz <= radius * radius
      case Rect(box) =>
        p.x >= box.minX && p.x <= box.maxX && p.y >= box.minZ && p.y <= box.maxZ
    }
  }

  /** A range query contains exactly the points at most the radius away. */
  lemma RangeContains(center: Point, radius: real, p: Point)
    ensures Range(center, radius).Contains(p) <==>
            (p.x - center.x) * (p.x - center.x) + (p.y - center.y) * (p.y - center.y) <= radius * radius
  {
  }

  /** The points at most the radius away from the centre. */
  ghost function Disc(center: Point, radius: real): (ps: iset<Point>) {
    iset p: Point | (p.x - center.x) * (p.x - center.x) + (p.y - center.y) * (p.y - center.y) <= radius * radius
  }

  lemma InDisc(center: Point, radius: real, p: Point)
    ensures p in Disc(center, radius) <==>
            (p.x - center.x) * (p.x - center.x) + (p.y - center.y) * (p.y - center.y) <= radius * radius
  {
  }

  lemma DiscIsRange(center: Point, radius: real)
    ensures forall p :: p in Disc(center, radius) <==> Range(center, radius).Contains(p)
  {
    forall p ensures p in Disc(center, radius) <==> Range(center, radius).Contains(p) {
      RangeContains(center, radius, p);
    }
  }

  lemma RectContains(minX: real, minZ: real, maxX: real, maxZ: real, p: Point)
    ensures Rect(Bounds(minX, minZ, maxX, maxZ)).Contains(p) <==> minX <= p.x <= maxX && minZ <= p.y <= maxZ
  {
  }

  /** The cells of a cover: from the floored minimum to the truncated maximum, on both axes. */
  lemma CoverIsWindow(b: Bounds, size: real, k: Key)
    requires size > 0.0
    ensures k in Cover(b, size) <==>
            (b.minX / size).Floor <= k.x <= Trunc(b.maxX / size) && (b.minZ / size).Floor <= k.z <= Trunc(b.maxZ / size)
  {
    LowCellIsFloor(b.minX, size);
    LowCellIsFloor(b.minZ, size);
  }

  /** The number of cells asked for: the width times the height of that window, negative if just one of them is. */
  lemma CapacityIs(b: Bounds, size: real)
    requires size > 0.0
    ensures Capacity(b, size) ==
            (Trunc(b.maxX / size) - (b.minX / size).Floor + 1) * (Trunc(b.maxZ / size) - (b.minZ / size).Floor + 1)
  {
    LowCellIsFloor(b.minX, size);
    LowCellIsFloor(b.minZ, size);
  }

  lemma SquareMonotone(r: real, d: real)
    requires 0.0 <= r < d
    ensures r * r < d * d
  {
    assert (d - r) * r >= 0.0;
    assert (d - r) * d > 0.0;
  }

  lemma SquareBound(d: real, r: real)
    requires r >= 0.0 && d * d <= r * r
    ensures -r <= d <= r
  {
    if d > r {
      SquareMonotone(r, d);
    } else if -d > r {
      SquareMonotone(r, -d);
    }
  }

  /** A contained point lies in the query's box. */
  lemma ContainedInBox(q: Query, p: Point)
    requires q.WellFormed() && q.Contains(p)
    ensures q.Box().minX <= p.x <= q.Box().maxX && q.Box().minZ <= p.y <= q.Box().maxZ
  {
    if q.Range? {
      var dx, dz := p.x - q.center.x, p.y - q.center.y;
      assert dx * dx >= 0.0 && dz * dz >= 0.0;
      SquareBound(dx, q.radius);
      SquareBound(dz, q.radius);
    }
  }

  /** The cell of an entity's centre is shared by its own cover and by every query that contains it. */
  lemma CoversMeet(q: Query, p: Point, extent: Point, size: real)
    requires size > 0.0 && Sized(extent)
    requires q.WellFormed() && q.Contains(p)
    ensures !(Cover(EntityBounds(p, extent), size) !! Cover(q.Box(), size))
  {
    ContainedInBox(q, p);
    var b := EntityBounds(p, extent);
    var k := Key(LowCell(p.x, size), LowCell(p.y, size));
    CellWindowCovers(p.x, b.minX, b.maxX, size);
    CellWindowCovers(p.y, b.minZ, b.maxZ, size);
    CellWindowCovers(p.x, q.Box().minX, q.Box().maxX, size);
    CellWindowCovers(p.y, q.Box().minZ, q.Box().maxZ, size);
    assert k in Cover(b, size) && k in Cover(q.Box(), size);
  }

  // ----- the index -----

  /**
   The record of one entity. Cells share it through its entity, the only part of it a cell
   reads and the one part that never changes.
   */
  datatype Indexed = Indexed(entity: Entity, cells: set<Key>, bounds: Bounds)

  type CellMap = map<Key, map<Id, Entity>>

  ghost function CellAt(cells: CellMap, k: Key): (cell: map<Id, Entity>) {
    if k in cells then cells[k] else map[]
  }

  /** The cells after `e` has been added to each cell of `ks`. */
  ghost function WithMember(cells: CellMap, ks: set<Key>, e: Entity): (r: CellMap) {
    map k | k in cells.Keys + ks :: if k in ks then CellAt(cells, k)[e.id := e] else cells[k]
  }

  /** The cells after `id` has been removed from each cell of `ks`; a cell left empty goes. */
  ghost function WithoutMember(cells: CellMap, ks: set<Key>, id: Id): (r: CellMap) {
    map k | k in cells && (k in ks ==> cells[k] - {id} != map[]) ::
      if k in ks then cells[k] - {id} else cells[k]
  }

  /**
   An id is in a cell exactly when the cell is in the id's own cell set; no cell is empty;
   a cell holds the registered entity.
   */
  ghost predicate Consistent(cells: CellMap, records: map<Id, Indexed>) {
    && (forall k <- cells :: cells[k] != map[])
    && (forall k <- cells, id <- cells[k] ::
          id in records && k in records[id].cells && cells[k][id] == records[id].entity)
    && (forall id <- records, k <- records[id].cells :: k in cells && id in cells[k])
  }

  /** Every cell lists registered entities under their ids. */
  ghost predicate HoldEntities(cells: CellMap, records: map<Id, Indexed>) {
    forall k, id {:trigger cells[k][id]} | k in cells && id in cells[k] ::
      id in records && cells[k][id] == records[id].entity && cells[k][id].id == id
  }

  ghost predicate OwnIds(records: map<Id, Indexed>) {
    forall id {:trigger records[id].entity.id} | id in records :: records[id].entity.id == id
  }

  lemma ConsistentHolds(cells: CellMap, records: map<Id, Indexed>)
    requires Consistent(cells, records) && OwnIds(records)
    ensures HoldEntities(cells, records)
  {
    forall k, id | k in cells && id in cells[k]
      ensures id in records && cells[k][id] == records[id].entity && cells[k][id].id == id
    {
      assert records[id].entity.id == id;
    }
  }

  /** Adding a new or registered entity to more cells extends its own cell set by them. */
  lemma AddKeepsConsistent(cells: CellMap, records: map<Id, Indexed>, ks: set<Key>, r: Indexed)
    requires Consistent(cells, records)
    requires r.entity.id in records ==> r.entity == records[r.entity.id].entity
    requires r.cells == (if r.entity.id in records then records[r.entity.id].cells else {}) + ks
    ensures Consistent(WithMember(cells, ks, r.entity), records[r.entity.id := r])
  {
    var cells' := WithMember(cells, ks, r.entity);
    forall k <- cells'
      ensures cells'[k] != map[]
    {
      assert k in ks ==> r.entity.id in cells'[k];
    }
  }

  /** Removing an id from some of its cells leaves it exactly in the others. */
  lemma RemoveKeepsConsistent(cells: CellMap, records: map<Id, Indexed>, ks: set<Key>, id: Id)
    requires Consistent(cells, records) && id in records && ks <= records[id].cells
    ensures Consistent(WithoutMember(cells, ks, id), records[id := records[id].(cells := records[id].cells - ks)])
  {
    var records' := records[id := records[id].(cells := records[id].cells - ks)];
    var cells' := WithoutMember(cells, ks, id);
    forall i <- records', k <- records'[i].cells
      ensures k in cells' && i in cells'[k]
    {
      assert k in ks ==> i in cells[k] - {id};
    }
  }

  /** Leaving the old cells and entering the new ones makes the new ones the id's own cell set. */
  lemma MoveKeepsConsistent(cells: CellMap, records: map<Id, Indexed>, r: Indexed)
    requires Consistent(cells, records)
    requires r.entity.id in records && r.entity == records[r.entity.id].entity
    ensures var was := records[r.entity.id].cells;
            Consistent(WithMember(WithoutMember(cells, was - r.cells, r.entity.id), r.cells - was, r.entity),
                       records[r.entity.id := r])
  {
    var id := r.entity.id;
    var was := records[id].cells;
    RemoveKeepsConsistent(cells, records, was - r.cells, id);
    var kept := records[id := records[id].(cells := was - (was - r.cells))];
    assert kept[id].cells + (r.cells - was) == r.cells;
    AddKeepsConsistent(WithoutMember(cells, was - r.cells, id), kept, r.cells - was, r);
    assert kept[id := r] == records[id := r];
  }

  lemma ForgetKeepsConsistent(cells: CellMap, records: map<Id, Indexed>, id: Id)
    requires Consistent(cells, records) && id in records
    ensures Consistent(WithoutMember(cells, records[id].cells, id), records - {id})
  {
    RemoveKeepsConsistent(cells, records, records[id].cells, id);
    var left := records[id := records[id].(cells := records[id].cells - records[id].cells)];
    assert forall i <- records - {id} :: i in left && (records - {id})[i] == left[i];
  }

  /** The ids found in some of the cells. */
  ghost function Visited(cells: CellMap, ks: set<Key>): (ids: set<Id>) {
    set k, id | k in ks && k in cells && id in cells[k] :: id
  }

  lemma VisitedStep(cells: CellMap, ks: set<Key>, key: Key)
    ensures Visited(cells, ks + {key}) == Visited(cells, ks) + CellAt(cells, key).Keys
  {
  }

  lemma VisitedMeansMeeting(cells: CellMap, records: map<Id, Indexed>, ks: set<Key>, id: Id)
    requires Consistent(cells, records) && id in records
    ensures id in Visited(cells, ks) <==> !(records[id].cells !! ks)
  {
    if k :| k in records[id].cells && k in ks {
      assert id in cells[k];
    }
  }

  class SpatialIndex {
    const cellSize: real
    var cells: CellMap
    var entities: map<Id, Indexed>

    constructor (cellSize: real)
      ensures Valid()
      ensures this.cellSize == if cellSize <= 0.0 then 16.0 else cellSize
      ensures cells == map[] && entities == map[]
    {
      this.cellSize := if cellSize <= 0.0 then 16.0 else cellSize;
      this.cells := map[];
      this.entities := map[];
    }

    /** The cell map and the records agree, and each record's cells are the cover of its bounds. */
    ghost predicate Valid()
      reads this
    {
      && cellSize > 0.0
      && OwnIds(entities)
      && (forall id {:trigger entities[id].cells} | id in entities :: entities[id].cells == Cover(entities[id].bounds, cellSize))
      && Consistent(cells, entities)
    }

    /** The cells of bounds, in scan order; inverted bounds may have none. */
    method CellsOf(b: Bounds) returns (keys: seq<Key>)
      requires cellSize > 0.0 && Capacity(b, cellSize) >= 0
      ensures ToSet(keys) == Cover(b, cellSize) && Distinct(keys)
    {
      keys := CellsForBounds(b, cellSize);
    }

    method AddToCells(keys: seq<Key>, e: Entity)
      modifies `cells
      ensures cells == WithMember(old(cells), ToSet(keys), e)
    {
      for i := 0 to |keys|
        invariant cells == WithMember(old(cells), ToSet(keys[..i]), e)
      {
        var key := keys[i];
        assert ToSet(keys[..i + 1]) == ToSet(keys[..i]) + {key};
        var cell: map<Id, Entity> := if key in cells then cells[key] else map[];
        assert cell[e.id := e] == CellAt(old(cells), key)[e.id := e];
        cells := cells[key := cell[e.id := e]];
      }
      assert keys[..|keys|] == keys;
    }

    method RemoveFromCells(keys: set<Key>, id: Id)
      modifies `cells
      ensures cells == WithoutMember(old(cells), keys, id)
    {
      var todo := keys;
      while todo != {}
        invariant todo <= keys
        invariant cells == WithoutMember(old(cells), keys - todo, id)
      {
        var key :| key in todo;
        if key in cells {
          var cell := cells[key] - {id};
          cells := if cell == map[] then cells - {key} else cells[key := cell];
        }
        todo := todo - {key};
      }
    }

    /** The record Insert and Update leave for an entity at its present position. */
    ghost predicate RecordedNow(e: Entity)
      reads this, e
    {
      && e.id in entities
      && entities[e.id].entity == e
      && entities[e.id].bounds == EntityBounds(e.precisePos, e.size)
    }

    /** Registers an entity whose id is new. */
    method Insert(e: Entity)
      requires Valid() && e.id !in entities
      requires Capacity(EntityBounds(e.precisePos, e.size), cellSize) >= 0
      modifies this
      ensures Valid()
      ensures RecordedNow(e) && entities == old(entities)[e.id := entities[e.id]]
    {
      var bounds := EntityBounds(e.precisePos, e.size);
      var keys := CellsOf(bounds);
      AddToCells(keys, e);
      var indexed := Indexed(e, ToSet(keys), bounds);
      entities := entities[e.id := indexed];
      AddKeepsConsistent(old(cells), old(entities), ToSet(keys), indexed);
    }

    static method NewKeys(newCells: seq<Key>, oldCells: set<Key>) returns (toAdd: seq<Key>)
      ensures ToSet(toAdd) == ToSet(newCells) - oldCells
    {
      toAdd := [];
      for i := 0 to |newCells|
        invariant ToSet(toAdd) == ToSet(newCells[..i]) - oldCells
      {
        assert ToSet(newCells[..i + 1]) == ToSet(newCells[..i]) + {newCells[i]};
        if newCells[i] !in oldCells {
          assert ToSet(toAdd + [newCells[i]]) == ToSet(toAdd) + {newCells[i]};
          toAdd := toAdd + [newCells[i]];
        }
      }
      assert newCells[..|newCells|] == newCells;
    }

    /**
     Re-registers an entity at its present position, or registers it when it is unknown. The record of a
     known id keeps the object it was made with, whichever object is passed.
     */
    method Update(e: Entity)
      requires Valid()
      requires Capacity(EntityBounds(e.precisePos, e.size), cellSize) >= 0
      modifies this
      ensures Valid()
      ensures e.id in entities && entities == old(entities)[e.id := entities[e.id]]
      ensures entities[e.id].entity == if e.id in old(entities) then old(entities)[e.id].entity else e
      ensures entities[e.id].bounds == EntityBounds(e.precisePos, e.size)
    {
      if e.id !in entities {
        Insert(e);
        return;
      }
      var bounds := EntityBounds(e.precisePos, e.size);
      var newCells := CellsOf(bounds);
      var oldCells := entities[e.id].cells;
      var toAdd := NewKeys(newCells, oldCells);
      var toRemove := set k | k in oldCells && k !in newCells;
      assert toRemove == oldCells - ToSet(newCells);
      var indexed := entities[e.id].(cells := ToSet(newCells), bounds := bounds);
      assert indexed.entity.id == e.id;
      RemoveFromCells(toRemove, e.id);
      AddToCells(toAdd, indexed.entity);
      entities := entities[e.id := indexed];
      MoveKeepsConsistent(old(cells), old(entities), indexed);
    }

    method Remove(id: Id)
      requires Valid()
      modifies this
      ensures Valid()
      ensures entities == old(entities) - {id}
    {
      if id !in entities {
        return;
      }
      var indexed := entities[id];
      entities := entities - {id};
      RemoveFromCells(indexed.cells, id);
      ForgetKeepsConsistent(old(cells), old(entities), id);
    }

    /** What a query finds: the entity is inside now, and its recorded cells meet the query's cells. */
    ghost predicate Hit(q: Query, id: Id)
      requires cellSize > 0.0 && id in entities
      reads this, entities[id].entity
    {
      q.Contains(entities[id].entity.precisePos) && !(entities[id].cells !! Cover(q.Box(), cellSize))
    }

    /** The result lists each entity of `ids` once, and nothing else. */
    ghost predicate Lists(result: seq<Entity>, ids: set<Id>)
      reads this
    {
      && ids <= entities.Keys
      && Distinct(result)
      && (forall e <- result :: e.id in ids && entities[e.id].entity == e)
      && (forall id <- ids :: entities[id].entity in result)
    }

    lemma ListedIds(result: seq<Entity>, ids: set<Id>)
      requires Valid() && Lists(result, ids)
      ensures (set e | e in result :: e.id) == ids
    {
      forall id <- ids
        ensures id in set e | e in result :: e.id
      {
        assert entities[id].entity.id == id;
      }
    }

    /** Appends the unseen entities of one cell that the query contains. */
    method CollectCell(q: Query, cell: map<Id, Entity>, seen: set<Id>, result: seq<Entity>)
      returns (seen': set<Id>, result': seq<Entity>)
      requires forall id <- cell :: id in entities && cell[id] == entities[id].entity && cell[id].id == id
      requires Lists(result, seen)
      ensures Lists(result', seen')
      ensures seen' == seen + set id | id in cell && q.Contains(cell[id].precisePos)
    {
      seen', result' := seen, result;
      var todo := cell.Keys;
      while todo != {}
        invariant todo <= cell.Keys
        invariant Lists(result', seen')
        invariant seen' == seen + set id | id in cell && id !in todo && q.Contains(cell[id].precisePos)
      {
        var id :| id in todo;
        var e := cell[id];
        if id !in seen' && q.Contains(e.precisePos) {
          result', seen' := result' + [e], seen' + {id};
        }
        todo := todo - {id};
      }
    }

    ghost function Inside(q: Query): (ids: set<Id>)
      reads this, set id <- entities :: entities[id].entity
    {
      set id | id in entities && q.Contains(entities[id].entity.precisePos)
    }

    /** The loop both queries share: visit the given cells in order, listing each contained entity once. */
    method CollectKeys(q: Query, keys: seq<Key>) returns (result: seq<Entity>)
      requires HoldEntities(cells, entities)
      ensures Lists(result, Inside(q) * Visited(cells, ToSet(keys)))
    {
      var seen: set<Id> := {};
      result := [];
      for i := 0 to |keys|
        invariant Lists(result, seen)
        invariant seen == Inside(q) * Visited(cells, ToSet(keys[..i]))
      {
        assert ToSet(keys[..i + 1]) == ToSet(keys[..i]) + {keys[i]};
        InsideStep(q, ToSet(keys[..i]), keys[i]);
        if keys[i] in cells {
          seen, result := CollectCell(q, cells[keys[i]], seen, result);
        }
      }
      assert keys[..|keys|] == keys;
    }

    lemma InsideStep(q: Query, ks: set<Key>, key: Key)
      requires key in cells ==> forall id <- cells[key] :: id in entities && cells[key][id] == entities[id].entity
      ensures Inside(q) * Visited(cells, ks + {key}) == Inside(q) * Visited(cells, ks) +
                if key in cells then set id | id in cells[key] && q.Contains(cells[key][id].precisePos) else {}
    {
      VisitedStep(cells, ks, key);
      if key in cells {
        assert Inside(q) * cells[key].Keys == set id | id in cells[key] && q.Contains(cells[key][id].precisePos);
      }
    }

    method Collect(q: Query) returns (result: seq<Entity>)
      requires Valid() && Capacity(q.Box(), cellSize) >= 0
      ensures Lists(result, set id | id in entities && Hit(q, id))
    {
      var keys := CellsOf(q.Box());
      ConsistentHolds(cells, entities);
      result := CollectKeys(q, keys);
      VisitedIsHit(q, ToSet(keys));
    }

    lemma VisitedIsHit(q: Query, ks: set<Key>)
      requires Valid() && ks == Cover(q.Box(), cellSize)
      ensures Inside(q) * Visited(cells, ks) == set id | id in entities && Hit(q, id)
    {
      forall id <- entities
        ensures id in Inside(q) * Visited(cells, ks) <==> Hit(q, id)
      {
        VisitedMeansMeeting(cells, entities, ks, id);
      }
    }

    /** The recorded cells of an entity meet those of a box. */
    ghost predicate Near(id: Id, box: Bounds)
      requires cellSize > 0.0 && id in entities
      reads this
    {
      !(entities[id].cells !! Cover(box, cellSize))
    }

    /** An entity of the index that a query finds. */
    lemma ListedExactly(q: Query, result: seq<Entity>, e: Entity)
      requires Valid() && Lists(result, set id | id in entities && Hit(q, id))
      ensures e in result <==>
                e.id in entities && entities[e.id].entity == e && q.Contains(e.precisePos) && Near(e.id, q.Box())
    {
      if e.id in entities && entities[e.id].entity == e && Hit(q, e.id) {
        assert entities[e.id].entity in result;
      }
    }

    /** The same for every entity, with what the query contains put in other words. */
    lemma ListedAs(q: Query, box: Bounds, result: seq<Entity>, inside: iset<Point>)
      requires Valid() && Lists(result, set id | id in entities && Hit(q, id)) && box == q.Box()
      requires forall p :: p in inside <==> q.Contains(p)
      ensures forall e: Entity :: e in result <==>
                e.id in entities && entities[e.id].entity == e && e.precisePos in inside && Near(e.id, box)
    {
      forall e: Entity
        ensures e in result <==> e.id in entities && entities[e.id].entity == e && e.precisePos in inside && Near(e.id, box)
      {
        ListedExactly(q, result, e);
      }
    }

    method QueryRange(center: Point, radius: real) returns (result: seq<Entity>)
      requires Valid() && Capacity(BoxAround(center, radius, radius), cellSize) >= 0
      ensures Lists(result, set id | id in entities && Hit(Range(center, radius), id))
      ensures forall e: Entity :: e in result <==>
                && e.id in entities && entities[e.id].entity == e
                && e.precisePos in Disc(center, radius) && Near(e.id, BoxAround(center, radius, radius))
    {
      result := Collect(Range(center, radius));
      DiscIsRange(center, radius);
      ListedAs(Range(center, radius), BoxAround(center, radius, radius), result, Disc(center, radius));
    }

    lemma InRectExactly(box: Bounds, result: seq<Entity>, e: Entity)
      requires Valid() && Lists(result, set id | id in entities && Hit(Rect(box), id))
      ensures e in result <==>
                && e.id in entities && entities[e.id].entity == e
                && box.minX <= e.precisePos.x <= box.maxX && box.minZ <= e.precisePos.y <= box.maxZ && Near(e.id, box)
    {
      ListedExactly(Rect(box), result, e);
      RectContains(box.minX, box.minZ, box.maxX, box.maxZ, e.precisePos);
    }

    method QueryRect(minX: real, minZ: real, maxX: real, maxZ: real) returns (result: seq<Entity>)
      requires Valid() && Capacity(Bounds(minX, minZ, maxX, maxZ), cellSize) >= 0
      ensures Lists(result, set id | id in entities && Hit(Rect(Bounds(minX, minZ, maxX, maxZ)), id))
      ensures forall e: Entity :: e in result <==>
                && e.id in entities && entities[e.id].entity == e
                && minX <= e.precisePos.x <= maxX && minZ <= e.precisePos.y <= maxZ
                && Near(e.id, Bounds(minX, minZ, maxX, maxZ))
    {
      result := Collect(Rect(Bounds(minX, minZ, maxX, maxZ)));
      forall e: Entity
        ensures e in result <==>
                && e.id in entities && entities[e.id].entity == e
                && minX <= e.precisePos.x <= maxX && minZ <= e.precisePos.y <= maxZ
                && Near(e.id, Bounds(minX, minZ, maxX, maxZ))
      {
        InRectExactly(Bounds(minX, minZ, maxX, maxZ), result, e);
      }
    }

    /** For an entity in sync with its record, a hit is exactly containment: the query is a linear scan. */
    lemma SyncedHitIsContainment(q: Query, e: Entity)
      requires Valid() && q.WellFormed()
      requires RecordedNow(e) && Sized(e.size)
      ensures Hit(q, e.id) <==> q.Contains(e.precisePos)
    {
      if q.Contains(e.precisePos) {
        CoversMeet(q, e.precisePos, e.size, cellSize);
      }
    }

    /** With every entity in sync, an answer is the linear scan over all of them, each once. */
    lemma SyncedAnswerIsLinearScan(q: Query, result: seq<Entity>)
      requires Valid() && q.WellFormed()
      requires forall id <- entities :: RecordedNow(entities[id].entity) && Sized(entities[id].entity.size)
      requires Lists(result, set id | id in entities && Hit(q, id))
      ensures Distinct(result)
      ensures forall e: Entity :: e in result <==>
                e.id in entities && entities[e.id].entity == e && q.Contains(e.precisePos)
      ensures q.Range? ==> forall e: Entity :: e in result <==>
                e.id in entities && entities[e.id].entity == e && e.precisePos in Disc(q.center, q.radius)
    {
      if q.Range? {
        DiscIsRange(q.center, q.radius);
      }
      forall id <- entities
        ensures Hit(q, id) <==> q.Contains(entities[id].entity.precisePos)
      {
        SyncedHitIsContainment(q, entities[id].entity);
      }
    }
  }
}
