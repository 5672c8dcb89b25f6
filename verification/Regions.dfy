/**
 internal/world/region_manager.go: the world split into square regions, each with its own
 spatial index. Entities are registered in the region of their block position; range
 queries visit a window of regions and merge the answers.
 */
module Regions {
  import opened Common
  import opened Grid
  import opened SpatialIndexing

  /** What the manager remembers of one entity. */
  datatype Record = Record(entity: Entity, region: Key, bounds: Bounds)

  /** The entity is inside the query now, and its recorded cells meet the query's cells. */
  ghost predicate Touches(q: Query, r: Record)
    reads r.entity
  {
    q.Contains(r.entity.precisePos) && !(Cover(r.bounds, 16.0) !! Cover(q.Box(), 16.0))
  }

  /** What a query over the regions finds: a touched record whose region is in the query's window. */
  ghost predicate Found(q: Query, r: Record, regionSize: int)
    requires RegionWidth(regionSize) > 0.0
    reads r.entity
  {
    Touches(q, r) && InCover(q.Box(), RegionWidth(regionSize), r.region)
  }

  /** The recorded cells and region of an entity meet those of a box. */
  ghost predicate Reached(r: Record, box: Bounds, regionSize: int)
    requires RegionWidth(regionSize) > 0.0
  {
    !(Cover(r.bounds, 16.0) !! Cover(box, 16.0)) && InCover(box, RegionWidth(regionSize), r.region)
  }

  /** The block position is the precise position truncated toward zero, as entity updates leave it. */
  ghost predicate Truncated(e: Entity)
    reads e
  {
    e.position == Vec2(Trunc(e.precisePos.x), Trunc(e.precisePos.y))
  }

  /** A record in sync with its entity: its region and bounds are those of the present position. */
  ghost predicate InSync(r: Record, regionSize: int)
    requires regionSize > 0
    reads r.entity
  {
    var e := r.entity;
    && Truncated(e)
    && Sized(e.size)
    && r.region == RegionKey(e.position, regionSize)
    && r.bounds == EntityBounds(e.precisePos, e.size)
  }

  /** For a record in sync, being found is exactly being in range: the region window never misses. */
  lemma InSyncFoundIsContained(q: Query, r: Record, regionSize: int)
    requires regionSize > 0 && q.WellFormed() && InSync(r, regionSize)
    ensures RegionWidth(regionSize) > 0.0
    ensures Found(q, r, regionSize) <==> q.Contains(r.entity.precisePos)
  {
    var e := r.entity;
    if q.Contains(e.precisePos) {
      ContainedInBox(q, e.precisePos);
      RegionWindowCovers(e.precisePos.x, q.Box().minX, q.Box().maxX, regionSize);
      RegionWindowCovers(e.precisePos.y, q.Box().minZ, q.Box().maxZ, regionSize);
      CoversMeet(q, e.precisePos, e.size, 16.0);
    }
  }

  type Tables = map<Key, map<Id, Indexed>>

  /** Every record is held by the table of its region, and by no other; the region map says which. */
  ghost predicate Agree(tables: Tables, records: map<Id, Record>, entityRegion: map<Id, Key>) {
    && (forall k <- tables, id <- tables[k] ::
          id in records && records[id] == Record(tables[k][id].entity, k, tables[k][id].bounds))
    && (forall id <- records :: records[id].region in tables && id in tables[records[id].region])
    && entityRegion == map id | id in records :: records[id].region
  }

  lemma AgreeNew(tables: Tables, records: map<Id, Record>, entityRegion: map<Id, Key>, key: Key)
    requires Agree(tables, records, entityRegion) && key !in tables
    ensures Agree(tables[key := map[]], records, entityRegion)
  {
  }

  lemma AgreeSet(tables: Tables, records: map<Id, Record>, entityRegion: map<Id, Key>, key: Key, id: Id, i: Indexed)
    requires Agree(tables, records, entityRegion) && key in tables
    requires id in records ==> records[id].region == key
    ensures Agree(tables[key := tables[key][id := i]],
                  records[id := Record(i.entity, key, i.bounds)], entityRegion[id := key])
  {
    assert forall k <- tables :: id in tables[k] ==> records[id].region == k;
  }

  lemma AgreeRemove(tables: Tables, records: map<Id, Record>, entityRegion: map<Id, Key>, key: Key, id: Id)
    requires Agree(tables, records, entityRegion) && id in records && key == records[id].region
    ensures Agree(tables[key := tables[key] - {id}], records - {id}, entityRegion - {id})
  {
  }

  lemma Replace(records: map<Id, Record>, id: Id, r: Record)
    ensures (records - {id})[id := r] == records[id := r]
  {
  }

  class RegionManager {
    const regionSize: int
    var regions: map<Key, SpatialIndex>
    var entityRegion: map<Id, Key>
    ghost var records: map<Id, Record>  // the registered entities, as recorded

    constructor (regionSize: int)
      ensures Valid() && records == map[] && regions == map[]
      ensures this.regionSize == if regionSize <= 0 then 4 else regionSize
    {
      this.regionSize := if regionSize <= 0 then 4 else regionSize;
      this.regions := map[];
      this.entityRegion := map[];
      this.records := map[];
    }

    /** Every region has its own well-formed index. */
    ghost predicate IndexesOk()
      reads this, regions.Values
    {
      && (forall k {:trigger regions[k].Valid()} | k in regions :: regions[k].Valid())
      && (forall k {:trigger regions[k].cellSize} | k in regions :: regions[k].cellSize == 16.0)
      && (forall k <- regions, k' <- regions :: k != k' ==> regions[k] != regions[k'])
    }

    ghost function Contents(): (t: Tables)
      reads this, regions.Values
    {
      map k | k in regions :: regions[k].entities
    }

    ghost predicate Valid()
      reads this, regions.Values
    {
      regionSize > 0 && IndexesOk() && Agree(Contents(), records, entityRegion)
    }

    /** An index that nobody touched is still well formed. */
    twostate lemma Untouched(x: SpatialIndex)
      requires old(x.Valid()) && unchanged(x)
      ensures x.Valid()
    {
    }

    /** Only the index of `key` changed: the indexes stay well formed. */
    twostate lemma OnlyChanged(key: Key)
      requires old(IndexesOk()) && regions == old(regions)
      requires key in regions && regions[key].Valid()
      requires forall k <- regions | k != key :: unchanged(regions[k])
      ensures IndexesOk()
    {
      forall k <- regions | k != key {
        Untouched(regions[k]);
      }
    }

    /** One index was added. */
    twostate lemma OnlyAdded(key: Key)
      requires old(IndexesOk()) && key !in old(regions) && key in regions
      requires regions == old(regions)[key := regions[key]] && fresh(regions[key])
      requires regions[key].Valid() && regions[key].cellSize == 16.0
      requires forall k <- old(regions) :: unchanged(regions[k])
      ensures IndexesOk()
    {
      forall k <- old(regions) {
        Untouched(regions[k]);
      }
    }

    /** When at most one index differs, one table is replaced or added. */
    twostate lemma OneTable(key: Key)
      requires key in regions && regions == old(regions)[key := regions[key]]
      requires forall k <- old(regions) | k != key :: unchanged(old(regions)[k])
      ensures Contents() == old(Contents())[key := regions[key].entities]
    {
    }

    /** The manager is well formed again when only the index of `key` changed and the new table agrees. */
    twostate lemma Changed(key: Key)
      requires old(Valid()) && regions == old(regions)
      requires key in regions && regions[key].Valid()
      requires forall k <- regions | k != key :: unchanged(regions[k])
      requires Agree(old(Contents())[key := regions[key].entities], records, entityRegion)
      ensures Valid()
    {
      OnlyChanged(key);
      OneTable(key);
    }

    method CreateRegion(key: Key) returns (region: SpatialIndex)
      requires Valid() && key !in regions
      modifies `regions
      ensures Valid() && regions == old(regions)[key := region] && fresh(region)
    {
      region := new SpatialIndex(16.0);
      regions := regions[key := region];
      OnlyAdded(key);
      OneTable(key);
      AgreeNew(old(Contents()), records, entityRegion, key);
    }

    /** Every registered entity, except perhaps `id`, is recorded where it now is. */
    ghost predicate InSyncExcept(id: Id)
      requires regionSize > 0
      reads this, set i <- records :: records[i].entity
    {
      forall i <- records :: i != id ==> InSync(records[i], regionSize)
    }

    ghost predicate AllInSync()
      requires regionSize > 0
      reads this, set id <- records :: records[id].entity
    {
      forall id <- records :: InSync(records[id], regionSize)
    }

    /** The record an entity gets in a region at its present position. */
    static ghost function RecordAt(key: Key, e: Entity): (r: Record)
      reads e
    {
      Record(e, key, EntityBounds(e.precisePos, e.size))
    }

    /** The bounds of the entity do not make the index ask for a negative slice capacity. */
    static ghost predicate Fits(e: Entity)
      reads e
    {
      Capacity(EntityBounds(e.precisePos, e.size), 16.0) >= 0
    }

    static lemma SizedFits(e: Entity)
      requires Sized(e.size)
      ensures Fits(e)
    {
      OrderedBoundsHaveCells(EntityBounds(e.precisePos, e.size), 16.0);
    }

    /** Puts an entity that no region holds into its region. */
    method Enter(key: Key, e: Entity)
      requires Valid() && e.id !in records && key in regions && Fits(e)
      modifies `entityRegion, `records, regions[key]
      ensures Valid()
      ensures records == old(records)[e.id := RecordAt(key, e)]
    {
      assert e.id !in Contents()[key];
      regions[key].Insert(e);
      entityRegion := entityRegion[e.id := key];
      records := records[e.id := RecordAt(key, e)];
      AgreeSet(old(Contents()), old(records), old(entityRegion), key, e.id, regions[key].entities[e.id]);
      Changed(key);
    }

    /** Takes a registered entity out of its region. */
    method Leave(key: Key, id: Id)
      requires Valid() && id in records && key == records[id].region && key in regions
      modifies `entityRegion, `records, regions[key]
      ensures Valid() && regions == old(regions)
      ensures records == old(records) - {id}
    {
      regions[key].Remove(id);
      entityRegion := entityRegion - {id};
      records := records - {id};
      AgreeRemove(old(Contents()), old(records), old(entityRegion), key, id);
      Changed(key);
    }

    /** Refreshes a registered id inside its region; the record keeps its object. */
    method Refresh(key: Key, e: Entity)
      requires Valid() && e.id in records && key == records[e.id].region && key in regions && Fits(e)
      modifies `records, regions[key]
      ensures Valid()
      ensures records == old(records)[e.id := RecordAt(key, e).(entity := old(records)[e.id].entity)]
    {
      assert e.id in Contents()[key];
      regions[key].Update(e);
      records := records[e.id := RecordAt(key, e).(entity := records[e.id].entity)];
      AgreeSet(old(Contents()), old(records), entityRegion, key, e.id, regions[key].entities[e.id]);
      assert entityRegion[e.id := key] == entityRegion;
      Changed(key);
    }

    /** The record of an entity registered at its present position. */
    ghost function RecordNow(e: Entity): (r: Record)
      requires regionSize > 0
      reads e
    {
      RecordAt(RegionKey(e.position, regionSize), e)
    }

    method IsRegistered(id: Id) returns (r: bool)
      requires Valid()
      ensures r <==> id in records
    {
      r := id in entityRegion;
    }

    /** Registers an entity whose id is new. */
    method AddEntity(e: Entity)
      requires Valid() && e.id !in records && Fits(e)
      modifies this, regions.Values
      ensures Valid() && fresh(regions.Values - old(regions.Values))
      ensures records == old(records)[e.id := RecordNow(e)]
      ensures old(AllInSync()) && Truncated(e) && Sized(e.size) ==> AllInSync()
    {
      var key := RegionKey(e.position, regionSize);
      AddAt(key, e);
    }

    method AddAt(key: Key, e: Entity)
      requires Valid() && e.id !in records && Fits(e)
      modifies this, regions.Values
      ensures Valid() && fresh(regions.Values - old(regions.Values))
      ensures records == old(records)[e.id := RecordAt(key, e)]
    {
      if key !in regions {
        var _ := CreateRegion(key);
      }
      Enter(key, e);
    }

    /** Forgets an entity; an unknown id changes nothing. */
    method RemoveEntity(id: Id)
      requires Valid()
      modifies `entityRegion, `records, regions.Values
      ensures Valid()
      ensures records == old(records) - {id}
      ensures old(InSyncExcept(id)) ==> AllInSync()
    {
      if id !in entityRegion {
        return;
      }
      Leave(entityRegion[id], id);
    }

    /** The object under an id after moving it to a region: the index of the same region keeps the one it has. */
    static ghost function Keeper(was: map<Id, Record>, key: Key, e: Entity): (o: Entity) {
      if e.id in was && was[e.id].region == key then was[e.id].entity else e
    }

    /** Re-registers an id at the position of the entity, in another region when it has crossed over. */
    method MoveEntity(e: Entity)
      requires Valid() && Fits(e)
      modifies this, regions.Values
      ensures Valid() && fresh(regions.Values - old(regions.Values))
      ensures records == old(records)[e.id := RecordNow(e).(entity := Keeper(old(records), RegionKey(e.position, regionSize), e))]
      ensures old(InSyncExcept(e.id)) && Truncated(e) && Sized(e.size) && records[e.id].entity == e ==> AllInSync()
    {
      var newKey := RegionKey(e.position, regionSize);
      MoveTo(newKey, e);
    }

    method MoveTo(newKey: Key, e: Entity)
      requires Valid() && Fits(e)
      modifies this, regions.Values
      ensures Valid() && fresh(regions.Values - old(regions.Values))
      ensures records == old(records)[e.id := RecordAt(newKey, e).(entity := Keeper(old(records), newKey, e))]
    {
      if e.id !in entityRegion {
        AddAt(newKey, e);
        return;
      }
      var oldKey := entityRegion[e.id];
      if oldKey == newKey {
        Refresh(oldKey, e);
        return;
      }
      Cross(oldKey, newKey, e);
    }

    method Cross(oldKey: Key, newKey: Key, e: Entity)
      requires Valid() && Fits(e)
      requires e.id in records && oldKey == records[e.id].region && oldKey in regions
      modifies this, regions.Values
      ensures Valid() && fresh(regions.Values - old(regions.Values))
      ensures records == old(records)[e.id := RecordAt(newKey, e)]
    {
      Leave(oldKey, e.id);
      ghost var held := regions.Values;
      AddAt(newKey, e);
      assert fresh(regions.Values - held);
      Replace(old(records), e.id, RecordAt(newKey, e));
    }

    /** The result lists each recorded entity of `ids` once, and nothing else. */
    ghost predicate Lists(result: seq<Entity>, ids: set<Id>)
      reads this
    {
      && ids <= records.Keys
      && Distinct(result)
      && (forall e <- result :: e.id in ids && records[e.id].entity == e)
      && (forall id <- ids :: records[id].entity in result)
    }

    /** Appends the found entities that were not seen before. */
    method Merge(found: seq<Entity>, seen: set<Id>, result: seq<Entity>)
      returns (seen': set<Id>, result': seq<Entity>)
      requires Lists(result, seen)
      requires forall e <- found :: e.id in records && records[e.id].entity == e
      ensures Lists(result', seen')
      ensures seen' == seen + set e | e in found :: e.id
    {
      seen', result' := seen, result;
      for i := 0 to |found|
        invariant Lists(result', seen')
        invariant seen' == seen + set e | e in found[..i] :: e.id
      {
        var e := found[i];
        assert found[..i + 1] == found[..i] + [e];
        if e.id !in seen' {
          result', seen' := result' + [e], seen' + {e.id};
        }
      }
      assert found[..|found|] == found;
    }

    /** The touched records of one region. */
    ghost function TouchedIn(q: Query, key: Key): (ids: set<Id>)
      reads this, set id <- records :: records[id].entity
    {
      set id | id in records && records[id].region == key && Touches(q, records[id])
    }

    lemma HitIsTouched(q: Query, key: Key, id: Id)
      requires Valid() && key in regions
      ensures id in TouchedIn(q, key) <==> id in regions[key].entities && regions[key].Hit(q, id)
    {
      var x := regions[key];
      assert x.Valid() && x.cellSize == 16.0;
      if id in x.entities {
        assert id in Contents()[key] && Contents()[key][id] == x.entities[id];
        assert x.entities[id].cells == Cover(x.entities[id].bounds, 16.0);
      }
    }

    lemma HitsAreTouched(q: Query, key: Key)
      requires Valid() && key in regions
      ensures TouchedIn(q, key) == set id | id in regions[key].entities && regions[key].Hit(q, id)
    {
      forall id
        ensures id in TouchedIn(q, key) <==> id in regions[key].entities && regions[key].Hit(q, id)
      {
        HitIsTouched(q, key, id);
      }
    }

    /** Queries one region of the window, if it exists, and merges what it finds. */
    method VisitRegion(q: Query, key: Key, seen: set<Id>, result: seq<Entity>)
      returns (seen': set<Id>, result': seq<Entity>)
      requires Valid() && q.Range? && Capacity(q.Box(), 16.0) >= 0
      requires Lists(result, seen)
      ensures Lists(result', seen')
      ensures seen' == seen + TouchedIn(q, key)
    {
      if key !in regions {
        assert key !in Contents();
        return seen, result;
      }
      var found := regions[key].QueryRange(q.center, q.radius);
      HitsAreTouched(q, key);
      assert forall id <- regions[key].entities :: id in Contents()[key];
      regions[key].ListedIds(found, TouchedIn(q, key));
      seen', result' := Merge(found, seen, result);
    }

    /** The touched records of the window's regions before region (rx, rz) in scan order. */
    ghost function TouchedBefore(q: Query, lo: Key, hi: Key, rx: int, rz: int): (ids: set<Id>)
      reads this, set id <- records :: records[id].entity
    {
      set id | && id in records && Touches(q, records[id]) && Within(lo, hi, records[id].region)
               && var k := records[id].region; (k.x < rx || (k.x == rx && k.z < rz))
    }

    static predicate Within(lo: Key, hi: Key, k: Key) {
      lo.x <= k.x <= hi.x && lo.z <= k.z <= hi.z
    }

    lemma TouchedStep(q: Query, lo: Key, hi: Key, rx: int, rz: int)
      requires Within(lo, hi, Key(rx, rz))
      ensures TouchedBefore(q, lo, hi, rx, rz + 1) == TouchedBefore(q, lo, hi, rx, rz) + TouchedIn(q, Key(rx, rz))
    {
    }

    lemma TouchedRow(q: Query, lo: Key, hi: Key, rx: int, rz: int)
      requires rz > hi.z
      ensures TouchedBefore(q, lo, hi, rx, rz) == TouchedBefore(q, lo, hi, rx + 1, lo.z)
    {
    }

    /** Visits the regions of one row of a window. */
    method ScanRow(q: Query, lo: Key, hi: Key, rx: int, seen: set<Id>, result: seq<Entity>)
      returns (seen': set<Id>, result': seq<Entity>)
      requires Valid() && q.Range? && Capacity(q.Box(), 16.0) >= 0 && lo.x <= rx <= hi.x
      requires Lists(result, seen) && seen == TouchedBefore(q, lo, hi, rx, lo.z)
      ensures Lists(result', seen') && seen' == TouchedBefore(q, lo, hi, rx + 1, lo.z)
    {
      seen', result' := seen, result;
      var rz := lo.z;
      while rz <= hi.z
        invariant lo.z <= rz
        invariant Lists(result', seen')
        invariant seen' == TouchedBefore(q, lo, hi, rx, rz)
        decreases hi.z - rz
      {
        seen', result' := VisitRegion(q, Key(rx, rz), seen', result');
        TouchedStep(q, lo, hi, rx, rz);
        rz := rz + 1;
      }
      TouchedRow(q, lo, hi, rx, rz);
    }

    lemma TouchedNone(q: Query, lo: Key, hi: Key)
      ensures TouchedBefore(q, lo, hi, lo.x, lo.z) == {}
    {
    }

    lemma TouchedAll(q: Query, lo: Key, hi: Key, rx: int)
      requires rx > hi.x
      ensures TouchedBefore(q, lo, hi, rx, lo.z) ==
              set id | id in records && Touches(q, records[id]) && Within(lo, hi, records[id].region)
    {
    }

    /** Visits the regions of a window row by row. */
    method ScanWindow(q: Query, lo: Key, hi: Key) returns (result: seq<Entity>)
      requires Valid() && q.Range? && Capacity(q.Box(), 16.0) >= 0
      ensures Lists(result, set id | id in records && Touches(q, records[id]) && Within(lo, hi, records[id].region))
    {
      result := [];
      var seen: set<Id> := {};
      var rx := lo.x;
      TouchedNone(q, lo, hi);
      while rx <= hi.x
        invariant lo.x <= rx
        invariant Lists(result, seen)
        invariant seen == TouchedBefore(q, lo, hi, rx, lo.z)
      {
        seen, result := ScanRow(q, lo, hi, rx, seen, result);
        rx := rx + 1;
      }
      TouchedAll(q, lo, hi, rx);
    }

    /** Scans the window of regions from the floored minimum to the truncated maximum of the box. */
    method ScanBox(center: Point, radius: real) returns (result: seq<Entity>)
      requires Valid() && Capacity(BoxAround(center, radius, radius), 16.0) >= 0
      ensures RegionWidth(regionSize) > 0.0
      ensures Lists(result, set id | id in records && Found(Range(center, radius), records[id], regionSize))
    {
      var width := RegionWidth(regionSize);
      var lo := Key(LowCell(center.x - radius, width), LowCell(center.y - radius, width));
      var hi := Key(HighCell(center.x + radius, width), HighCell(center.y + radius, width));
      result := ScanWindow(Range(center, radius), lo, hi);
      assert forall k: Key :: Within(lo, hi, k) <==> InCover(Range(center, radius).Box(), width, k);
    }

    /** Lists each registered entity in range whose recorded cells and region the query reaches, once. */
    method GetEntitiesInRange(center: Point, radius: real) returns (result: seq<Entity>)
      requires Valid() && Capacity(BoxAround(center, radius, radius), 16.0) >= 0
      ensures RegionWidth(regionSize) > 0.0
      ensures Lists(result, set id | id in records && Found(Range(center, radius), records[id], regionSize))
      ensures forall e: Entity :: e in result <==>
                e.id in records && records[e.id].entity == e && e.precisePos in Disc(center, radius)
                && Reached(records[e.id], BoxAround(center, radius, radius), regionSize)
    {
      result := ScanBox(center, radius);
      FoundInDisc(center, radius, result);
    }

    lemma FoundInDisc(center: Point, radius: real, result: seq<Entity>)
      requires Valid() && RegionWidth(regionSize) > 0.0
      requires Lists(result, set id | id in records && Found(Range(center, radius), records[id], regionSize))
      ensures forall e: Entity :: e in result <==>
                e.id in records && records[e.id].entity == e && e.precisePos in Disc(center, radius)
                && Reached(records[e.id], BoxAround(center, radius, radius), regionSize)
    {
      DiscIsRange(center, radius);
      forall e: Entity
        ensures e in result <==>
                e.id in records && records[e.id].entity == e && e.precisePos in Disc(center, radius)
                && Reached(records[e.id], BoxAround(center, radius, radius), regionSize)
      {
        if e.id in records && records[e.id].entity == e && Found(Range(center, radius), records[e.id], regionSize) {
          assert records[e.id].entity in result;
        }
      }
    }

    /** With every record in sync, an answer is the linear scan over all registered entities, each once. */
    lemma InSyncAnswerIsLinearScan(q: Query, result: seq<Entity>)
      requires Valid() && q.WellFormed() && AllInSync() && RegionWidth(regionSize) > 0.0
      requires Lists(result, set id | id in records && Found(q, records[id], regionSize))
      ensures Distinct(result)
      ensures forall e: Entity :: e in result <==>
                e.id in records && records[e.id].entity == e && q.Contains(e.precisePos)
      ensures q.Range? ==> forall e: Entity :: e in result <==>
                e.id in records && records[e.id].entity == e && e.precisePos in Disc(q.center, q.radius)
    {
      if q.Range? {
        DiscIsRange(q.center, q.radius);
      }
      forall id <- records
        ensures Found(q, records[id], regionSize) <==> q.Contains(records[id].entity.precisePos)
      {
        InSyncFoundIsContained(q, records[id], regionSize);
      }
    }
  }

  // ----- whole runs -----

  /** An entity is put somewhere at some size (added, or moved if it is there), or an id is removed. */
  datatype Op = Place(entity: Entity, at: Point, size: Point) | Drop(id: Id)

  datatype Placed = Placed(entity: Entity, at: Point)

  ghost function Performed(m: map<Id, Placed>, op: Op): (r: map<Id, Placed>) {
    match op
    case Place(e, at, _) => m[e.id := Placed(e, at)]
    case Drop(id) => m - {id}
  }

  /** Where the operations leave the entities. */
  ghost function Final(ops: seq<Op>): (m: map<Id, Placed>) {
    if ops == [] then map[] else Performed(Final(ops[..|ops| - 1]), ops[|ops| - 1])
  }

  predicate Concerns(op: Op, id: Id) {
    match op
    case Place(e, _, _) => e.id == id
    case Drop(i) => i == id
  }

  /** The last operation on an id decides: placed there, or gone. */
  lemma {:induction false} FinalIsLast(ops: seq<Op>, k: nat, id: Id)
    requires k < |ops| && Concerns(ops[k], id) && forall i | k < i < |ops| :: !Concerns(ops[i], id)
    ensures ops[k].Place? ==> id in Final(ops) && Final(ops)[id] == Placed(ops[k].entity, ops[k].at)
    ensures ops[k].Drop? ==> id !in Final(ops)
  {
    if k < |ops| - 1 {
      FinalIsLast(ops[..|ops| - 1], k, id);
    }
  }

  /** And an id that no operation concerns is not there. */
  lemma {:induction false} FinalIsConcerned(ops: seq<Op>, id: Id)
    requires forall op <- ops :: !Concerns(op, id)
    ensures id !in Final(ops)
  {
    if ops != [] {
      assert ops[|ops| - 1] in ops;
      FinalIsConcerned(ops[..|ops| - 1], id);
    }
  }

  ghost function Center(b: Bounds): (p: Point) {
    Point((b.minX + b.maxX) / 2.0, (b.minZ + b.maxZ) / 2.0)
  }

  /** The records are of the placed entities, around their places. */
  ghost predicate Names(records: map<Id, Record>, m: map<Id, Placed>) {
    && records.Keys == m.Keys
    && forall id <- m ::
         m[id].entity.id == id && records[id].entity == m[id].entity && Center(records[id].bounds) == m[id].at
  }

  lemma NamesSet(records: map<Id, Record>, m: map<Id, Placed>, r: Record, at: Point)
    requires Names(records, m) && Center(r.bounds) == at
    ensures Names(records[r.entity.id := r], m[r.entity.id := Placed(r.entity, at)])
  {
  }

  /** The manager holds the placed entities, each in sync with its place. */
  ghost predicate Holds(rm: RegionManager, m: map<Id, Placed>)
    reads rm, rm.regions.Values, set id <- rm.records :: rm.records[id].entity
  {
    rm.Valid() && rm.AllInSync() && Names(rm.records, m)
  }

  /** Puts an entity at a place; only its own record is then out of date. */
  method Relocate(rm: RegionManager, e: Entity, at: Point, size: Point, ghost m: map<Id, Placed>)
    requires Holds(rm, m)
    modifies e
    ensures e.precisePos == at && Truncated(e) && e.size == size
    ensures rm.Valid() && rm.InSyncExcept(e.id)
  {
    Put(e, at, size);
  }

  method Put(e: Entity, at: Point, size: Point)
    modifies e
    ensures e.precisePos == at && Truncated(e) && e.size == size
  {
    e.size := size;
    e.precisePos := at;
    e.position := Vec2(Trunc(at.x), Trunc(at.y));
  }

  /** Adds the entity, or moves it if it is there. */
  method Register(rm: RegionManager, e: Entity)
    requires rm.Valid() && rm.InSyncExcept(e.id) && Truncated(e) && Sized(e.size)
    requires e.id in rm.records ==> rm.records[e.id].entity == e
    modifies rm, rm.regions.Values
    ensures rm.Valid() && rm.AllInSync() && fresh(rm.regions.Values - old(rm.regions.Values))
    ensures rm.records == old(rm.records)[e.id := rm.RecordNow(e)]
  {
    RegionManager.SizedFits(e);
    var registered := rm.IsRegistered(e.id);
    if registered {
      rm.MoveEntity(e);
    } else {
      rm.AddEntity(e);
    }
  }

  method PerformPlace(rm: RegionManager, e: Entity, at: Point, size: Point, ghost m: map<Id, Placed>)
    requires Holds(rm, m)
    requires Sized(size) && (e.id in m ==> m[e.id].entity == e)
    modifies rm, rm.regions.Values, e
    ensures Holds(rm, Performed(m, Place(e, at, size))) && fresh(rm.regions.Values - old(rm.regions.Values))
  {
    Relocate(rm, e, at, size, m);
    Register(rm, e);
    NamesSet(old(rm.records), m, rm.RecordNow(e), at);
  }

  method PerformDrop(rm: RegionManager, id: Id, ghost m: map<Id, Placed>)
    requires Holds(rm, m)
    modifies rm, rm.regions.Values
    ensures Holds(rm, Performed(m, Drop(id))) && fresh(rm.regions.Values - old(rm.regions.Values))
  {
    rm.RemoveEntity(id);
  }

  /** An operation on an id that is there is on the object that is there. */
  ghost predicate OneObject(ops: seq<Op>) {
    forall n | 0 <= n < |ops| && ops[n].Place? :: SameObject(Final(ops[..n]), ops[n].entity)
  }

  ghost predicate SameObject(m: map<Id, Placed>, e: Entity) {
    e.id in m ==> m[e.id].entity == e
  }

  ghost predicate AllSized(ops: seq<Op>) {
    forall i | 0 <= i < |ops| && ops[i].Place? :: Sized(ops[i].size)
  }

  lemma FinalNext(ops: seq<Op>, n: nat)
    requires n < |ops|
    ensures Final(ops[..n + 1]) == Performed(Final(ops[..n]), ops[n])
  {
    assert ops[..n + 1][..n] == ops[..n];
  }

  ghost function Entities(ops: seq<Op>): (es: set<Entity>) {
    set i | 0 <= i < |ops| && ops[i].Place? :: ops[i].entity
  }

  method Perform(rm: RegionManager, ops: seq<Op>, n: nat)
    requires OneObject(ops) && AllSized(ops) && n < |ops| && Holds(rm, Final(ops[..n]))
    modifies rm, rm.regions.Values, Entities(ops)
    ensures Holds(rm, Final(ops[..n + 1]))
    ensures fresh(rm.regions.Values - old(rm.regions.Values))
  {
    FinalNext(ops, n);
    ghost var m := Final(ops[..n]);
    match ops[n]
    case Place(e, at, size) =>
      assert SameObject(m, e);
      PerformPlace(rm, e, at, size, m);
    case Drop(id) =>
      PerformDrop(rm, id, m);
  }

  /** Performs the operations on a new manager. */
  method AnyRun(regionSize: int, ops: seq<Op>) returns (rm: RegionManager)
    requires OneObject(ops) && AllSized(ops)
    modifies Entities(ops)
    ensures fresh(rm) && Holds(rm, Final(ops))
  {
    rm := new RegionManager(regionSize);
    for n := 0 to |ops|
      invariant fresh(rm) && fresh(rm.regions.Values)
      invariant Holds(rm, Final(ops[..n]))
    {
      Perform(rm, ops, n);
    }
    assert ops[..|ops|] == ops;
  }

  /** In sync, an entity stands at the centre of its recorded bounds. */
  lemma StandsAtCenter(r: Record, regionSize: int)
    requires regionSize > 0 && InSync(r, regionSize)
    ensures Center(r.bounds) == r.entity.precisePos
  {
  }

  method QueryAfter(regionSize: int, ops: seq<Op>, center: Point, radius: real) returns (result: seq<Entity>)
    requires OneObject(ops) && AllSized(ops) && radius >= 0.0
    modifies Entities(ops)
    ensures Distinct(result)
    ensures forall e: Entity :: e in result <==>
              e.id in Final(ops) && Final(ops)[e.id].entity == e && Final(ops)[e.id].at in Disc(center, radius)
  {
    var rm := AnyRun(regionSize, ops);
    OrderedBoundsHaveCells(BoxAround(center, radius, radius), 16.0);
    result := rm.GetEntitiesInRange(center, radius);
    rm.InSyncAnswerIsLinearScan(Range(center, radius), result);
    forall id | id in rm.records
      ensures rm.records[id].entity.precisePos == Final(ops)[id].at
    {
      StandsAtCenter(rm.records[id], rm.regionSize);
    }
  }

  /**
   After any run of adding, moving and removing, a range query lists exactly the entities whose
   last place is at most the radius away, each once.
   */
  method AnyRunThenQuery(regionSize: int, ops: seq<Op>, center: Point, radius: real) returns (result: seq<Entity>)
    requires OneObject(ops) && AllSized(ops) && radius >= 0.0
    modifies Entities(ops)
    ensures Distinct(result)
    ensures forall e: Entity :: e in result <==>
              && e.id in Final(ops) && Final(ops)[e.id].entity == e
              && var at := Final(ops)[e.id].at;
                 (at.x - center.x) * (at.x - center.x) + (at.y - center.y) * (at.y - center.y) <= radius * radius
  {
    result := QueryAfter(regionSize, ops, center, radius);
    forall e: Entity
      ensures e in result <==>
              && e.id in Final(ops) && Final(ops)[e.id].entity == e
              && var at := Final(ops)[e.id].at;
                 (at.x - center.x) * (at.x - center.x) + (at.y - center.y) * (at.y - center.y) <= radius * radius
    {
      if e.id in Final(ops) {
        InDisc(center, radius, Final(ops)[e.id].at);
      }
    }
  }
}
