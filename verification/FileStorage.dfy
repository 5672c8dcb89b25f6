/**
 internal/storage_adapter/file_storage.go: chunks of blocks kept in files behind a cache.
 A file holds a chunk's data as a value (the JSON text is not modelled), and the outcome
 of each disk access is a parameter.
 */
module FileStorage {
  import opened Common
  import opened Grid

  datatype Block = Block(id: nat, metadata: Meta)

  const AIR := Block(0, map[])

  datatype ChunkData = ChunkData(blocks: map<Vec2, nat>, metadata: map<Vec2, Meta>, version: nat)

  /** Whether a file can be read, if it exists, and written. */
  datatype Disk = Disk(readOk: bool, writeOk: bool)

  datatype Result<T> = Ok(value: T) | Err

  // ----- one chunk -----

  function BlockIn(data: ChunkData, local: Vec2): (b: Block) {
    Block(if local in data.blocks then data.blocks[local] else 0,
          if local in data.metadata then data.metadata[local] else map[])
  }

  /** Air carries no metadata. */
  function Normal(b: Block): (n: Block) {
    if b.id == 0 then AIR else b
  }

  function Put(data: ChunkData, local: Vec2, b: Block): (r: ChunkData) {
    ChunkData(
      if b.id == 0 then data.blocks - {local} else data.blocks[local := b.id],
      if b.id == 0 || b.metadata == map[] then data.metadata - {local} else data.metadata[local := b.metadata],
      data.version)
  }

  /** A block that is not air is left alone, whatever its metadata; air loses its metadata. */
  lemma NormalKeeps(b: Block)
    ensures b.id != 0 ==> Normal(b) == b
    ensures b.id == 0 ==> Normal(b) == Block(0, map[])
  {
  }

  /** A cell of chunk data: the stored id or 0, and the stored metadata or none. */
  lemma BlockInIs(data: ChunkData, local: Vec2)
    ensures BlockIn(data, local).id == (if local in data.blocks then data.blocks[local] else 0)
    ensures BlockIn(data, local).metadata == (if local in data.metadata then data.metadata[local] else map[])
  {
  }

  /** Putting a block changes what is read at its cell, to the normalised block, and nowhere else. */
  lemma PutThenRead(data: ChunkData, local: Vec2, b: Block, l: Vec2)
    ensures BlockIn(Put(data, local, b), l) == if l == local then Normal(b) else BlockIn(data, l)
  {
  }

  const SIDE: nat := 16
  const CELLS: nat := 256

  function Index(local: Vec2): (i: int) {
    local.y * 16 + local.x
  }

  // ----- the history of writes -----

  datatype Write =
    | OneBlock(pos: Vec2, block: Block)
    | WholeChunk(chunk: Vec2, cells: seq<Block>)

  function BlockAt(files: map<Vec2, ChunkData>, p: Vec2): (b: Block) {
    var c := ToChunkCoords(p);
    if c in files then BlockIn(files[c], LocalInChunk(p)) else AIR
  }

  /** The block at a position after all writes: the last one that covers it, or what the files held at first. */
  function Final(initial: map<Vec2, ChunkData>, writes: seq<Write>, p: Vec2): (b: Block) {
    if writes == [] then BlockAt(initial, p)
    else
      match writes[|writes| - 1]
      case OneBlock(pos, b) => if pos == p then Normal(b) else Final(initial, writes[..|writes| - 1], p)
      case WholeChunk(chunk, cells) =>
        var i := Index(LocalInChunk(p));
        if chunk == ToChunkCoords(p) && 0 <= i < |cells| then Normal(cells[i]) else Final(initial, writes[..|writes| - 1], p)
  }

  /** Whether a write covers a position. */
  predicate Covers(w: Write, p: Vec2) {
    match w
    case OneBlock(pos, _) => pos == p
    case WholeChunk(chunk, cells) => chunk == ToChunkCoords(p) && |cells| == 256
  }

  /** The block that a write puts at a position it covers. */
  function BlockOf(w: Write, p: Vec2): (b: Block)
    requires Covers(w, p)
  {
    match w
    case OneBlock(_, b) => b
    case WholeChunk(_, cells) => cells[LocalInChunk(p).y * 16 + LocalInChunk(p).x]
  }

  /** Every whole-chunk write has 256 cells, as accepted ones do. */
  predicate Whole(writes: seq<Write>) {
    forall w <- writes :: w.WholeChunk? ==> |w.cells| == 256
  }

  lemma FinalStep(initial: map<Vec2, ChunkData>, writes: seq<Write>, p: Vec2)
    requires Whole(writes) && writes != []
    ensures var n := |writes| - 1;
            Whole(writes[..n]) &&
            Final(initial, writes, p) == if Covers(writes[n], p) then Normal(BlockOf(writes[n], p)) else Final(initial, writes[..n], p)
  {
    assert writes[|writes| - 1] in writes;
    LocalIndex(p);
  }

  lemma LocalIndex(p: Vec2)
    ensures 0 <= Index(LocalInChunk(p)) < 256
  {
  }

  /** The last write that covers a position decides: id and metadata of its block, or bare air. */
  lemma {:induction false} LastWriteWins(initial: map<Vec2, ChunkData>, writes: seq<Write>, k: nat, p: Vec2)
    requires Whole(writes) && k < |writes| && Covers(writes[k], p) && forall i | k < i < |writes| :: !Covers(writes[i], p)
    ensures var b := BlockOf(writes[k], p);
            && (b.id != 0 ==> Final(initial, writes, p) == b)
            && (b.id == 0 ==> Final(initial, writes, p) == Block(0, map[]))
  {
    FinalStep(initial, writes, p);
    if k < |writes| - 1 {
      LastWriteWins(initial, writes[..|writes| - 1], k, p);
    } else {
      NormalKeeps(BlockOf(writes[k], p));
    }
  }

  /** A position that no write covers is as the files held it at first. */
  lemma {:induction false} UncoveredStays(initial: map<Vec2, ChunkData>, writes: seq<Write>, p: Vec2)
    requires Whole(writes) && forall w <- writes :: !Covers(w, p)
    ensures Final(initial, writes, p) ==
            if ToChunkCoords(p) in initial then BlockIn(initial[ToChunkCoords(p)], LocalInChunk(p)) else Block(0, map[])
  {
    if writes != [] {
      FinalStep(initial, writes, p);
      assert writes[|writes| - 1] in writes;
      UncoveredStays(initial, writes[..|writes| - 1], p);
    }
  }

  /** The cells of a chunk show the given blocks, row by row: each that is not air as it is, air bare. */
  ghost predicate ShowsCells(initial: map<Vec2, ChunkData>, writes: seq<Write>, chunk: Vec2, cells: seq<Block>)
    requires |cells| == 256
  {
    forall l: Vec2 :: IsLocal(l) ==>
      var b := cells[l.y * 16 + l.x];
      Final(initial, writes, FromChunk(chunk, l)) == if b.id != 0 then b else Block(0, map[])
  }

  lemma ChunkWritten(initial: map<Vec2, ChunkData>, writes: seq<Write>, chunk: Vec2, cells: seq<Block>)
    requires |cells| == 256
    ensures ShowsCells(initial, writes + [WholeChunk(chunk, cells)], chunk, cells)
    ensures forall p :: ToChunkCoords(p) != chunk ==>
              Final(initial, writes + [WholeChunk(chunk, cells)], p) == Final(initial, writes, p)
  {
    var all := writes + [WholeChunk(chunk, cells)];
    assert all[..|writes|] == writes;
    forall l: Vec2 | IsLocal(l)
      ensures var b := cells[l.y * 16 + l.x];
              Final(initial, all, FromChunk(chunk, l)) == if b.id != 0 then b else Block(0, map[])
    {
      ChunkSplitIsBijective(FromChunk(chunk, l), chunk, l);
      NormalKeeps(cells[l.y * 16 + l.x]);
    }
  }

  // ----- the adapter -----

  class FileStorageAdapter {
    const autoSave: bool
    var chunkCache: map<Vec2, ChunkData>
    var files: map<Vec2, ChunkData>
    ghost var writes: seq<Write>     // every write accepted so far
    ghost var unsaved: set<Vec2>     // chunks whose cache entry may be newer than their file

    ghost const initial: map<Vec2, ChunkData>  // the files found at start

    constructor (autoSave: bool, existing: map<Vec2, ChunkData>)
      ensures Valid() && writes == [] && unsaved == {} && this.autoSave == autoSave && initial == existing
    {
      this.autoSave := autoSave;
      initial := existing;
      chunkCache, files, writes, unsaved := map[], existing, [], {};
    }

    /** What the files alone hold at a position. */
    ghost function OnDisk(p: Vec2): (b: Block)
      reads this
    {
      BlockAt(files, p)
    }

    /** What the adapter holds at a position: the cached chunk if there is one, else the file. */
    ghost function View(p: Vec2): (b: Block)
      reads this
    {
      var c := ToChunkCoords(p);
      if c in chunkCache then BlockIn(chunkCache[c], LocalInChunk(p)) else OnDisk(p)
    }

    /** The adapter is one map from positions to blocks, and only unsaved chunks differ from their files. */
    ghost predicate Valid()
      reads this
    {
      && (forall p: Vec2 :: View(p) == Final(initial, writes, p))
      && (forall c <- chunkCache :: c !in unsaved ==> c in files && files[c] == chunkCache[c])
      && unsaved <= chunkCache.Keys && Whole(writes)
    }

    method LoadBlock(pos: Vec2, disk: Disk) returns (r: Result<Block>)
      requires Valid()
      modifies `chunkCache
      ensures Valid() && writes == old(writes)
      ensures r.Ok? ==> r.value == Final(initial, writes, pos)
      ensures r.Err? <==> !disk.readOk && ToChunkCoords(pos) !in old(chunkCache) && ToChunkCoords(pos) in files
      ensures var c := ToChunkCoords(pos);
              chunkCache == if c !in old(chunkCache) && c in files && disk.readOk then old(chunkCache)[c := files[c]] else old(chunkCache)
    {
      var c := ToChunkCoords(pos);
      assert View(pos) == Final(initial, writes, pos);
      if c in chunkCache {
        return Ok(BlockIn(chunkCache[c], LocalInChunk(pos)));
      }
      if c !in files {
        return Ok(AIR);
      }
      if !disk.readOk {
        return Err;
      }
      chunkCache := chunkCache[c := files[c]];
      assert forall p: Vec2 :: View(p) == old(View(p));
      return Ok(BlockIn(files[c], LocalInChunk(pos)));
    }

    /** The chunk to edit: cached, read from its file, or new. */
    method ChunkForEdit(c: Vec2, disk: Disk) returns (r: Result<ChunkData>)
      ensures r.Err? <==> !disk.readOk && c !in chunkCache && c in files
      ensures r.Ok? && c in chunkCache ==> r.value == chunkCache[c]
      ensures r.Ok? && c !in chunkCache && c in files ==> r.value == files[c]
      ensures r.Ok? && c !in chunkCache && c !in files ==> r.value == ChunkData(map[], map[], 1)
    {
      if c in chunkCache {
        return Ok(chunkCache[c]);
      }
      if c !in files {
        return Ok(ChunkData(map[], map[], 1));
      }
      return if disk.readOk then Ok(files[c]) else Err;
    }

    /** Puts a chunk into the cache and, when asked and possible, into its file. */
    method StoreChunk(c: Vec2, data: ChunkData, toFile: bool, disk: Disk) returns (ok: bool)
      modifies `chunkCache, `files, `unsaved
      ensures chunkCache == old(chunkCache)[c := data]
      ensures ok <==> !toFile || disk.writeOk
      ensures files == if toFile && disk.writeOk then old(files)[c := data] else old(files)
      ensures unsaved == if toFile && disk.writeOk then old(unsaved) - {c} else old(unsaved) + {c}
    {
      chunkCache := chunkCache[c := data];
      unsaved := unsaved + {c};
      if toFile && disk.writeOk {
        files := files[c := data];
        unsaved := unsaved - {c};
      }
      ok := !toFile || disk.writeOk;
    }

    /** Writes one block; a failed read changes nothing, a failed file write leaves the chunk unsaved. */
    method SaveBlock(pos: Vec2, block: Block, disk: Disk) returns (ok: bool)
      requires Valid()
      modifies this
      ensures Valid()
      ensures var unreadable := !disk.readOk && ToChunkCoords(pos) !in old(chunkCache) && ToChunkCoords(pos) in old(files);
              && ok == (!unreadable && (autoSave ==> disk.writeOk))
              && writes == (if unreadable then old(writes) else old(writes) + [OneBlock(pos, block)])
      ensures writes != old(writes) && block.id != 0 ==> Final(initial, writes, pos) == block
      ensures writes != old(writes) && block.id == 0 ==> Final(initial, writes, pos) == Block(0, map[])
      ensures forall p :: p != pos ==> Final(initial, writes, p) == Final(initial, old(writes), p)
      ensures writes != old(writes) ==>
                var c := ToChunkCoords(pos);
                && c in chunkCache
                && (c in old(chunkCache) ==> chunkCache[c].version == old(chunkCache)[c].version + 1)
                && (c !in old(chunkCache) ==> chunkCache[c].version == if c in old(files) then old(files)[c].version + 1 else 2)
      ensures ok && autoSave ==> unsaved == old(unsaved) - {ToChunkCoords(pos)}
      ensures unsaved <= old(unsaved) + {ToChunkCoords(pos)}
    {
      NormalKeeps(block);
      var c, local := ToChunkCoords(pos), LocalInChunk(pos);
      var r := ChunkForEdit(c, disk);
      if r.Err? {
        return false;
      }
      var data := Put(r.value, local, block);
      data := data.(version := data.version + 1);
      ok := StoreChunk(c, data, autoSave, disk);
      writes := writes + [OneBlock(pos, block)];
      assert writes[..|writes| - 1] == old(writes);
      forall p: Vec2
        ensures View(p) == Final(initial, writes, p)
      {
        assert old(View(p)) == Final(initial, old(writes), p);
        PutThenRead(r.value, local, block, LocalInChunk(p));
        ChunkSplitIsBijective(p, c, local);
        assert FromChunk(c, local) == pos by { ChunkSplitIsBijective(pos, c, local); }
      }
    }

    method DeleteBlock(pos: Vec2, disk: Disk) returns (ok: bool)
      requires Valid()
      modifies this
      ensures Valid()
      ensures var unreadable := !disk.readOk && ToChunkCoords(pos) !in old(chunkCache) && ToChunkCoords(pos) in old(files);
              && ok == (!unreadable && (autoSave ==> disk.writeOk))
              && writes == (if unreadable then old(writes) else old(writes) + [OneBlock(pos, AIR)])
              && (!unreadable ==> Final(initial, writes, pos) == Block(0, map[]))
      ensures ok && autoSave ==> unsaved == old(unsaved) - {ToChunkCoords(pos)}
      ensures unsaved <= old(unsaved) + {ToChunkCoords(pos)}
    {
      ok := SaveBlock(pos, AIR, disk);
    }

    /** Replaces a whole chunk, in the cache and in its file; a list of the wrong length is refused. */
    method SaveChunk(chunk: Vec2, cells: seq<Block>, disk: Disk) returns (ok: bool)
      requires Valid()
      modifies this
      ensures Valid()
      ensures ok <==> |cells| == 256 && disk.writeOk
      ensures writes == if |cells| == 256 then old(writes) + [WholeChunk(chunk, cells)] else old(writes)
      ensures |cells| == 256 ==> ShowsCells(initial, writes, chunk, cells)
      ensures forall p :: ToChunkCoords(p) != chunk ==> Final(initial, writes, p) == Final(initial, old(writes), p)
      ensures |cells| == 256 ==> chunk in chunkCache && chunkCache[chunk].version == 1
      ensures ok ==> unsaved == old(unsaved) - {chunk}
      ensures unsaved <= old(unsaved) + {chunk}
    {
      if |cells| != CELLS {
        return false;
      }
      ChunkWritten(initial, writes, chunk, cells);
      SaveCells(chunk, cells, disk);
      ok := disk.writeOk;
    }

    method SaveCells(chunk: Vec2, cells: seq<Block>, disk: Disk)
      requires Valid() && |cells| == CELLS
      modifies this
      ensures Valid() && writes == old(writes) + [WholeChunk(chunk, cells)]
      ensures chunk in chunkCache && chunkCache[chunk].version == 1
      ensures disk.writeOk ==> unsaved == old(unsaved) - {chunk}
      ensures unsaved <= old(unsaved) + {chunk}
    {
      var data := Pack(cells);
      var _ := StoreChunk(chunk, data, true, disk);
      writes := writes + [WholeChunk(chunk, cells)];
      assert writes[..|writes| - 1] == old(writes);
      forall p: Vec2
        ensures View(p) == Final(initial, writes, p)
      {
        assert old(View(p)) == Final(initial, old(writes), p);
      }
    }

    /** Every cell of a chunk as its file holds it; the cache is not consulted. */
    method LoadChunk(chunk: Vec2, disk: Disk) returns (r: Result<array<Block>>)
      ensures r.Err? <==> !disk.readOk && chunk in files
      ensures r.Ok? ==> fresh(r.value) && r.value.Length == CELLS
      ensures r.Ok? ==> forall l: Vec2 :: IsLocal(l) ==> r.value[l.y * 16 + l.x] == OnDisk(FromChunk(chunk, l))
    {
      if chunk in files && !disk.readOk {
        return Err;
      }
      var data := if chunk in files then files[chunk] else ChunkData(map[], map[], 1);
      var cells := Unpack(data);
      forall l: Vec2 | IsLocal(l)
        ensures cells[Index(l)] == OnDisk(FromChunk(chunk, l))
      {
        ChunkSplitIsBijective(FromChunk(chunk, l), chunk, l);
      }
      return Ok(cells);
    }

    /** Writes every cached chunk to its file, stopping at the first that cannot be written. */
    method FlushCache(writable: set<Vec2>) returns (ok: bool)
      requires Valid()
      modifies `files, `unsaved
      ensures Valid() && unsaved <= old(unsaved)
      ensures ok ==> unsaved == {}
      ensures chunkCache.Keys <= writable ==> ok
    {
      var todo := chunkCache.Keys;
      while todo != {}
        invariant todo <= chunkCache.Keys
        invariant forall p: Vec2 :: View(p) == Final(initial, writes, p)
        invariant forall c <- chunkCache :: c !in unsaved ==> c in files && files[c] == chunkCache[c]
        invariant unsaved <= old(unsaved) && unsaved !! (chunkCache.Keys - todo)
      {
        var c :| c in todo;
        if c !in writable {
          return false;
        }
        files := files[c := chunkCache[c]];
        unsaved := unsaved - {c};
        todo := todo - {c};
        assert forall p: Vec2 :: View(p) == Final(initial, writes, p);
      }
      return true;
    }

    /** A position whose chunk has no unsaved change is the same on disk: dropping the cache loses nothing there. */
    lemma SavedIsOnDisk(p: Vec2)
      requires Valid() && ToChunkCoords(p) !in unsaved
      ensures OnDisk(p) == Final(initial, writes, p)
    {
      assert View(p) == Final(initial, writes, p);
    }
  }

  /** The cells of a chunk, packed into maps row by row; air is skipped. */
  method Pack(cells: seq<Block>) returns (data: ChunkData)
    requires |cells| == CELLS
    ensures forall l: Vec2 :: BlockIn(data, l) == if IsLocal(l) then Normal(cells[Index(l)]) else AIR
    ensures forall l: Vec2 :: IsLocal(l) && cells[l.y * 16 + l.x].id != 0 ==> BlockIn(data, l) == cells[l.y * 16 + l.x]
    ensures data.version == 1
  {
    data := ChunkData(map[], map[], 1);
    for y := 0 to SIDE
      invariant data.version == 1
      invariant forall l: Vec2 :: BlockIn(data, l) == if IsLocal(l) && l.y < y then Normal(cells[Index(l)]) else AIR
    {
      data := PackRow(cells, y, data);
    }
  }

  method PackRow(cells: seq<Block>, y: nat, before: ChunkData) returns (data: ChunkData)
    requires |cells| == CELLS && y < SIDE
    requires forall x | 0 <= x < SIDE :: BlockIn(before, Vec2(x, y)) == AIR
    ensures forall l: Vec2 :: BlockIn(data, l) == if IsLocal(l) && l.y == y then Normal(cells[Index(l)]) else BlockIn(before, l)
    ensures data.version == before.version
  {
    data := before;
    for x := 0 to SIDE
      invariant data.version == before.version
      invariant forall l: Vec2 :: BlockIn(data, l) ==
                  if IsLocal(l) && l.y == y && l.x < x then Normal(cells[Index(l)]) else BlockIn(before, l)
    {
      var b := cells[y * 16 + x];
      if b.id != 0 {
        var key := Vec2(x, y);
        assert BlockIn(data, key) == AIR;
        PackedCell(data, key, b);
        data := data.(blocks := data.blocks[key := b.id]);
        if b.metadata != map[] {
          data := data.(metadata := data.metadata[key := b.metadata]);
        }
      }
    }
  }

  lemma PackedCell(data: ChunkData, key: Vec2, b: Block)
    requires BlockIn(data, key) == AIR
    ensures var placed := data.(blocks := data.blocks[key := b.id]);
            var packed := if b.metadata != map[] then placed.(metadata := placed.metadata[key := b.metadata]) else placed;
            forall l: Vec2 :: BlockIn(packed, l) == if l == key then b else BlockIn(data, l)
  {
  }

  /** The cells of a chunk, unpacked row by row. */
  method Unpack(data: ChunkData) returns (cells: array<Block>)
    ensures fresh(cells) && cells.Length == CELLS
    ensures forall l: Vec2 :: IsLocal(l) ==> cells[Index(l)] == BlockIn(data, l)
    ensures forall l: Vec2 :: IsLocal(l) ==> cells[l.y * 16 + l.x] == BlockIn(data, l)
  {
    cells := new Block[CELLS];
    for y := 0 to SIDE
      invariant forall i | 0 <= i < 16 * y :: cells[i] == BlockIn(data, Vec2(i % 16, i / 16))
    {
      UnpackRow(data, cells, y);
    }
    forall l: Vec2 | IsLocal(l) ensures cells[Index(l)] == BlockIn(data, l) {
      assert Vec2(Index(l) % 16, Index(l) / 16) == l;
    }
  }

  method UnpackRow(data: ChunkData, cells: array<Block>, y: nat)
    requires cells.Length == CELLS && y < SIDE
    modifies cells
    ensures forall i | 0 <= i < 16 * y :: cells[i] == old(cells[i])
    ensures forall i | 16 * y <= i < 16 * (y + 1) :: cells[i] == BlockIn(data, Vec2(i % 16, i / 16))
  {
    for x := 0 to SIDE
      invariant forall i | 0 <= i < 16 * y :: cells[i] == old(cells[i])
      invariant forall i | 16 * y <= i < 16 * y + x :: cells[i] == BlockIn(data, Vec2(i % 16, i / 16))
    {
      cells[y * 16 + x] := BlockIn(data, Vec2(x, y));
    }
  }
}
