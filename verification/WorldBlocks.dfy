/**
 internal/world/world.go: the world's blocks, kept in lazily generated chunks that are grouped
 into BigChunks. World generation is a parameter.
 */
module WorldBlocks {
  import opened Common
  import opened Grid
  import ChunkDeltas

  type BlockCoord = ChunkDeltas.BlockCoord
  type Block = ChunkDeltas.Cell

  /** The contents of a chunk over all layers; a block id that was never set is 0. */
  datatype ChunkData = ChunkData(ids: map<BlockCoord, nat>, metadata: map<BlockCoord, Meta>)

  type Generator = Vec2 -> ChunkData
  type Store = map<Vec2, map<Vec2, ChunkData>>

  function IdAt(ch: ChunkData, c: BlockCoord): (id: nat) {
    if c.layer < ChunkDeltas.MAX_LAYERS && c in ch.ids then ch.ids[c] else 0
  }

  function MetaAt(ch: ChunkData, c: BlockCoord): (m: Meta) {
    if c in ch.metadata then ch.metadata[c] else map[]
  }

  function BlockAt(ch: ChunkData, c: BlockCoord): (b: Block) {
    ChunkDeltas.Cell(IdAt(ch, c), MetaAt(ch, c))
  }

  function WithId(ch: ChunkData, c: BlockCoord, id: nat): (r: ChunkData) {
    if c.layer >= ChunkDeltas.MAX_LAYERS then ch else ch.(ids := ch.ids[c := id])
  }

  function WithMeta(ch: ChunkData, c: BlockCoord, payload: Meta): (r: ChunkData) {
    if payload == map[] then ch else ch.(metadata := ch.metadata[c := MetaAt(ch, c) + payload])
  }

  // ----- the store -----

  function CoordOf(pos: Vec2, layer: nat): (c: BlockCoord) {
    ChunkDeltas.BlockCoord(layer, LocalInChunk(pos))
  }

  /** A chunk's contents: what is stored for it, or what generation gives. */
  function ChunkAt(gen: Generator, store: Store, big: Vec2, chunk: Vec2): (ch: ChunkData) {
    if big in store && chunk in store[big] then store[big][chunk] else gen(chunk)
  }

  function Stored(store: Store, big: Vec2, chunk: Vec2, ch: ChunkData): (r: Store) {
    store[big := (if big in store then store[big] else map[])[chunk := ch]]
  }

  /** The block that the accessors see. */
  function View(gen: Generator, store: Store, pos: Vec2, layer: nat): (b: Block) {
    BlockAt(ChunkAt(gen, store, ToBigChunkCoords(pos), ToChunkCoords(pos)), CoordOf(pos, layer))
  }

  /** Nothing but the block at one position and layer may look different. */
  ghost predicate SameBut(gen: Generator, was: Store, now: Store, pos: Vec2, layer: nat) {
    forall p, l: nat | p != pos || l != layer :: View(gen, now, p, l) == View(gen, was, p, l)
  }

  ghost predicate SameView(gen: Generator, was: Store, now: Store) {
    forall p, l: nat :: View(gen, now, p, l) == View(gen, was, p, l)
  }

  datatype Op =
    | Read(pos: Vec2, layer: nat)
    | Set(pos: Vec2, layer: nat, id: nat, payload: Meta)
    | SetMetadata(pos: Vec2, key: string, value: string)
    | Remove(pos: Vec2)
    | Fetch(coords: Vec2)

  /** The BigChunk key that GetChunk derives from chunk coordinates. */
  function FetchKey(coords: Vec2): (big: Vec2) {
    Vec2(coords.x / 16 * 4, coords.y / 16 * 4)
  }

  /** What an operation makes of the chunk that it works on. */
  function Edited(op: Op, ch: ChunkData): (r: ChunkData) {
    match op
    case Read(_, _) => ch
    case Set(pos, layer, id, payload) => WithMeta(WithId(ch, CoordOf(pos, layer), id), CoordOf(pos, layer), payload)
    case SetMetadata(pos, key, value) => WithMeta(ch, CoordOf(pos, ChunkDeltas.LAYER_ACTIVE), map[key := value])
    case Remove(pos) => WithId(ch, CoordOf(pos, ChunkDeltas.LAYER_ACTIVE), 0)
    case Fetch(_) => ch
  }

  function BigOf(op: Op): (big: Vec2) {
    if op.Fetch? then FetchKey(op.coords) else ToBigChunkCoords(op.pos)
  }

  function ChunkOf(op: Op): (chunk: Vec2) {
    if op.Fetch? then op.coords else ToChunkCoords(op.pos)
  }

  function Apply(gen: Generator, store: Store, op: Op): (r: Store) {
    Stored(store, BigOf(op), ChunkOf(op), Edited(op, ChunkAt(gen, store, BigOf(op), ChunkOf(op))))
  }

  function After(gen: Generator, ops: seq<Op>): (store: Store) {
    if ops == [] then map[] else Apply(gen, After(gen, ops[..|ops| - 1]), ops[|ops| - 1])
  }

  // ----- the object -----

  class WorldManager {
    const generate: Generator
    var bigChunks: Store

    constructor (generate: Generator)
      ensures this.generate == generate && bigChunks == After(generate, [])
    {
      this.generate := generate;
      bigChunks := map[];
    }

    /** Creates the BigChunk and generates the chunk where they are missing. */
    method LoadChunk(big: Vec2, coords: Vec2) returns (chunk: ChunkData)
      modifies this`bigChunks
      ensures chunk == ChunkAt(generate, old(bigChunks), big, coords)
      ensures bigChunks == Stored(old(bigChunks), big, coords, chunk)
    {
      if big !in bigChunks {
        bigChunks := bigChunks[big := map[]];
      }
      if coords in bigChunks[big] {
        chunk := bigChunks[big][coords];
        assert bigChunks[big][coords := chunk] == bigChunks[big];
      } else {
        chunk := generate(coords);
        bigChunks := bigChunks[big := bigChunks[big][coords := chunk]];
      }
    }

    method StoreChunk(big: Vec2, coords: Vec2, chunk: ChunkData)
      modifies this`bigChunks
      ensures bigChunks == Stored(old(bigChunks), big, coords, chunk)
    {
      var chunks := if big in bigChunks then bigChunks[big] else map[];
      bigChunks := bigChunks[big := chunks[coords := chunk]];
    }

    method GetBlockLayer(pos: Vec2, layer: nat) returns (b: Block)
      modifies this`bigChunks
      ensures b == View(generate, old(bigChunks), pos, layer)
      ensures bigChunks == Apply(generate, old(bigChunks), Read(pos, layer))
      ensures SameView(generate, old(bigChunks), bigChunks)
    {
      ViewSteps(generate, bigChunks, Read(pos, layer), pos, layer);
      var chunk := LoadChunk(ToBigChunkCoords(pos), ToChunkCoords(pos));
      return BlockAt(chunk, CoordOf(pos, layer));
    }

    /** Sets the id, then each metadata key of the payload in any order. */
    method SetBlockLayer(pos: Vec2, layer: nat, block: Block)
      modifies this`bigChunks
      ensures bigChunks == Apply(generate, old(bigChunks), Set(pos, layer, block.id, block.payload))
      ensures View(generate, bigChunks, pos, layer) ==
              ChunkDeltas.Cell(if layer < 3 then block.id else 0, View(generate, old(bigChunks), pos, layer).payload + block.payload)
      ensures SameBut(generate, old(bigChunks), bigChunks, pos, layer)
      ensures layer >= 3 && block.payload == map[] ==> bigChunks == Apply(generate, old(bigChunks), Read(pos, layer))
    {
      ViewSteps(generate, bigChunks, Set(pos, layer, block.id, block.payload), pos, layer);
      var big, coords, c := ToBigChunkCoords(pos), ToChunkCoords(pos), CoordOf(pos, layer);
      var chunk := LoadChunk(big, coords);
      chunk := WithId(chunk, c, block.id);
      chunk := SetMetadataKeys(chunk, c, block.payload);
      ghost var loaded := bigChunks;
      StoreChunk(big, coords, chunk);
      StoredTwice(old(bigChunks), big, coords, loaded[big][coords], chunk);
    }

    method SetBlockMetadataValue(pos: Vec2, key: string, value: string)
      modifies this`bigChunks
      ensures bigChunks == Apply(generate, old(bigChunks), SetMetadata(pos, key, value))
      ensures View(generate, bigChunks, pos, 1) ==
              var was := View(generate, old(bigChunks), pos, 1);
              ChunkDeltas.Cell(was.id, was.payload[key := value])
      ensures SameBut(generate, old(bigChunks), bigChunks, pos, 1)
    {
      ViewSteps(generate, bigChunks, SetMetadata(pos, key, value), pos, 1);
      var big, coords := ToBigChunkCoords(pos), ToChunkCoords(pos);
      var chunk := LoadChunk(big, coords);
      ghost var loaded := chunk;
      chunk := WithMeta(chunk, CoordOf(pos, ChunkDeltas.LAYER_ACTIVE), map[key := value]);
      StoreChunk(big, coords, chunk);
      StoredTwice(old(bigChunks), big, coords, loaded, chunk);
    }

    /** Reads the block and sets air in its place; its metadata stays. */
    method RemoveBlock(pos: Vec2) returns (b: Block)
      modifies this`bigChunks
      ensures b == View(generate, old(bigChunks), pos, 1)
      ensures bigChunks == Apply(generate, old(bigChunks), Remove(pos))
      ensures View(generate, bigChunks, pos, 1) == ChunkDeltas.Cell(0, b.payload)
      ensures SameBut(generate, old(bigChunks), bigChunks, pos, 1)
    {
      ViewSteps(generate, bigChunks, Remove(pos), pos, 1);
      b := GetBlockLayer(pos, ChunkDeltas.LAYER_ACTIVE);
      SetBlockLayer(pos, ChunkDeltas.LAYER_ACTIVE, ChunkDeltas.Cell(0, map[]));
      StoredTwice(old(bigChunks), ToBigChunkCoords(pos), ToChunkCoords(pos),
                  ChunkAt(generate, old(bigChunks), ToBigChunkCoords(pos), ToChunkCoords(pos)),
                  bigChunks[ToBigChunkCoords(pos)][ToChunkCoords(pos)]);
    }

    method GetChunk(coords: Vec2) returns (chunk: ChunkData)
      modifies this`bigChunks
      ensures chunk == ChunkAt(generate, old(bigChunks), Vec2(coords.x / 16 * 4, coords.y / 16 * 4), coords)
      ensures bigChunks == Apply(generate, old(bigChunks), Fetch(coords))
      ensures SameView(generate, old(bigChunks), bigChunks)
    {
      ViewSteps(generate, bigChunks, Fetch(coords), coords, 1);
      chunk := LoadChunk(FetchKey(coords), coords);
    }
  }

  lemma StoredTwice(store: Store, big: Vec2, chunk: Vec2, first: ChunkData, second: ChunkData)
    ensures Stored(Stored(store, big, chunk, first), big, chunk, second) == Stored(store, big, chunk, second)
  {
    var chunks := if big in store then store[big] else map[];
    assert chunks[chunk := first][chunk := second] == chunks[chunk := second];
  }

  lemma WithMetaStep(ch: ChunkData, c: BlockCoord, payload: Meta, todo: set<string>, key: string)
    requires key in payload && key in todo
    ensures WithMeta(WithMeta(ch, c, payload - todo), c, map[key := payload[key]]) == WithMeta(ch, c, payload - (todo - {key}))
  {
    var before, after := payload - todo, payload - (todo - {key});
    assert key in after;
    if before == map[] {
      assert after == map[key := payload[key]];
    } else {
      MergeOne(MetaAt(ch, c), before, after, key);
    }
  }

  lemma MergeOne(base: Meta, before: Meta, after: Meta, key: string)
    requires key in after && after == before[key := after[key]]
    ensures (base + before) + map[key := after[key]] == base + after
  {
  }

  method SetMetadataKeys(ch: ChunkData, c: BlockCoord, payload: Meta) returns (r: ChunkData)
    ensures r == WithMeta(ch, c, payload)
  {
    r := ch;
    var todo := payload.Keys;
    while todo != {}
      invariant todo <= payload.Keys
      invariant r == WithMeta(ch, c, payload - todo)
    {
      var key :| key in todo;
      WithMetaStep(ch, c, payload, todo, key);
      r := WithMeta(r, c, map[key := payload[key]]);
      todo := todo - {key};
    }
    assert payload - {} == payload;
  }

  // ----- the history of one block -----

  predicate IsAt(op: Op, pos: Vec2, layer: nat) {
    match op
    case Set(p, l, _, _) => p == pos && l == layer
    case SetMetadata(p, _, _) => p == pos && layer == ChunkDeltas.LAYER_ACTIVE
    case Remove(p) => p == pos && layer == ChunkDeltas.LAYER_ACTIVE
    case _ => false
  }

  /** The block as an operation on this very position and layer leaves it. */
  function Changed(op: Op, b: Block): (r: Block) {
    match op
    case Set(_, layer, id, payload) => ChunkDeltas.Cell(if layer < ChunkDeltas.MAX_LAYERS then id else 0, b.payload + payload)
    case SetMetadata(_, key, value) => ChunkDeltas.Cell(b.id, b.payload + map[key := value])
    case Remove(_) => ChunkDeltas.Cell(0, b.payload)
    case _ => b
  }

  /** The generated block, changed by just the operations on its own position and layer. */
  function History(gen: Generator, ops: seq<Op>, pos: Vec2, layer: nat): (b: Block) {
    if ops == [] then BlockAt(gen(ToChunkCoords(pos)), CoordOf(pos, layer))
    else
      var b := History(gen, ops[..|ops| - 1], pos, layer);
      if IsAt(ops[|ops| - 1], pos, layer) then Changed(ops[|ops| - 1], b) else b
  }

  /** The last id set at a position, where the last operation that sets one is the k-th. */
  lemma {:induction false} LastIdWins(gen: Generator, ops: seq<Op>, k: nat, pos: Vec2, layer: nat)
    requires k < |ops| && layer < 3
    requires IsAt(ops[k], pos, layer) && !ops[k].SetMetadata?
    requires forall i | k < i < |ops| :: IsAt(ops[i], pos, layer) ==> ops[i].SetMetadata?
    ensures History(gen, ops, pos, layer).id == if ops[k].Set? then ops[k].id else 0
  {
    if k < |ops| - 1 {
      LastIdWins(gen, ops[..|ops| - 1], k, pos, layer);
    }
  }

  /** A position and layer that no operation named shows what generation gave it. */
  lemma {:induction false} UntouchedIsGenerated(gen: Generator, ops: seq<Op>, pos: Vec2, layer: nat)
    requires forall i | 0 <= i < |ops| :: !IsAt(ops[i], pos, layer)
    ensures var ch := gen(Vec2(pos.x / 16, pos.y / 16));
            var c := ChunkDeltas.BlockCoord(layer, Vec2(pos.x % 16, pos.y % 16));
            var b := History(gen, ops, pos, layer);
            && b.id == (if layer < 3 && c in ch.ids then ch.ids[c] else 0)
            && b.payload == (if c in ch.metadata then ch.metadata[c] else map[])
  {
    if ops != [] {
      UntouchedIsGenerated(gen, ops[..|ops| - 1], pos, layer);
    }
  }

  /** There are three layers: beyond them nothing but air is ever seen. */
  lemma {:induction false} BeyondLayersIsAir(gen: Generator, ops: seq<Op>, pos: Vec2, layer: nat)
    requires layer >= 3
    ensures History(gen, ops, pos, layer).id == 0
  {
    if ops != [] {
      BeyondLayersIsAir(gen, ops[..|ops| - 1], pos, layer);
    }
  }

  /** The metadata that an operation brings along. */
  function Brought(op: Op): (m: Meta) {
    match op
    case Set(_, _, _, payload) => payload
    case SetMetadata(_, key, value) => map[key := value]
    case _ => map[]
  }

  /** The last value brought for a metadata key at a position stays, removals notwithstanding. */
  lemma {:induction false} LastValueWins(gen: Generator, ops: seq<Op>, k: nat, pos: Vec2, layer: nat, key: string)
    requires k < |ops| && IsAt(ops[k], pos, layer) && key in Brought(ops[k])
    requires forall i | k < i < |ops| :: IsAt(ops[i], pos, layer) ==> key !in Brought(ops[i])
    ensures var payload := History(gen, ops, pos, layer).payload;
            key in payload && payload[key] == Brought(ops[k])[key]
  {
    if k < |ops| - 1 {
      LastValueWins(gen, ops[..|ops| - 1], k, pos, layer, key);
    }
  }

  /** Metadata keys, once there, stay: generated ones and set ones, even through a removal. */
  lemma {:induction false} KeysStay(gen: Generator, ops: seq<Op>, k: nat, pos: Vec2, layer: nat)
    requires k <= |ops|
    ensures History(gen, ops[..k], pos, layer).payload.Keys <= History(gen, ops, pos, layer).payload.Keys
  {
    if k < |ops| {
      assert ops[..|ops| - 1][..k] == ops[..k];
      KeysStay(gen, ops[..|ops| - 1], k, pos, layer);
    } else {
      assert ops[..k] == ops;
    }
  }

  lemma EditedElsewhere(op: Op, ch: ChunkData, c: BlockCoord)
    requires !op.Read? && !op.Fetch?
    requires c != CoordOf(op.pos, if op.Set? then op.layer else ChunkDeltas.LAYER_ACTIVE)
    ensures BlockAt(Edited(op, ch), c) == BlockAt(ch, c)
  {
  }

  lemma EditedHere(op: Op, ch: ChunkData, pos: Vec2, layer: nat)
    requires IsAt(op, pos, layer)
    ensures BlockAt(Edited(op, ch), CoordOf(pos, layer)) == Changed(op, BlockAt(ch, CoordOf(pos, layer)))
  {
    var c := CoordOf(pos, layer);
    assert MetaAt(ch, c) + map[] == MetaAt(ch, c);
  }

  lemma ViewStep(gen: Generator, store: Store, op: Op, pos: Vec2, layer: nat)
    ensures View(gen, Apply(gen, store, op), pos, layer) ==
            if IsAt(op, pos, layer) then Changed(op, View(gen, store, pos, layer)) else View(gen, store, pos, layer)
  {
    var big, chunk := ToBigChunkCoords(pos), ToChunkCoords(pos);
    var ch := ChunkAt(gen, store, big, chunk);
    if IsAt(op, pos, layer) {
      EditedHere(op, ch, pos, layer);
    } else if BigOf(op) == big && ChunkOf(op) == chunk && !op.Read? && !op.Fetch? {
      if op.pos != pos {
        ChunkSplitIsBijective(pos, chunk, LocalInChunk(op.pos));
        ChunkSplitIsBijective(op.pos, chunk, LocalInChunk(op.pos));
      }
      EditedElsewhere(op, ch, CoordOf(pos, layer));
    }
  }

  /** An operation changes the view at its own position and layer only. */
  lemma ViewSteps(gen: Generator, store: Store, op: Op, pos: Vec2, layer: nat)
    requires op.Read? || op.Fetch? || IsAt(op, pos, layer)
    ensures View(gen, Apply(gen, store, op), pos, layer) ==
            if IsAt(op, pos, layer) then Changed(op, View(gen, store, pos, layer)) else View(gen, store, pos, layer)
    ensures op.Read? || op.Fetch? ==> SameView(gen, store, Apply(gen, store, op))
    ensures SameBut(gen, store, Apply(gen, store, op), pos, layer)
  {
    ViewStep(gen, store, op, pos, layer);
    forall p, l: nat | p != pos || l != layer || op.Read? || op.Fetch?
      ensures View(gen, Apply(gen, store, op), p, l) == View(gen, store, p, l)
    {
      ViewStep(gen, store, op, p, l);
    }
  }

  /** In every run the accessors see exactly the history of each block. */
  lemma {:induction false} ViewIsHistory(gen: Generator, ops: seq<Op>, pos: Vec2, layer: nat)
    ensures View(gen, After(gen, ops), pos, layer) == History(gen, ops, pos, layer)
  {
    if ops != [] {
      ViewIsHistory(gen, ops[..|ops| - 1], pos, layer);
      ViewStep(gen, After(gen, ops[..|ops| - 1]), ops[|ops| - 1], pos, layer);
    }
  }

  // ----- GetChunk -----

  predicate FetchAgrees(coords: Vec2) {
    0 <= coords.x < 16 && 0 <= coords.y < 16
  }

  /** GetChunk names the BigChunk of the accessors exactly for chunk coordinates from 0 to 15. */
  lemma FetchKeyExact(pos: Vec2)
    ensures FetchKey(ToChunkCoords(pos)) == ToBigChunkCoords(pos) <==> FetchAgrees(ToChunkCoords(pos))
  {
    FetchAxis(pos.x);
    FetchAxis(pos.y);
  }

  lemma FetchAxis(x: int)
    ensures x / 16 / 16 * 4 == x / 512 <==> 0 <= x / 16 < 16
  {
    var k := x / 16 / 16;
    assert k == x / 256 && x / 512 == k / 2;
    assert 4 * k == k / 2 <==> k == 0;
  }

  /** The chunk that GetChunk returns shows every block as the accessors do. */
  ghost predicate Live(gen: Generator, ops: seq<Op>, coords: Vec2) {
    var ch := ChunkAt(gen, After(gen, ops), FetchKey(coords), coords);
    forall local, layer :: IsLocal(local) ==>
      BlockAt(ch, ChunkDeltas.BlockCoord(layer, local)) == View(gen, After(gen, ops), FromChunk(coords, local), layer)
  }

  lemma {:induction false} ShadowIsGenerated(gen: Generator, ops: seq<Op>, coords: Vec2)
    requires !FetchAgrees(coords)
    ensures ChunkAt(gen, After(gen, ops), FetchKey(coords), coords) == gen(coords)
  {
    if ops != [] {
      var op := ops[|ops| - 1];
      ShadowIsGenerated(gen, ops[..|ops| - 1], coords);
      if !op.Fetch? && ChunkOf(op) == coords {
        FetchKeyExact(op.pos);
      }
    }
  }

  lemma FetchedIsLive(gen: Generator, ops: seq<Op>, coords: Vec2)
    requires FetchAgrees(coords)
    ensures Live(gen, ops, coords)
  {
    forall local, layer: nat | IsLocal(local)
      ensures BlockAt(ChunkAt(gen, After(gen, ops), FetchKey(coords), coords), ChunkDeltas.BlockCoord(layer, local))
              == View(gen, After(gen, ops), FromChunk(coords, local), layer)
    {
      var pos := FromChunk(coords, local);
      ChunkSplitIsBijective(pos, coords, local);
      FetchKeyExact(pos);
    }
  }

  /** A run after which GetChunk shows another block: set a block that generation did not give. */
  lemma ShadowDiffers(gen: Generator, coords: Vec2)
    requires !FetchAgrees(coords)
    ensures exists ops :: !Live(gen, ops, coords)
  {
    var local := Vec2(0, 0);
    var pos := FromChunk(coords, local);
    ChunkSplitIsBijective(pos, coords, local);
    var c := ChunkDeltas.BlockCoord(ChunkDeltas.LAYER_ACTIVE, local);
    var ops := [Set(pos, ChunkDeltas.LAYER_ACTIVE, IdAt(gen(coords), c) + 1, map[])];
    ShadowIsGenerated(gen, ops, coords);
    ViewIsHistory(gen, ops, pos, ChunkDeltas.LAYER_ACTIVE);
    LastIdWins(gen, ops, 0, pos, ChunkDeltas.LAYER_ACTIVE);
    assert !Live(gen, ops, coords);
  }

  /** GetChunk shows the world in every run exactly for chunk coordinates from 0 to 15. */
  lemma FetchIsLiveExactly(gen: Generator, coords: Vec2)
    ensures (forall ops :: Live(gen, ops, coords)) <==> FetchAgrees(coords)
  {
    if FetchAgrees(coords) {
      forall ops ensures Live(gen, ops, coords) {
        FetchedIsLive(gen, ops, coords);
      }
    } else {
      ShadowDiffers(gen, coords);
    }
  }
}
