/**
 Coordinate arithmetic shared by the world modules: integer block positions
 (internal/vec/vec2.go), Go's float-to-int truncation, and the cell and region windows
 that internal/world/spatial_index.go and internal/world/region_manager.go derive from it.
 A float64 is modelled by an exact real.
 */
module Grid {

  /** An integer position (vec.Vec2). */
  datatype Vec2 = Vec2(x: int, y: int)

  /** A real position or extent (vec.Vec2Float). */
  datatype Point = Point(x: real, y: real)

  /** Key of a grid cell or of a region. */
  datatype Key = Key(x: int, z: int)

  // ----- integer chunk arithmetic -----
  // Dafny's `/` and `%` by a positive constant are exactly Go's arithmetic `>>` and mask.

  function ToChunkCoords(v: Vec2): (c: Vec2) {
    Vec2(v.x / 16, v.y / 16)
  }

  function ToBigChunkCoords(v: Vec2): (c: Vec2) {
    Vec2(v.x / 512, v.y / 512)
  }

  function LocalInChunk(v: Vec2): (l: Vec2) {
    Vec2(v.x % 16, v.y % 16)
  }

  predicate IsLocal(l: Vec2) {
    0 <= l.x < 16 && 0 <= l.y < 16
  }

  /** The world position of a local position inside a chunk, as a receiver rebuilds it. */
  function FromChunk(chunk: Vec2, local: Vec2): (v: Vec2) {
    Vec2(chunk.x * 16 + local.x, chunk.y * 16 + local.y)
  }

  /** A position is exactly a chunk and a local position: the split and the join are inverse. */
  lemma ChunkSplitIsBijective(v: Vec2, chunk: Vec2, local: Vec2)
    requires IsLocal(local)
    ensures FromChunk(ToChunkCoords(v), LocalInChunk(v)) == v && IsLocal(LocalInChunk(v))
    ensures ToChunkCoords(FromChunk(chunk, local)) == chunk
    ensures LocalInChunk(FromChunk(chunk, local)) == local
    ensures FromChunk(chunk, local) == v <==> ToChunkCoords(v) == chunk && LocalInChunk(v) == local
  {
  }

  /** Go's integer division, which truncates toward zero. */
  function TruncDiv(a: int, b: int): (q: int)
    requires b > 0
  {
    if a >= 0 then a / b else -((-a) / b)
  }

  lemma QuotientOf(n: nat, b: int)
    requires b > 0
    ensures 0 <= b * (n / b) <= n < b * (n / b) + b
  {
    assert n == b * (n / b) + n % b;
  }

  /** It is the quotient without its fraction: the largest multiple toward zero. */
  lemma TruncDivTruncates(a: int, b: int)
    requires b > 0
    ensures a >= 0 ==> 0 <= b * TruncDiv(a, b) <= a < b * TruncDiv(a, b) + b
    ensures a <= 0 ==> b * TruncDiv(a, b) - b < a <= b * TruncDiv(a, b) <= 0
  {
    if a >= 0 {
      QuotientOf(a, b);
    } else {
      QuotientOf(-a, b);
      Negated(b, (-a) / b);
    }
  }

  lemma Negated(b: int, q: int)
    ensures b * -q == -(b * q)
  {
  }

  /** A BigChunk holds the blocks of a half-open stripe of 512 on each axis. */
  lemma BigChunkStripe(v: Vec2)
    ensures var c := ToBigChunkCoords(v);
            c.x * 512 <= v.x < (c.x + 1) * 512 && c.y * 512 <= v.y < (c.y + 1) * 512
  {
  }

  /** A chunk holds the blocks of a half-open stripe of 16 on each axis. */
  lemma ChunkStripe(v: Vec2)
    ensures var c := ToChunkCoords(v);
            c.x * 16 <= v.x < (c.x + 1) * 16 && c.y * 16 <= v.y < (c.y + 1) * 16
  {
  }

  /** Go's integer remainder: it has the sign of the dividend. */
  function TruncMod(a: int, b: int): (r: int)
    requires b > 0
  {
    a - TruncDiv(a, b) * b
  }

  // ----- real arithmetic -----

  /** Go's `int(x)`: truncation toward zero. */
  function Trunc(x: real): (n: int)
    ensures x >= 0.0 ==> n >= 0 && n as real <= x < n as real + 1.0
    ensures x < 0.0 ==> n <= 0 && n as real - 1.0 < x <= n as real
  {
    if x >= 0.0 then x.Floor else -((-x).Floor)
  }

  /** The lower cell index of a bound: truncated, then corrected for negative bounds. */
  function LowCell(v: real, size: real): (c: int)
    requires size > 0.0
  {
    var c := Trunc(v / size);
    if v < 0.0 && v != c as real * size then c - 1 else c
  }

  /** The upper cell index of a bound: truncated and never corrected. */
  function HighCell(v: real, size: real): (c: int)
    requires size > 0.0
  {
    Trunc(v / size)
  }

  /** The lower edge of cell k. */
  function Edge(k: int, size: real): (e: real) {
    k as real * size
  }

  lemma EdgeStep(k: int, size: real)
    ensures Edge(k + 1, size) == Edge(k, size) + size
  {
    assert (k + 1) as real == k as real + 1.0;
  }

  lemma EdgeMonotone(a: int, b: int, size: real)
    requires size > 0.0 && a <= b
    ensures Edge(a, size) <= Edge(b, size)
  {
    assert (b - a) as real * size >= 0.0;
    assert b as real == a as real + (b - a) as real;
  }

  /** Cell indices are ordered when their edges are. */
  lemma EdgeOrder(a: int, b: int, size: real)
    requires size > 0.0 && Edge(a, size) < Edge(b + 1, size)
    ensures a <= b
  {
    if a > b {
      EdgeMonotone(b + 1, a, size);
    }
  }

  lemma QuotientBounds(v: real, size: real, k: real)
    requires size > 0.0
    ensures k <= v / size <==> k * size <= v
  {
    var q := v / size;
    assert q * size == v;
    if k <= q {
      assert (q - k) * size >= 0.0;
    } else {
      assert (k - q) * size > 0.0;
    }
  }

  lemma QuotientCell(v: real, size: real, k: int)
    requires size > 0.0
    ensures k as real <= v / size <==> Edge(k, size) <= v
    ensures k as real >= v / size <==> Edge(k, size) >= v
  {
    QuotientBounds(v, size, k as real);
    QuotientBounds(-v, size, -(k as real));
    assert (-v) / size == -(v / size);
    assert (-(k as real)) * size == -(k as real * size);
  }

  /** The corrected lower index is the floor of the quotient, for every sign. */
  lemma LowCellIsFloor(v: real, size: real)
    requires size > 0.0
    ensures LowCell(v, size) == (v / size).Floor
    ensures Edge(LowCell(v, size), size) <= v < Edge(LowCell(v, size) + 1, size)
  {
    var c := Trunc(v / size);
    QuotientCell(v, size, 0);
    QuotientCell(v, size, c - 1);
    QuotientCell(v, size, c);
    QuotientCell(v, size, c + 1);
  }

  /** The uncorrected upper index is the floor for bounds that are not negative, the ceiling for the others. */
  lemma HighCellBounds(v: real, size: real)
    requires size > 0.0
    ensures v >= 0.0 ==> HighCell(v, size) >= 0 && Edge(HighCell(v, size), size) <= v < Edge(HighCell(v, size) + 1, size)
    ensures v < 0.0 ==> HighCell(v, size) <= 0 && Edge(HighCell(v, size) - 1, size) < v <= Edge(HighCell(v, size), size)
  {
    var c := Trunc(v / size);
    QuotientCell(v, size, 0);
    QuotientCell(v, size, c - 1);
    QuotientCell(v, size, c);
    QuotientCell(v, size, c + 1);
  }

  /** The cell of a point lies in the window of every interval that holds the point. */
  lemma CellWindowCovers(p: real, lo: real, hi: real, size: real)
    requires size > 0.0 && lo <= p <= hi
    ensures LowCell(lo, size) <= LowCell(p, size) <= HighCell(hi, size)
  {
    LowCellIsFloor(p, size);
    LowCellIsFloor(lo, size);
    HighCellBounds(hi, size);
    EdgeStep(HighCell(hi, size), size);
    EdgeOrder(LowCell(lo, size), LowCell(p, size), size);
    EdgeOrder(LowCell(p, size), HighCell(hi, size), size);
  }

  // ----- regions -----

  /** One coordinate of getRegionKey: a block coordinate to its region, `regionSize` chunks wide. */
  function RegionIndex(pos: int, regionSize: int): (r: int)
    requires regionSize > 0
  {
    var chunk := pos / 16;
    var region := TruncDiv(chunk, regionSize);
    if chunk < 0 && TruncMod(chunk, regionSize) != 0 then region - 1 else region
  }

  function RegionKey(pos: Vec2, regionSize: int): (k: Key)
    requires regionSize > 0
  {
    Key(RegionIndex(pos.x, regionSize), RegionIndex(pos.y, regionSize))
  }

  lemma TruncDivCorrected(a: int, b: int)
    requires b > 0
    ensures var q := if a < 0 && TruncMod(a, b) != 0 then TruncDiv(a, b) - 1 else TruncDiv(a, b);
            q * b <= a < (q + 1) * b
  {
    var n := if a >= 0 then a else -a;
    assert n == n / b * b + n % b;
  }

  /** The corrected truncating division is a floor: region r holds the blocks of its half-open stripe. */
  lemma RegionIndexIsFloor(pos: int, regionSize: int)
    requires regionSize > 0
    ensures var r := RegionIndex(pos, regionSize);
            r * (16 * regionSize) <= pos < (r + 1) * (16 * regionSize)
  {
    var chunk := pos / 16;
    var r := RegionIndex(pos, regionSize);
    TruncDivCorrected(chunk, regionSize);
    assert r * regionSize <= chunk && chunk + 1 <= (r + 1) * regionSize;
    assert r * (16 * regionSize) == 16 * (r * regionSize);
    assert (r + 1) * (16 * regionSize) == 16 * ((r + 1) * regionSize);
  }

  /** Width of a region in blocks. */
  function RegionWidth(regionSize: int): (w: real) {
    regionSize as real * 16.0
  }

  lemma RegionStripe(pos: int, regionSize: int)
    requires regionSize > 0
    ensures var r := RegionIndex(pos, regionSize);
            var w := RegionWidth(regionSize);
            w >= 16.0 && Edge(r, w) <= pos as real && pos as real + 1.0 <= Edge(r + 1, w)
  {
    RegionIndexIsFloor(pos, regionSize);
    var r := RegionIndex(pos, regionSize);
    var w := RegionWidth(regionSize);
    assert w == (16 * regionSize) as real;
    assert (r * (16 * regionSize)) as real == Edge(r, w);
    assert ((r + 1) * (16 * regionSize)) as real == Edge(r + 1, w);
  }

  /**
   An entity sits in the region of its truncated position, while the query window runs from
   the floored minimum to the truncated maximum. The two roundings always meet: every
   region that can hold an entity of the interval is in the window, for all sign combinations.
   */
  lemma RegionWindowCovers(p: real, lo: real, hi: real, regionSize: int)
    requires regionSize > 0 && lo <= p <= hi
    ensures var w := RegionWidth(regionSize);
            w > 0.0 && LowCell(lo, w) <= RegionIndex(Trunc(p), regionSize) <= HighCell(hi, w)
  {
    var w := RegionWidth(regionSize);
    var t := Trunc(p);
    var r := RegionIndex(t, regionSize);
    RegionStripe(t, regionSize);
    LowCellIsFloor(lo, w);
    HighCellBounds(hi, w);
    EdgeOrder(LowCell(lo, w), r, w);
    var h := HighCell(hi, w);
    EdgeStep(h, w);
    if p < 0.0 && hi >= 0.0 {
      EdgeOrder(r, 0, w);
    } else {
      EdgeOrder(r, h, w);
    }
  }

  /**
   Correcting the maximum the way the minimum is corrected would lose entities: at -0.5 an
   entity is registered in region 0, but the floor of a negative maximum is at most -1.
   */
  lemma FlooredMaximumWouldMiss(hi: real, regionSize: int)
    requires regionSize > 0 && -0.5 <= hi < 0.0
    ensures RegionIndex(Trunc(-0.5), regionSize) > LowCell(hi, RegionWidth(regionSize))
    ensures RegionIndex(Trunc(-0.5), regionSize) <= HighCell(hi, RegionWidth(regionSize))
  {
    var w := RegionWidth(regionSize);
    LowCellIsFloor(hi, w);
    RegionWindowCovers(-0.5, -0.5, hi, regionSize);
    EdgeOrder(LowCell(hi, w), -1, w);
    assert Trunc(-0.5) == 0;
  }
}
