/** Bytes and fixed-width integer headers, in both byte orders. */
module Bytes {

  type byte = n: int | 0 <= n < 256

  /** Width of every length and count header on the wire. */
  const HEADER: nat := 4

  const TWO32: int := 0x1_0000_0000

  function Pow256(k: nat): (p: nat)
    ensures p > 0
  {
    if k == 0 then 1 else 256 * Pow256(k - 1)
  }

  /** The k low bytes of n, most significant first. */
  function WriteBig(n: nat, k: nat): (b: seq<byte>)
    ensures |b| == k
  {
    if k == 0 then [] else WriteBig(n / 256, k - 1) + [n % 256]
  }

  function ReadBig(b: seq<byte>): (n: nat) {
    if b == [] then 0 else ReadBig(b[..|b| - 1]) * 256 + b[|b| - 1]
  }

  /** The k low bytes of n, least significant first. */
  function WriteLittle(n: nat, k: nat): (b: seq<byte>)
    ensures |b| == k
  {
    if k == 0 then [] else [n % 256] + WriteLittle(n / 256, k - 1)
  }

  function ReadLittle(b: seq<byte>): (n: nat) {
    if b == [] then 0 else b[0] + 256 * ReadLittle(b[1..])
  }

  lemma SmallMultiple(m: int, d: int)
    requires m > 0 && -m < m * d < m
    ensures d == 0
  {
    if d >= 1 {
      Grows(m, d);
    } else if -d >= 1 {
      Grows(m, -d);
    }
  }

  lemma Grows(m: int, d: int)
    requires m > 0 && d >= 1
    ensures m * d >= m
  {
    assert m * (d - 1) >= 0;
  }

  lemma ModUnique(n: int, m: int, t: int, r: int)
    requires m > 0 && 0 <= r < m && n == m * t + r
    ensures n % m == r
  {
    var q := n / m;
    assert n == m * q + n % m;
    assert m * (q - t) == m * q - m * t;
    SmallMultiple(m, q - t);
  }

  lemma ModStep(n: nat, m: nat)
    requires m > 0
    ensures n / 256 % m * 256 + n % 256 == n % (256 * m)
  {
    var q := n / 256;
    var t, s := q / m, q % m;
    assert q == m * t + s;
    assert n == 256 * (m * t + s) + n % 256;
    assert 256 * (m * t) == (256 * m) * t;
    ModUnique(n, 256 * m, t, s * 256 + n % 256);
  }

  lemma {:induction false} BigRoundTrip(n: nat, k: nat)
    ensures ReadBig(WriteBig(n, k)) == n % Pow256(k)
  {
    if k > 0 {
      var b := WriteBig(n / 256, k - 1);
      assert WriteBig(n, k)[..k - 1] == b;
      BigRoundTrip(n / 256, k - 1);
      ModStep(n, Pow256(k - 1));
    }
  }

  lemma {:induction false} BigRewrite(b: seq<byte>)
    ensures WriteBig(ReadBig(b), |b|) == b
  {
    if b != [] {
      var front := b[..|b| - 1];
      BigRewrite(front);
      assert ReadBig(b) / 256 == ReadBig(front);
      assert b == front + [b[|b| - 1]];
    }
  }

  lemma {:induction false} BigBound(b: seq<byte>)
    ensures ReadBig(b) < Pow256(|b|)
  {
    if b != [] {
      BigBound(b[..|b| - 1]);
    }
  }

  lemma {:induction false} LittleRoundTrip(n: nat, k: nat)
    ensures ReadLittle(WriteLittle(n, k)) == n % Pow256(k)
  {
    if k > 0 {
      assert WriteLittle(n, k)[1..] == WriteLittle(n / 256, k - 1);
      LittleRoundTrip(n / 256, k - 1);
      ModStep(n, Pow256(k - 1));
    }
  }

  lemma HeaderRange()
    ensures Pow256(HEADER) == TWO32
  {
    assert Pow256(0) == 1;
    assert Pow256(1) == 256;
    assert Pow256(2) == 0x1_0000;
    assert Pow256(3) == 0x100_0000;
  }
}
