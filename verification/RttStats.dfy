/**
 internal/network/metrics.go: round-trip statistics over a sliding window of measurements.
 */
module RttStats {
  import Grid

  type Duration = int

  const WINDOW: nat := 1000

  // ----- counting and summing -----

  /** The sum of a weight over a sequence. */
  ghost function Tally(s: seq<Duration>, weight: Duration -> int): (n: int) {
    if s == [] then 0 else Tally(s[..|s| - 1], weight) + weight(s[|s| - 1])
  }

  ghost function Itself(): Duration -> int { x => x }

  ghost function Below(v: Duration): Duration -> int { x => if x < v then 1 else 0 }

  ghost function UpTo(v: Duration): Duration -> int { x => if x <= v then 1 else 0 }

  lemma {:induction false} TallySplit(s: seq<Duration>, t: seq<Duration>, weight: Duration -> int)
    ensures Tally(s + t, weight) == Tally(s, weight) + Tally(t, weight)
  {
    if t == [] {
      assert s + t == s;
    } else {
      assert (s + t)[..|s + t| - 1] == s + t[..|t| - 1];
      TallySplit(s, t[..|t| - 1], weight);
    }
  }

  lemma TallyWithout(s: seq<Duration>, k: nat, weight: Duration -> int)
    requires k < |s|
    ensures Tally(s, weight) == Tally(s[..k] + s[k + 1..], weight) + weight(s[k])
  {
    assert s[..k] + s[k..] == s && [s[k]] + s[k + 1..] == s[k..];
    TallySplit(s[..k], s[k..], weight);
    TallySplit([s[k]], s[k + 1..], weight);
    TallySplit(s[..k], s[k + 1..], weight);
    assert [s[k]][..0] == [];
  }

  lemma IndexOf(t: seq<Duration>, x: Duration) returns (k: nat)
    requires x in multiset(t)
    ensures k < |t| && t[k] == x
  {
    k :| 0 <= k < |t| && t[k] == x;
  }

  lemma MultisetWithout(t: seq<Duration>, k: nat)
    requires k < |t|
    ensures multiset(t[..k] + t[k + 1..]) == multiset(t) - multiset{t[k]}
  {
    assert t == t[..k] + [t[k]] + t[k + 1..];
  }

  /** Order does not matter for a tally. */
  lemma {:induction false} TallyPermuted(s: seq<Duration>, t: seq<Duration>, weight: Duration -> int)
    requires multiset(s) == multiset(t)
    ensures Tally(s, weight) == Tally(t, weight)
  {
    if s == [] {
      assert |multiset(t)| == 0;
    } else {
      var x, rest := s[|s| - 1], s[..|s| - 1];
      assert s == rest + [x];
      var k := IndexOf(t, x);
      MultisetWithout(t, k);
      TallyPermuted(rest, t[..k] + t[k + 1..], weight);
      TallyWithout(t, k, weight);
    }
  }

  lemma {:induction false} TallyGrows(s: seq<Duration>, lower: Duration -> int, higher: Duration -> int)
    requires forall x | x in s :: lower(x) <= higher(x)
    ensures Tally(s, lower) <= Tally(s, higher)
  {
    if s != [] {
      var last := s[|s| - 1];
      assert last in s && lower(last) <= higher(last);
      TallyGrows(s[..|s| - 1], lower, higher);
    }
  }

  // ----- what the statistics mean -----

  /** v is the element of rank k, counted from 0: at most k are below it, more than k are up to it. */
  ghost predicate HasRank(s: seq<Duration>, k: nat, v: Duration) {
    v in s && Tally(s, Below(v)) <= k < Tally(s, UpTo(v))
  }

  /** Ranks order the elements, and so determine them. */
  lemma RanksAreOrdered(s: seq<Duration>, j: nat, v: Duration, k: nat, w: Duration)
    requires j <= k && HasRank(s, j, v) && HasRank(s, k, w)
    ensures v <= w
  {
    if w < v {
      TallyGrows(s, UpTo(w), Below(v));
    }
  }

  ghost predicate Sorted(s: seq<Duration>) {
    forall i, j | 0 <= i < j < |s| :: s[i] <= s[j]
  }

  lemma {:induction false} SortedCounts(s: seq<Duration>, k: nat, n: nat)
    requires Sorted(s) && k < |s| && n <= |s|
    ensures Tally(s[..n], Below(s[k])) <= if n < k then n else k
    ensures Tally(s[..n], UpTo(s[k])) >= if n < k + 1 then n else k + 1
  {
    if n > 0 {
      assert s[..n][..n - 1] == s[..n - 1];
      SortedCounts(s, k, n - 1);
    }
  }

  /** In a sorted arrangement the element of rank k stands at index k. */
  lemma SortedIndexIsRank(s: seq<Duration>, sorted: seq<Duration>, k: nat)
    requires Sorted(sorted) && multiset(sorted) == multiset(s) && k < |sorted|
    ensures HasRank(s, k, sorted[k])
  {
    SortedCounts(sorted, k, |sorted|);
    assert sorted[..|sorted|] == sorted;
    TallyPermuted(sorted, s, Below(sorted[k]));
    TallyPermuted(sorted, s, UpTo(sorted[k]));
    assert sorted[k] in multiset(s);
  }

  datatype Stats = Stats(min: Duration, max: Duration, avg: Duration, p50: Duration, p95: Duration, p99: Duration)

  /** The statistics of the samples, said without sorting them. */
  ghost predicate Describes(st: Stats, s: seq<Duration>) {
    && s != []
    && st.min in s && st.max in s && (forall x | x in s :: st.min <= x <= st.max)
    && st.avg == Grid.TruncDiv(Tally(s, Itself()), |s|)
    && HasRank(s, |s| * 50 / 100, st.p50)
    && HasRank(s, |s| * 95 / 100, st.p95)
    && HasRank(s, |s| * 99 / 100, st.p99)
  }

  lemma {:induction false} SumBounds(s: seq<Duration>, lo: Duration, hi: Duration)
    requires forall x | x in s :: lo <= x <= hi
    ensures |s| * lo <= Tally(s, Itself()) <= |s| * hi
  {
    if s != [] {
      var front := s[..|s| - 1];
      assert s[|s| - 1] in s && forall x | x in front :: x in s;
      SumBounds(front, lo, hi);
      assert |s| * lo == |front| * lo + lo && |s| * hi == |front| * hi + hi;
    }
  }

  lemma Scaled(n: nat, a: int, b: int)
    requires a <= b
    ensures n * a <= n * b
  {
  }

  lemma FloorBounds(sum: int, n: nat, q: int, lo: int, hi: int)
    requires n > 0 && n * lo <= sum <= n * hi && n * q <= sum < n * q + n
    ensures lo <= q <= hi
  {
    if q > hi {
      Scaled(n, hi + 1, q);
    } else if q < lo {
      Scaled(n, q + 1, lo);
    }
  }

  lemma QuotientBounds(sum: int, n: nat, lo: int, hi: int)
    requires n > 0 && n * lo <= sum <= n * hi
    ensures lo <= Grid.TruncDiv(sum, n) <= hi
  {
    if sum >= 0 {
      FloorBounds(sum, n, sum / n, lo, hi);
    } else {
      assert n * -hi == -(n * hi) && n * -lo == -(n * lo);
      FloorBounds(-sum, n, (-sum) / n, -hi, -lo);
    }
  }

  /** The statistics of any samples are in order. */
  lemma StatsAreOrdered(st: Stats, s: seq<Duration>)
    requires Describes(st, s)
    ensures st.min <= st.p50 <= st.p95 <= st.p99 <= st.max
    ensures st.min <= st.avg <= st.max
  {
    RanksAreOrdered(s, |s| * 50 / 100, st.p50, |s| * 95 / 100, st.p95);
    RanksAreOrdered(s, |s| * 95 / 100, st.p95, |s| * 99 / 100, st.p99);
    SumBounds(s, st.min, st.max);
    QuotientBounds(Tally(s, Itself()), |s|, st.min, st.max);
  }

  // ----- the sliding window -----

  function Slide(samples: seq<Duration>, rtt: Duration): (r: seq<Duration>) {
    var longer := samples + [rtt];
    if |longer| > WINDOW then longer[1..] else longer
  }

  function After(history: seq<Duration>): (samples: seq<Duration>) {
    if history == [] then [] else Slide(After(history[..|history| - 1]), history[|history| - 1])
  }

  function Suffix(s: seq<Duration>): (r: seq<Duration>)
    ensures |r| == if |s| > WINDOW then WINDOW else |s|
  {
    if |s| > WINDOW then s[|s| - WINDOW..] else s
  }

  lemma SlideSuffix(s: seq<Duration>, rtt: Duration)
    ensures Slide(Suffix(s), rtt) == Suffix(s + [rtt])
  {
    if |s| > WINDOW {
      assert s[|s| - WINDOW..] + [rtt] == (s + [rtt])[|s| - WINDOW..];
    }
  }

  /** After any measurements the samples are the last thousand of them, or all if fewer. */
  lemma WindowIsSuffix(history: seq<Duration>)
    ensures After(history) == if |history| <= 1000 then history else history[|history| - 1000..]
  {
    AfterIsSuffix(history);
  }

  lemma {:induction false} AfterIsSuffix(history: seq<Duration>)
    ensures After(history) == Suffix(history)
  {
    if history != [] {
      var before, rtt := history[..|history| - 1], history[|history| - 1];
      AfterIsSuffix(before);
      SlideSuffix(before, rtt);
      assert before + [rtt] == history;
    }
  }

  // ----- the algorithm -----

  /** The first n elements are in place: none exceeds a later one. */
  ghost predicate Settled(s: seq<Duration>, n: nat) {
    n <= |s| && forall p, q | 0 <= p < n && p < q < |s| :: s[p] <= s[q]
  }

  /** The element at i does not exceed those behind it and before j. */
  ghost predicate Leads(s: seq<Duration>, i: nat, j: nat) {
    i < j <= |s| && forall q | i < q < j :: s[i] <= s[q]
  }

  ghost function Exchange(s: seq<Duration>, i: nat, j: nat): (r: seq<Duration>)
    requires i < |s| && j < |s|
    ensures |r| == |s|
  {
    s[i := s[j]][j := s[i]]
  }

  lemma ExchangeKeeps(s: seq<Duration>, i: nat, j: nat)
    requires Settled(s, i) && Leads(s, i, j) && j < |s| && s[i] > s[j]
    ensures Settled(Exchange(s, i, j), i) && Leads(Exchange(s, i, j), i, j + 1)
    ensures multiset(Exchange(s, i, j)) == multiset(s)
  {
    var r := Exchange(s, i, j);
    forall p, q | 0 <= p < i && p < q < |r| ensures r[p] <= r[q] {
      assert r[p] == s[p] && (r[q] == s[q] || r[q] == s[i] || r[q] == s[j]);
    }
  }

  /** The inner loop: exchanges the element at i with any later smaller one. */
  method SettleIndex(a: array<Duration>, i: nat)
    requires i < a.Length && Settled(a[..], i)
    modifies a
    ensures Settled(a[..], i + 1) && multiset(a[..]) == multiset(old(a[..]))
  {
    for j := i + 1 to a.Length
      invariant multiset(a[..]) == multiset(old(a[..])) && Settled(a[..], i) && Leads(a[..], i, j)
    {
      if a[i] > a[j] {
        ghost var s := a[..];
        ExchangeKeeps(s, i, j);
        a[i], a[j] := a[j], a[i];
        assert a[..] == Exchange(s, i, j);
      }
    }
  }

  method ExchangeSort(a: array<Duration>)
    modifies a
    ensures Sorted(a[..]) && multiset(a[..]) == multiset(old(a[..]))
  {
    for i := 0 to a.Length
      invariant multiset(a[..]) == multiset(old(a[..])) && Settled(a[..], i)
    {
      SettleIndex(a, i);
    }
  }

  method Sum(a: array<Duration>) returns (sum: Duration)
    ensures sum == Tally(a[..], Itself())
  {
    sum := 0;
    for i := 0 to a.Length
      invariant sum == Tally(a[..i], Itself())
    {
      assert a[..i + 1][..i] == a[..i];
      sum := sum + a[i];
    }
    assert a[..a.Length] == a[..];
  }

  method Calculate(samples: seq<Duration>) returns (st: Stats)
    requires samples != []
    ensures Describes(st, samples)
  {
    var n := |samples|;
    var sorted := new Duration[n](i requires 0 <= i < n => samples[i]);
    assert sorted[..] == samples;
    ExchangeSort(sorted);
    var sum := Sum(sorted);
    st := Stats(sorted[0], sorted[n - 1], Grid.TruncDiv(sum, n), sorted[n * 50 / 100], sorted[n * 95 / 100], sorted[n * 99 / 100]);
    SortedDescribes(samples, sorted[..], st);
  }

  lemma SortedEnds(s: seq<Duration>, sorted: seq<Duration>)
    requires Sorted(sorted) && multiset(sorted) == multiset(s) && sorted != []
    ensures sorted[0] in s && sorted[|sorted| - 1] in s
    ensures forall x | x in s :: sorted[0] <= x <= sorted[|sorted| - 1]
  {
    assert sorted[0] in multiset(s) && sorted[|sorted| - 1] in multiset(s);
    forall x | x in s ensures sorted[0] <= x <= sorted[|sorted| - 1] {
      assert x in multiset(sorted);
    }
  }

  lemma SortedDescribes(s: seq<Duration>, sorted: seq<Duration>, st: Stats)
    requires s != [] && Sorted(sorted) && multiset(sorted) == multiset(s) && |sorted| == |s|
    requires var n := |s|;
             st == Stats(sorted[0], sorted[n - 1], Grid.TruncDiv(Tally(sorted, Itself()), n),
                         sorted[n * 50 / 100], sorted[n * 95 / 100], sorted[n * 99 / 100])
    ensures Describes(st, s)
  {
    var n := |s|;
    TallyPermuted(sorted, s, Itself());
    SortedIndexIsRank(s, sorted, n * 50 / 100);
    SortedIndexIsRank(s, sorted, n * 95 / 100);
    SortedIndexIsRank(s, sorted, n * 99 / 100);
    SortedEnds(s, sorted);
  }

  class NetworkMetrics {
    var samples: seq<Duration>
    var stats: Stats

    constructor ()
      ensures samples == [] && stats == Stats(0, 0, 0, 0, 0, 0)
    {
      samples := [];
      stats := Stats(0, 0, 0, 0, 0, 0);
    }

    /** The window slides and the statistics are those of the new window. */
    method RecordRTT(rtt: Duration)
      modifies this
      ensures samples == Slide(old(samples), rtt)
      ensures samples == if |old(samples)| < 1000 then old(samples) + [rtt] else old(samples)[1..] + [rtt]
      ensures Describes(stats, samples)
      ensures stats.min in samples && stats.max in samples && forall x | x in samples :: stats.min <= x <= stats.max
      ensures HasRank(samples, |samples| * 50 / 100, stats.p50) && HasRank(samples, |samples| * 95 / 100, stats.p95)
      ensures HasRank(samples, |samples| * 99 / 100, stats.p99) && stats.avg == Grid.TruncDiv(Tally(samples, x => x), |samples|)
    {
      samples := samples + [rtt];
      if |samples| > WINDOW {
        samples := samples[1..];
      }
      stats := Calculate(samples);
    }
  }
}
