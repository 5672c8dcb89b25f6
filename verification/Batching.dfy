/**
 internal/sync/batch_manager.go: a bounded buffer that evicts the lowest priority, flushed
 as one compressed batch.
 */
module Batching {
  import opened Common
  import opened Bytes
  import opened DeltaCodec

  // ----- the buffer as a value -----

  /** The index a new change of priority `pri` replaces in a full buffer, or -1. */
  function EvictIndex(buf: seq<Change>, pri: int): (low: int)
    ensures -1 <= low < |buf|
    ensures low == -1 <==> forall j :: 0 <= j < |buf| ==> buf[j].priority >= pri
    // otherwise: the first of the lowest priorities, which is below pri
    ensures low >= 0 ==> buf[low].priority < pri
    ensures low >= 0 ==> forall j :: 0 <= j < |buf| ==> buf[low].priority <= buf[j].priority
    ensures low >= 0 ==> forall j :: 0 <= j < low ==> buf[low].priority < buf[j].priority
  {
    if buf == [] then -1
    else
      var last := |buf| - 1;
      var low := EvictIndex(buf[..last], pri);
      if buf[last].priority < (if low == -1 then pri else buf[low].priority) then last else low
  }

  /** The buffer after a change is offered to it. */
  function Offer(capacity: int, buf: seq<Change>, ch: Change): (r: seq<Change>) {
    if |buf| >= capacity then
      var low := EvictIndex(buf, ch.priority);
      if low >= 0 then buf[low := ch] else buf
    else buf + [ch]
  }

  /** What an offer throws away: the evicted change, or the offered one. */
  function Loses(capacity: int, buf: seq<Change>, ch: Change): (lost: multiset<Change>) {
    if |buf| >= capacity then
      var low := EvictIndex(buf, ch.priority);
      if low >= 0 then multiset{buf[low]} else multiset{ch}
    else multiset{}
  }

  lemma UpdateMultiset<T>(s: seq<T>, i: nat, x: T)
    requires i < |s|
    ensures multiset(s[i := x]) == multiset(s) - multiset{s[i]} + multiset{x}
  {
  }

  lemma OfferConserves(capacity: int, buf: seq<Change>, ch: Change)
    ensures multiset(buf) + multiset{ch} == multiset(Offer(capacity, buf, ch)) + Loses(capacity, buf, ch)
  {
    if |buf| >= capacity {
      var low := EvictIndex(buf, ch.priority);
      if low >= 0 {
        UpdateMultiset(buf, low, ch);
      }
    }
  }

  /** The new change stands where the first of the lowest priorities stood, if that was lower; all else stays in place. */
  ghost predicate ReplacesLowest(was: seq<Change>, now: seq<Change>, ch: Change)
    requires |now| == |was|
  {
    if forall i | 0 <= i < |was| :: was[i].priority >= ch.priority then now == was
    else exists k :: 0 <= k < |was| && now == was[k := ch] && IsFirstLowest(was, k) && was[k].priority < ch.priority
  }

  ghost predicate IsFirstLowest(s: seq<Change>, k: nat)
    requires k < |s|
  {
    && (forall i | 0 <= i < |s| :: s[k].priority <= s[i].priority)
    && (forall i | 0 <= i < k :: s[k].priority < s[i].priority)
  }

  lemma OfferReplaces(capacity: int, buf: seq<Change>, ch: Change)
    requires |buf| >= capacity
    ensures |Offer(capacity, buf, ch)| == |buf| && ReplacesLowest(buf, Offer(capacity, buf, ch), ch)
  {
    var low := EvictIndex(buf, ch.priority);
    if low >= 0 {
      assert Offer(capacity, buf, ch) == buf[low := ch] && IsFirstLowest(buf, low);
    }
  }

  // ----- the manager -----

  class BatchManager {
    const capacity: int
    var data: array<Change>  // the slice's backing array
    var len: nat

    ghost predicate Valid()
      reads this
    {
      len <= data.Length
    }

    ghost function Buf(): (s: seq<Change>)
      requires Valid()
      reads this, data
    {
      data[..len]
    }

    constructor (capacity: int)
      ensures Valid() && fresh(data) && Buf() == [] && this.capacity == capacity
    {
      this.capacity := capacity;
      this.data := new Change[0];
      this.len := 0;
    }

    /** Go's append: writes behind the slice, into a larger array when the backing array is full. */
    method Append(ch: Change)
      requires Valid()
      modifies this, data
      ensures Valid() && (data == old(data) || fresh(data))
      ensures Buf() == old(Buf()) + [ch]
    {
      if len == data.Length {
        var grown := new Change[2 * len + 1];
        forall i | 0 <= i < len {
          grown[i] := data[i];
        }
        data := grown;
        assert data[..len] == old(Buf());
      }
      data[len] := ch;
      len := len + 1;
    }

    method AddChange(ch: Change)
      requires Valid()
      modifies this, data
      ensures Valid() && (data == old(data) || fresh(data))
      ensures Buf() == Offer(capacity, old(Buf()), ch)
      ensures |old(Buf())| < capacity ==> Buf() == old(Buf()) + [ch]
      ensures |old(Buf())| >= capacity ==> |Buf()| == |old(Buf())| && ReplacesLowest(old(Buf()), Buf(), ch)
    {
      ghost var was := Buf();
      if len >= capacity {
        OfferReplaces(capacity, was, ch);
        var lowIdx := -1;
        var lowPri := ch.priority;
        for i := 0 to len
          invariant lowIdx == EvictIndex(data[..i], ch.priority)
          invariant lowPri == if lowIdx == -1 then ch.priority else data[lowIdx].priority
        {
          assert data[..i + 1][..i] == data[..i];
          if data[i].priority < lowPri {
            lowPri := data[i].priority;
            lowIdx := i;
          }
        }
        if lowIdx >= 0 {
          data[lowIdx] := ch;
        }
      } else {
        Append(ch);
      }
    }

    /** Copies the buffer out and empties it, keeping the backing array for the next batch. */
    method Take() returns (changes: array<Change>)
      requires Valid()
      modifies this
      ensures Valid() && Buf() == [] && data == old(data)
      ensures fresh(changes) && changes != data && changes[..] == old(Buf())
    {
      changes := new Change[len];
      forall i | 0 <= i < len {
        changes[i] := data[i];
      }
      len := 0;
    }

    /** Sends the buffered changes as one payload; an empty buffer sends nothing. */
    method Flush() returns (payload: seq<seq<byte>>)
      requires Valid()
      modifies this
      ensures Valid() && Buf() == [] && data == old(data)
      ensures payload == if old(Buf()) == [] then [] else [Encode(Data(old(Buf())))]
    {
      if len == 0 {
        return [];
      }
      var changes := Take();
      var encoded := Compress(changes[..]);
      payload := [encoded];
    }
  }

  /** A batch being compressed is not altered by the adds that happen meanwhile. */
  method AddWhileCompressing(bm: BatchManager, later: seq<Change>) returns (encoded: seq<byte>)
    requires bm.Valid()
    modifies bm, bm.data
    ensures bm.Valid()
    ensures encoded == Encode(Data(old(bm.Buf())))
  {
    var changes := bm.Take();
    for i := 0 to |later|
      invariant bm.Valid() && changes != bm.data && (bm.data == old(bm.data) || fresh(bm.data))
      invariant changes[..] == old(bm.Buf())
    {
      bm.AddChange(later[i]);
    }
    encoded := Compress(changes[..]);
  }

  // ----- whole runs -----

  datatype Op = Add(ch: Change) | Flush

  /** The buffer, and the history that explains it. */
  datatype Run = Run(
    buf: seq<Change>,
    window: seq<Change>,           // offered since the last flush
    offered: multiset<Change>,     // offered ever
    emitted: seq<seq<Change>>,
    discarded: multiset<Change>)

  function Step(capacity: int, r: Run, op: Op): (r': Run) {
    match op
    case Add(ch) =>
      Run(Offer(capacity, r.buf, ch), r.window + [ch], r.offered + multiset{ch}, r.emitted,
          r.discarded + Loses(capacity, r.buf, ch))
    case Flush =>
      if r.buf == [] then r.(window := []) else Run([], [], r.offered, r.emitted + [r.buf], r.discarded)
  }

  function After(capacity: int, ops: seq<Op>): (r: Run) {
    if ops == [] then Run([], [], multiset{}, [], multiset{})
    else Step(capacity, After(capacity, ops[..|ops| - 1]), ops[|ops| - 1])
  }

  function Flatten(batches: seq<seq<Change>>): (all: seq<Change>) {
    if batches == [] then [] else Flatten(batches[..|batches| - 1]) + batches[|batches| - 1]
  }

  lemma FlattenSnoc(batches: seq<seq<Change>>, batch: seq<Change>)
    ensures Flatten(batches + [batch]) == Flatten(batches) + batch
  {
    assert (batches + [batch])[..|batches|] == batches;
  }

  /** Each offered change is exactly one of buffered, emitted once, or discarded. */
  ghost predicate Conserved(r: Run) {
    r.offered == multiset(r.buf) + multiset(Flatten(r.emitted)) + r.discarded
  }

  lemma Balance<T>(offered: multiset<T>, buf: multiset<T>, emitted: multiset<T>, discarded: multiset<T>,
                   x: multiset<T>, buf': multiset<T>, lost: multiset<T>)
    requires offered == buf + emitted + discarded && buf + x == buf' + lost
    ensures offered + x == buf' + emitted + (discarded + lost)
  {
    assert offered + x == (buf + x) + (emitted + discarded);
  }

  lemma AddConserves(capacity: int, r: Run, ch: Change)
    requires Conserved(r)
    ensures Conserved(Step(capacity, r, Add(ch)))
  {
    OfferConserves(capacity, r.buf, ch);
    Balance(r.offered, multiset(r.buf), multiset(Flatten(r.emitted)), r.discarded, multiset{ch},
            multiset(Offer(capacity, r.buf, ch)), Loses(capacity, r.buf, ch));
  }

  lemma FlushConserves(capacity: int, r: Run)
    requires Conserved(r)
    ensures Conserved(Step(capacity, r, Flush))
  {
    FlattenSnoc(r.emitted, r.buf);
  }

  lemma StepConserves(capacity: int, r: Run, op: Op)
    requires Conserved(r)
    ensures Conserved(Step(capacity, r, op))
  {
    match op
    case Add(ch) => AddConserves(capacity, r, ch);
    case Flush => FlushConserves(capacity, r);
  }

  lemma {:induction false} RunConserves(capacity: int, ops: seq<Op>)
    ensures Conserved(After(capacity, ops))
  {
    if ops != [] {
      RunConserves(capacity, ops[..|ops| - 1]);
      StepConserves(capacity, After(capacity, ops[..|ops| - 1]), ops[|ops| - 1]);
    }
  }

  /** The number of changes of priority at least t. */
  function AtLeast(s: seq<Change>, t: int): (n: nat)
    ensures n <= |s|
  {
    if s == [] then 0 else AtLeast(s[..|s| - 1], t) + (if s[|s| - 1].priority >= t then 1 else 0)
  }

  function One(c: Change, t: int): (n: nat) {
    if c.priority >= t then 1 else 0
  }

  lemma AtLeastAppend(s: seq<Change>, c: Change, t: int)
    ensures AtLeast(s + [c], t) == AtLeast(s, t) + One(c, t)
  {
    assert (s + [c])[..|s|] == s;
  }

  lemma {:induction false} AtLeastUpdate(s: seq<Change>, i: nat, c: Change, t: int)
    requires i < |s|
    ensures AtLeast(s[i := c], t) + One(s[i], t) == AtLeast(s, t) + One(c, t)
  {
    var last := |s| - 1;
    if i < last {
      AtLeastUpdate(s[..last], i, c, t);
      assert s[i := c][..last] == s[..last][i := c];
    } else {
      assert s[i := c][..last] == s[..last];
    }
  }

  lemma {:induction false} AtLeastAll(s: seq<Change>, t: int)
    ensures AtLeast(s, t) == |s| <==> forall c <- s :: c.priority >= t
  {
    if s != [] {
      var front := s[..|s| - 1];
      AtLeastAll(front, t);
      assert s == front + [s[|s| - 1]];
    }
  }

  function Slots(capacity: int): (k: nat) {
    if capacity < 0 then 0 else capacity
  }

  /** The buffer holds the highest priorities of the window: at every threshold, as many as fit. */
  ghost predicate IsTop(capacity: int, buf: seq<Change>, window: seq<Change>) {
    |buf| <= Slots(capacity) && forall t: int :: AtLeast(buf, t) == Min(Slots(capacity), AtLeast(window, t))
  }

  lemma OfferKeepsTop(capacity: int, buf: seq<Change>, window: seq<Change>, ch: Change)
    requires IsTop(capacity, buf, window)
    ensures IsTop(capacity, Offer(capacity, buf, ch), window + [ch])
  {
    forall t: int
      ensures AtLeast(Offer(capacity, buf, ch), t) == Min(Slots(capacity), AtLeast(window + [ch], t))
    {
      AtLeastAppend(window, ch, t);
      assert AtLeast(buf, t) == Min(Slots(capacity), AtLeast(window, t));
      if |buf| >= capacity {
        var low := EvictIndex(buf, ch.priority);
        AtLeastAll(buf, t);
        if low >= 0 {
          AtLeastUpdate(buf, low, ch, t);
        }
      } else {
        AtLeastAppend(buf, ch, t);
      }
    }
  }

  lemma {:induction false} RunIsTop(capacity: int, ops: seq<Op>)
    ensures IsTop(capacity, After(capacity, ops).buf, After(capacity, ops).window)
  {
    if ops != [] {
      var r := After(capacity, ops[..|ops| - 1]);
      RunIsTop(capacity, ops[..|ops| - 1]);
      match ops[|ops| - 1]
      case Add(ch) => OfferKeepsTop(capacity, r.buf, r.window, ch);
      case Flush =>
    }
  }

  // ----- the same, against sorting -----

  function Priorities(s: seq<Change>): (m: multiset<int>) {
    if s == [] then multiset{} else Priorities(s[..|s| - 1]) + multiset{s[|s| - 1].priority}
  }

  lemma {:induction false} PriorityCount(s: seq<Change>, p: int)
    ensures Priorities(s)[p] == AtLeast(s, p) - AtLeast(s, p + 1)
  {
    if s != [] {
      PriorityCount(s[..|s| - 1], p);
    }
  }

  lemma SameCountsSamePriorities(a: seq<Change>, b: seq<Change>)
    requires forall t: int :: AtLeast(a, t) == AtLeast(b, t)
    ensures Priorities(a) == Priorities(b)
  {
    forall p: int
      ensures Priorities(a)[p] == Priorities(b)[p]
    {
      PriorityCount(a, p);
      PriorityCount(b, p);
      assert AtLeast(a, p) == AtLeast(b, p) && AtLeast(a, p + 1) == AtLeast(b, p + 1);
    }
  }

  lemma RemoveMultiset<T>(b: seq<T>, i: nat)
    requires i < |b|
    ensures multiset(b[..i] + b[i + 1..]) + multiset{b[i]} == multiset(b)
  {
    assert b == b[..i] + [b[i]] + b[i + 1..];
  }

  lemma {:induction false} AtLeastPermutation(a: seq<Change>, b: seq<Change>, t: int)
    requires multiset(a) == multiset(b)
    ensures AtLeast(a, t) == AtLeast(b, t)
  {
    if a == [] {
      assert |multiset(b)| == 0;
    } else {
      var last := a[|a| - 1];
      assert last in multiset(b);
      var i :| 0 <= i < |b| && b[i] == last;
      var front, rest := a[..|a| - 1], b[..i] + b[i + 1..];
      assert a == front + [last];
      RemoveMultiset(b, i);
      assert multiset(front) == multiset(a) - multiset{last} == multiset(rest);
      AtLeastPermutation(front, rest, t);
      AtLeastRemove(b, i, t);
    }
  }

  lemma {:induction false} AtLeastRemove(b: seq<Change>, i: nat, t: int)
    requires i < |b|
    ensures AtLeast(b, t) == AtLeast(b[..i] + b[i + 1..], t) + One(b[i], t)
  {
    var last := |b| - 1;
    if i == last {
      assert b[..i] + b[i + 1..] == b[..last];
    } else {
      AtLeastRemove(b[..last], i, t);
      assert (b[..i] + b[i + 1..])[..last - 1] == b[..last][..i] + b[..last][i + 1..];
    }
  }

  ghost predicate Descending(s: seq<Change>) {
    forall i, j :: 0 <= i < j < |s| ==> s[i].priority >= s[j].priority
  }

  lemma {:induction false} SortedPrefixCount(s: seq<Change>, k: nat, t: int)
    requires Descending(s)
    ensures AtLeast(s[..Min(k, |s|)], t) == Min(k, AtLeast(s, t))
  {
    if |s| <= k {
      assert s[..|s|] == s;
    } else {
      var front := s[..|s| - 1];
      assert s[..k] == front[..Min(k, |front|)];
      SortedPrefixCount(front, k, t);
      AtLeastAll(front, t);
    }
  }

  /**
   After any run, the buffered priorities are those of the first `capacity` changes offered
   since the last flush, taken in any order of falling priority.
   */
  lemma BufferIsTopOfSorted(capacity: int, ops: seq<Op>, sorted: seq<Change>)
    requires multiset(sorted) == multiset(After(capacity, ops).window) && Descending(sorted)
    ensures Priorities(After(capacity, ops).buf) == Priorities(sorted[..Min(Slots(capacity), |sorted|)])
  {
    var r := After(capacity, ops);
    RunIsTop(capacity, ops);
    var top := sorted[..Min(Slots(capacity), |sorted|)];
    forall t: int
      ensures AtLeast(r.buf, t) == AtLeast(top, t)
    {
      SortedPrefixCount(sorted, Slots(capacity), t);
      AtLeastPermutation(sorted, r.window, t);
    }
    SameCountsSamePriorities(r.buf, top);
  }
}
