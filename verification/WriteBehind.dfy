/**
 internal/cache/redis_cache.go: a hot cache with write-behind to cold storage. Set writes Redis, then
 queues the write; a worker collects queued writes into a batch and stores the batch when it is full
 or a timer fires. A full queue makes Set store directly, in its own goroutine; a failed batch store
 loses the batch. Get on a miss reads cold storage and sets what it found again, in its own goroutine.
 Calls interleave freely: each step below is one Redis, channel or cold-storage operation.
 */
module WriteBehind {
  import opened Common

  datatype Item = Item(key: string, value: string)

  /** A write by a caller of Set, or by the refill of a Get. */
  datatype Write = Write(item: Item, user: bool)

  type Store = map<string, string>

  /** Where a call or a goroutine stands. */
  datatype Call =
    | Missed(key: string)       // Get found no entry in Redis
    | Refilling(item: Item)     // Get read cold storage; its goroutine has not written Redis yet
    | Sending(write: Write)     // Redis is written, the queue is next
    | Storing(item: Item)       // the queue was full; a goroutine stores directly

  datatype State = State(
    hot: Store,
    queue: seq<Item>,           // the write-behind channel
    batch: Store,               // the worker's batch
    cold: Store,
    calls: map<nat, Call>,
    // history
    writes: seq<Write>,         // in the order of the Redis writes
    sent: seq<Write>)           // in the order of the queue operations

  datatype Step =
    | SetRedis(w: nat, key: string, value: string)
    | Send(w: nat)
    | Miss(w: nat, key: string)
    | Load(w: nat)
    | Refill(w: nat)
    | Abandon(w: nat)               // a Get or a refill whose Redis or cold-storage access fails
    | Take                          // the worker receives one queued write
    | Flush(storeOk: bool)          // the worker stores its batch
    | StoreDirect(w: nat, storeOk: bool)
    | Expire(key: string)           // a hot entry's time to live ends

  const EMPTY := State(map[], [], map[], map[], map[], [], [])

  predicate Room(size: nat, s: State) {
    |s.queue| < 2 * size
  }

  /** The worker receives only when its batch is not due for a store. */
  predicate CanTake(size: nat, s: State) {
    s.queue != [] && (s.batch == map[] || |s.batch| < size)
  }

  function Written(s: State, w: nat, write: Write): (s': State) {
    s.(hot := s.hot[write.item.key := write.item.value],
       calls := s.calls[w := Sending(write)],
       writes := s.writes + [write])
  }

  /** One step; a step that cannot happen changes nothing. */
  function Next(size: nat, s: State, step: Step): (s': State) {
    match step
    case SetRedis(w, key, value) =>
      if w in s.calls then s else Written(s, w, Write(Item(key, value), true))
    case Send(w) =>
      if w !in s.calls || !s.calls[w].Sending? then s
      else
        var write := s.calls[w].write;
        if Room(size, s)
        then s.(queue := s.queue + [write.item], calls := s.calls - {w}, sent := s.sent + [write])
        else s.(calls := s.calls[w := Storing(write.item)], sent := s.sent + [write])
    case Miss(w, key) =>
      if w in s.calls || key in s.hot then s else s.(calls := s.calls[w := Missed(key)])
    case Load(w) =>
      if w !in s.calls || !s.calls[w].Missed? then s
      else
        var key := s.calls[w].key;
        s.(calls := if key in s.cold then s.calls[w := Refilling(Item(key, s.cold[key]))] else s.calls - {w})
    case Refill(w) =>
      if w !in s.calls || !s.calls[w].Refilling? then s else Written(s, w, Write(s.calls[w].item, false))
    case Abandon(w) =>
      if w in s.calls && (s.calls[w].Missed? || s.calls[w].Refilling?) then s.(calls := s.calls - {w}) else s
    case Take =>
      if !CanTake(size, s) then s
      else s.(queue := s.queue[1..], batch := s.batch[s.queue[0].key := s.queue[0].value])
    case Flush(storeOk) =>
      s.(batch := map[], cold := if storeOk then s.cold + s.batch else s.cold)
    case StoreDirect(w, storeOk) =>
      if w !in s.calls || !s.calls[w].Storing? then s
      else
        var item := s.calls[w].item;
        s.(calls := s.calls - {w}, cold := if storeOk then s.cold[item.key := item.value] else s.cold)
    case Expire(key) => s.(hot := s.hot - {key})
  }

  /** The state after steps from a given state. */
  function After(size: nat, s: State, steps: seq<Step>): (s': State) {
    if steps == [] then s else Next(size, After(size, s, steps[..|steps| - 1]), steps[|steps| - 1])
  }

  lemma {:induction false} AfterConcat(size: nat, s: State, a: seq<Step>, b: seq<Step>)
    ensures After(size, s, a + b) == After(size, After(size, s, a), b)
  {
    if b == [] {
      assert a + b == a;
    } else {
      assert (a + b)[..|a + b| - 1] == a + b[..|b| - 1];
      AfterConcat(size, s, a, b[..|b| - 1]);
    }
  }

  lemma AfterOne(size: nat, s: State, step: Step)
    ensures After(size, s, [step]) == Next(size, s, step)
  {
    assert [step][..0] == [] && After(size, s, []) == s;
  }

  // ----- the cache -----

  class RedisCache {
    const size: nat                  // WriteBehindBatchSize
    var hot: Store
    var queue: seq<Item>
    var batch: Store
    var cold: Store
    ghost var calls: map<nat, Call>
    ghost var writes: seq<Write>
    ghost var sent: seq<Write>

    constructor (size: nat)
      ensures Now() == EMPTY && this.size == if size == 0 then 100 else size
      ensures hot == batch == cold == map[] && queue == []
    {
      this.size := if size == 0 then 100 else size;
      hot, queue, batch, cold := map[], [], map[], map[];
      calls, writes, sent := map[], [], [];
    }

    ghost function Now(): (s: State)
      reads this
    {
      State(hot, queue, batch, cold, calls, writes, sent)
    }

    /** The Redis half of Set; a failed write ends the call. */
    method WriteRedis(ghost w: nat, key: string, value: string, redisOk: bool) returns (ok: bool)
      requires w !in calls
      modifies `hot, `calls, `writes
      ensures ok == redisOk
      ensures Now() == if redisOk then Next(size, old(Now()), SetRedis(w, key, value)) else old(Now())
      ensures hot == if redisOk then old(hot)[key := value] else old(hot)
    {
      if !redisOk {
        return false;
      }
      hot := hot[key := value];
      calls := calls[w := Sending(Write(Item(key, value), true))];
      writes := writes + [Write(Item(key, value), true)];
      return true;
    }

    /** The queue half of Set, for the write that the call has made; the write overflows when the queue is full. */
    method SendWrite(ghost w: nat, key: string, value: string) returns (overflow: bool)
      requires w in calls && calls[w].Sending? && calls[w].write.item == Item(key, value)
      modifies `queue, `calls, `sent
      ensures Now() == Next(size, old(Now()), Send(w))
      ensures overflow == (|old(queue)| >= 2 * size)
      ensures queue == if overflow then old(queue) else old(queue) + [Item(key, value)]
    {
      sent := sent + [calls[w].write];
      if |queue| < 2 * size {
        queue := queue + [Item(key, value)];
        calls := calls - {w};
        return false;
      }
      calls := calls[w := Storing(Item(key, value))];
      return true;
    }

    /** Set as its caller sees it, when nothing comes between its two halves. */
    method SetValue(ghost w: nat, key: string, value: string, redisOk: bool) returns (ok: bool)
      requires w !in calls
      modifies `hot, `queue, `calls, `writes, `sent
      ensures ok == redisOk
      ensures Now() == if redisOk then Next(size, Next(size, old(Now()), SetRedis(w, key, value)), Send(w)) else old(Now())
      ensures hot == if redisOk then old(hot)[key := value] else old(hot)
      ensures queue == if redisOk && |old(queue)| < 2 * size then old(queue) + [Item(key, value)] else old(queue)
    {
      ok := WriteRedis(w, key, value, redisOk);
      if ok {
        var _ := SendWrite(w, key, value);
      }
    }

    /** The Redis half of Get: a hit answers, a miss goes on, an error ends the call. */
    method ReadRedis(ghost w: nat, key: string, redisOk: bool) returns (value: Option<string>, missed: bool)
      requires w !in calls
      modifies `calls
      ensures value == if redisOk && key in hot then Some(hot[key]) else None
      ensures missed == (redisOk && key !in hot)
      ensures Now() == if redisOk then Next(size, old(Now()), Miss(w, key)) else old(Now())
    {
      if !redisOk {
        return None, false;
      }
      if key in hot {
        return Some(hot[key]), false;
      }
      calls := calls[w := Missed(key)];
      return None, true;
    }

    /** The cold half of Get: what is found is answered, and a goroutine is to set it again; an error is a miss. */
    method ReadCold(ghost w: nat, key: string, coldOk: bool) returns (value: Option<string>)
      requires w in calls && calls[w] == Missed(key)
      modifies `calls
      ensures value == if coldOk && key in cold then Some(cold[key]) else None
      ensures Now() == Next(size, old(Now()), if coldOk then Load(w) else Abandon(w))
    {
      if coldOk && key in cold {
        calls := calls[w := Refilling(Item(key, cold[key]))];
        return Some(cold[key]);
      }
      calls := calls - {w};
      return None;
    }

    method WorkerTake()
      requires queue != [] && (batch == map[] || |batch| < size)
      modifies `queue, `batch
      ensures Now() == Next(size, old(Now()), Take)
      ensures queue == old(queue[1..]) && batch == old(batch)[old(queue[0].key) := old(queue[0].value)]
    {
      var item := queue[0];
      queue := queue[1..];
      batch := batch[item.key := item.value];
    }

    method FlushWriteBehindBatch(storeOk: bool)
      modifies `batch, `cold
      ensures Now() == Next(size, old(Now()), Flush(storeOk))
      ensures batch == map[] && cold == if storeOk then old(cold) + old(batch) else old(cold)
    {
      if storeOk {
        cold := cold + batch;
      }
      batch := map[];
    }

    /** One turn of the worker's loop: a queued write, and the store of a batch that it fills. */
    method WorkerTurn(storeOk: bool)
      requires queue != [] && (batch == map[] || |batch| < size)
      modifies `queue, `batch, `cold
      ensures var taken := Next(size, old(Now()), Take);
              Now() == if |taken.batch| >= size then Next(size, taken, Flush(storeOk)) else taken
      ensures queue == old(queue[1..])
      ensures var filled := old(batch)[old(queue[0].key) := old(queue[0].value)];
              if |filled| >= size then batch == map[] && cold == (if storeOk then old(cold) + filled else old(cold))
              else batch == filled && cold == old(cold)
    {
      WorkerTake();
      if |batch| >= size {
        FlushWriteBehindBatch(storeOk);
      }
    }

    /** The goroutine of an overflowing write. */
    method StoreOverflow(ghost w: nat, key: string, value: string, storeOk: bool)
      requires w in calls && calls[w] == Storing(Item(key, value))
      modifies `calls, `cold
      ensures Now() == Next(size, old(Now()), StoreDirect(w, storeOk))
      ensures cold == if storeOk then old(cold)[key := value] else old(cold)
    {
      calls := calls - {w};
      if storeOk {
        cold := cold[key := value];
      }
    }
  }

  // ----- reading the layers -----

  function Lookup(m: Store, key: string): (v: Option<string>) {
    if key in m then Some(m[key]) else None
  }

  function Or(a: Option<string>, b: Option<string>): (r: Option<string>) {
    if a.Some? then a else b
  }

  /** The last queued value of a key. */
  function LastItem(items: seq<Item>, key: string): (v: Option<string>) {
    if items == [] then None
    else
      var last := items[|items| - 1];
      if last.key == key then Some(last.value) else LastItem(items[..|items| - 1], key)
  }

  /** The last value written to a key, by anyone. */
  function Last(writes: seq<Write>, key: string): (v: Option<string>) {
    if writes == [] then None
    else
      var last := writes[|writes| - 1];
      if last.item.key == key then Some(last.item.value) else Last(writes[..|writes| - 1], key)
  }

  /** The last value written to a key by a caller of Set. */
  function LastUser(writes: seq<Write>, key: string): (v: Option<string>) {
    if writes == [] then None
    else
      var last := writes[|writes| - 1];
      if last.user && last.item.key == key then Some(last.item.value) else LastUser(writes[..|writes| - 1], key)
  }

  /** What the queue over the batch over cold storage gives for a key. */
  function Layers(s: State, key: string): (v: Option<string>) {
    Or(LastItem(s.queue, key), Or(Lookup(s.batch, key), Lookup(s.cold, key)))
  }

  lemma LastSnoc(writes: seq<Write>, w: Write, key: string)
    ensures Last(writes + [w], key) == if w.item.key == key then Some(w.item.value) else Last(writes, key)
    ensures LastUser(writes + [w], key) == if w.user && w.item.key == key then Some(w.item.value) else LastUser(writes, key)
  {
    assert (writes + [w])[..|writes|] == writes;
  }

  lemma ItemSnoc(items: seq<Item>, item: Item, key: string)
    ensures LastItem(items + [item], key) == if item.key == key then Some(item.value) else LastItem(items, key)
  {
    assert (items + [item])[..|items|] == items;
  }

  /** Taking the first item off a queue uncovers nothing but that item. */
  lemma {:induction false} ItemTail(items: seq<Item>, key: string)
    requires items != []
    ensures LastItem(items, key) == Or(LastItem(items[1..], key), if items[0].key == key then Some(items[0].value) else None)
  {
    if |items| > 1 {
      var front := items[..|items| - 1];
      ItemTail(front, key);
      assert items[1..][..|items| - 2] == front[1..];
    } else {
      assert items[..0] == [] && items[1..] == [];
    }
  }

  /** The k-th write counts for its key when no later write concerns the key. */
  lemma {:induction false} LastIs(writes: seq<Write>, key: string, k: nat)
    requires k < |writes| && writes[k].item.key == key
    ensures (forall i | k < i < |writes| :: writes[i].item.key != key) ==> Last(writes, key) == Some(writes[k].item.value)
    ensures (forall i | k < i < |writes| :: writes[i].user ==> writes[i].item.key != key) && writes[k].user
            ==> LastUser(writes, key) == Some(writes[k].item.value)
  {
    if k < |writes| - 1 {
      LastIs(writes[..|writes| - 1], key, k);
    }
  }

  /** The same in a queue. */
  lemma {:induction false} LastItemIs(items: seq<Item>, key: string, k: nat)
    requires k < |items| && items[k].key == key && forall i | k < i < |items| :: items[i].key != key
    ensures LastItem(items, key) == Some(items[k].value)
  {
    if k < |items| - 1 {
      LastItemIs(items[..|items| - 1], key, k);
    }
  }

  lemma {:induction false} NoItem(items: seq<Item>, key: string)
    requires forall i | 0 <= i < |items| :: items[i].key != key
    ensures LastItem(items, key) == None
  {
    if items != [] {
      NoItem(items[..|items| - 1], key);
    }
  }

  /** The last queued write of a key comes first, then the batch, then cold storage. */
  lemma LayersAre(s: State, key: string)
    ensures forall k | 0 <= k < |s.queue| && s.queue[k].key == key ::
              (forall i | k < i < |s.queue| :: s.queue[i].key != key) ==> Layers(s, key) == Some(s.queue[k].value)
    ensures (forall i | 0 <= i < |s.queue| :: s.queue[i].key != key) ==>
              Layers(s, key) == if key in s.batch then Some(s.batch[key]) else if key in s.cold then Some(s.cold[key]) else None
  {
    forall k | 0 <= k < |s.queue| && s.queue[k].key == key && (forall i | k < i < |s.queue| :: s.queue[i].key != key)
      ensures Layers(s, key) == Some(s.queue[k].value)
    {
      LastItemIs(s.queue, key, k);
    }
    if forall i | 0 <= i < |s.queue| :: s.queue[i].key != key {
      NoItem(s.queue, key);
    }
  }

  // ----- the sizes -----

  lemma SizesStep(size: nat, s: State, step: Step)
    requires |s.queue| <= 2 * size && |s.batch| <= (if size == 0 then 1 else size)
    ensures var s' := Next(size, s, step);
            |s'.queue| <= 2 * size && |s'.batch| <= (if size == 0 then 1 else size)
  {
  }

  /** In every run the queue holds at most twice the batch size, and the batch at most the batch size, or one write. */
  lemma {:induction false} QueuesBounded(size: nat, steps: seq<Step>)
    ensures var s := After(size, EMPTY, steps);
            |s.queue| <= 2 * size && |s.batch| <= (if size == 0 then 1 else size)
  {
    if steps != [] {
      QueuesBounded(size, steps[..|steps| - 1]);
      SizesStep(size, After(size, EMPTY, steps[..|steps| - 1]), steps[|steps| - 1]);
    }
  }

  // ----- the hot cache, in the order of the Redis writes -----

  /** The step writes the key to Redis. */
  predicate WritesKey(s: State, step: Step, key: string) {
    || (step.SetRedis? && step.w !in s.calls && step.key == key)
    || (step.Refill? && step.w in s.calls && s.calls[step.w].Refilling? && s.calls[step.w].item.key == key)
  }

  /** The k-th step writes the key to Redis, and no time to live of the key ends later. */
  ghost predicate Cached(size: nat, steps: seq<Step>, key: string, k: nat) {
    && k < |steps| && WritesKey(After(size, EMPTY, steps[..k]), steps[k], key)
    && (forall j | k < j < |steps| :: steps[j] != Expire(key))
  }

  lemma HotChange(size: nat, s: State, step: Step, key: string)
    ensures key in Next(size, s, step).hot <==> WritesKey(s, step, key) || (key in s.hot && step != Expire(key))
  {
  }

  lemma CachedBefore(size: nat, steps: seq<Step>, key: string, k: nat)
    requires steps != [] && k < |steps| - 1
    ensures Cached(size, steps, key, k) <==>
            Cached(size, steps[..|steps| - 1], key, k) && steps[|steps| - 1] != Expire(key)
  {
    var front := steps[..|steps| - 1];
    assert front[..k] == steps[..k] && front[k] == steps[k];
    if Cached(size, steps, key, k) {
      assert forall j | k < j < |front| :: front[j] == steps[j];
    }
  }

  /** In every run the key is hot exactly when it was written to Redis and has not expired since. */
  lemma {:induction false} HotExactly(size: nat, steps: seq<Step>, key: string)
    ensures key in After(size, EMPTY, steps).hot <==> exists k :: Cached(size, steps, key, k)
  {
    if steps != [] {
      var n := |steps| - 1;
      var s := After(size, EMPTY, steps[..n]);
      HotExactly(size, steps[..n], key);
      HotChange(size, s, steps[n], key);
      forall k | 0 <= k < n ensures Cached(size, steps, key, k) <==> Cached(size, steps[..n], key, k) && steps[n] != Expire(key) {
        CachedBefore(size, steps, key, k);
      }
      assert Cached(size, steps, key, n) <==> WritesKey(s, steps[n], key);
    }
  }

  /** A hit is the last value written to Redis, in every run. */
  lemma {:induction false} HotIsLast(size: nat, steps: seq<Step>, key: string)
    ensures var s := After(size, EMPTY, steps);
            key in s.hot ==> Last(s.writes, key) == Some(s.hot[key])
  {
    if steps != [] {
      HotIsLast(size, steps[..|steps| - 1], key);
      HotStep(size, After(size, EMPTY, steps[..|steps| - 1]), steps[|steps| - 1], key);
    }
  }

  lemma HotStep(size: nat, s: State, step: Step, key: string)
    requires key in s.hot ==> Last(s.writes, key) == Some(s.hot[key])
    ensures var s' := Next(size, s, step);
            key in s'.hot ==> Last(s'.writes, key) == Some(s'.hot[key])
  {
    if step.SetRedis? {
      LastSnoc(s.writes, Write(Item(step.key, step.value), true), key);
    } else if step.Refill? && step.w in s.calls && s.calls[step.w].Refilling? {
      LastSnoc(s.writes, Write(s.calls[step.w].item, false), key);
    }
  }

  /** A hit is the last value that a caller set. */
  ghost predicate HotRight(s: State, key: string) {
    key in s.hot ==> LastUser(s.writes, key) == Some(s.hot[key])
  }

  /** A refill that writes another value than the last one set. */
  predicate StaleRefill(s: State, step: Step, key: string) {
    && step.Refill? && step.w in s.calls && s.calls[step.w].Refilling? && s.calls[step.w].item.key == key
    && LastUser(s.writes, key) != Some(s.calls[step.w].item.value)
  }

  lemma HotRightStep(size: nat, s: State, step: Step, key: string)
    requires HotRight(s, key)
    ensures HotRight(Next(size, s, step), key) <==> !StaleRefill(s, step, key)
  {
    if step.SetRedis? {
      LastSnoc(s.writes, Write(Item(step.key, step.value), true), key);
    } else if step.Refill? && step.w in s.calls && s.calls[step.w].Refilling? {
      LastSnoc(s.writes, Write(s.calls[step.w].item, false), key);
    }
  }

  /** In every state of the run, a hit is the last value set. */
  ghost predicate HotAlwaysRight(size: nat, steps: seq<Step>, key: string) {
    HotRight(After(size, EMPTY, steps), key) && (steps == [] || HotAlwaysRight(size, steps[..|steps| - 1], key))
  }

  /** No step of the run is a stale refill of the key. */
  predicate NeverStale(size: nat, steps: seq<Step>, key: string) {
    steps == [] ||
    (NeverStale(size, steps[..|steps| - 1], key) &&
     !StaleRefill(After(size, EMPTY, steps[..|steps| - 1]), steps[|steps| - 1], key))
  }

  /** Every hit in every state of a run is the last value set exactly when no refill of the key is stale. */
  lemma {:induction false} HotExact(size: nat, steps: seq<Step>, key: string)
    ensures HotAlwaysRight(size, steps, key) <==> NeverStale(size, steps, key)
  {
    if steps != [] {
      var front := steps[..|steps| - 1];
      HotExact(size, front, key);
      var s := After(size, EMPTY, front);
      if HotRight(s, key) {
        HotRightStep(size, s, steps[|steps| - 1], key);
      }
    }
  }

  // ----- what a refill writes -----

  predicate Moves(step: Step, w: nat) {
    match step
    case SetRedis(v, _, _) => v == w
    case Send(v) => v == w
    case Miss(v, _) => v == w
    case Load(v) => v == w
    case Refill(v) => v == w
    case Abandon(v) => v == w
    case StoreDirect(v, _) => v == w
    case _ => false
  }

  lemma StandsStill(size: nat, s: State, step: Step, w: nat)
    requires !Moves(step, w)
    ensures w in Next(size, s, step).calls <==> w in s.calls
    ensures w in s.calls ==> Next(size, s, step).calls[w] == s.calls[w]
  {
  }

  lemma {:induction false} StandsStillAll(size: nat, s: State, steps: seq<Step>, w: nat)
    requires w in s.calls && forall step <- steps :: !Moves(step, w)
    ensures w in After(size, s, steps).calls && After(size, s, steps).calls[w] == s.calls[w]
  {
    if steps != [] {
      StandsStillAll(size, s, steps[..|steps| - 1], w);
      StandsStill(size, After(size, s, steps[..|steps| - 1]), steps[|steps| - 1], w);
    }
  }

  lemma StepGrows(size: nat, s: State, step: Step)
    ensures s.writes <= Next(size, s, step).writes
  {
  }

  lemma {:induction false} WritesGrow(size: nat, s: State, steps: seq<Step>)
    ensures s.writes <= After(size, s, steps).writes
  {
    if steps != [] {
      WritesGrow(size, s, steps[..|steps| - 1]);
      StepGrows(size, After(size, s, steps[..|steps| - 1]), steps[|steps| - 1]);
    }
  }

  lemma {:induction false} LastUserConcat(a: seq<Write>, b: seq<Write>, key: string)
    ensures LastUser(a + b, key) == Or(LastUser(b, key), LastUser(a, key))
  {
    if b == [] {
      assert a + b == a;
    } else {
      assert (a + b)[..|a + b| - 1] == a + b[..|b| - 1];
      LastUserConcat(a, b[..|b| - 1], key);
    }
  }

  lemma LastUserSince(a: seq<Write>, b: seq<Write>, key: string)
    requires a <= b
    ensures LastUser(b, key) == Or(LastUser(b[|a|..], key), LastUser(a, key))
  {
    assert b == a + b[|a|..];
    LastUserConcat(a, b[|a|..], key);
  }

  /**
   In any state a Get reads cold storage; any steps later its refill writes Redis. It writes what
   cold storage held at the read, and this is the last value set exactly when the last value set in
   between is the same, or none was and cold storage was up to date at the read.
   */
  lemma RefillExact(size: nat, s: State, w: nat, between: seq<Step>)
    requires w in s.calls && s.calls[w].Missed? && s.calls[w].key in s.cold
    requires forall step <- between :: !Moves(step, w)
    ensures s.writes <= After(size, Next(size, s, Load(w)), between).writes
    ensures var key := s.calls[w].key;
            var now := After(size, Next(size, s, Load(w)), between);
            var since := LastUser(now.writes[|s.writes|..], key);
            && key in Next(size, now, Refill(w)).hot
            && Next(size, now, Refill(w)).hot[key] == s.cold[key]
            && (HotRight(Next(size, now, Refill(w)), key) <==>
                if since.Some? then since == Lookup(s.cold, key) else Lookup(s.cold, key) == LastUser(s.writes, key))
  {
    var key := s.calls[w].key;
    var loaded := Next(size, s, Load(w));
    var now := After(size, loaded, between);
    StandsStillAll(size, loaded, between, w);
    WritesGrow(size, loaded, between);
    LastUserSince(s.writes, now.writes, key);
    LastSnoc(now.writes, Write(Item(key, s.cold[key]), false), key);
  }

  // ----- the layers, in the order of the queue operations -----

  /** No goroutine is about to store the key directly. */
  ghost predicate NoDirect(s: State, key: string) {
    forall w <- s.calls :: s.calls[w].Storing? ==> s.calls[w].item.key != key
  }

  /** The layers give the last value sent by a caller, and no direct store of the key is outstanding. */
  ghost predicate Good(s: State, key: string) {
    Layers(s, key) == LastUser(s.sent, key) && NoDirect(s, key)
  }

  /** The write that a step sends. */
  function SentBy(s: State, step: Step): (w: Option<Write>) {
    if step.Send? && step.w in s.calls && s.calls[step.w].Sending? then Some(s.calls[step.w].write) else None
  }

  /**
   The step does the key no harm: a send of it finds room and, if it is a refill, carries the last
   value sent; a batch that is lost does not hold it, or holds what cold storage has, or a newer
   write of it waits in the queue.
   */
  predicate Harmless(size: nat, s: State, step: Step, key: string) {
    match SentBy(s, step)
    case Some(write) =>
      write.item.key != key || (Room(size, s) && (write.user || LastUser(s.sent, key) == Some(write.item.value)))
    case None =>
      step == Flush(false) && key in s.batch ==>
        LastItem(s.queue, key).Some? || Lookup(s.cold, key) == Lookup(s.batch, key)
  }

  lemma SendGood(size: nat, s: State, step: Step, key: string)
    requires Good(s, key) && SentBy(s, step).Some?
    ensures Good(Next(size, s, step), key) <==> Harmless(size, s, step, key)
  {
    var write, s' := SentBy(s, step).value, Next(size, s, step);
    ItemSnoc(s.queue, write.item, key);
    LastSnoc(s.sent, write, key);
    if !Room(size, s) && write.item.key == key {
      assert s'.calls[step.w] == Storing(write.item);
    }
  }

  lemma TakeLayers(size: nat, s: State, key: string)
    ensures Layers(Next(size, s, Take), key) == Layers(s, key)
  {
    if CanTake(size, s) {
      ItemTail(s.queue, key);
    }
  }

  lemma OtherGood(size: nat, s: State, step: Step, key: string)
    requires Good(s, key) && SentBy(s, step).None?
    ensures Good(Next(size, s, step), key) <==> Harmless(size, s, step, key)
  {
    var s' := Next(size, s, step);
    assert s'.sent == s.sent;
    if step.Take? {
      TakeLayers(size, s, key);
    }
    assert NoDirect(s', key);
  }

  /** From a good state, a step leads to a good state exactly when it is harmless. */
  lemma GoodStep(size: nat, s: State, step: Step, key: string)
    requires Good(s, key)
    ensures Good(Next(size, s, step), key) <==> Harmless(size, s, step, key)
  {
    if SentBy(s, step).Some? {
      SendGood(size, s, step, key);
    } else {
      OtherGood(size, s, step, key);
    }
  }

  ghost predicate AlwaysGood(size: nat, steps: seq<Step>, key: string) {
    Good(After(size, EMPTY, steps), key) && (steps == [] || AlwaysGood(size, steps[..|steps| - 1], key))
  }

  /** All steps from the state are harmless to the key. */
  predicate Calm(size: nat, s: State, steps: seq<Step>, key: string) {
    steps == [] ||
    (Calm(size, s, steps[..|steps| - 1], key) &&
     Harmless(size, After(size, s, steps[..|steps| - 1]), steps[|steps| - 1], key))
  }

  /** Every state of a run is good exactly when every step of it is harmless. */
  lemma {:induction false} LayersExact(size: nat, steps: seq<Step>, key: string)
    ensures AlwaysGood(size, steps, key) <==> Calm(size, EMPTY, steps, key)
  {
    if steps != [] {
      var front := steps[..|steps| - 1];
      LayersExact(size, front, key);
      var s := After(size, EMPTY, front);
      if Good(s, key) {
        GoodStep(size, s, steps[|steps| - 1], key);
      }
    }
  }

  lemma {:induction false} CalmKeepsGood(size: nat, s: State, steps: seq<Step>, key: string)
    requires Good(s, key) && Calm(size, s, steps, key)
    ensures Good(After(size, s, steps), key)
  {
    if steps != [] {
      CalmKeepsGood(size, s, steps[..|steps| - 1], key);
      GoodStep(size, After(size, s, steps[..|steps| - 1]), steps[|steps| - 1], key);
    }
  }

  lemma {:induction false} CalmConcat(size: nat, s: State, a: seq<Step>, b: seq<Step>, key: string)
    requires Calm(size, s, a, key) && Calm(size, After(size, s, a), b, key)
    ensures Calm(size, s, a + b, key)
  {
    if b == [] {
      assert a + b == a;
    } else {
      var front := b[..|b| - 1];
      CalmConcat(size, s, a, front, key);
      AfterConcat(size, s, a, front);
      assert (a + b)[..|a + b| - 1] == a + front;
    }
  }

  // ----- draining -----

  lemma AfterCons(size: nat, s: State, step: Step, steps: seq<Step>)
    ensures After(size, s, [step] + steps) == After(size, Next(size, s, step), steps)
  {
    AfterConcat(size, s, [step], steps);
    AfterOne(size, s, step);
  }

  lemma CalmOne(size: nat, s: State, step: Step, key: string)
    requires Harmless(size, s, step, key)
    ensures Calm(size, s, [step], key)
  {
    assert [step][..0] == [] && After(size, s, []) == s;
  }

  lemma CalmCons(size: nat, s: State, step: Step, steps: seq<Step>, key: string)
    requires Harmless(size, s, step, key) && Calm(size, Next(size, s, step), steps, key)
    ensures Calm(size, s, [step] + steps, key)
  {
    AfterOne(size, s, step);
    CalmOne(size, s, step, key);
    CalmConcat(size, s, [step], steps, key);
  }

  lemma FlushLayers(size: nat, s: State, key: string)
    ensures var f := Next(size, s, Flush(true));
            f == s.(batch := map[], cold := s.cold + s.batch) && Layers(f, key) == Layers(s, key)
  {
  }

  lemma DrainRound(size: nat, s: State, key: string)
    requires s.queue != []
    ensures var t := Next(size, Next(size, s, Flush(true)), Take);
            t == s.(queue := s.queue[1..], batch := t.batch, cold := t.cold) && Layers(t, key) == Layers(s, key)
  {
    FlushLayers(size, s, key);
    TakeLayers(size, Next(size, s, Flush(true)), key);
  }

  /** Steps that empty the queue and the batch into cold storage, harmless and without any other effect. */
  lemma {:induction false} Drained(size: nat, s: State, key: string) returns (steps: seq<Step>)
    ensures Calm(size, s, steps, key)
    ensures var d := After(size, s, steps);
            d == s.(queue := [], batch := map[], cold := d.cold) && Lookup(d.cold, key) == Layers(s, key)
    decreases |s.queue|
  {
    var flushed := Next(size, s, Flush(true));
    if s.queue == [] {
      FlushLayers(size, s, key);
      AfterOne(size, s, Flush(true));
      CalmOne(size, s, Flush(true), key);
      steps := [Flush(true)];
    } else {
      DrainRound(size, s, key);
      var rest := Drained(size, Next(size, flushed, Take), key);
      AfterCons(size, flushed, Take, rest);
      CalmCons(size, flushed, Take, rest, key);
      AfterCons(size, s, Flush(true), [Take] + rest);
      CalmCons(size, s, Flush(true), [Take] + rest, key);
      steps := [Flush(true)] + ([Take] + rest);
    }
  }

  lemma {:induction false} FreshCall(ws: set<nat>) returns (w: nat)
    ensures forall v <- ws :: v < w
    ensures w !in ws
  {
    w := 0;
    if ws != {} {
      var v :| v in ws;
      var u := FreshCall(ws - {v});
      w := if u > v then u else v + 1;
      assert forall x <- ws :: x == v || x in ws - {v};
    }
  }

  function SetSteps(w: nat, item: Item): (steps: seq<Step>) {
    [SetRedis(w, item.key, item.value), Send(w)]
  }

  /** A Set that finds room and is not interrupted. */
  lemma SetRuns(size: nat, s: State, w: nat, item: Item, key: string)
    requires w !in s.calls && Room(size, s)
    ensures Calm(size, s, SetSteps(w, item), key)
    ensures After(size, s, SetSteps(w, item)) ==
            s.(hot := s.hot[item.key := item.value], queue := s.queue + [item],
               writes := s.writes + [Write(item, true)], sent := s.sent + [Write(item, true)])
  {
    var first, second := SetRedis(w, item.key, item.value), Send(w);
    var t := Next(size, s, first);
    assert SetSteps(w, item) == [first] + [second];
    AfterCons(size, s, first, [second]);
    AfterOne(size, t, second);
    assert t.calls - {w} == s.calls;
    CalmOne(size, t, second, key);
    CalmCons(size, s, first, [second], key);
  }

  /** Steps that set a value and store everything that waits: cold storage has the value. */
  lemma SetAndDrained(size: nat, s: State, w: nat, item: Item) returns (steps: seq<Step>)
    requires w !in s.calls && Room(size, s)
    ensures Calm(size, s, steps, item.key)
    ensures var t := After(size, s, steps);
            && Lookup(t.cold, item.key) == Some(item.value)
            && t == s.(hot := s.hot[item.key := item.value], queue := [], batch := map[], cold := t.cold,
                       writes := s.writes + [Write(item, true)], sent := s.sent + [Write(item, true)])
  {
    SetRuns(size, s, w, item, item.key);
    var first := SetSteps(w, item);
    var t := After(size, s, first);
    ItemSnoc(s.queue, item, item.key);
    var second := Drained(size, t, item.key);
    AfterConcat(size, s, first, second);
    CalmConcat(size, s, first, second, item.key);
    steps := first + second;
  }

  ghost predicate LayersRight(s: State, key: string) {
    Layers(s, key) == LastUser(s.sent, key)
  }

  /** A direct store of another value than cold storage has, when nothing waits. */
  lemma DirectHarms(size: nat, s: State, w: nat, key: string)
    requires w in s.calls && s.calls[w].Storing? && s.calls[w].item.key == key
    requires s.queue == [] && s.batch == map[]
    requires LastUser(s.sent, key) != Some(s.calls[w].item.value)
    ensures Calm(size, s, [StoreDirect(w, true)], key)
    ensures !LayersRight(After(size, s, [StoreDirect(w, true)]), key)
  {
    AfterOne(size, s, StoreDirect(w, true));
    CalmOne(size, s, StoreDirect(w, true), key);
  }

  /** An outstanding direct store can undo a later value, although nothing else goes wrong. */
  lemma DirectCanHarm(size: nat, s: State, w: nat, key: string) returns (steps: seq<Step>)
    requires size > 0
    requires w in s.calls && s.calls[w].Storing? && s.calls[w].item.key == key
    ensures Calm(size, s, steps, key) && !LayersRight(After(size, s, steps), key)
  {
    var value := s.calls[w].item.value;
    var drain := Drained(size, s, key);
    var d := After(size, s, drain);
    if LastUser(d.sent, key) != Some(value) {
      DirectHarms(size, d, w, key);
      steps := drain + [StoreDirect(w, true)];
      AfterConcat(size, s, drain, [StoreDirect(w, true)]);
      CalmConcat(size, s, drain, [StoreDirect(w, true)], key);
    } else {
      var v := FreshCall(d.calls.Keys);
      var item := Item(key, value + "'");
      var more := SetAndDrained(size, d, v, item);
      LastSnoc(d.sent, Write(item, true), key);
      DirectHarms(size, After(size, d, more), w, key);
      AfterConcat(size, d, more, [StoreDirect(w, true)]);
      CalmConcat(size, d, more, [StoreDirect(w, true)], key);
      steps := drain + (more + [StoreDirect(w, true)]);
      AfterConcat(size, s, drain, more + [StoreDirect(w, true)]);
      CalmConcat(size, s, drain, more + [StoreDirect(w, true)], key);
    }
  }

  /** If the steps do the key no harm, the layers give the last value sent after them. */
  ghost predicate Kept(size: nat, s: State, steps: seq<Step>, key: string) {
    Calm(size, s, steps, key) ==> LayersRight(After(size, s, steps), key)
  }

  /**
   What being good means: every continuation that does the key no further harm keeps the layers at
   the last value sent. So by LayersExact the first harmful step, an overflow, a stale refill or a
   lost batch, is where a run begins to be able to lose a value.
   */
  lemma GoodExact(size: nat, s: State, key: string)
    requires size > 0
    ensures Good(s, key) <==> forall steps :: Kept(size, s, steps, key)
  {
    if Good(s, key) {
      forall steps ensures Kept(size, s, steps, key) {
        if Calm(size, s, steps, key) {
          CalmKeepsGood(size, s, steps, key);
        }
      }
    } else if LayersRight(s, key) {
      var w :| w in s.calls && s.calls[w].Storing? && s.calls[w].item.key == key;
      var steps := DirectCanHarm(size, s, w, key);
      assert !Kept(size, s, steps, key);
    } else {
      assert !Kept(size, s, [], key);
    }
  }

  // ----- a lost value stays lost until the key is set again -----

  ghost predicate CallHolds(c: Call, key: string, v: Option<string>) {
    match c
    case Missed(_) => true
    case Refilling(item) => item.key == key ==> Some(item.value) == v
    case Sending(write) => write.item.key == key ==> !write.user && Some(write.item.value) == v
    case Storing(item) => item.key == key ==> Some(item.value) == v
  }

  /** Cold storage has the value, nothing that may still reach it has another, and no Set of the key is under way. */
  ghost predicate Settled(s: State, key: string, v: Option<string>) {
    && Lookup(s.cold, key) == v
    && (key in s.batch ==> Some(s.batch[key]) == v)
    && (forall item <- s.queue :: item.key == key ==> Some(item.value) == v)
    && (forall w <- s.calls :: CallHolds(s.calls[w], key, v))
  }

  lemma {:induction false} ItemFound(items: seq<Item>, key: string)
    ensures LastItem(items, key).Some? ==> Item(key, LastItem(items, key).value) in items
  {
    if items != [] {
      ItemFound(items[..|items| - 1], key);
    }
  }

  lemma SettledLayers(s: State, key: string, v: Option<string>)
    requires Settled(s, key, v)
    ensures Layers(s, key) == v
  {
    ItemFound(s.queue, key);
  }

  predicate Sets(step: Step, key: string) {
    step.SetRedis? && step.key == key
  }

  lemma SettledSend(size: nat, s: State, step: Step, key: string, v: Option<string>)
    requires Settled(s, key, v) && SentBy(s, step).Some?
    ensures Settled(Next(size, s, step), key, v)
    ensures LastUser(Next(size, s, step).sent, key) == LastUser(s.sent, key)
  {
    var write := SentBy(s, step).value;
    assert CallHolds(s.calls[step.w], key, v);
    LastSnoc(s.sent, write, key);
  }

  /** A step that moves one call at most and leaves the layers alone. */
  lemma SettledCalls(size: nat, s: State, step: Step, key: string, v: Option<string>)
    requires Settled(s, key, v) && !Sets(step, key) && SentBy(s, step).None?
    requires !step.Take? && !step.Flush? && !step.StoreDirect?
    ensures Settled(Next(size, s, step), key, v)
  {
    var s' := Next(size, s, step);
    assert s'.queue == s.queue && s'.batch == s.batch && s'.cold == s.cold;
    forall w <- s'.calls ensures CallHolds(s'.calls[w], key, v) {
      if w in s.calls {
        assert CallHolds(s.calls[w], key, v);
      }
    }
  }

  lemma SettledLayersStep(size: nat, s: State, step: Step, key: string, v: Option<string>)
    requires Settled(s, key, v) && (step.Take? || step.Flush? || step.StoreDirect?)
    ensures Settled(Next(size, s, step), key, v)
  {
    if step.StoreDirect? && step.w in s.calls {
      assert CallHolds(s.calls[step.w], key, v);
    }
    if step.Take? && CanTake(size, s) {
      assert s.queue[0] in s.queue;
      assert forall item <- s.queue[1..] :: item in s.queue;
    }
  }

  lemma SettledHot(size: nat, s: State, step: Step, key: string, v: Option<string>)
    requires Settled(s, key, v) && !Sets(step, key) && Or(Lookup(s.hot, key), v) == v
    ensures Or(Lookup(Next(size, s, step).hot, key), v) == v
  {
    if step.Refill? && step.w in s.calls {
      assert CallHolds(s.calls[step.w], key, v);
    }
  }

  lemma SettledStep(size: nat, s: State, step: Step, key: string, v: Option<string>)
    requires Settled(s, key, v) && !Sets(step, key)
    ensures Settled(Next(size, s, step), key, v)
    ensures LastUser(Next(size, s, step).sent, key) == LastUser(s.sent, key)
  {
    if SentBy(s, step).Some? {
      SettledSend(size, s, step, key, v);
    } else {
      NothingSent(size, s, step);
      if step.Take? || step.Flush? || step.StoreDirect? {
        SettledLayersStep(size, s, step, key, v);
      } else {
        SettledCalls(size, s, step, key, v);
      }
    }
  }

  lemma NothingSent(size: nat, s: State, step: Step)
    requires SentBy(s, step).None?
    ensures Next(size, s, step).sent == s.sent
  {
  }

  /**
   Once the layers have settled on another value than the last one sent, every later step but a new
   Set of the key leaves it so: misses, refills, expiry, flushes and outstanding stores included. The
   same holds of the hot cache if it has no entry of the key or the same wrong one.
   */
  lemma {:induction false} LossIsForGood(size: nat, s: State, steps: seq<Step>, key: string, v: Option<string>)
    requires Settled(s, key, v) && v != LastUser(s.sent, key)
    requires forall step <- steps :: !Sets(step, key)
    ensures var t := After(size, s, steps);
            && Settled(t, key, v) && Layers(t, key) == v
            && LastUser(t.sent, key) == LastUser(s.sent, key) && !LayersRight(t, key)
            && (Or(Lookup(s.hot, key), v) == v ==> Or(Lookup(t.hot, key), v) == v)
  {
    if steps != [] {
      LossIsForGood(size, s, steps[..|steps| - 1], key, v);
      var t, step := After(size, s, steps[..|steps| - 1]), steps[|steps| - 1];
      SettledStep(size, t, step, key, v);
      if Or(Lookup(t.hot, key), v) == v {
        SettledHot(size, t, step, key, v);
      }
    }
    SettledLayers(After(size, s, steps), key, v);
  }

  // ----- runs that lose a value -----

  lemma SettledWhenIdle(s: State, key: string)
    requires s.queue == [] && s.batch == map[] && s.calls == map[]
    ensures Settled(s, key, Lookup(s.cold, key))
  {
  }

  lemma TwoSteps(size: nat, s: State, a: Step, b: Step)
    ensures After(size, s, [a, b]) == Next(size, Next(size, s, a), b)
  {
    assert [a, b] == [a] + [b];
    AfterCons(size, s, a, [b]);
    AfterOne(size, Next(size, s, a), b);
  }

  /** One Set, and a failed store of the batch that holds it. */
  lemma BatchLoses(size: nat, item: Item)
    requires size > 0
    ensures var t := After(size, EMPTY, SetSteps(0, item) + [Take, Flush(false)]);
            Settled(t, item.key, None) && LastUser(t.sent, item.key) == Some(item.value)
  {
    SetRuns(size, EMPTY, 0, item, item.key);
    var s := After(size, EMPTY, SetSteps(0, item));
    AfterConcat(size, EMPTY, SetSteps(0, item), [Take, Flush(false)]);
    TwoSteps(size, s, Take, Flush(false));
    LastSnoc([], Write(item, true), item.key);
    SettledWhenIdle(After(size, EMPTY, SetSteps(0, item) + [Take, Flush(false)]), item.key);
  }

  function Fill(n: nat, item: Item): (steps: seq<Step>) {
    if n == 0 then [] else Fill(n - 1, item) + SetSteps(0, item)
  }

  lemma {:induction false} FillRuns(size: nat, n: nat, item: Item)
    requires n <= 2 * size
    ensures var s := After(size, EMPTY, Fill(n, item));
            |s.queue| == n && s.calls == map[] && s.batch == map[] && s.cold == map[]
  {
    if n > 0 {
      FillRuns(size, n - 1, item);
      var s := After(size, EMPTY, Fill(n - 1, item));
      SetRuns(size, s, 0, item, item.key);
      AfterConcat(size, EMPTY, Fill(n - 1, item), SetSteps(0, item));
    }
  }

  /** A Set that finds the queue full. */
  lemma SetOverflows(size: nat, s: State, w: nat, item: Item)
    requires w !in s.calls && !Room(size, s)
    ensures After(size, s, SetSteps(w, item)) ==
            s.(hot := s.hot[item.key := item.value], calls := s.calls[w := Storing(item)],
               writes := s.writes + [Write(item, true)], sent := s.sent + [Write(item, true)])
  {
    var first, second := SetRedis(w, item.key, item.value), Send(w);
    assert SetSteps(w, item) == [first] + [second];
    AfterCons(size, s, first, [second]);
    AfterOne(size, Next(size, s, first), second);
    assert s.calls[w := Sending(Write(item, true))][w := Storing(item)] == s.calls[w := Storing(item)];
  }

  lemma StoredLate(size: nat, s: State, w: nat, newer: Item) returns (steps: seq<Step>)
    requires size > 0 && s.calls.Keys == {w} && s.calls[w].Storing? && s.calls[w].item.key == newer.key
    ensures var t := After(size, s, steps);
            && t.queue == [] && t.batch == map[] && t.calls == map[]
            && Lookup(t.cold, newer.key) == Some(s.calls[w].item.value) && LastUser(t.sent, newer.key) == Some(newer.value)
  {
    var drain := Drained(size, s, newer.key);
    var d := After(size, s, drain);
    var again := SetAndDrained(size, d, w + 1, newer);
    var t := After(size, d, again);
    LastSnoc(d.sent, Write(newer, true), newer.key);
    AfterOne(size, t, StoreDirect(w, true));
    AfterConcat(size, d, again, [StoreDirect(w, true)]);
    AfterConcat(size, s, drain, again + [StoreDirect(w, true)]);
    steps := drain + (again + [StoreDirect(w, true)]);
  }

  /**
   A run, for every batch size, in which a write overflows, everything else is stored, a newer value
   is set and stored, and only then the overflowing write reaches cold storage.
   */
  lemma OverflowLoses(size: nat, filler: Item, older: Item, newer: Item) returns (steps: seq<Step>)
    requires size > 0 && older.key == newer.key
    ensures var t := After(size, EMPTY, steps);
            Settled(t, older.key, Some(older.value)) && LastUser(t.sent, older.key) == Some(newer.value)
  {
    FillRuns(size, 2 * size, filler);
    var fill := Fill(2 * size, filler);
    var s := After(size, EMPTY, fill);
    SetOverflows(size, s, 0, older);
    var over := After(size, s, SetSteps(0, older));
    var late := StoredLate(size, over, 0, newer);
    AfterConcat(size, s, SetSteps(0, older), late);
    AfterConcat(size, EMPTY, fill, SetSteps(0, older) + late);
    steps := fill + (SetSteps(0, older) + late);
    SettledWhenIdle(After(size, EMPTY, steps), older.key);
  }

  // ----- reading through -----

  /** In a good state, cold storage is up to date exactly when no other value waits in the queue or the batch. */
  lemma ReadThroughIsFresh(size: nat, steps: seq<Step>, key: string)
    requires Calm(size, EMPTY, steps, key)
    ensures var s := After(size, EMPTY, steps);
            var waiting := Or(LastItem(s.queue, key), Lookup(s.batch, key));
            Lookup(s.cold, key) == LastUser(s.sent, key) <==> waiting == None || waiting == Lookup(s.cold, key)
  {
    CalmKeepsGood(size, EMPTY, steps, key);
  }

  /**
   A run without overflow or lost batch in which a Get misses and is about to read an old value: the
   newer one is still queued.
   */
  lemma StaleMiss(size: nat, older: Item, newer: Item) returns (steps: seq<Step>)
    requires size > 0 && older.key == newer.key
    ensures Calm(size, EMPTY, steps, older.key)
    ensures var t := After(size, EMPTY, steps);
            && t == State(map[], [newer], map[], t.cold, map[1 := Missed(older.key)],
                          [Write(older, true), Write(newer, true)], [Write(older, true), Write(newer, true)])
            && Lookup(t.cold, older.key) == Some(older.value)
  {
    var key := older.key;
    var first := SetAndDrained(size, EMPTY, 0, older);
    var s := After(size, EMPTY, first);
    var second := SetThenMiss(size, s, newer);
    AfterConcat(size, EMPTY, first, second);
    CalmConcat(size, EMPTY, first, second, key);
    steps := first + second;
    assert s.hot[key := newer.value] - {key} == map[];
  }

  lemma SetThenMiss(size: nat, s: State, item: Item) returns (steps: seq<Step>)
    requires s.calls == map[] && Room(size, s)
    ensures Calm(size, s, steps, item.key)
    ensures After(size, s, steps) ==
            s.(hot := s.hot[item.key := item.value] - {item.key}, queue := s.queue + [item],
               calls := map[1 := Missed(item.key)],
               writes := s.writes + [Write(item, true)], sent := s.sent + [Write(item, true)])
  {
    var key := item.key;
    SetRuns(size, s, 0, item, key);
    var first, second := SetSteps(0, item), [Expire(key), Miss(1, key)];
    var u := After(size, s, first);
    TwoSteps(size, u, Expire(key), Miss(1, key));
    CalmTwo(size, u, Expire(key), Miss(1, key), key);
    AfterConcat(size, s, first, second);
    CalmConcat(size, s, first, second, key);
    steps := first + second;
  }

  lemma CalmTwo(size: nat, s: State, a: Step, b: Step, key: string)
    requires Harmless(size, s, a, key) && Harmless(size, Next(size, s, a), b, key)
    ensures Calm(size, s, [a, b], key)
  {
    assert [a, b] == [a] + [b];
    CalmOne(size, Next(size, s, a), b, key);
    CalmCons(size, s, a, [b], key);
  }

  /**
   The same run goes on: the refill of what the Get read undoes the newer value everywhere, although
   no write overflows, no store fails and nobody sets the key in between.
   */
  lemma StaleRefillLoses(size: nat, older: Item, newer: Item) returns (steps: seq<Step>)
    requires size > 0 && older.key == newer.key
    ensures var t := After(size, EMPTY, steps);
            && Settled(t, older.key, Some(older.value)) && Lookup(t.hot, older.key) == Some(older.value)
            && t.queue == [] && t.batch == map[]
            && LastUser(t.sent, older.key) == LastUser(t.writes, older.key) == Some(newer.value)
  {
    var missed := StaleMiss(size, older, newer);
    var s := After(size, EMPTY, missed);
    var more := RefillRuns(size, s, 1);
    AfterConcat(size, EMPTY, missed, more);
    steps := missed + more;
    var two := [Write(older, true), Write(newer, true)];
    assert two == [Write(older, true)] + [Write(newer, true)];
    LastSnoc([Write(older, true)], Write(newer, true), older.key);
    LastSnoc(two, Write(older, false), older.key);
    SettledWhenIdle(After(size, EMPTY, steps), older.key);
  }

  /** A miss, its read and its refill without interruption, and everything that waits stored. */
  lemma RefillRuns(size: nat, s: State, w: nat) returns (steps: seq<Step>)
    requires s.calls.Keys == {w} && s.calls[w].Missed? && s.calls[w].key in s.cold && Room(size, s)
    ensures var key := s.calls[w].key;
            var refill := Write(Item(key, s.cold[key]), false);
            var t := After(size, s, steps);
            && t == State(s.hot[key := s.cold[key]], [], map[], t.cold, map[], s.writes + [refill], s.sent + [refill])
            && Lookup(t.cold, key) == Lookup(s.cold, key)
  {
    var key := s.calls[w].key;
    var item := Item(key, s.cold[key]);
    var a := Next(size, s, Load(w));
    var b := Next(size, a, Refill(w));
    var c := Next(size, b, Send(w));
    assert c.calls == map[];
    ItemSnoc(s.queue, item, key);
    var drain := Drained(size, c, key);
    AfterCons(size, b, Send(w), drain);
    AfterCons(size, a, Refill(w), [Send(w)] + drain);
    AfterCons(size, s, Load(w), [Refill(w)] + ([Send(w)] + drain));
    steps := [Load(w)] + ([Refill(w)] + ([Send(w)] + drain));
  }

  // ----- without overflow or a failed store -----

  function Items(writes: seq<Write>): (items: seq<Item>)
    ensures |items| == |writes| && forall i | 0 <= i < |items| :: items[i] == writes[i].item
  {
    seq(|writes|, i requires 0 <= i < |writes| => writes[i].item)
  }

  /** The store that a sequence of writes leaves behind. */
  function Final(items: seq<Item>): (m: Store) {
    if items == [] then map[]
    else Final(items[..|items| - 1])[items[|items| - 1].key := items[|items| - 1].value]
  }

  lemma {:induction false} FinalConcat(a: seq<Item>, b: seq<Item>)
    ensures Final(a + b) == Final(a) + Final(b)
  {
    if b == [] {
      assert a + b == a;
    } else {
      assert (a + b)[..|a + b| - 1] == a + b[..|b| - 1];
      FinalConcat(a, b[..|b| - 1]);
    }
  }

  /** Every send finds room and every store of a batch succeeds. */
  predicate NoLoss(size: nat, steps: seq<Step>) {
    steps == [] ||
    (var front, step := steps[..|steps| - 1], steps[|steps| - 1];
     && NoLoss(size, front) && step != Flush(false)
     && (step.Send? ==> Room(size, After(size, EMPTY, front))))
  }

  /** Cold storage, the batch and the queue are three consecutive stretches of the sends. */
  ghost predicate Stretches(s: State, stored: nat, taken: nat) {
    var items := Items(s.sent);
    && stored <= taken <= |items|
    && s.cold == Final(items[..stored])
    && s.batch == Final(items[stored..taken])
    && s.queue == items[taken..]
    && (forall w <- s.calls :: !s.calls[w].Storing?)
  }

  lemma StretchesSend(size: nat, s: State, step: Step, stored: nat, taken: nat)
    requires Stretches(s, stored, taken) && step.Send? && Room(size, s)
    ensures Stretches(Next(size, s, step), stored, taken)
  {
    if SentBy(s, step).Some? {
      var items, items' := Items(s.sent), Items(Next(size, s, step).sent);
      assert items' == items + [SentBy(s, step).value.item];
      assert items'[..stored] == items[..stored] && items'[stored..taken] == items[stored..taken];
    }
  }

  lemma StretchesTake(size: nat, s: State, stored: nat, taken: nat)
    requires Stretches(s, stored, taken) && CanTake(size, s)
    ensures Stretches(Next(size, s, Take), stored, taken + 1)
  {
    var items := Items(s.sent);
    assert items[stored..taken + 1][..taken - stored] == items[stored..taken];
  }

  lemma StretchesFlush(size: nat, s: State, stored: nat, taken: nat)
    requires Stretches(s, stored, taken)
    ensures Stretches(Next(size, s, Flush(true)), taken, taken)
  {
    var items := Items(s.sent);
    FinalConcat(items[..stored], items[stored..taken]);
    assert items[..stored] + items[stored..taken] == items[..taken];
    assert items[taken..taken] == [];
  }

  lemma StretchesStep(size: nat, s: State, step: Step, stored: nat, taken: nat) returns (stored': nat, taken': nat)
    requires Stretches(s, stored, taken) && step != Flush(false) && (step.Send? ==> Room(size, s))
    ensures Stretches(Next(size, s, step), stored', taken')
  {
    stored', taken' := stored, taken;
    match step
    case Send(_) => StretchesSend(size, s, step, stored, taken);
    case Take =>
      if CanTake(size, s) {
        StretchesTake(size, s, stored, taken);
        taken' := taken + 1;
      }
    case Flush(_) =>
      StretchesFlush(size, s, stored, taken);
      stored' := taken;
    case _ => LayersUntouched(size, s, step);
  }

  lemma LayersUntouched(size: nat, s: State, step: Step)
    requires !step.Send? && !step.Take? && !step.Flush? && (forall w <- s.calls :: !s.calls[w].Storing?)
    ensures var s' := Next(size, s, step);
            && s'.sent == s.sent && s'.queue == s.queue && s'.batch == s.batch && s'.cold == s.cold
            && (forall w <- s'.calls :: !s'.calls[w].Storing?)
  {
  }

  /**
   In every run without overflow or a failed store, cold storage is what a prefix of the sends leaves
   behind, the batch what the next stretch does, and the queue is the rest.
   */
  lemma {:induction false} ColdIsPrefix(size: nat, steps: seq<Step>) returns (stored: nat, taken: nat)
    requires NoLoss(size, steps)
    ensures Stretches(After(size, EMPTY, steps), stored, taken)
  {
    if steps == [] {
      stored, taken := 0, 0;
    } else {
      var front := steps[..|steps| - 1];
      stored, taken := ColdIsPrefix(size, front);
      stored, taken := StretchesStep(size, After(size, EMPTY, front), steps[|steps| - 1], stored, taken);
    }
  }

  // ----- the two orders -----

  /** A call has written the key to Redis and not sent it yet. */
  ghost predicate Underway(s: State, key: string) {
    exists w :: w in s.calls && s.calls[w].Sending? && s.calls[w].write.item.key == key
  }

  predicate SendsKey(s: State, step: Step, key: string) {
    SentBy(s, step).Some? && SentBy(s, step).value.item.key == key
  }

  /** No step sends the key. */
  predicate NoSends(size: nat, s: State, steps: seq<Step>, key: string) {
    steps == [] ||
    (NoSends(size, s, steps[..|steps| - 1], key) &&
     !SendsKey(After(size, s, steps[..|steps| - 1]), steps[|steps| - 1], key))
  }

  lemma UnderwayStays(size: nat, s: State, step: Step, key: string)
    requires !SendsKey(s, step, key) && Underway(s, key)
    ensures Underway(Next(size, s, step), key)
  {
    var w :| w in s.calls && s.calls[w].Sending? && s.calls[w].write.item.key == key;
    if !Moves(step, w) {
      StandsStill(size, s, step, w);
    }
    assert w in Next(size, s, step).calls && Next(size, s, step).calls[w] == s.calls[w];
  }

  lemma WriteIsUnderway(size: nat, s: State, step: Step, key: string)
    ensures Last(Next(size, s, step).writes, key) == Last(s.writes, key) || Underway(Next(size, s, step), key)
  {
    var s' := Next(size, s, step);
    if |s'.writes| > |s.writes| {
      LastSnoc(s.writes, s'.writes[|s.writes|], key);
      assert s'.calls[step.w] == Sending(s'.writes[|s.writes|]);
    }
  }

  lemma UnsentStep(size: nat, s: State, step: Step, key: string)
    requires !SendsKey(s, step, key)
    ensures Last(Next(size, s, step).sent, key) == Last(s.sent, key)
  {
    if SentBy(s, step).Some? {
      LastSnoc(s.sent, SentBy(s, step).value, key);
    }
  }

  lemma {:induction false} UnsentSteps(size: nat, s: State, steps: seq<Step>, key: string)
    requires NoSends(size, s, steps, key)
    ensures var t := After(size, s, steps);
            && Last(t.sent, key) == Last(s.sent, key)
            && (Last(t.writes, key) == Last(s.writes, key) || Underway(t, key))
  {
    if steps != [] {
      UnsentSteps(size, s, steps[..|steps| - 1], key);
      var t, step := After(size, s, steps[..|steps| - 1]), steps[|steps| - 1];
      UnsentStep(size, t, step, key);
      WriteIsUnderway(size, t, step, key);
      if Underway(t, key) {
        UnderwayStays(size, t, step, key);
      }
    }
  }

  /**
   When no write of the key is under way any more, the last value written to Redis is the last value
   sent exactly when the last send carried, at that moment, the last value written to Redis.
   */
  lemma OrdersAgreeExactly(size: nat, s: State, send: Step, later: seq<Step>, key: string)
    requires SendsKey(s, send, key) && NoSends(size, Next(size, s, send), later, key)
    requires !Underway(After(size, Next(size, s, send), later), key)
    ensures var t := After(size, Next(size, s, send), later);
            Last(t.writes, key) == Last(t.sent, key) <==> Last(s.writes, key) == Some(SentBy(s, send).value.item.value)
  {
    UnsentSteps(size, Next(size, s, send), later, key);
    LastSnoc(s.sent, SentBy(s, send).value, key);
  }

  lemma CalmSend(size: nat, s: State, step: Step, key: string)
    requires Last(s.sent, key) == LastUser(s.sent, key) && Harmless(size, s, step, key)
    ensures Last(Next(size, s, step).sent, key) == LastUser(Next(size, s, step).sent, key)
  {
    if SentBy(s, step).Some? {
      LastSnoc(s.sent, SentBy(s, step).value, key);
    } else {
      NothingSent(size, s, step);
    }
  }

  /** In a calm run refills send nothing new. */
  lemma {:induction false} CalmSends(size: nat, steps: seq<Step>, key: string)
    requires Calm(size, EMPTY, steps, key)
    ensures Last(After(size, EMPTY, steps).sent, key) == LastUser(After(size, EMPTY, steps).sent, key)
  {
    if steps != [] {
      CalmSends(size, steps[..|steps| - 1], key);
      CalmSend(size, After(size, EMPTY, steps[..|steps| - 1]), steps[|steps| - 1], key);
    }
  }

  /** So in a calm run a hit and the layers agree, once no write of the key is under way, under the same condition. */
  lemma HotAgreesWithLayers(size: nat, before: seq<Step>, send: Step, later: seq<Step>, key: string)
    requires var s := After(size, EMPTY, before);
             && SendsKey(s, send, key) && NoSends(size, Next(size, s, send), later, key)
             && !Underway(After(size, Next(size, s, send), later), key)
    requires Calm(size, EMPTY, before + ([send] + later), key)
    ensures var s := After(size, EMPTY, before);
            var t := After(size, EMPTY, before + ([send] + later));
            key in t.hot ==>
              (Lookup(t.hot, key) == Layers(t, key) <==> Last(s.writes, key) == Some(SentBy(s, send).value.item.value))
  {
    var s, all := After(size, EMPTY, before), before + ([send] + later);
    AfterConcat(size, EMPTY, before, [send] + later);
    AfterCons(size, s, send, later);
    OrdersAgreeExactly(size, s, send, later, key);
    HotIsLast(size, all, key);
    CalmSends(size, all, key);
    CalmKeepsGood(size, EMPTY, all, key);
  }

  /** Two Sets that overlap: Redis keeps one value, the layers the other. */
  lemma OverlappingSetsDisagree(size: nat, key: string, a: string, b: string) returns (steps: seq<Step>)
    requires size > 0
    ensures Calm(size, EMPTY, steps, key)
    ensures var t := After(size, EMPTY, steps);
            && t.queue == [] && t.batch == map[] && t.calls == map[]
            && Lookup(t.hot, key) == Last(t.writes, key) == Some(b)
            && Lookup(t.cold, key) == Last(t.sent, key) == Some(a)
  {
    var x, y := Item(key, a), Item(key, b);
    var s1 := Next(size, EMPTY, SetRedis(0, key, a));
    var s2 := Next(size, s1, SetRedis(1, key, b));
    var s3 := Next(size, s2, Send(1));
    var s4 := Next(size, s3, Send(0));
    assert s4 == State(map[key := b], [y, x], map[], map[], map[], [Write(x, true), Write(y, true)], [Write(y, true), Write(x, true)]) by {
      assert s3.calls == map[0 := Sending(Write(x, true))] && s3.calls - {0} == map[];
    }
    assert [y, x] == [y] + [x] && [Write(x, true), Write(y, true)] == [Write(x, true)] + [Write(y, true)];
    assert [Write(y, true), Write(x, true)] == [Write(y, true)] + [Write(x, true)];
    ItemSnoc([y], x, key);
    LastSnoc([Write(x, true)], Write(y, true), key);
    LastSnoc([Write(y, true)], Write(x, true), key);
    var drain := Drained(size, s4, key);
    AfterCons(size, s3, Send(0), drain);
    CalmCons(size, s3, Send(0), drain, key);
    AfterCons(size, s2, Send(1), [Send(0)] + drain);
    CalmCons(size, s2, Send(1), [Send(0)] + drain, key);
    var rest := [Send(1)] + ([Send(0)] + drain);
    AfterCons(size, s1, SetRedis(1, key, b), rest);
    CalmCons(size, s1, SetRedis(1, key, b), rest, key);
    AfterCons(size, EMPTY, SetRedis(0, key, a), [SetRedis(1, key, b)] + rest);
    CalmCons(size, EMPTY, SetRedis(0, key, a), [SetRedis(1, key, b)] + rest, key);
    steps := [SetRedis(0, key, a)] + ([SetRedis(1, key, b)] + rest);
  }
}
