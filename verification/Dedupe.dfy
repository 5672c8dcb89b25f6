/**
 internal/cache/nats_invalidator.go: suppression of repeated cache invalidations. A key is a
 duplicate while its last recorded time lies less than a window back; a periodic cleanup forgets
 old keys. Publishers and the message handler check and record in two separate critical sections.
 */
module Dedupe {
  type Time = int

  function Duplicate(recent: map<string, Time>, window: Time, key: string, now: Time): (r: bool) {
    key in recent && now - recent[key] < window
  }

  function Cleaned(recent: map<string, Time>, window: Time, now: Time): (r: map<string, Time>) {
    map key | key in recent && now - recent[key] <= window :: recent[key]
  }

  // ----- the object -----

  datatype Message = Message(key: string, node: string)

  class NATSInvalidator {
    const window: Time
    const nodeID: string
    var recentKeys: map<string, Time>
    var publishedCount: int
    var receivedCount: int
    var errorsCount: int

    constructor (window: Time, nodeID: string)
      ensures this.window == (if window == 0 then 5_000_000_000 else window) && this.nodeID == nodeID
      ensures recentKeys == map[] && publishedCount == receivedCount == errorsCount == 0
    {
      this.window := if window == 0 then 5_000_000_000 else window;
      this.nodeID := nodeID;
      recentKeys := map[];
      publishedCount, receivedCount, errorsCount := 0, 0, 0;
    }

    function IsDuplicate(key: string, now: Time): (r: bool)
      reads this
      ensures r <==> key in recentKeys && now - recentKeys[key] < window
    {
      Duplicate(recentKeys, window, key, now)
    }

    method RecordKey(key: string, now: Time)
      modifies this`recentKeys
      ensures recentKeys == old(recentKeys)[key := now]
    {
      recentKeys := recentKeys[key := now];
    }

    /** Visits the keys in any order and deletes those past the window. */
    method CleanupDedupe(now: Time)
      modifies this`recentKeys
      ensures recentKeys == Cleaned(old(recentKeys), window, now)
      ensures forall k :: k in recentKeys <==> k in old(recentKeys) && now - old(recentKeys)[k] <= window
      ensures forall k | k in recentKeys :: recentKeys[k] == old(recentKeys)[k]
    {
      var left := recentKeys.Keys;
      while left != {}
        invariant left <= recentKeys.Keys <= old(recentKeys).Keys
        invariant forall k | k in recentKeys :: recentKeys[k] == old(recentKeys)[k]
        invariant forall k | k in old(recentKeys) && k !in left ::
                    k in recentKeys <==> now - old(recentKeys)[k] <= window
        decreases |left|
      {
        var key :| key in left;
        if now - recentKeys[key] > window {
          recentKeys := map k | k in recentKeys && k != key :: recentKeys[k];
        }
        left := left - {key};
      }
    }

    /**
     Publishes unless the key is a duplicate; the key is recorded, at a later time, only when the
     message went out. The outcome of marshalling and sending is a parameter.
     */
    method PublishInvalidation(key: string, checkedAt: Time, sends: bool, recordedAt: Time) returns (published: bool, ok: bool)
      modifies this`recentKeys, this`publishedCount, this`errorsCount
      ensures var duplicate := key in old(recentKeys) && checkedAt - old(recentKeys)[key] < window;
              published == (sends && !duplicate) && ok == (sends || duplicate)
      ensures recentKeys == if published then old(recentKeys)[key := recordedAt] else old(recentKeys)
      ensures publishedCount == old(publishedCount) + (if published then 1 else 0)
      ensures errorsCount == old(errorsCount) + (if ok then 0 else 1)
    {
      if IsDuplicate(key, checkedAt) {
        return false, true;
      }
      if !sends {
        errorsCount := errorsCount + 1;
        return false, false;
      }
      RecordKey(key, recordedAt);
      publishedCount := publishedCount + 1;
      return true, true;
    }

    /** Hands a foreign, fresh key to the handler; unreadable messages only count as errors. */
    method HandleInvalidationMessage(msg: seq<Message>, checkedAt: Time, recordedAt: Time, handlerFails: bool) returns (handled: bool)
      requires |msg| <= 1
      modifies this`recentKeys, this`receivedCount, this`errorsCount
      ensures handled <==>
              && msg != [] && msg[0].node != nodeID
              && !(msg[0].key in old(recentKeys) && checkedAt - old(recentKeys)[msg[0].key] < window)
      ensures recentKeys == if handled then old(recentKeys)[msg[0].key := recordedAt] else old(recentKeys)
      ensures receivedCount == old(receivedCount) + 1
      ensures errorsCount == old(errorsCount) + (if msg == [] || (handled && handlerFails) then 1 else 0)
    {
      receivedCount := receivedCount + 1;
      if msg == [] {
        errorsCount := errorsCount + 1;
        return false;
      }
      if msg[0].node == nodeID || IsDuplicate(msg[0].key, checkedAt) {
        return false;
      }
      RecordKey(msg[0].key, recordedAt);
      if handlerFails {
        errorsCount := errorsCount + 1;
      }
      return true;
    }
  }

  // ----- interleavings -----

  /** A record of a key: its time, and how many records there were when its own check passed. */
  datatype Entry = Entry(key: string, time: Time, checked: nat)

  /** A publisher or handler whose check has passed and that has not recorded yet. */
  datatype Pending = Pending(key: string, checked: nat)

  datatype State = State(recent: map<string, Time>, clock: Time, pending: map<nat, Pending>, records: seq<Entry>)

  /** The steps of any number of workers and of the cleanup, in any order. */
  datatype Step =
    | Check(worker: nat, key: string, now: Time)
    | Record(worker: nat, now: Time)
    | GiveUp(worker: nat, now: Time)
    | Cleanup(now: Time)

  function Next(s: State, window: Time, step: Step): (s': State) {
    var s := s.(clock := step.now);
    match step
    case Check(w, key, now) =>
      if Duplicate(s.recent, window, key, now) then s
      else s.(pending := s.pending[w := Pending(key, |s.records|)])
    case Record(w, now) =>
      if w !in s.pending then s
      else
        var p := s.pending[w];
        s.(recent := s.recent[p.key := now],
           pending := s.pending - {w},
           records := s.records + [Entry(p.key, now, p.checked)])
    case GiveUp(w, now) => s.(pending := s.pending - {w})
    case Cleanup(now) => s.(recent := Cleaned(s.recent, window, now))
  }

  function After(start: Time, window: Time, steps: seq<Step>): (s: State) {
    if steps == [] then State(map[], start, map[], [])
    else Next(After(start, window, steps[..|steps| - 1]), window, steps[|steps| - 1])
  }

  /** The clock never runs backwards. */
  ghost predicate Monotone(start: Time, steps: seq<Step>) {
    && (forall i | 0 <= i < |steps| :: start <= steps[i].now)
    && (forall i, j | 0 <= i < j < |steps| :: steps[i].now <= steps[j].now)
  }

  /** Whether any record of the key, however old, lies less than a window back. */
  ghost predicate SeenWithin(records: seq<Entry>, window: Time, key: string, now: Time) {
    exists i :: 0 <= i < |records| && records[i].key == key && now - records[i].time < window
  }

  /** Every record of the key among the first n is at least a window older than now. */
  ghost predicate QuietSince(records: seq<Entry>, n: nat, window: Time, key: string, now: Time) {
    n <= |records| && forall i | 0 <= i < n :: records[i].key == key ==> now - records[i].time >= window
  }

  ghost predicate TableOk(s: State, window: Time) {
    && (forall key | key in s.recent :: exists i :: 0 <= i < |s.records| && s.records[i].key == key && s.records[i].time == s.recent[key])
    && (forall i | 0 <= i < |s.records| ::
          && s.records[i].time <= s.clock
          && if s.records[i].key in s.recent then s.records[i].time <= s.recent[s.records[i].key]
             else s.clock - s.records[i].time >= window)
  }

  ghost predicate WorkersOk(s: State, window: Time) {
    && (forall w | w in s.pending :: QuietSince(s.records, s.pending[w].checked, window, s.pending[w].key, s.clock))
    && (forall j | 0 <= j < |s.records| ::
          s.records[j].checked <= j && QuietSince(s.records, s.records[j].checked, window, s.records[j].key, s.records[j].time))
  }

  /** The pruned table answers as the whole history does. */
  lemma TableAnswers(s: State, window: Time, key: string, now: Time)
    requires TableOk(s, window) && s.clock <= now
    ensures Duplicate(s.recent, window, key, now) <==> SeenWithin(s.records, window, key, now)
  {
    if key in s.recent {
      var i :| 0 <= i < |s.records| && s.records[i].key == key && s.records[i].time == s.recent[key];
    }
  }

  lemma NextTable(s: State, window: Time, step: Step)
    requires TableOk(s, window) && s.clock <= step.now
    ensures TableOk(Next(s, window, step), window)
  {
    var s' := Next(s, window, step);
    if step.Record? && step.worker in s.pending {
      var last := |s.records|;
      forall key | key in s'.recent
        ensures exists i :: 0 <= i < |s'.records| && s'.records[i].key == key && s'.records[i].time == s'.recent[key]
      {
        if key == s'.records[last].key {
          assert s'.records[last].time == s'.recent[key];
        } else {
          var i :| 0 <= i < |s.records| && s.records[i].key == key && s.records[i].time == s.recent[key];
          assert s'.records[i] == s.records[i];
        }
      }
    }
  }

  lemma NextWorkers(s: State, window: Time, step: Step)
    requires TableOk(s, window) && WorkersOk(s, window) && s.clock <= step.now
    ensures WorkersOk(Next(s, window, step), window)
  {
    if step.Check? {
      TableAnswers(s, window, step.key, step.now);
    }
  }

  lemma {:induction false} AfterOk(start: Time, window: Time, steps: seq<Step>)
    requires Monotone(start, steps)
    ensures var s := After(start, window, steps);
            && TableOk(s, window) && WorkersOk(s, window)
            && s.clock == (if steps == [] then start else steps[|steps| - 1].now)
  {
    if steps != [] {
      var before, step := steps[..|steps| - 1], steps[|steps| - 1];
      AfterOk(start, window, before);
      var s := After(start, window, before);
      NextTable(s, window, step);
      NextWorkers(s, window, step);
    }
  }

  /** In every run, with cleanups anywhere, a check answers as one that keeps every record for ever. */
  lemma CleanupIsInvisible(start: Time, window: Time, steps: seq<Step>, key: string, now: Time)
    requires Monotone(start, steps) && After(start, window, steps).clock <= now
    ensures var s := After(start, window, steps);
            Duplicate(s.recent, window, key, now) <==> SeenWithin(s.records, window, key, now)
  {
    AfterOk(start, window, steps);
    TableAnswers(After(start, window, steps), window, key, now);
  }

  /**
   In every run, two records of one key are a window apart unless the later one was checked before
   the earlier one was recorded.
   */
  lemma CloseRecordsOverlap(start: Time, window: Time, steps: seq<Step>, i: nat, j: nat)
    requires Monotone(start, steps)
    requires i < j < |After(start, window, steps).records|
    ensures var r := After(start, window, steps).records;
            r[i].key == r[j].key ==> r[j].time - r[i].time >= window || r[j].checked <= i
  {
    AfterOk(start, window, steps);
    var r := After(start, window, steps).records;
    assert QuietSince(r, r[j].checked, window, r[j].key, r[j].time);
  }

  /** Any two records of one key are at least a window apart. */
  ghost predicate Spaced(records: seq<Entry>, window: Time) {
    forall i, j | 0 <= i < j < |records| :: records[i].key == records[j].key ==> records[j].time - records[i].time >= window
  }

  /** The step records a key that its table shows as a duplicate by then. */
  predicate RecordsDuplicate(s: State, window: Time, step: Step) {
    step.Record? && step.worker in s.pending && Duplicate(s.recent, window, s.pending[step.worker].key, step.now)
  }

  ghost predicate NeverRecordsDuplicate(start: Time, window: Time, steps: seq<Step>) {
    steps == [] ||
    (NeverRecordsDuplicate(start, window, steps[..|steps| - 1]) &&
     !RecordsDuplicate(After(start, window, steps[..|steps| - 1]), window, steps[|steps| - 1]))
  }

  lemma SpacedSnoc(records: seq<Entry>, e: Entry, window: Time)
    ensures Spaced(records + [e], window) <==> Spaced(records, window) && !SeenWithin(records, window, e.key, e.time)
  {
    var all := records + [e];
    if Spaced(all, window) {
      assert forall i | 0 <= i < |records| :: all[i] == records[i];
      assert all[|records|] == e;
    }
  }

  /**
   In every run all records of one key are a window apart exactly when no worker records a key that
   a second check at that moment would have refused.
   */
  lemma {:induction false} SpacedExactly(start: Time, window: Time, steps: seq<Step>)
    requires Monotone(start, steps)
    ensures Spaced(After(start, window, steps).records, window) <==> NeverRecordsDuplicate(start, window, steps)
  {
    if steps != [] {
      var front, step := steps[..|steps| - 1], steps[|steps| - 1];
      SpacedExactly(start, window, front);
      AfterOk(start, window, front);
      var s := After(start, window, front);
      if step.Record? && step.worker in s.pending {
        var p := s.pending[step.worker];
        SpacedSnoc(s.records, Entry(p.key, step.now, p.checked), window);
        TableAnswers(s, window, p.key, step.now);
      }
    }
  }

  /** A worker that checks goes on, before anyone else, to record or to give up. */
  ghost predicate Atomic(steps: seq<Step>) {
    forall i | 0 <= i < |steps| - 1 :: steps[i].Check? ==> Settles(steps[i + 1], steps[i].worker)
  }

  ghost predicate Settles(step: Step, worker: nat) {
    (step.Record? || step.GiveUp?) && step.worker == worker
  }

  /** Every check happened at the latest record, and only the worker that just checked may wait. */
  ghost predicate CheckedLast(s: State, latest: seq<Step>) {
    && (forall j | 0 <= j < |s.records| :: s.records[j].checked == j)
    && (forall w | w in s.pending :: s.pending[w].checked == |s.records| && latest != [] && latest[0].Check? && latest[0].worker == w)
  }

  lemma AtomicNext(s: State, window: Time, latest: seq<Step>, step: Step)
    requires CheckedLast(s, latest)
    requires latest != [] && latest[0].Check? ==> Settles(step, latest[0].worker)
    ensures CheckedLast(Next(s, window, step), [step])
  {
  }

  lemma {:induction false} AtomicChecks(start: Time, window: Time, steps: seq<Step>)
    requires Atomic(steps)
    ensures CheckedLast(After(start, window, steps), if steps == [] then [] else [steps[|steps| - 1]])
  {
    if steps != [] {
      var before, step := steps[..|steps| - 1], steps[|steps| - 1];
      forall i | 0 <= i < |before| - 1 && before[i].Check? ensures Settles(before[i + 1], before[i].worker) {
        assert steps[i] == before[i] && steps[i + 1] == before[i + 1];
      }
      AtomicChecks(start, window, before);
      var latest := if before == [] then [] else [before[|before| - 1]];
      if before != [] && latest[0].Check? {
        assert Settles(steps[|before| - 1 + 1], steps[|before| - 1].worker);
      }
      AtomicNext(After(start, window, before), window, latest, step);
    }
  }

  /** When checking and recording is one step, all records of one key are at least a window apart. */
  lemma AtomicRecordsAreSpaced(start: Time, window: Time, steps: seq<Step>, i: nat, j: nat)
    requires Monotone(start, steps) && Atomic(steps)
    requires i < j < |After(start, window, steps).records|
    ensures var r := After(start, window, steps).records;
            r[i].key == r[j].key ==> r[j].time - r[i].time >= window
  {
    AtomicChecks(start, window, steps);
    CloseRecordsOverlap(start, window, steps, i, j);
  }

  /** From any state: two workers that both check a fresh key before either records are both let through. */
  lemma InterleavedChecksBothPass(s: State, window: Time, key: string, now: Time)
    requires !Duplicate(s.recent, window, key, now)
    ensures var checked := Next(Next(s, window, Check(0, key, now)), window, Check(1, key, now));
            Next(Next(checked, window, Record(0, now)), window, Record(1, now)).records
            == s.records + [Entry(key, now, |s.records|), Entry(key, now, |s.records|)]
  {
    var checked := Next(Next(s, window, Check(0, key, now)), window, Check(1, key, now));
    assert checked.pending[0] == checked.pending[1] == Pending(key, |s.records|);
  }
}
