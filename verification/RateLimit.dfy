/**
 internal/network/game_server_adapter.go: the fixed-window limit on the messages of a connection.
 Refused messages count too, and the window restarts with the first message a second after its start.
 */
module RateLimit {
  import opened Common

  type Time = int

  const SECOND: Time := 1_000_000_000

  /** The two fields of a connection that the limit uses. */
  datatype Meter = Meter(messageCount: int, lastRateReset: Time)

  function Arrive(m: Meter, now: Time): (m': Meter) {
    if now - m.lastRateReset >= SECOND then Meter(1, now) else m.(messageCount := m.messageCount + 1)
  }

  // ----- the objects -----

  class ClientConnection {
    var messageCount: int
    var lastRateReset: Time

    constructor (now: Time)
      ensures messageCount == 0 && lastRateReset == now
    {
      messageCount, lastRateReset := 0, now;
    }

    function Reading(): (m: Meter)
      reads this
    {
      Meter(messageCount, lastRateReset)
    }
  }

  class GameServerAdapter {
    const rateLimitEnabled: bool
    const maxMessagesPerSec: int
    var connections: map<string, ClientConnection>

    constructor (enabled: bool, max: int)
      ensures rateLimitEnabled == enabled && maxMessagesPerSec == max && connections == map[]
    {
      rateLimitEnabled := enabled;
      maxMessagesPerSec := max;
      connections := map[];
    }

    /** Only the meter of the named connection moves, and only when the limit is on. */
    method CheckRateLimit(channelID: string, now: Time) returns (accepted: bool)
      modifies connections.Values
      ensures !rateLimitEnabled ==> accepted
      ensures rateLimitEnabled && channelID !in connections ==> !accepted
      ensures rateLimitEnabled && channelID in connections ==>
                var conn := connections[channelID];
                && conn.Reading() == Arrive(old(conn.Reading()), now)
                && (if now - old(conn.lastRateReset) >= 1_000_000_000 then conn.messageCount == 1 && conn.lastRateReset == now
                    else conn.messageCount == old(conn.messageCount) + 1 && conn.lastRateReset == old(conn.lastRateReset))
                && accepted == (conn.messageCount <= maxMessagesPerSec)
      ensures forall c | c in old(connections.Values) ::
                (!rateLimitEnabled || channelID !in connections || c != connections[channelID]) ==> c.Reading() == old(c.Reading())
    {
      if !rateLimitEnabled {
        return true;
      }
      if channelID !in connections {
        return false;
      }
      var conn := connections[channelID];
      if now - conn.lastRateReset >= SECOND {
        conn.messageCount := 0;
        conn.lastRateReset := now;
      }
      conn.messageCount := conn.messageCount + 1;
      return conn.messageCount <= maxMessagesPerSec;
    }
  }

  // ----- runs of one connection -----

  /** The meter of a connection opened at the start, after messages at the given times. */
  function After(start: Time, times: seq<Time>): (m: Meter) {
    if times == [] then Meter(0, start)
    else Arrive(After(start, times[..|times| - 1]), times[|times| - 1])
  }

  /** Whether the last message is accepted. */
  function LastAccepted(start: Time, max: int, times: seq<Time>): (r: bool)
    requires times != []
  {
    After(start, times).messageCount <= max
  }

  /** How many accepted messages fall into the half-open interval [lo, hi). */
  function Accepted(start: Time, max: int, times: seq<Time>, lo: Time, hi: Time): (n: nat) {
    if times == [] then 0
    else
      Accepted(start, max, times[..|times| - 1], lo, hi)
      + if LastAccepted(start, max, times) && lo <= times[|times| - 1] < hi then 1 else 0
  }

  function LastTime(start: Time, times: seq<Time>): (t: Time) {
    if times == [] then start else times[|times| - 1]
  }

  ghost predicate Monotone(start: Time, times: seq<Time>) {
    && (forall i | 0 <= i < |times| :: start <= times[i])
    && (forall i, j | 0 <= i < j < |times| :: times[i] <= times[j])
  }

  lemma {:induction false} NoneBefore(start: Time, max: int, times: seq<Time>, lo: Time, hi: Time)
    requires forall i | 0 <= i < |times| :: times[i] < lo
    ensures Accepted(start, max, times, lo, hi) == 0
  {
    if times != [] {
      NoneBefore(start, max, times[..|times| - 1], lo, hi);
    }
  }

  /**
   Since the last reset, exactly as many messages were accepted as arrived, up to the limit. The
   run may end anywhere, so this bounds every stretch between two resets.
   */
  lemma {:induction false} AcceptedSinceReset(start: Time, max: nat, times: seq<Time>, hi: Time)
    requires Monotone(start, times) && LastTime(start, times) < hi
    ensures var m := After(start, times);
            && m.messageCount >= 0
            && m.lastRateReset <= LastTime(start, times) < m.lastRateReset + SECOND
            && Accepted(start, max, times, m.lastRateReset, hi) == Min(m.messageCount, max)
  {
    if times != [] {
      var before, now := times[..|times| - 1], times[|times| - 1];
      AcceptedSinceReset(start, max, before, hi);
      if now - After(start, before).lastRateReset >= SECOND {
        NoneBefore(start, max, before, now, hi);
      }
    }
  }

  /** What has been accepted in the second from t, told by where the last reset lies. */
  ghost predicate Bounded(m: Meter, clock: Time, accepted: nat, max: nat, t: Time) {
    && m.messageCount >= 0
    && m.lastRateReset <= clock
    && (clock < t ==> accepted == 0)
    && accepted <= (if m.lastRateReset < t then 0 else max) + (if m.lastRateReset < t + SECOND then Min(m.messageCount, max) else max)
  }

  lemma {:induction false} AfterIsBounded(start: Time, max: nat, times: seq<Time>, t: Time)
    requires Monotone(start, times)
    ensures Bounded(After(start, times), LastTime(start, times), Accepted(start, max, times, t, t + SECOND), max, t)
  {
    if times != [] {
      var before := times[..|times| - 1];
      AfterIsBounded(start, max, before, t);
      assert LastTime(start, before) <= LastTime(start, times);
    }
  }

  /** In every one-second interval at most twice the limit is accepted. */
  lemma AtMostTwicePerSecond(start: Time, max: int, times: seq<Time>, t: Time)
    requires Monotone(start, times)
    ensures Accepted(start, max, times, t, t + SECOND) <= if max < 0 then 0 else 2 * max
  {
    if max < 0 {
      NothingAccepted(start, max, times, t, t + SECOND);
    } else {
      AfterIsBounded(start, max, times, t);
    }
  }

  lemma {:induction false} NothingAccepted(start: Time, max: int, times: seq<Time>, lo: Time, hi: Time)
    requires max <= 0
    ensures After(start, times).messageCount >= 0 && (times != [] ==> After(start, times).messageCount > 0)
    ensures Accepted(start, max, times, lo, hi) == 0
  {
    if times != [] {
      NothingAccepted(start, max, times[..|times| - 1], lo, hi);
    }
  }

  /** The same time, n times. */
  function Burst(t: Time, n: nat): (times: seq<Time>)
    ensures |times| == n && forall i | 0 <= i < n :: times[i] == t
  {
    seq(n, _ => t)
  }

  lemma {:induction false} BurstAccepted(start: Time, max: nat, before: seq<Time>, t: Time, n: nat, lo: Time, hi: Time)
    requires n <= max && lo <= t < hi
    requires var m := After(start, before); t >= m.lastRateReset + SECOND || m.messageCount == 0
    requires t >= After(start, before).lastRateReset
    ensures Accepted(start, max, before + Burst(t, n), lo, hi) == Accepted(start, max, before, lo, hi) + n
    ensures n > 0 ==> After(start, before + Burst(t, n)) == Meter(n, if t - After(start, before).lastRateReset >= SECOND then t else After(start, before).lastRateReset)
  {
    var all := before + Burst(t, n);
    if n == 0 {
      assert all == before;
    } else {
      BurstAccepted(start, max, before, t, n - 1, lo, hi);
      assert all[..|all| - 1] == before + Burst(t, n - 1) && all[|all| - 1] == t;
      if n == 1 {
        assert before + Burst(t, 0) == before;
      }
    }
  }

  /** The bound is reached: a burst just before a reset and a burst right at it. */
  lemma TwiceIsReached(start: Time, max: nat)
    ensures var times := Burst(start + SECOND - 1, max) + Burst(start + SECOND, max);
            && Monotone(start, times)
            && Accepted(start, max, times, start + SECOND - 1, start + 2 * SECOND - 1) == 2 * max
  {
    var lo, hi := start + SECOND - 1, start + 2 * SECOND - 1;
    var first := Burst(lo, max);
    assert [] + first == first;
    BurstAccepted(start, max, [], lo, max, lo, hi);
    if max == 0 {
      assert first == [];
    }
    BurstAccepted(start, max, first, start + SECOND, max, lo, hi);
  }

  // ----- exactly when a second keeps to the limit -----

  /** The message at k restarts the window. */
  predicate IsReset(start: Time, times: seq<Time>, k: nat)
    requires k < |times|
  {
    times[k] - After(start, times[..k]).lastRateReset >= SECOND
  }

  /** How many messages come before a time. */
  function Before(times: seq<Time>, hi: Time): (n: nat) {
    if times == [] then 0 else Before(times[..|times| - 1], hi) + if times[|times| - 1] < hi then 1 else 0
  }

  function Cap(max: int): (n: nat) {
    if max < 0 then 0 else max
  }

  lemma MonotonePrefix(start: Time, times: seq<Time>, n: nat)
    requires Monotone(start, times) && n <= |times|
    ensures Monotone(start, times[..n])
  {
  }

  /** From a reset on, until a second is over, messages are accepted up to the limit. */
  lemma {:induction false} FromReset(start: Time, max: nat, times: seq<Time>, k: nat, n: nat, lo: Time, hi: Time)
    requires Monotone(start, times) && k < n <= |times| && IsReset(start, times, k)
    requires lo <= times[k] && hi <= times[k] + SECOND
    ensures Accepted(start, max, times[..n], lo, hi) == Accepted(start, max, times[..k], lo, hi) + Min(max, Before(times[k..n], hi))
    ensures times[n - 1] < hi ==>
              After(start, times[..n]) == Meter(n - k, times[k]) && Before(times[k..n], hi) == n - k
  {
    assert times[..n][..n - 1] == times[..n - 1];
    assert times[k..n][..n - k - 1] == times[k..n - 1];
    if n == k + 1 {
      assert times[k..k] == [];
    } else {
      FromReset(start, max, times, k, n - 1, lo, hi);
    }
  }

  lemma {:induction false} BeforeReset(start: Time, max: int, times: seq<Time>, lo: Time, mid: Time, hi: Time)
    requires mid <= hi && forall i | 0 <= i < |times| :: times[i] < mid
    ensures Accepted(start, max, times, lo, hi) == Accepted(start, max, times, lo, mid)
  {
    if times != [] {
      BeforeReset(start, max, times[..|times| - 1], lo, mid, hi);
    }
  }

  /** Messages before a reset come at earlier times. */
  lemma ResetIsLater(start: Time, times: seq<Time>, k: nat)
    requires Monotone(start, times) && k < |times| && IsReset(start, times, k)
    ensures forall i | 0 <= i < k :: times[i] < times[k]
  {
    MonotonePrefix(start, times, k);
    AcceptedSinceReset(start, 0, times[..k], LastTime(start, times[..k]) + 1);
  }

  /** The reset splits what the second accepts. */
  lemma SplitAtReset(start: Time, max: nat, times: seq<Time>, k: nat, t: Time)
    requires Monotone(start, times) && k < |times| && IsReset(start, times, k) && t < times[k] < t + SECOND
    ensures Accepted(start, max, times, t, t + SECOND) ==
            Accepted(start, max, times[..k], t, times[k]) + Min(max, Before(times[k..], t + SECOND))
  {
    FromReset(start, max, times, k, |times|, t, t + SECOND);
    assert times[..|times|] == times && times[k..|times|] == times[k..];
    ResetIsLater(start, times, k);
    BeforeReset(start, max, times[..k], t, times[k], t + SECOND);
  }

  /** A reset strictly inside the second from t. */
  predicate ResetInside(start: Time, times: seq<Time>, k: nat, t: Time)
    requires k < |times|
  {
    IsReset(start, times, k) && t < times[k] < t + SECOND
  }

  /** Without a reset inside the second, it lies in one window of the limit. */
  lemma {:induction false} NoResetInside(start: Time, max: nat, times: seq<Time>, t: Time)
    requires Monotone(start, times) && forall k | 0 <= k < |times| :: !ResetInside(start, times, k, t)
    ensures var m := After(start, times);
            && m.messageCount >= 0 && m.lastRateReset <= LastTime(start, times) < m.lastRateReset + SECOND
            && (LastTime(start, times) < t ==> Accepted(start, max, times, t, t + SECOND) == 0)
            && (m.lastRateReset < t + SECOND ==> Accepted(start, max, times, t, t + SECOND) <= Min(m.messageCount, max))
            && Accepted(start, max, times, t, t + SECOND) <= max
  {
    if times != [] {
      var n := |times| - 1;
      var before := times[..n];
      forall k | 0 <= k < |before| ensures !ResetInside(start, before, k, t) {
        assert before[..k] == times[..k] && !ResetInside(start, times, k, t);
      }
      NoResetInside(start, max, before, t);
      assert !ResetInside(start, times, n, t);
    }
  }

  /** What a reset inside a second splits it into keeps to the limit together. */
  ghost predicate KeepsToLimit(start: Time, max: int, times: seq<Time>, k: nat, t: Time)
    requires k < |times|
  {
    Accepted(start, max, times[..k], t, times[k]) + Min(Cap(max), Before(times[k..], t + SECOND)) <= Cap(max)
  }

  /**
   For every monotone arrival sequence, a second accepts no more than the limit exactly when, for each
   reset strictly inside it, what was accepted in it before the reset and what arrives in it from the
   reset on, up to the limit, are together no more than the limit.
   */
  lemma WithinLimitExactly(start: Time, max: int, times: seq<Time>, t: Time)
    requires Monotone(start, times)
    ensures Accepted(start, max, times, t, t + SECOND) <= Cap(max) <==>
            forall k | 0 <= k < |times| :: ResetInside(start, times, k, t) ==> KeepsToLimit(start, max, times, k, t)
  {
    if max < 0 {
      NothingAccepted(start, max, times, t, t + SECOND);
      forall k | 0 <= k < |times| ensures KeepsToLimit(start, max, times, k, t) {
        NothingAccepted(start, max, times[..k], t, times[k]);
      }
    } else if k :| 0 <= k < |times| && ResetInside(start, times, k, t) {
      forall j | 0 <= j < |times| && ResetInside(start, times, j, t)
        ensures KeepsToLimit(start, max, times, j, t) <==> Accepted(start, max, times, t, t + SECOND) <= max
      {
        SplitAtReset(start, max, times, j, t);
      }
    } else {
      NoResetInside(start, max, times, t);
    }
  }
}
