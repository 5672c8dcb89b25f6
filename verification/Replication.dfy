/**
 internal/world/block_delta_manager.go and the client of examples/delta-demo/main.go:
 block changes are collected per chunk, flushed to the subscribers whose circle holds the
 chunk, and forgotten by age; a client applies the deltas it is sent. A message is what
 both ends mean by it: a chunk, a version and a list of changes. It arrives once, in order.
 */
module Replication {
  import opened Common
  import opened Grid

  datatype Change = Change(blockId: nat, metadata: Meta, changeType: string, playerId: nat)

  datatype ChunkDelta = ChunkDelta(changes: map<Vec2, Change>, version: nat, lastUpdated: int)

  datatype Subscriber = Subscriber(center: Vec2, radius: int, lastSent: nat)

  /** The manager's fields. */
  datatype Server = Server(deltas: map<Vec2, ChunkDelta>, subscribers: map<string, Subscriber>, version: nat)

  /** A chunk delta on the wire. */
  datatype Message = Message(chunk: Vec2, version: nat, changes: seq<(Vec2, Change)>)

  datatype ClientBlock = ClientBlock(id: nat, metadata: Meta, version: nat)

  type Cache = map<Vec2, ClientBlock>

  /** Age in nanoseconds beyond which a delta is forgotten. */
  const MAX_AGE: int := 1_000_000_000

  // ----- the server's steps, on values -----

  function Record(s: Server, pos: Vec2, change: Change, now: int): (s': Server) {
    var chunk, local, version := ToChunkCoords(pos), LocalInChunk(pos), s.version + 1;
    var before := if chunk in s.deltas then s.deltas[chunk].changes else map[];
    s.(deltas := s.deltas[chunk := ChunkDelta(before[local := change], version, now)], version := version)
  }

  function Subscribe(s: Server, conn: string, center: Vec2, radius: int): (s': Server) {
    s.(subscribers := s.subscribers[conn := Subscriber(center, radius, s.version)])
  }

  function Unsubscribe(s: Server, conn: string): (s': Server) {
    s.(subscribers := s.subscribers - {conn})
  }

  function UpdateSubscription(s: Server, conn: string, center: Vec2, radius: int): (s': Server) {
    if conn in s.subscribers
    then s.(subscribers := s.subscribers[conn := Subscriber(center, radius, s.subscribers[conn].lastSent)])
    else s
  }

  /** The code's own circle: its centre is divided by 16 toward zero, unlike chunk coordinates. */
  predicate InCircle(sub: Subscriber, chunk: Vec2) {
    var dx, dy := chunk.x - TruncDiv(sub.center.x, 16), chunk.y - TruncDiv(sub.center.y, 16);
    dx * dx + dy * dy <= sub.radius * sub.radius
  }

  /** The delta of a chunk is sent to a subscriber: in its circle, and newer than what it has had. */
  predicate Due(s: Server, sub: Subscriber, chunk: Vec2) {
    chunk in s.deltas && InCircle(sub, chunk) && s.deltas[chunk].version > sub.lastSent
  }

  function Kept(deltas: map<Vec2, ChunkDelta>, now: int): (r: map<Vec2, ChunkDelta>) {
    map c | c in deltas && deltas[c].lastUpdated >= now - MAX_AGE :: deltas[c]
  }

  function Flushed(s: Server, now: int): (s': Server) {
    if s.deltas == map[] then s
    else Server(Kept(s.deltas, now),
                map conn | conn in s.subscribers :: s.subscribers[conn].(lastSent := s.version),
                s.version)
  }

  // ----- the client -----

  /** What a client holds at a position. */
  function At(cache: Cache, p: Vec2): (b: Option<ClientBlock>) {
    if p in cache then Some(cache[p]) else None
  }

  /** The changes of a message written to the cache one by one. */
  function Apply(cache: Cache, chunk: Vec2, version: nat, changes: seq<(Vec2, Change)>): (r: Cache) {
    if changes == [] then cache
    else
      var (local, change) := changes[|changes| - 1];
      Apply(cache, chunk, version, changes[..|changes| - 1])
        [FromChunk(chunk, local) := ClientBlock(change.blockId, change.metadata, version)]
  }

  function ApplyAll(cache: Cache, messages: seq<Message>): (r: Cache) {
    if messages == [] then cache
    else
      var m := messages[|messages| - 1];
      Apply(ApplyAll(cache, messages[..|messages| - 1]), m.chunk, m.version, m.changes)
  }

  class BlockDeltaHandler {
    var blockCache: Cache

    constructor ()
      ensures blockCache == map[]
    {
      blockCache := map[];
    }

    /** Writes the changes of a message in order; one that cannot be unmarshalled changes nothing. */
    method ProcessDeltaMessage(message: Option<Message>) returns (ok: bool)
      modifies this
      ensures ok == message.Some?
      ensures blockCache == if message.None? then old(blockCache)
                            else Apply(old(blockCache), message.value.chunk, message.value.version, message.value.changes)
    {
      if message.None? {
        return false;
      }
      var delta := message.value;
      for i := 0 to |delta.changes|
        invariant blockCache == Apply(old(blockCache), delta.chunk, delta.version, delta.changes[..i])
      {
        var (local, change) := delta.changes[i];
        var worldPos := FromChunk(delta.chunk, local);
        blockCache := blockCache[worldPos := ClientBlock(change.blockId, change.metadata, delta.version)];
        assert delta.changes[..i + 1][..i] == delta.changes[..i];
      }
      assert delta.changes[..|delta.changes|] == delta.changes;
      return true;
    }
  }

  // ----- messages -----

  /** A list of the entries of a map, each once, in any order. */
  ghost predicate Lists<K, V>(entries: seq<(K, V)>, m: map<K, V>) {
    && (forall i :: 0 <= i < |entries| ==> entries[i].0 in m && m[entries[i].0] == entries[i].1)
    && (forall i, j :: 0 <= i < j < |entries| ==> entries[i].0 != entries[j].0)
    && (forall k <- m :: exists i :: 0 <= i < |entries| && entries[i].0 == k)
  }

  ghost predicate LocalKeys(m: map<Vec2, Change>) {
    forall l <- m :: IsLocal(l)
  }

  ghost function Shown(change: Change, version: nat): (b: ClientBlock) {
    ClientBlock(change.blockId, change.metadata, version)
  }

  lemma {:induction false} ApplyAt(cache: Cache, chunk: Vec2, version: nat, changes: seq<(Vec2, Change)>, p: Vec2)
    requires forall i :: 0 <= i < |changes| ==> IsLocal(changes[i].0)
    requires forall i, j :: 0 <= i < j < |changes| ==> changes[i].0 != changes[j].0
    ensures ToChunkCoords(p) != chunk ==> At(Apply(cache, chunk, version, changes), p) == At(cache, p)
    ensures ToChunkCoords(p) == chunk ==>
              (forall i :: 0 <= i < |changes| && changes[i].0 == LocalInChunk(p) ==>
                 At(Apply(cache, chunk, version, changes), p) == Some(Shown(changes[i].1, version)))
    ensures ToChunkCoords(p) == chunk && (forall i :: 0 <= i < |changes| ==> changes[i].0 != LocalInChunk(p)) ==>
              At(Apply(cache, chunk, version, changes), p) == At(cache, p)
  {
    if changes != [] {
      var front, last := changes[..|changes| - 1], changes[|changes| - 1];
      ApplyAt(cache, chunk, version, front, p);
      ChunkSplitIsBijective(p, chunk, last.0);
    }
  }

  /** A message listing a delta overwrites exactly the delta's positions. */
  lemma ApplyListed(cache: Cache, chunk: Vec2, version: nat, changes: seq<(Vec2, Change)>, m: map<Vec2, Change>, p: Vec2)
    requires Lists(changes, m) && LocalKeys(m)
    ensures At(Apply(cache, chunk, version, changes), p) ==
            if ToChunkCoords(p) == chunk && LocalInChunk(p) in m
            then Some(Shown(m[LocalInChunk(p)], version)) else At(cache, p)
  {
    ApplyAt(cache, chunk, version, changes, p);
    if ToChunkCoords(p) == chunk && LocalInChunk(p) in m {
      var i :| 0 <= i < |changes| && changes[i].0 == LocalInChunk(p);
    }
  }

  /** The messages of one flush to one subscriber: each due chunk once, with its whole delta. */
  ghost predicate Delivers(messages: seq<Message>, s: Server, sub: Subscriber) {
    && (forall i :: 0 <= i < |messages| ==> IsDeltaOf(messages[i], s) && Due(s, sub, messages[i].chunk))
    && (forall i, j :: 0 <= i < j < |messages| ==> messages[i].chunk != messages[j].chunk)
    && (forall c <- s.deltas :: Due(s, sub, c) ==> exists i :: 0 <= i < |messages| && messages[i].chunk == c)
  }

  /** What a flush writes at a position, if anything. */
  ghost function SentAt(s: Server, sub: Subscriber, p: Vec2): (b: Option<ClientBlock>) {
    var c, l := ToChunkCoords(p), LocalInChunk(p);
    if Due(s, sub, c) && l in s.deltas[c].changes then Some(Shown(s.deltas[c].changes[l], s.deltas[c].version)) else None
  }

  ghost function SentPositions(s: Server, sub: Subscriber): (ps: set<Vec2>) {
    set c, l | c in s.deltas && l in s.deltas[c].changes && SentAt(s, sub, FromChunk(c, l)).Some? :: FromChunk(c, l)
  }

  /** The client's cache after a flush. */
  ghost function Refreshed(cache: Cache, s: Server, sub: Subscriber): (r: Cache) {
    cache + map p | p in SentPositions(s, sub) && SentAt(s, sub, p).Some? :: SentAt(s, sub, p).value
  }

  ghost predicate ServerOk(s: Server) {
    && (forall c <- s.deltas :: LocalKeys(s.deltas[c].changes) && s.deltas[c].version <= s.version)
    && (forall conn <- s.subscribers :: s.subscribers[conn].lastSent <= s.version)
  }

  lemma RefreshedAt(cache: Cache, s: Server, sub: Subscriber, p: Vec2)
    ensures At(Refreshed(cache, s, sub), p) == if SentAt(s, sub, p).Some? then SentAt(s, sub, p) else At(cache, p)
  {
    var c, l := ToChunkCoords(p), LocalInChunk(p);
    ChunkSplitIsBijective(p, c, l);
    assert FromChunk(c, l) == p;
    if SentAt(s, sub, p).Some? {
      assert c in s.deltas && l in s.deltas[c].changes;
      assert p in SentPositions(s, sub);
    }
  }

  /** Each message is a whole due delta, and no chunk comes twice. */
  ghost predicate WholeDeltas(messages: seq<Message>, s: Server) {
    && (forall i :: 0 <= i < |messages| ==> IsDeltaOf(messages[i], s))
    && (forall i, j :: 0 <= i < j < |messages| ==> messages[i].chunk != messages[j].chunk)
  }

  ghost predicate IsDeltaOf(m: Message, s: Server) {
    m.chunk in s.deltas && m.version == s.deltas[m.chunk].version && Lists(m.changes, s.deltas[m.chunk].changes)
  }

  lemma {:induction false} ApplyAllAt(cache: Cache, messages: seq<Message>, s: Server, p: Vec2)
    requires ServerOk(s) && WholeDeltas(messages, s)
    ensures var c := ToChunkCoords(p);
            var l := LocalInChunk(p);
            At(ApplyAll(cache, messages), p) ==
            if (exists i :: 0 <= i < |messages| && messages[i].chunk == c) && c in s.deltas && l in s.deltas[c].changes
            then Some(Shown(s.deltas[c].changes[l], s.deltas[c].version)) else At(cache, p)
  {
    if messages != [] {
      var front, m := messages[..|messages| - 1], messages[|messages| - 1];
      ApplyAllAt(cache, front, s, p);
      assert IsDeltaOf(m, s);
      ApplyListed(ApplyAll(cache, front), m.chunk, m.version, m.changes, s.deltas[m.chunk].changes, p);
      assert forall i :: 0 <= i < |front| ==> front[i] == messages[i];
    }
  }

  /** However the messages of a flush are ordered, the client ends with the refreshed cache. */
  lemma DeliveryRefreshes(cache: Cache, messages: seq<Message>, s: Server, sub: Subscriber)
    requires ServerOk(s) && Delivers(messages, s, sub)
    ensures ApplyAll(cache, messages) == Refreshed(cache, s, sub)
  {
    var a, b := ApplyAll(cache, messages), Refreshed(cache, s, sub);
    forall p
      ensures At(a, p) == At(b, p)
    {
      ApplyAllAt(cache, messages, s, p);
      RefreshedAt(cache, s, sub, p);
    }
    SameAtSameCache(a, b);
  }

  lemma SameAtSameCache(a: Cache, b: Cache)
    requires forall p :: At(a, p) == At(b, p)
    ensures a == b
  {
    assert forall p :: p in a <==> At(a, p).Some?;
    assert forall p :: p in b <==> At(b, p).Some?;
    assert forall p <- a :: At(a, p) == Some(a[p]) && At(b, p) == Some(b[p]);
  }

  // ----- the manager -----

  class BlockDeltaManager {
    var chunkDeltas: map<Vec2, ChunkDelta>
    var subscribers: map<string, Subscriber>
    var deltaVersion: nat

    constructor ()
      ensures State() == Server(map[], map[], 0)
    {
      chunkDeltas, subscribers, deltaVersion := map[], map[], 0;
    }

    ghost function State(): (s: Server)
      reads this
    {
      Server(chunkDeltas, subscribers, deltaVersion)
    }

    method AddBlockChange(worldPos: Vec2, change: Change, now: int)
      modifies this
      ensures State() == Record(old(State()), worldPos, change, now)
    {
      var chunkCoords, localPos := ToChunkCoords(worldPos), LocalInChunk(worldPos);
      deltaVersion := deltaVersion + 1;
      if chunkCoords !in chunkDeltas {
        chunkDeltas := chunkDeltas[chunkCoords := ChunkDelta(map[], deltaVersion, now)];
      }
      var delta := chunkDeltas[chunkCoords];
      chunkDeltas := chunkDeltas[chunkCoords := ChunkDelta(delta.changes[localPos := change], deltaVersion, now)];
    }

    method AddSubscriber(conn: string, center: Vec2, radius: int)
      modifies this
      ensures State() == Subscribe(old(State()), conn, center, radius)
    {
      subscribers := subscribers[conn := Subscriber(center, radius, deltaVersion)];
    }

    method RemoveSubscriber(conn: string)
      modifies this
      ensures State() == Unsubscribe(old(State()), conn)
    {
      subscribers := subscribers - {conn};
    }

    method MoveSubscriber(conn: string, center: Vec2, radius: int)
      modifies this
      ensures State() == UpdateSubscription(old(State()), conn, center, radius)
    {
      if conn in subscribers {
        subscribers := subscribers[conn := subscribers[conn].(center := center, radius := radius)];
      }
    }

    /** The changes of one delta, in the order the map yields them. */
    static method ChunkMessage(chunk: Vec2, delta: ChunkDelta) returns (m: Message)
      ensures m.chunk == chunk && m.version == delta.version && Lists(m.changes, delta.changes)
    {
      var changes: seq<(Vec2, Change)> := [];
      var todo := delta.changes.Keys;
      while todo != {}
        invariant todo <= delta.changes.Keys
        invariant forall i :: 0 <= i < |changes| ==>
                    changes[i].0 in delta.changes && changes[i].0 !in todo && delta.changes[changes[i].0] == changes[i].1
        invariant forall i, j :: 0 <= i < j < |changes| ==> changes[i].0 != changes[j].0
        invariant forall k <- delta.changes :: k !in todo ==> exists i :: 0 <= i < |changes| && changes[i].0 == k
      {
        var local :| local in todo;
        ghost var before := changes;
        changes := changes + [(local, delta.changes[local])];
        todo := todo - {local};
        assert changes[|before|].0 == local;
        assert forall i :: 0 <= i < |before| ==> changes[i] == before[i];
      }
      m := Message(chunk, delta.version, changes);
    }

    /** The due deltas of one subscriber, in the order the map yields them. */
    method SendDeltasToSubscriber(sub: Subscriber) returns (messages: seq<Message>)
      ensures Delivers(messages, State(), sub)
    {
      messages := [];
      var todo := chunkDeltas.Keys;
      while todo != {}
        invariant todo <= chunkDeltas.Keys
        invariant forall i :: 0 <= i < |messages| ==>
                    IsDeltaOf(messages[i], State()) && Due(State(), sub, messages[i].chunk) && messages[i].chunk !in todo
        invariant forall i, j :: 0 <= i < j < |messages| ==> messages[i].chunk != messages[j].chunk
        invariant forall c <- chunkDeltas :: c !in todo && Due(State(), sub, c) ==>
                    exists i :: 0 <= i < |messages| && messages[i].chunk == c
      {
        var chunk :| chunk in todo;
        ghost var before := messages;
        todo := todo - {chunk};
        if InCircle(sub, chunk) && chunkDeltas[chunk].version > sub.lastSent {
          var m := ChunkMessage(chunk, chunkDeltas[chunk]);
          messages := messages + [m];
          assert messages[|before|].chunk == chunk;
          assert forall i :: 0 <= i < |before| ==> messages[i] == before[i];
        }
      }
    }

    method CleanupOldDeltas(now: int)
      modifies `chunkDeltas
      ensures chunkDeltas == Kept(old(chunkDeltas), now)
      ensures forall c :: c in chunkDeltas <==> c in old(chunkDeltas) && old(chunkDeltas)[c].lastUpdated >= now - 1_000_000_000
      ensures forall c <- chunkDeltas :: chunkDeltas[c] == old(chunkDeltas)[c]
    {
      var cutoff := now - MAX_AGE;
      var todo := chunkDeltas.Keys;
      while todo != {}
        invariant todo <= old(chunkDeltas).Keys
        invariant chunkDeltas == map c | c in old(chunkDeltas) && (c in todo || old(chunkDeltas)[c].lastUpdated >= cutoff)
                                 :: old(chunkDeltas)[c]
      {
        var chunk :| chunk in todo;
        if chunkDeltas[chunk].lastUpdated < cutoff {
          chunkDeltas := chunkDeltas - {chunk};
        }
        todo := todo - {chunk};
      }
    }

    /** Sends every subscriber its due deltas, then forgets the old ones. */
    method FlushPendingChanges(now: int) returns (outbox: map<string, seq<Message>>)
      modifies this
      ensures State() == Flushed(old(State()), now)
      ensures outbox.Keys == (if old(chunkDeltas) == map[] then {} else old(subscribers).Keys)
      ensures forall conn <- outbox :: Delivers(outbox[conn], old(State()), old(subscribers)[conn])
    {
      outbox := map[];
      if chunkDeltas == map[] {
        return;
      }
      var todo := subscribers.Keys;
      while todo != {}
        invariant chunkDeltas == old(chunkDeltas) && deltaVersion == old(deltaVersion)
        invariant todo <= old(subscribers).Keys && subscribers.Keys == old(subscribers).Keys
        invariant outbox.Keys == old(subscribers).Keys - todo
        invariant forall conn <- subscribers :: subscribers[conn] ==
                    if conn in todo then old(subscribers)[conn] else old(subscribers)[conn].(lastSent := deltaVersion)
        invariant forall conn <- outbox :: Delivers(outbox[conn], old(State()), old(subscribers)[conn])
      {
        var conn :| conn in todo;
        var messages := SendDeltasToSubscriber(subscribers[conn]);
        DeliversSameDeltas(messages, State(), old(State()), subscribers[conn]);
        outbox := outbox[conn := messages];
        subscribers := subscribers[conn := subscribers[conn].(lastSent := deltaVersion)];
        todo := todo - {conn};
      }
      CleanupOldDeltas(now);
    }
  }

  lemma DeliversSameDeltas(messages: seq<Message>, s: Server, s': Server, sub: Subscriber)
    requires Delivers(messages, s, sub) && s.deltas == s'.deltas
    ensures Delivers(messages, s', sub)
  {
    assert forall c :: Due(s, sub, c) <==> Due(s', sub, c);
  }

  // ----- whole runs: one server, all its clients -----

  /** A client's cache, and what the run has done to the positions it cares for. */
  datatype Watch = Watch(
    cache: Cache,
    changed: set<Vec2>,   // recorded since the last flush
    held: set<Vec2>,      // in the circle at the flush that followed their last change
    touched: set<Vec2>)   // recorded since the area was last set

  datatype System = System(server: Server, last: map<Vec2, Change>, watches: map<string, Watch>)

  datatype Op =
    | Recording(pos: Vec2, change: Change, at: int)
    | Subscribing(conn: string, center: Vec2, radius: int)
    | Unsubscribing(conn: string)
    | Moving(conn: string, center: Vec2, radius: int)
    | Flushing(now: int)

  ghost function WatchOf(sys: System, conn: string): (w: Watch) {
    if conn in sys.watches then sys.watches[conn] else Watch(map[], {}, {}, {})
  }

  ghost function Noted(w: Watch, pos: Vec2): (w': Watch) {
    w.(changed := w.changed + {pos}, touched := w.touched + {pos})
  }

  ghost function Served(w: Watch, s: Server, sub: Subscriber): (w': Watch) {
    var inside := set p | p in w.changed && InCircle(sub, ToChunkCoords(p));
    Watch(Refreshed(w.cache, s, sub), {}, (w.held - w.changed) + inside, w.touched)
  }

  ghost function Next(sys: System, op: Op): (sys': System) {
    match op
    case Recording(pos, change, at) =>
      System(Record(sys.server, pos, change, at), sys.last[pos := change],
             map conn | conn in sys.watches :: Noted(sys.watches[conn], pos))
    case Subscribing(conn, center, radius) =>
      System(Subscribe(sys.server, conn, center, radius), sys.last,
             sys.watches[conn := Watch(WatchOf(sys, conn).cache, {}, {}, {})])
    case Unsubscribing(conn) =>
      System(Unsubscribe(sys.server, conn), sys.last, sys.watches - {conn})
    case Moving(conn, center, radius) =>
      System(UpdateSubscription(sys.server, conn, center, radius), sys.last,
             if conn in sys.watches then sys.watches[conn := sys.watches[conn].(touched := {})] else sys.watches)
    case Flushing(now) =>
      System(Flushed(sys.server, now), sys.last,
             map conn | conn in sys.watches ::
               if conn in sys.server.subscribers
               then Served(sys.watches[conn], sys.server, sys.server.subscribers[conn])
               else sys.watches[conn])
  }

  ghost function After(ops: seq<Op>): (sys: System) {
    if ops == [] then System(Server(map[], map[], 0), map[], map[])
    else Next(After(ops[..|ops| - 1]), ops[|ops| - 1])
  }

  ghost predicate Shows(b: ClientBlock, change: Change) {
    b.id == change.blockId && b.metadata == change.metadata
  }

  /** The deltas hold the last recorded change of each of their positions. */
  ghost predicate DeltasAreLast(s: Server, last: map<Vec2, Change>) {
    forall c, l {:trigger s.deltas[c].changes[l]} | c in s.deltas && l in s.deltas[c].changes ::
      FromChunk(c, l) in last && last[FromChunk(c, l)] == s.deltas[c].changes[l]
  }

  /** A changed position is still to be sent: its delta is kept and newer than the watermark. */
  ghost predicate Outstanding(s: Server, sub: Subscriber, p: Vec2) {
    var c := ToChunkCoords(p);
    c in s.deltas && LocalInChunk(p) in s.deltas[c].changes && s.deltas[c].version > sub.lastSent
  }

  ghost predicate WatchOk(s: Server, last: map<Vec2, Change>, sub: Subscriber, w: Watch) {
    && (forall p {:trigger p in w.changed} | p in w.changed :: Outstanding(s, sub, p))
    && (forall p {:trigger p in w.held} | p in w.held && p !in w.changed ::
          p in last && p in w.cache && Shows(w.cache[p], last[p]))
    && (forall p {:trigger p in w.touched} | p in w.touched ::
          p in w.changed || p in w.held || !InCircle(sub, ToChunkCoords(p)))
  }

  ghost predicate SystemOk(sys: System) {
    && ServerOk(sys.server)
    && DeltasAreLast(sys.server, sys.last)
    && sys.watches.Keys == sys.server.subscribers.Keys
    && (forall conn <- sys.watches :: ConnOk(sys, conn))
  }

  ghost predicate ConnOk(sys: System, conn: string) {
    && conn in sys.watches && conn in sys.server.subscribers
    && WatchOk(sys.server, sys.last, sys.server.subscribers[conn], sys.watches[conn])
  }

  lemma RecordKeepsServer(s: Server, last: map<Vec2, Change>, pos: Vec2, change: Change, now: int)
    requires ServerOk(s) && DeltasAreLast(s, last)
    ensures ServerOk(Record(s, pos, change, now))
    ensures DeltasAreLast(Record(s, pos, change, now), last[pos := change])
  {
    var chunk, local := ToChunkCoords(pos), LocalInChunk(pos);
    var s' := Record(s, pos, change, now);
    forall c, l | c in s'.deltas && l in s'.deltas[c].changes
      ensures FromChunk(c, l) in last[pos := change] && last[pos := change][FromChunk(c, l)] == s'.deltas[c].changes[l]
      ensures IsLocal(l)
    {
      if c != chunk || l != local {
        assert c in s.deltas && l in s.deltas[c].changes;
        ChunkSplitIsBijective(pos, c, l);
      } else {
        ChunkSplitIsBijective(pos, c, Vec2(0, 0));
      }
    }
  }

  lemma RecordKeepsWatch(s: Server, last: map<Vec2, Change>, sub: Subscriber, w: Watch, pos: Vec2, change: Change, now: int)
    requires ServerOk(s) && WatchOk(s, last, sub, w) && sub.lastSent <= s.version
    ensures WatchOk(Record(s, pos, change, now), last[pos := change], sub, Noted(w, pos))
  {
    var s' := Record(s, pos, change, now);
    forall p <- w.changed + {pos}
      ensures Outstanding(s', sub, p)
    {
      assert p != pos ==> Outstanding(s, sub, p);
    }
  }

  lemma FlushKeepsServer(s: Server, last: map<Vec2, Change>, now: int)
    requires ServerOk(s) && DeltasAreLast(s, last)
    ensures ServerOk(Flushed(s, now)) && DeltasAreLast(Flushed(s, now), last)
  {
  }

  /** A flush brings every changed position of the circle up to date and spoils no held one. */
  lemma FlushKeepsWatch(s: Server, last: map<Vec2, Change>, sub: Subscriber, w: Watch, now: int)
    requires ServerOk(s) && DeltasAreLast(s, last) && WatchOk(s, last, sub, w)
    ensures WatchOk(Flushed(s, now), last, if s.deltas == map[] then sub else sub.(lastSent := s.version), Served(w, s, sub))
  {
    var w' := Served(w, s, sub);
    forall p <- w'.held
      ensures p in last && p in w'.cache && Shows(w'.cache[p], last[p])
    {
      RefreshedAt(w.cache, s, sub, p);
      var c, l := ToChunkCoords(p), LocalInChunk(p);
      ChunkSplitIsBijective(p, c, l);
      assert At(w'.cache, p) == if SentAt(s, sub, p).Some? then SentAt(s, sub, p) else At(w.cache, p);
      if p in w.changed {
        assert Outstanding(s, sub, p);
      }
      if SentAt(s, sub, p).Some? {
        assert last[FromChunk(c, l)] == s.deltas[c].changes[l];
      }
    }
    assert w'.changed == {};
  }

  lemma RecordingKeepsConn(sys: System, pos: Vec2, change: Change, at: int, conn: string)
    requires SystemOk(sys) && conn in sys.watches
    ensures ConnOk(Next(sys, Recording(pos, change, at)), conn)
  {
    assert ConnOk(sys, conn);
    RecordKeepsWatch(sys.server, sys.last, sys.server.subscribers[conn], sys.watches[conn], pos, change, at);
  }

  lemma FlushingKeepsConn(sys: System, now: int, conn: string)
    requires SystemOk(sys) && conn in sys.watches
    ensures ConnOk(Next(sys, Flushing(now)), conn)
  {
    assert ConnOk(sys, conn);
    FlushKeepsWatch(sys.server, sys.last, sys.server.subscribers[conn], sys.watches[conn], now);
  }

  lemma SubscriptionKeepsConn(sys: System, op: Op, conn: string)
    requires SystemOk(sys) && (op.Subscribing? || op.Unsubscribing? || op.Moving?)
    requires conn in Next(sys, op).watches
    ensures ConnOk(Next(sys, op), conn)
  {
    assert conn in sys.watches ==> ConnOk(sys, conn);
  }

  lemma ServerKeeps(sys: System, op: Op)
    requires SystemOk(sys)
    ensures ServerOk(Next(sys, op).server) && DeltasAreLast(Next(sys, op).server, Next(sys, op).last)
    ensures Next(sys, op).watches.Keys == Next(sys, op).server.subscribers.Keys
  {
    match op
    case Recording(pos, change, at) => RecordKeepsServer(sys.server, sys.last, pos, change, at);
    case Flushing(now) => FlushKeepsServer(sys.server, sys.last, now);
    case _ =>
  }

  lemma NextKeeps(sys: System, op: Op)
    requires SystemOk(sys)
    ensures SystemOk(Next(sys, op))
  {
    ServerKeeps(sys, op);
    forall conn <- Next(sys, op).watches
      ensures ConnOk(Next(sys, op), conn)
    {
      match op
      case Recording(pos, change, at) => RecordingKeepsConn(sys, pos, change, at, conn);
      case Flushing(now) => FlushingKeepsConn(sys, now, conn);
      case _ => SubscriptionKeepsConn(sys, op, conn);
    }
  }

  lemma {:induction false} AfterOk(ops: seq<Op>)
    ensures SystemOk(After(ops))
  {
    if ops != [] {
      AfterOk(ops[..|ops| - 1]);
      NextKeeps(After(ops[..|ops| - 1]), ops[|ops| - 1]);
    }
  }

  // ----- the same, in terms of the operations alone -----

  /** The last change recorded at a position. */
  ghost function LastRecorded(ops: seq<Op>, p: Vec2): (c: Option<Change>) {
    if ops == [] then None
    else
      var op := ops[|ops| - 1];
      if op.Recording? && op.pos == p then Some(op.change) else LastRecorded(ops[..|ops| - 1], p)
  }

  /** The position was recorded after the subscriber's area was last set. */
  ghost predicate RecordedSince(ops: seq<Op>, conn: string, p: Vec2) {
    && ops != []
    && var op := ops[|ops| - 1];
       || (op.Recording? && op.pos == p)
       || (!((op.Subscribing? || op.Moving?) && op.conn == conn) && RecordedSince(ops[..|ops| - 1], conn, p))
  }

  lemma {:induction false} HistoryAgrees(ops: seq<Op>, conn: string, p: Vec2)
    ensures LastRecorded(ops, p) == if p in After(ops).last then Some(After(ops).last[p]) else None
    ensures conn in After(ops).watches && RecordedSince(ops, conn, p) ==> p in After(ops).watches[conn].touched
  {
    if ops != [] {
      var front := ops[..|ops| - 1];
      HistoryAgrees(front, conn, p);
      AfterOk(front);
    }
  }

  /** The client of a connection shows a change at a position. */
  ghost predicate ClientShows(sys: System, conn: string, p: Vec2, change: Option<Change>) {
    && conn in sys.watches && p in sys.watches[conn].cache
    && change.Some? && Shows(sys.watches[conn].cache[p], change.value)
  }

  ghost predicate Watching(sys: System, conn: string, p: Vec2) {
    && conn in sys.watches && conn in sys.server.subscribers && p in sys.watches[conn].touched
    && InCircle(sys.server.subscribers[conn], ToChunkCoords(p))
  }

  lemma FlushShows(s: Server, last: map<Vec2, Change>, sub: Subscriber, w: Watch, p: Vec2)
    requires ServerOk(s) && DeltasAreLast(s, last) && WatchOk(s, last, sub, w)
    requires p in w.touched && InCircle(sub, ToChunkCoords(p))
    ensures p in last && p in Refreshed(w.cache, s, sub) && Shows(Refreshed(w.cache, s, sub)[p], last[p])
  {
    FlushKeepsWatch(s, last, sub, w, 0);
    assert p in Served(w, s, sub).touched;
  }

  lemma FlushRefreshes(sys: System, now: int, conn: string)
    requires conn in sys.watches && conn in sys.server.subscribers
    ensures var sys' := Next(sys, Flushing(now));
            && conn in sys'.watches
            && sys'.watches[conn].cache == Refreshed(sys.watches[conn].cache, sys.server, sys.server.subscribers[conn])
  {
  }

  lemma FlushBringsCurrent(sys: System, now: int, conn: string, p: Vec2)
    requires SystemOk(sys) && Watching(sys, conn, p)
    ensures p in sys.last && ClientShows(Next(sys, Flushing(now)), conn, p, Some(sys.last[p]))
  {
    assert ConnOk(sys, conn);
    FlushShows(sys.server, sys.last, sys.server.subscribers[conn], sys.watches[conn], p);
    FlushRefreshes(sys, now, conn);
  }

  lemma WatchingAfter(ops: seq<Op>, conn: string, p: Vec2)
    requires conn in After(ops).server.subscribers
    requires RecordedSince(ops, conn, p)
    requires InCircle(After(ops).server.subscribers[conn], ToChunkCoords(p))
    ensures SystemOk(After(ops)) && Watching(After(ops), conn, p)
  {
    AfterOk(ops);
    HistoryAgrees(ops, conn, p);
  }

  /**
   After every flush, a client holds the last recorded block and metadata of every position of
   its circle recorded since its area was set, although deltas are forgotten by age and resent whole.
   */
  lemma ReplicaIsCurrent(ops: seq<Op>, now: int, conn: string, p: Vec2)
    requires conn in After(ops).server.subscribers
    requires RecordedSince(ops, conn, p)
    requires InCircle(After(ops).server.subscribers[conn], ToChunkCoords(p))
    ensures ClientShows(Next(After(ops), Flushing(now)), conn, p, LastRecorded(ops, p))
  {
    WatchingAfter(ops, conn, p);
    FlushBringsCurrent(After(ops), now, conn, p);
    HistoryAgrees(ops, conn, p);
  }

  /** Wherever its area moves, a client is right about every position that was inside at the flush after its last change. */
  lemma HeldIsCurrent(ops: seq<Op>, conn: string, p: Vec2)
    requires conn in After(ops).watches
    requires p in After(ops).watches[conn].held && p !in After(ops).watches[conn].changed
    ensures var cache := After(ops).watches[conn].cache;
            p in cache && LastRecorded(ops, p).Some? && Shows(cache[p], LastRecorded(ops, p).value)
  {
    AfterOk(ops);
    HistoryAgrees(ops, conn, p);
  }

  // ----- exactly what a client shows -----

  /** A flush sends the subscriber the position: its chunk is due, and the delta holds it. */
  ghost predicate Sends(sys: System, conn: string, p: Vec2) {
    conn in sys.server.subscribers && SentAt(sys.server, sys.server.subscribers[conn], p).Some?
  }

  /** The position has been sent to the client since it was last recorded. */
  ghost predicate SentSince(ops: seq<Op>, conn: string, p: Vec2) {
    && ops != []
    && var front, op := ops[..|ops| - 1], ops[|ops| - 1];
       match op
       case Recording(pos, _, _) => pos != p && SentSince(front, conn, p)
       case Flushing(_) => Sends(After(front), conn, p) || SentSince(front, conn, p)
       case Unsubscribing(c) => c != conn && SentSince(front, conn, p)
       case Subscribing(c, _, _) => (c == conn ==> conn in After(front).watches) && SentSince(front, conn, p)
       case Moving(_, _, _) => SentSince(front, conn, p)
  }

  /** What the client of a connection holds at a position; nothing if there is no such client. */
  ghost function Holds(sys: System, conn: string, p: Vec2): (b: Option<ClientBlock>) {
    At(WatchOf(sys, conn).cache, p)
  }

  /** What the client held at the position when it was last recorded, or when the client began. */
  ghost function HeldBefore(ops: seq<Op>, conn: string, p: Vec2): (b: Option<ClientBlock>) {
    if ops == [] then None
    else
      var front, op := ops[..|ops| - 1], ops[|ops| - 1];
      match op
      case Recording(pos, _, _) => if pos == p then Holds(After(front), conn, p) else HeldBefore(front, conn, p)
      case Unsubscribing(c) => if c == conn then None else HeldBefore(front, conn, p)
      case _ => HeldBefore(front, conn, p)
  }

  lemma DeltaIsLast(s: Server, last: map<Vec2, Change>, p: Vec2)
    requires DeltasAreLast(s, last)
    ensures var c, l := ToChunkCoords(p), LocalInChunk(p);
            c in s.deltas && l in s.deltas[c].changes ==> p in last && last[p] == s.deltas[c].changes[l]
  {
    ChunkSplitIsBijective(p, ToChunkCoords(p), LocalInChunk(p));
  }

  lemma SentIsLast(s: Server, last: map<Vec2, Change>, sub: Subscriber, p: Vec2)
    requires DeltasAreLast(s, last)
    ensures var b := SentAt(s, sub, p); b.Some? ==> p in last && Shows(b.value, last[p])
  {
    DeltaIsLast(s, last, p);
  }

  lemma FlushHolds(sys: System, now: int, conn: string, p: Vec2)
    requires SystemOk(sys)
    ensures !Sends(sys, conn, p) ==> Holds(Next(sys, Flushing(now)), conn, p) == Holds(sys, conn, p)
    ensures Sends(sys, conn, p) ==>
              var b := Holds(Next(sys, Flushing(now)), conn, p);
              b.Some? && p in sys.last && Shows(b.value, sys.last[p])
  {
    if conn in sys.watches {
      FlushRefreshes(sys, now, conn);
      RefreshedAt(sys.watches[conn].cache, sys.server, sys.server.subscribers[conn], p);
      SentIsLast(sys.server, sys.last, sys.server.subscribers[conn], p);
    }
  }

  lemma OtherHolds(sys: System, op: Op, conn: string, p: Vec2)
    requires !op.Flushing? && op != Unsubscribing(conn)
    ensures Holds(Next(sys, op), conn, p) == Holds(sys, conn, p)
  {
  }

  /** What the client shows at p: the last recorded block if that was sent, else what it held before. */
  ghost predicate ShowsExactly(ops: seq<Op>, conn: string, p: Vec2) {
    var b := Holds(After(ops), conn, p);
    if SentSince(ops, conn, p)
    then b.Some? && LastRecorded(ops, p).Some? && Shows(b.value, LastRecorded(ops, p).value)
    else b == HeldBefore(ops, conn, p)
  }

  /**
   In every run, for every client and position: if the position was sent since it was last recorded,
   the client shows the last recorded block; otherwise it shows what it held when the position was
   last recorded.
   */
  lemma {:induction false} ClientExact(ops: seq<Op>, conn: string, p: Vec2)
    ensures ShowsExactly(ops, conn, p)
  {
    if ops != [] {
      var front, op := ops[..|ops| - 1], ops[|ops| - 1];
      ClientExact(front, conn, p);
      AfterOk(front);
      ClientStep(front, op, conn, p);
      assert front + [op] == ops;
    }
  }

  lemma ClientStep(front: seq<Op>, op: Op, conn: string, p: Vec2)
    requires ShowsExactly(front, conn, p) && SystemOk(After(front))
    ensures ShowsExactly(front + [op], conn, p)
  {
    var ops := front + [op];
    assert ops[..|ops| - 1] == front && ops[|ops| - 1] == op;
    if op.Flushing? {
      HistoryAgrees(front, conn, p);
      FlushHolds(After(front), op.now, conn, p);
    } else if op != Unsubscribing(conn) {
      OtherHolds(After(front), op, conn, p);
    }
  }

  /** A client is current at a position exactly when it was sent there since, or held the same block already. */
  lemma CurrentExactly(ops: seq<Op>, conn: string, p: Vec2)
    requires LastRecorded(ops, p).Some?
    ensures var b := Holds(After(ops), conn, p);
            var before := HeldBefore(ops, conn, p);
            b.Some? && Shows(b.value, LastRecorded(ops, p).value) <==>
            SentSince(ops, conn, p) || (before.Some? && Shows(before.value, LastRecorded(ops, p).value))
  {
    ClientExact(ops, conn, p);
  }

  // ----- what the server keeps and sends, from the operations alone -----

  predicate Records(op: Op, c: Vec2) {
    op.Recording? && ToChunkCoords(op.pos) == c
  }

  /** The time of the last recording in a chunk. */
  function RecordedAt(ops: seq<Op>, c: Vec2): (t: Option<int>) {
    if ops == [] then None
    else if Records(ops[|ops| - 1], c) then Some(ops[|ops| - 1].at)
    else RecordedAt(ops[..|ops| - 1], c)
  }

  /** The flush comes more than a second after the last recording in the chunk. */
  predicate TooLate(ops: seq<Op>, c: Vec2, now: int) {
    RecordedAt(ops, c).Some? && now > RecordedAt(ops, c).value + 1_000_000_000
  }

  /** The position was recorded, and no flush since has come too late for its chunk. */
  predicate Remembered(ops: seq<Op>, p: Vec2) {
    && ops != []
    && var front, op := ops[..|ops| - 1], ops[|ops| - 1];
       match op
       case Recording(pos, _, _) => pos == p || Remembered(front, p)
       case Flushing(now) => Remembered(front, p) && !TooLate(front, ToChunkCoords(p), now)
       case _ => Remembered(front, p)
  }

  ghost predicate InDelta(s: Server, p: Vec2) {
    ToChunkCoords(p) in s.deltas && LocalInChunk(p) in s.deltas[ToChunkCoords(p)].changes
  }

  /** The delta of a chunk carries the time of its last recording. */
  ghost predicate Dated(ops: seq<Op>, s: Server, c: Vec2) {
    c in s.deltas ==> RecordedAt(ops, c) == Some(s.deltas[c].lastUpdated)
  }

  lemma KeptStep(ops: seq<Op>, s: Server, op: Op, p: Vec2)
    requires Dated(ops, s, ToChunkCoords(p)) && (InDelta(s, p) <==> Remembered(ops, p))
    ensures var s' := Next(System(s, map[], map[]), op).server;
            Dated(ops + [op], s', ToChunkCoords(p)) && (InDelta(s', p) <==> Remembered(ops + [op], p))
  {
    var c := ToChunkCoords(p);
    assert (ops + [op])[..|ops|] == ops;
    if op.Recording? {
      ChunkSplitIsBijective(p, c, LocalInChunk(p));
      ChunkSplitIsBijective(op.pos, c, LocalInChunk(p));
    }
  }

  lemma ServerAlone(sys: System, op: Op)
    ensures Next(sys, op).server == Next(System(sys.server, map[], map[]), op).server
  {
  }

  /**
   In every run the delta of a chunk holds exactly the positions recorded since it was last forgotten,
   and it is forgotten exactly by a flush more than a second after the last recording in the chunk.
   */
  lemma {:induction false} RememberedExactly(ops: seq<Op>, p: Vec2)
    ensures Dated(ops, After(ops).server, ToChunkCoords(p))
    ensures InDelta(After(ops).server, p) <==> Remembered(ops, p)
  {
    if ops != [] {
      var front, op := ops[..|ops| - 1], ops[|ops| - 1];
      RememberedExactly(front, p);
      KeptStep(front, After(front).server, op, p);
      ServerAlone(After(front), op);
      assert front + [op] == ops;
    }
  }

  /** A recording, no later one in the chunk, and every flush since at most a second after it. */
  ghost predicate KeptSince(ops: seq<Op>, c: Vec2, k: nat) {
    && k < |ops| && Records(ops[k], c)
    && (forall j | k < j < |ops| :: !Records(ops[j], c))
    && (forall j | k < j < |ops| && ops[j].Flushing? :: ops[j].now <= ops[k].at + 1_000_000_000)
  }

  lemma KeptSinceStep(ops: seq<Op>, s: Server, op: Op, c: Vec2)
    requires Dated(ops, s, c) && (c in s.deltas <==> exists k: nat :: KeptSince(ops, c, k))
    ensures var s' := Next(System(s, map[], map[]), op).server;
            c in s'.deltas <==> exists k: nat :: KeptSince(ops + [op], c, k)
  {
    var s' := Next(System(s, map[], map[]), op).server;
    var n, all := |ops|, ops + [op];
    if Records(op, c) {
      assert KeptSince(all, c, n);
    } else {
      forall k: nat ensures KeptSince(all, c, k) <==> KeptSince(ops, c, k) && (op.Flushing? ==> op.now <= ops[k].at + 1_000_000_000) {
        SinceSnoc(ops, op, c, k);
      }
      if k: nat :| KeptSince(ops, c, k) {
        LastRecordedAt(ops, c, k);
        assert KeptSince(all, c, k) <==> c in s'.deltas;
      }
    }
  }

  lemma SinceSnoc(ops: seq<Op>, op: Op, c: Vec2, k: nat)
    requires !Records(op, c)
    ensures KeptSince(ops + [op], c, k) <==> KeptSince(ops, c, k) && (op.Flushing? ==> op.now <= ops[k].at + 1_000_000_000)
  {
    var all := ops + [op];
    assert forall j | 0 <= j < |ops| :: all[j] == ops[j];
    assert all[|ops|] == op;
  }

  lemma {:induction false} LastRecordedAt(ops: seq<Op>, c: Vec2, k: nat)
    requires k < |ops| && Records(ops[k], c) && forall j | k < j < |ops| :: !Records(ops[j], c)
    ensures RecordedAt(ops, c) == Some(ops[k].at)
  {
    if k < |ops| - 1 {
      LastRecordedAt(ops[..|ops| - 1], c, k);
    }
  }

  /** In every run the server remembers a chunk exactly when it was recorded and no flush since came too late. */
  lemma {:induction false} ChunkKeptExactly(ops: seq<Op>, c: Vec2)
    ensures Dated(ops, After(ops).server, c)
    ensures c in After(ops).server.deltas <==> exists k: nat :: KeptSince(ops, c, k)
  {
    if ops == [] {
      assert forall k: nat :: !KeptSince(ops, c, k);
    } else {
      var front, op := ops[..|ops| - 1], ops[|ops| - 1];
      ChunkKeptExactly(front, c);
      DatedStep(front, After(front).server, op, c);
      KeptSinceStep(front, After(front).server, op, c);
      ServerAlone(After(front), op);
      assert front + [op] == ops;
    }
  }

  lemma DatedStep(ops: seq<Op>, s: Server, op: Op, c: Vec2)
    requires Dated(ops, s, c)
    ensures Dated(ops + [op], Next(System(s, map[], map[]), op).server, c)
  {
    assert (ops + [op])[..|ops|] == ops;
  }

  /** The chunk was recorded since the subscriber last came or was last flushed. */
  predicate NewFor(ops: seq<Op>, conn: string, c: Vec2) {
    && ops != []
    && var front, op := ops[..|ops| - 1], ops[|ops| - 1];
       match op
       case Recording(_, _, _) => Records(op, c) || NewFor(front, conn, c)
       case Flushing(_) => false
       case Subscribing(other, _, _) => other != conn && NewFor(front, conn, c)
       case Unsubscribing(other) => other != conn && NewFor(front, conn, c)
       case Moving(_, _, _) => NewFor(front, conn, c)
  }

  /** The delta of the chunk is newer than the subscriber's watermark exactly when the chunk is new for it. */
  ghost predicate Marked(ops: seq<Op>, s: Server, conn: string, c: Vec2) {
    conn in s.subscribers && c in s.deltas ==> (s.deltas[c].version > s.subscribers[conn].lastSent <==> NewFor(ops, conn, c))
  }

  lemma MarkedStep(ops: seq<Op>, s: Server, op: Op, conn: string, c: Vec2)
    requires ServerOk(s) && Marked(ops, s, conn, c)
    ensures Marked(ops + [op], Next(System(s, map[], map[]), op).server, conn, c)
  {
    assert (ops + [op])[..|ops|] == ops;
  }

  lemma {:induction false} MarkedExactly(ops: seq<Op>, conn: string, c: Vec2)
    ensures Marked(ops, After(ops).server, conn, c)
  {
    if ops != [] {
      var front, op := ops[..|ops| - 1], ops[|ops| - 1];
      MarkedExactly(front, conn, c);
      AfterOk(front);
      MarkedStep(front, After(front).server, op, conn, c);
      ServerAlone(After(front), op);
      assert front + [op] == ops;
    }
  }

  /** The subscriber's circle holds the chunk: centre in chunks, rounded toward zero, and radius in chunks. */
  lemma CircleHolds(sub: Subscriber, c: Vec2)
    ensures InCircle(sub, c) <==>
            (c.x - TruncDiv(sub.center.x, 16)) * (c.x - TruncDiv(sub.center.x, 16))
            + (c.y - TruncDiv(sub.center.y, 16)) * (c.y - TruncDiv(sub.center.y, 16)) <= sub.radius * sub.radius
  {
  }

  /**
   In every run a flush sends a subscriber exactly the positions of its circle that are remembered and
   whose chunk was recorded since it came or was last flushed.
   */
  lemma SendsExactly(ops: seq<Op>, conn: string, p: Vec2)
    requires conn in After(ops).server.subscribers
    ensures var sub := After(ops).server.subscribers[conn];
            Sends(After(ops), conn, p) <==>
            InCircle(sub, ToChunkCoords(p)) && Remembered(ops, p) && NewFor(ops, conn, ToChunkCoords(p))
  {
    RememberedExactly(ops, p);
    MarkedExactly(ops, conn, ToChunkCoords(p));
  }

  /**
   A position recorded while the client was away is sent at the first flush after its chunk is recorded
   again, if no flush has forgotten it in between.
   */
  lemma AwayIsSentAgain(ops: seq<Op>, now: int, conn: string, p: Vec2)
    requires conn in After(ops).server.subscribers && InCircle(After(ops).server.subscribers[conn], ToChunkCoords(p))
    requires Remembered(ops, p) && NewFor(ops, conn, ToChunkCoords(p))
    ensures ClientShows(Next(After(ops), Flushing(now)), conn, p, LastRecorded(ops, p))
  {
    AfterOk(ops);
    SendsExactly(ops, conn, p);
    FlushHolds(After(ops), now, conn, p);
    HistoryAgrees(ops, conn, p);
    FlushRefreshes(After(ops), now, conn);
  }

  /** The area a connection has asked for last, while it is subscribed. */
  function AskedFor(ops: seq<Op>, conn: string): (a: Option<(Vec2, int)>) {
    if ops == [] then None
    else
      var front, op := ops[..|ops| - 1], ops[|ops| - 1];
      match op
      case Subscribing(c, center, radius) => if c == conn then Some((center, radius)) else AskedFor(front, conn)
      case Unsubscribing(c) => if c == conn then None else AskedFor(front, conn)
      case Moving(c, center, radius) =>
        if c == conn && AskedFor(front, conn).Some? then Some((center, radius)) else AskedFor(front, conn)
      case _ => AskedFor(front, conn)
  }

  /** In every run a connection is subscribed exactly while it has asked for an area, and has the one it asked for last. */
  lemma {:induction false} AreaIsLast(ops: seq<Op>, conn: string)
    ensures var subs := After(ops).server.subscribers;
            && (conn in subs <==> AskedFor(ops, conn).Some?)
            && (conn in subs ==> AskedFor(ops, conn) == Some((subs[conn].center, subs[conn].radius)))
  {
    if ops != [] {
      AreaIsLast(ops[..|ops| - 1], conn);
    }
  }

  // ----- a subscriber that moves -----

  /** Right after a flush nothing is due, wherever a subscriber moves. */
  lemma NothingDueAfterFlush(s: Server, now: int, conn: string, center: Vec2, radius: int, chunk: Vec2)
    requires ServerOk(s) && conn in s.subscribers && s.deltas != map[]
    ensures var s' := UpdateSubscription(Flushed(s, now), conn, center, radius);
            && conn in s'.subscribers && s'.subscribers[conn] == Subscriber(center, radius, s.version)
            && !Due(s', s'.subscribers[conn], chunk)
  {
  }

  lemma NotSent(sys: System, now: int, conn: string, p: Vec2)
    requires conn in sys.watches && conn in sys.server.subscribers
    requires !Due(sys.server, sys.server.subscribers[conn], ToChunkCoords(p))
    ensures Holds(Next(sys, Flushing(now)), conn, p) == Holds(sys, conn, p)
  {
    RefreshedAt(sys.watches[conn].cache, sys.server, sys.server.subscribers[conn], p);
  }

  /** Flush, move, flush. */
  ghost function MovedBetween(sys: System, conn: string, center: Vec2, radius: int, now: int): (sys': System) {
    Next(Next(Next(sys, Flushing(now)), Moving(conn, center, radius)), Flushing(now))
  }

  /**
   A position outside the circle at a flush is not sent by the next one, even to a client that has
   moved there: it keeps what it held, nothing or an old block.
   */
  lemma MovedKeepsOld(sys: System, conn: string, center: Vec2, radius: int, p: Vec2, now: int)
    requires ServerOk(sys.server) && conn in sys.watches && conn in sys.server.subscribers && sys.server.deltas != map[]
    requires !InCircle(sys.server.subscribers[conn], ToChunkCoords(p))
    ensures Holds(MovedBetween(sys, conn, center, radius, now), conn, p) == Holds(sys, conn, p)
  {
    var flushed := Next(sys, Flushing(now));
    NotSent(sys, now, conn, p);
    NothingDueAfterFlush(sys.server, now, conn, center, radius, ToChunkCoords(p));
    NotSent(Next(flushed, Moving(conn, center, radius)), now, conn, p);
  }

  /** The run with one more operation. */
  lemma Extended(ops: seq<Op>, op: Op, p: Vec2) returns (longer: seq<Op>)
    ensures After(longer) == Next(After(ops), op)
    ensures LastRecorded(longer, p) == if op.Recording? && op.pos == p then Some(op.change) else LastRecorded(ops, p)
    ensures op.Recording? && op.pos == p ==> forall conn :: RecordedSince(longer, conn, p)
  {
    longer := ops + [op];
    assert longer[..|ops|] == ops;
  }

  ghost predicate HasArea(s: Server, conn: string, center: Vec2) {
    conn in s.subscribers && s.subscribers[conn].center == center && s.subscribers[conn].radius == 0
  }

  lemma FlushArea(s: Server, now: int, conn: string, center: Vec2)
    requires HasArea(s, conn, center)
    ensures HasArea(Flushed(s, now), conn, center)
  {
  }

  lemma MovedArea(sys: System, conn: string, center: Vec2, now: int)
    requires conn in sys.server.subscribers
    ensures HasArea(MovedBetween(sys, conn, center, 0, now).server, conn, center)
  {
    FlushArea(UpdateSubscription(Flushed(sys.server, now), conn, center, 0), now, conn, center);
  }

  /** The run goes on with a flush, a move and a flush; a position outside the area at the first stays as it was. */
  lemma MoveAndFlush(ops: seq<Op>, conn: string, center: Vec2, p: Vec2) returns (more: seq<Op>)
    requires conn in After(ops).server.subscribers && After(ops).server.deltas != map[]
    requires !InCircle(After(ops).server.subscribers[conn], ToChunkCoords(p))
    ensures LastRecorded(more, p) == LastRecorded(ops, p)
    ensures Holds(After(more), conn, p) == Holds(After(ops), conn, p)
    ensures HasArea(After(more).server, conn, center)
  {
    AfterOk(ops);
    MovedKeepsOld(After(ops), conn, center, 0, p, 0);
    MovedArea(After(ops), conn, center, 0);
    more := Extended(ops, Flushing(0), p);
    more := Extended(more, Moving(conn, center, 0), p);
    more := Extended(more, Flushing(0), p);
  }

  lemma EmptyRun(p: Vec2)
    ensures After([]) == System(Server(map[], map[], 0), map[], map[]) && LastRecorded([], p) == None
  {
  }

  lemma RecordArea(s: Server, pos: Vec2, change: Change, now: int, conn: string, center: Vec2)
    requires HasArea(s, conn, center)
    ensures HasArea(Record(s, pos, change, now), conn, center) && Record(s, pos, change, now).deltas != map[]
  {
    assert ToChunkCoords(pos) in Record(s, pos, change, now).deltas;
  }

  /** A run that subscribes at the origin and records one change. */
  lemma SubscribeAndRecord(p: Vec2, change: Change) returns (ops: seq<Op>)
    ensures var sys := After(ops);
            && HasArea(sys.server, "c", Vec2(0, 0)) && sys.server.deltas != map[] && Holds(sys, "c", p) == None
            && LastRecorded(ops, p) == Some(change) && RecordedSince(ops, "c", p)
  {
    EmptyRun(p);
    ops := Extended([], Subscribing("c", Vec2(0, 0), 0), p);
    var sys := After(ops);
    assert Holds(sys, "c", p) == None && HasArea(sys.server, "c", Vec2(0, 0));
    RecordArea(sys.server, p, change, 0, "c", Vec2(0, 0));
    OtherHolds(sys, Recording(p, change, 0), "c", p);
    ops := Extended(ops, Recording(p, change, 0), p);
  }

  /** The circle of radius 0 around a block holds just its chunk, for coordinates that are not negative. */
  lemma PointCircle(sub: Subscriber, chunk: Vec2)
    requires sub.radius == 0 && sub.center.x >= 0 && sub.center.y >= 0
    ensures InCircle(sub, chunk) <==> chunk == ToChunkCoords(sub.center)
  {
    var dx, dy := chunk.x - sub.center.x / 16, chunk.y - sub.center.y / 16;
    assert dx != 0 ==> dx * dx > 0;
    assert dy != 0 ==> dy * dy > 0;
    assert dx * dx >= 0 && dy * dy >= 0;
  }

  /** A client moves to a place that changed before it came, and is not sent the change. */
  lemma MovedMissesChange(change: Change) returns (ops: seq<Op>)
    ensures var p, sys := Vec2(160, 0), After(ops);
            && "c" in sys.server.subscribers && InCircle(sys.server.subscribers["c"], ToChunkCoords(p))
            && LastRecorded(ops, p) == Some(change) && Holds(sys, "c", p) == None
  {
    var p := Vec2(160, 0);
    ops := SubscribeAndRecord(p, change);
    PointCircle(After(ops).server.subscribers["c"], ToChunkCoords(p));
    ops := MoveAndFlush(ops, "c", p, p);
    PointCircle(After(ops).server.subscribers["c"], ToChunkCoords(p));
  }

  /** A client is sent a block, leaves, and the block changes. */
  lemma SeenAndLeft(p: Vec2, far: Vec2, older: Change, newer: Change) returns (ops: seq<Op>)
    requires ToChunkCoords(p) == Vec2(0, 0)
    ensures var sys := After(ops);
            && HasArea(sys.server, "c", far) && sys.server.deltas != map[] && LastRecorded(ops, p) == Some(newer)
            && Holds(sys, "c", p).Some? && Shows(Holds(sys, "c", p).value, older)
  {
    ops := SubscribeAndRecord(p, older);
    PointCircle(After(ops).server.subscribers["c"], ToChunkCoords(p));
    ReplicaIsCurrent(ops, 0, "c", p);
    FlushArea(After(ops).server, 0, "c", Vec2(0, 0));
    ops := Extended(ops, Flushing(0), p);
    OtherHolds(After(ops), Moving("c", far, 0), "c", p);
    ops := Extended(ops, Moving("c", far, 0), p);
    OtherHolds(After(ops), Recording(p, newer, 0), "c", p);
    RecordArea(After(ops).server, p, newer, 0, "c", far);
    ops := Extended(ops, Recording(p, newer, 0), p);
  }

  /** A client leaves a place and comes back after it has changed, and goes on showing the old block. */
  lemma ReturnedShowsOld(older: Change, newer: Change) returns (ops: seq<Op>)
    ensures var p, sys := Vec2(0, 0), After(ops);
            && "c" in sys.server.subscribers && InCircle(sys.server.subscribers["c"], ToChunkCoords(p))
            && LastRecorded(ops, p) == Some(newer)
            && Holds(sys, "c", p).Some? && Shows(Holds(sys, "c", p).value, older)
  {
    var p, far := Vec2(0, 0), Vec2(160, 0);
    ops := SeenAndLeft(p, far, older, newer);
    PointCircle(After(ops).server.subscribers["c"], ToChunkCoords(p));
    ops := MoveAndFlush(ops, "c", p, p);
    PointCircle(After(ops).server.subscribers["c"], ToChunkCoords(p));
  }
}
