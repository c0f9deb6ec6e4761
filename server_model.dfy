/**
 * The server role of differential synchronisation, as values: the per-room cache,
 * the per-connection shadow/backup/edit queue, the flag maps that de-duplicate room
 * loads and coalesce saves, and one transition function per operation. Calls into the
 * storage adapter and messages to connections are appended to logs; the callbacks the
 * adapter holds are kept as explicit continuations, resumed by `CompleteLoad` and
 * `CompleteStore`. The class in ServerEngine is proved to perform these transitions.
 */
module ServerModel {
  import opened DiffEngine
  import opened Messages

  type Room = string
  type ConnectionId = string

  /** The server's mirror of one connection's last agreed state. */
  datatype Shadow = Shadow(doc: Doc, localVersion: nat, serverVersion: nat)

  /** The snapshot of the shadow taken before an edit is applied. */
  datatype Backup = Backup(doc: Doc, serverVersion: nat)

  /** `clientVersions[connection.id]`. */
  datatype ConnectionState = ConnectionState(backup: Backup, shadow: Shadow, edits: seq<Edit>)

  /** `data[room]`. */
  datatype RoomRecord = RoomRecord(
    registeredSockets: seq<ConnectionId>,
    clientVersions: map<ConnectionId, ConnectionState>,
    serverCopy: Doc)

  /** The callback handed to `getData`: what runs once the room's record is there. */
  datatype Continuation =
    | JoinRoom(connection: ConnectionId)
    | ApplyEditMessage(connection: ConnectionId, message: EditMessage)
    | StoreSnapshot

  /** A call into the storage adapter. */
  datatype AdapterCall = Load(room: Room) | Store(room: Room, doc: Doc)

  /** A message the server emits through the transport. */
  datatype Outbound =
    | Joined(connection: ConnectionId, room: Room)
    | Initial(connection: ConnectionId, doc: Doc)
    | Changes(connection: ConnectionId, reply: Reply)
    | ErrorTo(connection: ConnectionId, text: string)
    | RemoteUpdate(room: Room, origin: ConnectionId)

  /** The whole state of a server. `pendingLoads` and `storesInFlight` are the
      callbacks the storage adapter currently holds. */
  datatype ServerState = ServerState(
    data: map<Room, RoomRecord>,
    requests: map<Room, bool>,
    saveRequests: map<Room, bool>,
    saveQueue: map<Room, bool>,
    pendingLoads: map<Room, Continuation>,
    storesInFlight: map<Room, nat>,
    adapterCalls: seq<AdapterCall>,
    sent: seq<Outbound>)

  const ReconnectMessage := "Need to re-connect!"

  /** A new server: every map empty, nothing called, nothing sent. */
  const Empty := ServerState(map[], map[], map[], map[], map[], map[], [], [])

  /** A JavaScript flag lookup: a missing key reads as false. */
  predicate Flag(m: map<Room, bool>, room: Room)
  {
    room in m && m[room]
  }

  /** The number of stores for `room` the adapter has not yet acknowledged. */
  function Count(m: map<Room, nat>, room: Room): nat
  {
    if room in m then m[room] else 0
  }

  function InFlight(s: ServerState, room: Room): nat
  {
    Count(s.storesInFlight, room)
  }

  /** A save continuation is in the pending-load table for `room`. */
  predicate Waiting(m: map<Room, Continuation>, room: Room)
  {
    room in m && m[room].StoreSnapshot?
  }

  /** A save for `room` is waiting for the room's load to complete. */
  predicate SaveWaiting(s: ServerState, room: Room)
  {
    Waiting(s.pendingLoads, room)
  }

  /** At most one load per room is outstanding, exactly while `requests[room]` is set,
      and only for a room that is not cached. */
  ghost predicate LoadsCoalesced(cached: set<Room>, requests: map<Room, bool>, pendingLoads: map<Room, Continuation>)
  {
    forall room ::
      && (room in pendingLoads <==> Flag(requests, room))
      && (room in pendingLoads ==> room !in cached)
  }

  /** At most one store per room is in flight, and only while `saveRequests[room]` is
      set; a save waiting for a load also holds `saveRequests[room]`. */
  ghost predicate SavesCoalesced(cached: set<Room>, saveRequests: map<Room, bool>,
                                 pendingLoads: map<Room, Continuation>, storesInFlight: map<Room, nat>)
  {
    forall room ::
      && Count(storesInFlight, room) <= 1
      && (Count(storesInFlight, room) == 1 ==>
            Flag(saveRequests, room) && !Waiting(pendingLoads, room) && room in cached)
      && (Waiting(pendingLoads, room) ==> Flag(saveRequests, room))
  }

  ghost predicate Valid(s: ServerState)
  {
    && LoadsCoalesced(s.data.Keys, s.requests, s.pendingLoads)
    && SavesCoalesced(s.data.Keys, s.saveRequests, s.pendingLoads, s.storesInFlight)
  }

  /** `Valid` depends only on the cached rooms, the flags and the held callbacks. */
  lemma ValidFrame(s: ServerState, t: ServerState)
    requires Valid(s)
    requires t.data.Keys == s.data.Keys && t.requests == s.requests && t.saveRequests == s.saveRequests
    requires t.pendingLoads == s.pendingLoads && t.storesInFlight == s.storesInFlight
    ensures Valid(t)
  {
    forall room ensures room in t.data <==> room in s.data {
    }
  }

  /** A save continuation may only run when its room holds the save flag and nothing
      else is being saved for it. */
  predicate SaveReady(s: ServerState, room: Room, k: Continuation)
  {
    k.StoreSnapshot? ==> Flag(s.saveRequests, room) && InFlight(s, room) == 0 && !SaveWaiting(s, room)
  }

  /** `b` extends the adapter log `a` with stores only. */
  predicate OnlyStores(a: seq<AdapterCall>, b: seq<AdapterCall>)
  {
    |a| <= |b| && b[..|a|] == a && forall i | |a| <= i < |b| :: b[i].Store?
  }

  function Rank(k: Continuation): nat
  {
    if k.ApplyEditMessage? then 1 else 0
  }

  // ---------------------------------------------------------------------------
  // One connection

  /** The state `joinConnection` creates for a connection. */
  function NewConnection(serverCopy: Doc): (c: ConnectionState)
    ensures c.shadow.doc == c.backup.doc == serverCopy
    ensures c.shadow.localVersion == c.shadow.serverVersion == c.backup.serverVersion == 0
    ensures c.edits == []
  {
    ConnectionState(Backup(serverCopy, 0), Shadow(serverCopy, 0, 0), [])
  }

  /** The version test applied to each incoming edit. */
  predicate AcceptsIncoming(c: ConnectionState, e: Edit)
  {
    e.serverVersion == c.shadow.serverVersion && e.localVersion == c.shadow.localVersion
  }

  /** One iteration of the edit loop of `receiveEdit`, on the connection state and the
      server copy. */
  function ApplyIncoming(c: ConnectionState, copy: Doc, e: Edit): (r: (ConnectionState, Doc))
    ensures AcceptsIncoming(c, e) ==>
      && r.0.backup == c.backup.(doc := c.shadow.doc)
      && r.0.shadow.doc == Patch(c.shadow.doc, e.diff)
      && r.1 == Patch(copy, e.diff)
      && r.0.shadow.serverVersion == c.shadow.serverVersion
      && r.0.shadow.localVersion == c.shadow.localVersion + (if IsEmpty(e.diff) then 0 else 1)
      && r.0.edits == c.edits
    ensures !AcceptsIncoming(c, e) ==> r == (c, copy)
  {
    if AcceptsIncoming(c, e) then
      var shadow := c.shadow.(doc := Patch(c.shadow.doc, e.diff));
      var shadow' := if !IsEmpty(e.diff) then shadow.(localVersion := shadow.localVersion + 1) else shadow;
      (c.(backup := c.backup.(doc := c.shadow.doc), shadow := shadow'), Patch(copy, e.diff))
    else (c, copy)
  }

  /** The whole edit loop: the edits in array order. */
  function ApplyAllIncoming(c: ConnectionState, copy: Doc, es: seq<Edit>): (ConnectionState, Doc)
    decreases |es|
  {
    if es == [] then (c, copy)
    else
      var (c', copy') := ApplyAllIncoming(c, copy, es[..|es| - 1]);
      ApplyIncoming(c', copy', es[|es| - 1])
  }

  /** Clears the outbound queue when the client has seen the server's current version. */
  function Acknowledge(c: ConnectionState, message: EditMessage): (r: ConnectionState)
    ensures r.edits == if message.serverVersion == c.shadow.serverVersion then [] else c.edits
    ensures r.backup == c.backup && r.shadow == c.shadow
  {
    if message.serverVersion == c.shadow.serverVersion then c.(edits := []) else c
  }

  /** The first half of `receiveEdit` on one connection: acknowledge, then apply the
      edits. */
  function AcceptEditMessage(c: ConnectionState, copy: Doc, message: EditMessage): (ConnectionState, Doc)
  {
    ApplyAllIncoming(Acknowledge(c, message), copy, message.edits)
  }

  /** `sendServerChanges`: queue the diff from the shadow to the server copy and
      produce the reply. Afterwards the shadow equals the server copy; the server
      version moves by one exactly when they differed. */
  function SendServerChanges(serverCopy: Doc, c: ConnectionState): (r: (ConnectionState, Reply))
    ensures r.0.shadow.doc == serverCopy
    ensures r.0.backup == c.backup && r.0.shadow.localVersion == c.shadow.localVersion
    ensures c.shadow.doc == serverCopy ==>
      r.0.shadow.serverVersion == c.shadow.serverVersion && r.0.edits == c.edits
    ensures c.shadow.doc != serverCopy ==>
      && r.0.shadow.serverVersion == c.shadow.serverVersion + 1
      && r.0.edits == c.edits + [Edit(c.shadow.serverVersion, c.shadow.localVersion, Diff(c.shadow.doc, serverCopy))]
    ensures r.1 == Reply(c.shadow.localVersion, c.shadow.serverVersion, r.0.edits)
  {
    var diff := Diff(c.shadow.doc, serverCopy);
    var basedOnServerVersion := c.shadow.serverVersion;
    PatchDiff(c.shadow.doc, serverCopy);
    DiffIsEmptyIff(c.shadow.doc, serverCopy);
    var c' := if !IsEmpty(diff)
              then c.(edits := c.edits + [Edit(basedOnServerVersion, c.shadow.localVersion, diff)],
                      shadow := c.shadow.(serverVersion := basedOnServerVersion + 1,
                                          doc := Patch(c.shadow.doc, diff)))
              else c;
    (c', Reply(c'.shadow.localVersion, basedOnServerVersion, c'.edits))
  }

  // ---------------------------------------------------------------------------
  // The server

  /** `getData(room, k)`: resume at once from the cache; otherwise issue one load,
      unless a load is already outstanding, in which case `k` is dropped. */
  function GetData(s: ServerState, room: Room, k: Continuation): (r: ServerState)
    requires Valid(s) && SaveReady(s, room, k)
    ensures Valid(r) && r.data.Keys == s.data.Keys
    ensures k.StoreSnapshot? ==> r.data == s.data && r.sent == s.sent
    ensures room in s.data ==>
      r.requests == s.requests && r.pendingLoads == s.pendingLoads && OnlyStores(s.adapterCalls, r.adapterCalls)
    decreases Rank(k), 3
  {
    if room in s.data then Resume(s, room, k)
    else if !Flag(s.requests, room) then
      s.(requests := s.requests[room := true],
         pendingLoads := s.pendingLoads[room := k],
         adapterCalls := s.adapterCalls + [Load(room)])
    else
      s.(requests := s.requests[room := true])
  }

  /** Runs a continuation against the cached record of `room`. */
  function Resume(s: ServerState, room: Room, k: Continuation): (r: ServerState)
    requires Valid(s) && room in s.data && SaveReady(s, room, k)
    ensures Valid(r) && r.data.Keys == s.data.Keys
    ensures k.StoreSnapshot? ==> r.data == s.data && r.sent == s.sent
    ensures r.requests == s.requests && r.pendingLoads == s.pendingLoads && OnlyStores(s.adapterCalls, r.adapterCalls)
    decreases Rank(k), 2
  {
    match k
    case JoinRoom(connection) => AddConnection(s, room, connection)
    case ApplyEditMessage(connection, message) => HalfCycle(s, room, connection, message)
    case StoreSnapshot => WriteSnapshot(s, room)
  }

  /** The callback of `joinConnection`: register a fresh connection state and send the
      server copy. */
  function AddConnection(s: ServerState, room: Room, connection: ConnectionId): (r: ServerState)
    requires Valid(s) && room in s.data
    ensures Valid(r) && r.data.Keys == s.data.Keys
    ensures r == s.(data := r.data, sent := r.sent)
  {
    var record := s.data[room];
    s.(data := s.data[room := record.(clientVersions := record.clientVersions[connection := NewConnection(record.serverCopy)])],
       sent := s.sent + [Joined(connection, room), Initial(connection, record.serverCopy)])
  }

  /** The callback of `receiveEdit`: the server half of a cycle. */
  function HalfCycle(s: ServerState, room: Room, connection: ConnectionId, message: EditMessage): (r: ServerState)
    requires Valid(s) && room in s.data
    ensures Valid(r) && r.data.Keys == s.data.Keys
    ensures r.requests == s.requests && r.pendingLoads == s.pendingLoads && OnlyStores(s.adapterCalls, r.adapterCalls)
    decreases 1, 1
  {
    if connection !in s.data[room].clientVersions then
      s.(sent := s.sent + [ErrorTo(connection, ReconnectMessage)])
    else
      var s2 := SaveSnapshot(AbsorbEdits(s, room, connection, message), room);
      var s3 := if |message.edits| > 0 then Broadcast(s2, room, connection) else s2;
      ReplyTo(s3, room, connection)
  }

  /** Steps 0-3 of `receiveEdit` on the server state: acknowledge and apply the edit
      message to the connection's state and the server copy. */
  function AbsorbEdits(s: ServerState, room: Room, connection: ConnectionId, message: EditMessage): (r: ServerState)
    requires Valid(s) && room in s.data && connection in s.data[room].clientVersions
    ensures Valid(r) && r == s.(data := r.data) && r.data.Keys == s.data.Keys
    ensures var record := s.data[room];
      var accepted := AcceptEditMessage(record.clientVersions[connection], record.serverCopy, message);
      r.data == s.data[room := record.(clientVersions := record.clientVersions[connection := accepted.0], serverCopy := accepted.1)]
  {
    var record := s.data[room];
    var accepted := AcceptEditMessage(record.clientVersions[connection], record.serverCopy, message);
    var r := s.(data := s.data[room := record.(clientVersions := record.clientVersions[connection := accepted.0],
                                               serverCopy := accepted.1)]);
    ValidFrame(s, r);
    r
  }

  /** `transport.to(room).emit(remoteUpdateIncoming, origin)`. */
  function Broadcast(s: ServerState, room: Room, origin: ConnectionId): (r: ServerState)
    requires Valid(s)
    ensures Valid(r) && r == s.(sent := s.sent + [RemoteUpdate(room, origin)])
  {
    var r := s.(sent := s.sent + [RemoteUpdate(room, origin)]);
    ValidFrame(s, r);
    r
  }

  /** `sendServerChanges` on the server state: the connection's state becomes the one
      `SendServerChanges` leaves, and its reply is sent. */
  function ReplyTo(s: ServerState, room: Room, connection: ConnectionId): (r: ServerState)
    requires Valid(s) && room in s.data && connection in s.data[room].clientVersions
    ensures Valid(r) && r == s.(data := r.data, sent := r.sent) && r.data.Keys == s.data.Keys
    ensures var record := s.data[room];
      var answer := SendServerChanges(record.serverCopy, record.clientVersions[connection]);
      && r.data == s.data[room := record.(clientVersions := record.clientVersions[connection := answer.0])]
      && r.sent == s.sent + [Changes(connection, answer.1)]
  {
    var record := s.data[room];
    var answer := SendServerChanges(record.serverCopy, record.clientVersions[connection]);
    var r := s.(data := s.data[room := record.(clientVersions := record.clientVersions[connection := answer.0])],
                sent := s.sent + [Changes(connection, answer.1)]);
    ValidFrame(s, r);
    r
  }

  /** `saveSnapshot(room)`: start a save unless one is in flight, in which case only
      queue a trailing one. */
  function SaveSnapshot(s: ServerState, room: Room): (r: ServerState)
    requires Valid(s)
    ensures Valid(r) && r.data == s.data && r.sent == s.sent
    ensures room in s.data ==>
      r.requests == s.requests && r.pendingLoads == s.pendingLoads && OnlyStores(s.adapterCalls, r.adapterCalls)
    decreases 0, 4
  {
    if !Flag(s.saveRequests, room) then
      GetData(s.(saveRequests := s.saveRequests[room := true]), room, StoreSnapshot)
    else
      s.(saveQueue := s.saveQueue[room := true])
  }

  /** The callback of `saveSnapshot`: hand the server copy to the adapter. */
  function WriteSnapshot(s: ServerState, room: Room): (r: ServerState)
    requires Valid(s) && room in s.data && Flag(s.saveRequests, room) && InFlight(s, room) == 0
    ensures Valid(r)
    ensures r == s.(adapterCalls := s.adapterCalls + [Store(room, s.data[room].serverCopy)],
                    storesInFlight := r.storesInFlight)
    ensures InFlight(r, room) == 1
  {
    assert !Waiting(s.pendingLoads, room);
    var r := s.(adapterCalls := s.adapterCalls + [Store(room, s.data[room].serverCopy)],
                storesInFlight := s.storesInFlight[room := 1]);
    assert forall other :: Count(r.storesInFlight, other) == if other == room then 1 else Count(s.storesInFlight, other);
    r
  }

  /** The adapter answers the outstanding load of `room` with `loaded`. */
  function CompleteLoad(s: ServerState, room: Room, loaded: Doc): (r: ServerState)
    requires Valid(s) && room in s.pendingLoads
    ensures Valid(r)
  {
    Resume(LoadInstalled(s, room, loaded), room, s.pendingLoads[room])
  }

  /** The adapter callback of `getData` before it hands on the record: the record
      `{[], {}, loaded}` is cached, the request flag cleared, and the load is no longer
      outstanding. */
  function LoadInstalled(s: ServerState, room: Room, loaded: Doc): (r: ServerState)
    requires Valid(s) && room in s.pendingLoads
    ensures Valid(r) && room in r.data && SaveReady(r, room, s.pendingLoads[room])
    ensures r.data == s.data[room := RoomRecord([], map[], loaded)]
    ensures !Flag(r.requests, room) && r.pendingLoads == s.pendingLoads - {room}
    ensures r == s.(data := r.data, requests := r.requests, pendingLoads := r.pendingLoads)
  {
    var r := s.(data := s.data[room := RoomRecord([], map[], loaded)],
                requests := s.requests[room := false],
                pendingLoads := s.pendingLoads - {room});
    assert !Waiting(r.pendingLoads, room);
    r
  }

  /** The adapter acknowledges the store of `room` (`checkQueueAndSaveAgain`). */
  function CompleteStore(s: ServerState, room: Room): (r: ServerState)
    requires Valid(s) && InFlight(s, room) > 0
    ensures Valid(r)
  {
    var s1 := StoreAcknowledged(s, room);
    if Flag(s.saveQueue, room) then SaveSnapshot(s1, room) else s1
  }

  /** The part of `checkQueueAndSaveAgain` before the re-save: the store is no longer
      in flight, the save flag is down, and a queued save is taken off the queue. */
  function StoreAcknowledged(s: ServerState, room: Room): (r: ServerState)
    requires Valid(s) && InFlight(s, room) > 0
    ensures Valid(r) && r.data == s.data && r.sent == s.sent && r.adapterCalls == s.adapterCalls
    ensures InFlight(r, room) == 0 && !Flag(r.saveRequests, room) && !Flag(r.saveQueue, room)
    ensures r.requests == s.requests && r.pendingLoads == s.pendingLoads
  {
    var s1 := s.(saveRequests := s.saveRequests[room := false],
                 storesInFlight := s.storesInFlight[room := InFlight(s, room) - 1]);
    assert !Waiting(s.pendingLoads, room) && Count(s1.storesInFlight, room) == 0;
    assert forall other | other != room :: Count(s1.storesInFlight, other) == Count(s.storesInFlight, other);
    if Flag(s.saveQueue, room) then s1.(saveQueue := s1.saveQueue[room := false]) else s1
  }

  /** `joinConnection(connection, room)`. */
  function JoinConnection(s: ServerState, connection: ConnectionId, room: Room): (r: ServerState)
    requires Valid(s)
    ensures Valid(r)
  {
    GetData(s, room, JoinRoom(connection))
  }

  /** `receiveEdit(connection, message)`. */
  function ReceiveEdit(s: ServerState, connection: ConnectionId, message: EditMessage): (r: ServerState)
    requires Valid(s)
    ensures Valid(r)
  {
    GetData(s, message.room, ApplyEditMessage(connection, message))
  }

  // ---------------------------------------------------------------------------
  // Properties: one connection

  /** Edits none of which carries the shadow's versions are all rejected and change
      neither the connection state nor the server copy; the rest of the batch is still
      examined. */
  lemma {:induction false} StaleEditsIgnored(c: ConnectionState, copy: Doc, es: seq<Edit>)
    requires forall i | 0 <= i < |es| :: !AcceptsIncoming(c, es[i])
    ensures ApplyAllIncoming(c, copy, es) == (c, copy)
    decreases |es|
  {
    if es != [] {
      StaleEditsIgnored(c, copy, es[..|es| - 1]);
    }
  }

  /** Every accepted edit is patched into the shadow and the server copy alike, so a
      shadow that agrees with the server copy still agrees after the batch. */
  lemma {:induction false} ShadowFollowsServerCopy(c: ConnectionState, copy: Doc, es: seq<Edit>)
    requires c.shadow.doc == copy
    ensures ApplyAllIncoming(c, copy, es).0.shadow.doc == ApplyAllIncoming(c, copy, es).1
    decreases |es|
  {
    if es != [] {
      ShadowFollowsServerCopy(c, copy, es[..|es| - 1]);
    }
  }

  /** The edit loop never changes the shadow's server version, the outbound queue or the
      backup's version, and never decreases the shadow's local version. */
  lemma {:induction false} IncomingMonotone(c: ConnectionState, copy: Doc, es: seq<Edit>)
    ensures var r := ApplyAllIncoming(c, copy, es).0;
      && r.shadow.serverVersion == c.shadow.serverVersion
      && r.shadow.localVersion >= c.shadow.localVersion
      && r.edits == c.edits
      && r.backup.serverVersion == c.backup.serverVersion
    decreases |es|
  {
    if es != [] {
      IncomingMonotone(c, copy, es[..|es| - 1]);
    }
  }

  // ---------------------------------------------------------------------------
  // Properties: loading rooms

  /** An uncached room with no load outstanding: exactly one adapter load is issued and
      the caller's continuation is held until it completes. */
  lemma GetDataLoadsOnce(s: ServerState, room: Room, k: Continuation)
    requires Valid(s) && SaveReady(s, room, k)
    requires room !in s.data && !Flag(s.requests, room)
    ensures var r := GetData(s, room, k);
      && r.adapterCalls == s.adapterCalls + [Load(room)]
      && r.pendingLoads == s.pendingLoads[room := k] && Flag(r.requests, room)
      && r == s.(adapterCalls := r.adapterCalls, pendingLoads := r.pendingLoads, requests := r.requests)
  {
  }

  /** Load de-duplication as written: while a load is outstanding, a further caller
      issues no adapter call, and its continuation is neither run nor kept, so it is
      never answered. */
  lemma GetDataWhileLoadingDropsCaller(s: ServerState, room: Room, k: Continuation)
    requires Valid(s) && SaveReady(s, room, k)
    requires room !in s.data && Flag(s.requests, room)
    ensures GetData(s, room, k) == s
  {
    assert s.requests[room := true] == s.requests;
  }

  /** When the load completes, the record `{[], {}, loaded}` is cached, the request flag
      is cleared, and the held continuation runs; a join registers its connection. */
  lemma CompleteLoadInstallsRecord(s: ServerState, room: Room, loaded: Doc)
    requires Valid(s) && room in s.pendingLoads
    ensures var r := CompleteLoad(s, room, loaded);
      && room in r.data && r.data[room].serverCopy == loaded && r.data[room].registeredSockets == []
      && !Flag(r.requests, room) && room !in r.pendingLoads
      && (s.pendingLoads[room].JoinRoom? ==>
            r.data[room].clientVersions == map[s.pendingLoads[room].connection := NewConnection(loaded)])
      && (s.pendingLoads[room].ApplyEditMessage? ==>
            r.data[room].clientVersions == map[] &&
            r.sent == s.sent + [ErrorTo(s.pendingLoads[room].connection, ReconnectMessage)])
  {
    var s1 := LoadInstalled(s, room, loaded);
    match s.pendingLoads[room]
    case JoinRoom(connection) =>
      assert CompleteLoad(s, room, loaded) == AddConnection(s1, room, connection);
    case ApplyEditMessage(connection, message) =>
      assert CompleteLoad(s, room, loaded) == HalfCycle(s1, room, connection, message);
    case StoreSnapshot =>
  }

  /** Two joins racing on an uncached room: only the first connection is ever
      registered or sent the document. */
  lemma SecondJoinDuringLoadIsLost(s: ServerState, room: Room, first: ConnectionId, second: ConnectionId, loaded: Doc)
    requires Valid(s) && room !in s.data && !Flag(s.requests, room) && first != second
    ensures var s1 := JoinConnection(s, first, room);
      var s2 := JoinConnection(s1, second, room);
      room in s2.pendingLoads &&
      var r := CompleteLoad(s2, room, loaded);
      && r.data[room].clientVersions.Keys == {first}
      && r.sent == s.sent + [Joined(first, room), Initial(first, loaded)]
      && r.adapterCalls == s.adapterCalls + [Load(room)]
  {
    var s1 := JoinConnection(s, first, room);
    GetDataLoadsOnce(s, room, JoinRoom(first));
    GetDataWhileLoadingDropsCaller(s1, room, JoinRoom(second));
    CompleteLoadInstallsRecord(s1, room, loaded);
  }

  // ---------------------------------------------------------------------------
  // Properties: joining and receiving

  /** `joinConnection` on a cached room registers a fresh state for the connection
      (shadow and backup equal to the server copy, versions 0, no edits), leaves every
      other connection and room alone, and sends the server copy. */
  lemma JoinRegistersConnection(s: ServerState, connection: ConnectionId, room: Room)
    requires Valid(s) && room in s.data
    ensures var r := JoinConnection(s, connection, room);
      var record := s.data[room];
      && r.data == s.data[room := record.(clientVersions := record.clientVersions[connection := NewConnection(record.serverCopy)])]
      && r.sent == s.sent + [Joined(connection, room), Initial(connection, record.serverCopy)]
      && r == s.(data := r.data, sent := r.sent)
  {
    assert JoinConnection(s, connection, room) == Resume(s, room, JoinRoom(connection));
  }

  /** An edit message from a connection the room does not know is answered with an
      error only: no save, no broadcast, no reply, no other change. */
  lemma ReceiveFromUnknownConnection(s: ServerState, connection: ConnectionId, message: EditMessage)
    requires Valid(s) && message.room in s.data
    requires connection !in s.data[message.room].clientVersions
    ensures ReceiveEdit(s, connection, message) == s.(sent := s.sent + [ErrorTo(connection, ReconnectMessage)])
  {
    var k := ApplyEditMessage(connection, message);
    assert ReceiveEdit(s, connection, message) == Resume(s, message.room, k);
    assert Resume(s, message.room, k) == HalfCycle(s, message.room, connection, message);
  }

  /** `saveSnapshot` on a cached room: with no save in flight it stores the server copy
      once; otherwise it only queues a trailing save. */
  lemma SaveSnapshotCached(s: ServerState, room: Room)
    requires Valid(s) && room in s.data
    ensures !Flag(s.saveRequests, room) ==>
      SaveSnapshot(s, room) == s.(saveRequests := s.saveRequests[room := true],
                                  adapterCalls := s.adapterCalls + [Store(room, s.data[room].serverCopy)],
                                  storesInFlight := s.storesInFlight[room := 1])
    ensures Flag(s.saveRequests, room) ==>
      SaveSnapshot(s, room) == s.(saveQueue := s.saveQueue[room := true])
  {
    if !Flag(s.saveRequests, room) {
      var s1 := s.(saveRequests := s.saveRequests[room := true]);
      assert !Waiting(s1.pendingLoads, room);
      assert SaveSnapshot(s, room) == WriteSnapshot(s1, room);
    }
  }

  /** The server half-cycle for a known connection: the edit message is acknowledged and
      applied to the shadow and the server copy, the connection's state becomes the one
      `sendServerChanges` leaves, peers are told iff the batch was non-empty, and the
      reply goes back to the sender. */
  lemma HalfCycleKnown(s: ServerState, room: Room, connection: ConnectionId, message: EditMessage)
    requires Valid(s) && room in s.data
    requires connection in s.data[room].clientVersions
    ensures var record := s.data[room];
      var accepted := AcceptEditMessage(record.clientVersions[connection], record.serverCopy, message);
      var answer := SendServerChanges(accepted.1, accepted.0);
      var r := HalfCycle(s, room, connection, message);
      && r.data.Keys == s.data.Keys
      && r.data[room].clientVersions[connection] == answer.0
      && r.data[room].serverCopy == accepted.1
      && r.sent == s.sent + (if |message.edits| > 0 then [RemoteUpdate(room, connection)] else []) + [Changes(connection, answer.1)]
  {
    HalfCycleDecomposes(s, room, connection, message);
  }

  /** ... and no other connection of the room, and no other room, changes. */
  lemma HalfCycleKeepsOthers(s: ServerState, room: Room, connection: ConnectionId, message: EditMessage)
    requires Valid(s) && room in s.data
    requires connection in s.data[room].clientVersions
    ensures var record := s.data[room];
      var r := HalfCycle(s, room, connection, message);
      && r.data.Keys == s.data.Keys
      && r.data[room].clientVersions.Keys == record.clientVersions.Keys
      && r.data[room].registeredSockets == record.registeredSockets
      && (forall other | other in record.clientVersions && other != connection ::
            r.data[room].clientVersions[other] == record.clientVersions[other])
      && (forall other | other in s.data && other != room :: r.data[other] == s.data[other])
  {
    HalfCycleDecomposes(s, room, connection, message);
    var record := s.data[room];
    var s1 := AbsorbEdits(s, room, connection, message);
    var s2 := SaveSnapshot(s1, room);
    var s3 := if |message.edits| > 0 then Broadcast(s2, room, connection) else s2;
    var versions := s1.data[room].clientVersions;
    var versions' := HalfCycle(s, room, connection, message).data[room].clientVersions;
    assert versions == record.clientVersions[connection := versions[connection]];
    assert versions' == versions[connection := versions'[connection]];
    UpdateKeepsKeys(record.clientVersions, connection, versions[connection]);
    UpdateKeepsKeys(versions, connection, versions'[connection]);
  }

  lemma UpdateKeepsKeys<K, V>(m: map<K, V>, k: K, v: V)
    requires k in m
    ensures m[k := v].Keys == m.Keys
  {
  }

  /** The half-cycle for a known connection is: absorb the edits, save, broadcast a
      non-empty batch, reply. */
  lemma HalfCycleDecomposes(s: ServerState, room: Room, connection: ConnectionId, message: EditMessage)
    requires Valid(s) && room in s.data
    requires connection in s.data[room].clientVersions
    ensures var s1 := AbsorbEdits(s, room, connection, message);
      var s2 := SaveSnapshot(s1, room);
      var s3 := if |message.edits| > 0 then Broadcast(s2, room, connection) else s2;
      && s3.data == s1.data
      && HalfCycle(s, room, connection, message) == ReplyTo(s3, room, connection)
  {
  }

  /** The half-cycle for a known connection triggers a save of the new server copy: a
      store at once when none is in flight, otherwise a queued trailing save. */
  lemma HalfCycleSaves(s: ServerState, room: Room, connection: ConnectionId, message: EditMessage)
    requires Valid(s) && room in s.data
    requires connection in s.data[room].clientVersions
    ensures var record := s.data[room];
      var accepted := AcceptEditMessage(record.clientVersions[connection], record.serverCopy, message);
      var r := HalfCycle(s, room, connection, message);
      && Flag(r.saveRequests, room)
      && (!Flag(s.saveRequests, room) ==> r.adapterCalls == s.adapterCalls + [Store(room, accepted.1)] && r.saveQueue == s.saveQueue)
      && (Flag(s.saveRequests, room) ==> r.adapterCalls == s.adapterCalls && r.saveQueue == s.saveQueue[room := true])
  {
    var record := s.data[room];
    var accepted := AcceptEditMessage(record.clientVersions[connection], record.serverCopy, message);
    var s1 := AbsorbEdits(s, room, connection, message);
    SaveSnapshotCached(s1, room);
  }

  /** An edit message for a cached room from a known connection runs the half-cycle at
      once, with no load. */
  lemma ReceiveRunsHalfCycle(s: ServerState, connection: ConnectionId, message: EditMessage)
    requires Valid(s) && message.room in s.data
    requires connection in s.data[message.room].clientVersions
    ensures ReceiveEdit(s, connection, message) == HalfCycle(s, message.room, connection, message)
  {
    var k := ApplyEditMessage(connection, message);
    assert ReceiveEdit(s, connection, message) == Resume(s, message.room, k);
  }

  // ---------------------------------------------------------------------------
  // Properties: saving

  /** `saveSnapshot(room)` called `n` times in a row. */
  function SaveTimes(s: ServerState, room: Room, n: nat): (r: ServerState)
    requires Valid(s)
    ensures Valid(r)
  {
    if n == 0 then s else SaveSnapshot(SaveTimes(s, room, n - 1), room)
  }

  /** The first of `n + 1` saves, then the other `n`. */
  lemma {:induction false} SaveTimesShift(s: ServerState, room: Room, n: nat)
    requires Valid(s)
    ensures SaveTimes(s, room, n + 1) == SaveTimes(SaveSnapshot(s, room), room, n)
  {
    if n > 0 {
      SaveTimesShift(s, room, n - 1);
    }
  }

  /** While a save is in flight, any number of further saves only set the queue flag. */
  lemma {:induction false} SavesWhileBusyOnlyQueue(s: ServerState, room: Room, n: nat)
    requires Valid(s) && Flag(s.saveRequests, room)
    ensures SaveTimes(s, room, n) == if n == 0 then s else s.(saveQueue := s.saveQueue[room := true])
  {
    if n > 1 {
      SavesWhileBusyOnlyQueue(s, room, n - 1);
      var q := s.saveQueue[room := true];
      assert q[room := true] == q;
    }
  }

  /** The store's acknowledgement clears the in-flight flag and re-saves exactly once
      iff a save was queued meanwhile. */
  lemma CompleteStoreResavesOnce(s: ServerState, room: Room)
    requires Valid(s) && InFlight(s, room) > 0
    ensures var r := CompleteStore(s, room);
      && r.data == s.data && r.sent == s.sent && !Flag(r.saveQueue, room)
      && r.adapterCalls == s.adapterCalls + (if Flag(s.saveQueue, room) then [Store(room, s.data[room].serverCopy)] else [])
      && (Flag(r.saveRequests, room) <==> Flag(s.saveQueue, room))
      && (InFlight(r, room) == 1 <==> Flag(s.saveQueue, room))
  {
    if Flag(s.saveQueue, room) {
      SaveSnapshotCached(StoreAcknowledged(s, room), room);
    }
  }

  /** A burst of `n` saves in quick succession on an idle room reaches the adapter once;
      from the second save on, a trailing save is queued. */
  lemma BurstMakesOneStore(s: ServerState, room: Room, n: nat)
    requires Valid(s) && room in s.data && !Flag(s.saveRequests, room) && n >= 1
    ensures var burst := SaveTimes(s, room, n);
      && burst.adapterCalls == s.adapterCalls + [Store(room, s.data[room].serverCopy)]
      && InFlight(burst, room) == 1 && burst.data == s.data
      && (n >= 2 ==> Flag(burst.saveQueue, room))
  {
    SaveSnapshotCached(s, room);
    var s1 := SaveSnapshot(s, room);
    SavesWhileBusyOnlyQueue(s1, room, n - 1);
    SaveTimesShift(s, room, n - 1);
  }

  /** The same burst of two or more saves against a slow store reaches the adapter
      exactly twice: one store in flight, one trailing store once it is acknowledged,
      and nothing more after the second acknowledgement. */
  lemma BurstWritesTwice(s: ServerState, room: Room, n: nat)
    requires Valid(s) && room in s.data && !Flag(s.saveRequests, room) && n >= 2
    ensures InFlight(SaveTimes(s, room, n), room) == 1
    ensures InFlight(CompleteStore(SaveTimes(s, room, n), room), room) == 1
    ensures var trailing := CompleteStore(SaveTimes(s, room, n), room);
      && trailing.adapterCalls == s.adapterCalls + [Store(room, s.data[room].serverCopy), Store(room, s.data[room].serverCopy)]
      && CompleteStore(trailing, room).adapterCalls == trailing.adapterCalls
  {
    BurstMakesOneStore(s, room, n);
    var burst := SaveTimes(s, room, n);
    CompleteStoreResavesOnce(burst, room);
    var trailing := CompleteStore(burst, room);
    CompleteStoreResavesOnce(trailing, room);
    var store := Store(room, s.data[room].serverCopy);
    assert s.adapterCalls + [store] + [store] == s.adapterCalls + [store, store];
  }
}
