/**
 * The server as the object the transport drives: the room cache and the three flag
 * maps are fields the methods update in place, the callbacks held by the storage
 * adapter are the fields `pendingLoads` and `storesInFlight`, and adapter calls and
 * transport emits are appended to two logs. Each method is proved to perform the
 * transition of the same name in ServerModel.
 */
module ServerEngine {
  import opened Wrappers
  import opened DiffEngine
  import opened Messages
  import M = ServerModel
  import MemoryAdapter

  class Server {
    var data: map<M.Room, M.RoomRecord>
    var requests: map<M.Room, bool>
    var saveRequests: map<M.Room, bool>
    var saveQueue: map<M.Room, bool>
    var pendingLoads: map<M.Room, M.Continuation>
    var storesInFlight: map<M.Room, nat>
    var adapterCalls: seq<M.AdapterCall>
    var sent: seq<M.Outbound>

    /** The server's state as a value. */
    function State(): M.ServerState
      reads this
    {
      M.ServerState(data, requests, saveRequests, saveQueue, pendingLoads, storesInFlight, adapterCalls, sent)
    }

    ghost predicate Valid()
      reads this
    {
      M.Valid(State())
    }

    /** A fresh server: no rooms cached, every flag map empty, nothing outstanding. */
    constructor ()
      ensures State() == M.Empty && Valid()
    {
      data, requests, saveRequests, saveQueue := map[], map[], map[], map[];
      pendingLoads, storesInFlight := map[], map[];
      adapterCalls, sent := [], [];
    }

    /** `joinConnection(connection, room, initializeClient)`. */
    method JoinConnection(connection: M.ConnectionId, room: M.Room)
      requires Valid()
      modifies this
      ensures State() == M.JoinConnection(old(State()), connection, room)
    {
      GetData(room, M.JoinRoom(connection));
    }

    /** `receiveEdit(connection, editMessage, sendToClient)`. */
    method ReceiveEdit(connection: M.ConnectionId, message: EditMessage)
      requires Valid()
      modifies this
      ensures State() == M.ReceiveEdit(old(State()), connection, message)
    {
      GetData(message.room, M.ApplyEditMessage(connection, message));
    }

    /** `getData(room, callback)`. */
    method GetData(room: M.Room, k: M.Continuation)
      requires Valid() && M.SaveReady(State(), room, k)
      modifies this
      ensures State() == M.GetData(old(State()), room, k)
      decreases M.Rank(k), 3
    {
      if room in data {
        Resume(room, k);
      } else if !M.Flag(requests, room) {
        requests := requests[room := true];
        pendingLoads := pendingLoads[room := k];
        adapterCalls := adapterCalls + [M.Load(room)];
      } else {
        requests := requests[room := true];
      }
    }

    /** Runs the callback handed to `getData` against the cached record. */
    method Resume(room: M.Room, k: M.Continuation)
      requires Valid() && room in data && M.SaveReady(State(), room, k)
      modifies this
      ensures State() == M.Resume(old(State()), room, k)
      decreases M.Rank(k), 2
    {
      match k
      case JoinRoom(connection) => AddConnection(room, connection);
      case ApplyEditMessage(connection, message) => HalfCycle(room, connection, message);
      case StoreSnapshot => WriteSnapshot(room);
    }

    /** The callback of `joinConnection`. */
    method AddConnection(room: M.Room, connection: M.ConnectionId)
      requires Valid() && room in data
      modifies this
      ensures State() == M.AddConnection(old(State()), room, connection)
    {
      var record := data[room];
      sent := sent + [M.Joined(connection, room)];
      record := record.(clientVersions := record.clientVersions[connection := M.NewConnection(record.serverCopy)]);
      data := data[room := record];
      sent := sent + [M.Initial(connection, record.serverCopy)];
    }

    /** The callback of `receiveEdit`. */
    method HalfCycle(room: M.Room, connection: M.ConnectionId, message: EditMessage)
      requires Valid() && room in data
      modifies this
      ensures State() == M.HalfCycle(old(State()), room, connection, message)
      decreases 1, 1
    {
      var record := data[room];
      if connection !in record.clientVersions {
        sent := sent + [M.ErrorTo(connection, M.ReconnectMessage)];
        return;
      }
      var clientDoc := record.clientVersions[connection];
      if message.serverVersion == clientDoc.shadow.serverVersion {
        clientDoc := clientDoc.(edits := []);
      }
      var serverCopy;
      clientDoc, serverCopy := ApplyEdits(clientDoc, record.serverCopy, message.edits);
      record := record.(clientVersions := record.clientVersions[connection := clientDoc], serverCopy := serverCopy);
      data := data[room := record];
      SaveSnapshot(room);
      if |message.edits| > 0 {
        sent := sent + [M.RemoteUpdate(room, connection)];
      }
      SendServerChanges(room, connection);
    }

    /** The edit loop of `receiveEdit`: each edit whose versions match the shadow is
        patched into the shadow and the server copy, after the shadow is backed up. */
    static method ApplyEdits(c: M.ConnectionState, serverCopy: Doc, edits: seq<Edit>)
      returns (c': M.ConnectionState, serverCopy': Doc)
      ensures (c', serverCopy') == M.ApplyAllIncoming(c, serverCopy, edits)
    {
      c', serverCopy' := c, serverCopy;
      var i := 0;
      while i < |edits|
        invariant 0 <= i <= |edits|
        invariant (c', serverCopy') == M.ApplyAllIncoming(c, serverCopy, edits[..i])
      {
        var edit := edits[i];
        if edit.serverVersion == c'.shadow.serverVersion && edit.localVersion == c'.shadow.localVersion {
          c' := c'.(backup := c'.backup.(doc := c'.shadow.doc));
          c' := c'.(shadow := c'.shadow.(doc := Patch(c'.shadow.doc, edit.diff)));
          serverCopy' := Patch(serverCopy', edit.diff);
          if !IsEmpty(edit.diff) {
            c' := c'.(shadow := c'.shadow.(localVersion := c'.shadow.localVersion + 1));
          }
        }
        assert edits[..i + 1][..i] == edits[..i];
        i := i + 1;
      }
      assert edits[..|edits|] == edits;
    }

    /** `sendServerChanges(doc, clientDoc, send)` for one connection of a cached room. */
    method SendServerChanges(room: M.Room, connection: M.ConnectionId)
      requires Valid() && room in data && connection in data[room].clientVersions
      modifies this
      ensures State() == M.ReplyTo(old(State()), room, connection)
    {
      var record := data[room];
      var clientDoc := record.clientVersions[connection];
      var diff := Diff(clientDoc.shadow.doc, record.serverCopy);
      var basedOnServerVersion := clientDoc.shadow.serverVersion;
      if !IsEmpty(diff) {
        clientDoc := clientDoc.(edits := clientDoc.edits + [Edit(basedOnServerVersion, clientDoc.shadow.localVersion, diff)]);
        clientDoc := clientDoc.(shadow := clientDoc.shadow.(serverVersion := clientDoc.shadow.serverVersion + 1));
        clientDoc := clientDoc.(shadow := clientDoc.shadow.(doc := Patch(clientDoc.shadow.doc, diff)));
      }
      data := data[room := record.(clientVersions := record.clientVersions[connection := clientDoc])];
      sent := sent + [M.Changes(connection, Reply(clientDoc.shadow.localVersion, basedOnServerVersion, clientDoc.edits))];
    }

    /** `saveSnapshot(room)`. */
    method SaveSnapshot(room: M.Room)
      requires Valid()
      modifies this
      ensures State() == M.SaveSnapshot(old(State()), room)
      decreases 0, 4
    {
      var noRequestInProgress := !M.Flag(saveRequests, room);
      if noRequestInProgress {
        saveRequests := saveRequests[room := true];
        GetData(room, M.StoreSnapshot);
      } else {
        saveQueue := saveQueue[room := true];
      }
    }

    /** The callback of `saveSnapshot`: `adapter.storeData(room, serverCopy, ...)`. */
    method WriteSnapshot(room: M.Room)
      requires Valid() && room in data && M.Flag(saveRequests, room) && M.Count(storesInFlight, room) == 0
      modifies this
      ensures State() == M.WriteSnapshot(old(State()), room)
    {
      adapterCalls := adapterCalls + [M.Store(room, data[room].serverCopy)];
      storesInFlight := storesInFlight[room := 1];
    }

    /** The adapter calls back the outstanding `getData` of `room` with `loaded`. */
    method CompleteLoad(room: M.Room, loaded: Doc)
      requires Valid() && room in pendingLoads
      modifies this
      ensures State() == M.CompleteLoad(old(State()), room, loaded)
    {
      ghost var before := State();
      var k := pendingLoads[room];
      pendingLoads := pendingLoads - {room};
      data := data[room := M.RoomRecord([], map[], loaded)];
      requests := requests[room := false];
      assert State() == M.LoadInstalled(before, room, loaded);
      Resume(room, k);
    }

    /** The adapter acknowledges the store of `room`: `checkQueueAndSaveAgain`. */
    method CompleteStore(room: M.Room)
      requires Valid() && M.Count(storesInFlight, room) > 0
      modifies this
      ensures State() == M.CompleteStore(old(State()), room)
    {
      ghost var before := State();
      storesInFlight := storesInFlight[room := M.Count(storesInFlight, room) - 1];
      var anotherRequestScheduled := M.Flag(saveQueue, room);
      saveRequests := saveRequests[room := false];
      if anotherRequestScheduled {
        saveQueue := saveQueue[room := false];
        assert State() == M.StoreAcknowledged(before, room);
        SaveSnapshot(room);
      }
    }
  }

  /** `new Server(adapter, transport)`: throws unless both are given. */
  method NewServer(adapterGiven: bool, transportGiven: bool) returns (r: Result<Server, string>)
    ensures r.Failure? <==> !(adapterGiven && transportGiven)
    ensures r.Success? ==> fresh(r.value) && r.value.State() == M.Empty
  {
    if !(adapterGiven && transportGiven) {
      return Failure("Need to specify an adapter and a transport");
    }
    var s := new Server();
    return Success(s);
  }

  /** The in-memory adapter answers the server's outstanding load of `room`: it reads
      (and, for a missing entry, creates) the document, and the server's callback runs
      with it. */
  method DeliverLoad(server: Server, adapter: MemoryAdapter.InMemoryDataAdapter, room: M.Room)
    requires server.Valid() && room in server.pendingLoads
    modifies server, adapter
    ensures adapter.cache == old(adapter.cache)[room := MemoryAdapter.Lookup(old(adapter.cache), room)]
    ensures server.State() == M.CompleteLoad(old(server.State()), room, MemoryAdapter.Lookup(old(adapter.cache), room))
  {
    var loaded := adapter.GetData(room);
    server.CompleteLoad(room, loaded);
  }
}
