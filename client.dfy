/**
 * The client as the object the application holds: flags and the versioned document
 * are fields that the methods update in place, and socket emits and application
 * events are appended to two logs. Each method is proved to perform the transition
 * of the same name in ClientModel.
 */
module ClientEngine {
  import opened Wrappers
  import opened DiffEngine
  import opened Messages
  import M = ClientModel

  /** The part of a socket the client reads: its connection id. */
  datatype Socket = Socket(id: string)

  class Client {
    const socketId: string
    const room: string
    var syncing: bool
    var initialized: bool
    var scheduled: bool
    var doc: M.VersionedDoc
    var sent: seq<M.Outbound>
    var emitted: seq<M.Event>

    /** The client's state as a value. */
    function State(): M.ClientState
      reads this
    {
      M.ClientState(socketId, room, syncing, initialized, scheduled, doc, sent, emitted)
    }

    /** A fresh client: every flag down, both versions 0, empty documents and no
        pending edits; a missing room name becomes the empty string. */
    constructor (socket: Socket, room: Option<string>)
      ensures !syncing && !initialized && !scheduled
      ensures doc == M.VersionedDoc(0, 0, EmptyDoc, EmptyDoc, [])
      ensures this.socketId == socket.id
      ensures this.room == if room.Some? then room.value else ""
      ensures sent == [] && emitted == []
    {
      socketId := socket.id;
      this.room := if room.Some? then room.value else "";
      syncing, initialized, scheduled := false, false, false;
      doc := M.VersionedDoc(0, 0, EmptyDoc, EmptyDoc, []);
      sent, emitted := [], [];
    }

    method Initialize()
      modifies this
      ensures State() == M.InitializeStep(old(State()))
    {
      syncing := true;
      sent := sent + [M.Join(room)];
    }

    method OnConnected(initialVersion: Doc)
      modifies this
      ensures State() == M.ConnectedStep(old(State()), initialVersion)
    {
      syncing := false;
      initialized := true;
      doc := doc.(shadow := initialVersion, localCopy := initialVersion, serverVersion := 0);
      emitted := emitted + [M.Connected];
    }

    method OnRemoteUpdate(fromId: string)
      modifies this
      ensures State() == M.RemoteUpdateStep(old(State()), fromId)
    {
      if socketId != fromId {
        Schedule();
      }
    }

    method Schedule()
      modifies this
      ensures State() == M.ScheduleStep(old(State()))
    {
      if scheduled {
        return;
      }
      scheduled := true;
      var _ := SyncWithServer();
    }

    /** `createDiffMessage(diff, baseVersion)`. */
    function CreateDiffMessage(diff: Delta, baseVersion: nat): Edit
      reads this
    {
      Edit(doc.serverVersion, baseVersion, diff)
    }

    /** `createEditMessage(baseVersion)`. */
    function CreateEditMessage(baseVersion: nat): EditMessage
      reads this
    {
      EditMessage(room, doc.edits, baseVersion, doc.serverVersion)
    }

    method SyncWithServer() returns (started: bool)
      modifies this
      ensures (State(), started) == M.SyncStep(old(State()))
    {
      if syncing || !initialized {
        return false;
      }
      if scheduled {
        scheduled := false;
      }
      syncing := true;
      var diff := Diff(doc.shadow, doc.localCopy);
      var basedOnLocalVersion := doc.localVersion;
      if !IsEmpty(diff) {
        doc := doc.(edits := doc.edits + [CreateDiffMessage(diff, basedOnLocalVersion)]);
        doc := doc.(localVersion := doc.localVersion + 1);
      }
      var editMessage := CreateEditMessage(basedOnLocalVersion);
      doc := doc.(shadow := Patch(doc.shadow, diff));
      sent := sent + [M.Sync(editMessage)];
      started := true;
    }

    method ApplyServerEdits(reply: Option<Reply>)
      modifies this
      ensures State() == M.ApplyServerEditsStep(old(State()), reply)
    {
      if reply.Some? && reply.value.localVersion == doc.localVersion {
        doc := doc.(edits := []);
        var edits := reply.value.edits;
        ghost var start := doc;
        var i := 0;
        while i < |edits|
          invariant 0 <= i <= |edits|
          invariant doc == M.ApplyEdits(start, edits[..i])
          invariant syncing == old(syncing) && initialized == old(initialized) && scheduled == old(scheduled)
          invariant sent == old(sent) && emitted == old(emitted)
        {
          var _ := ApplyServerEdit(edits[i]);
          assert edits[..i + 1][..i] == edits[..i];
          i := i + 1;
        }
        assert edits[..|edits|] == edits;
      } else {
        emitted := emitted + [M.Error(M.RejectedPatch)];
      }
      syncing := false;
      emitted := emitted + [M.Synced];
      if scheduled {
        var _ := SyncWithServer();
      }
    }

    method ApplyServerEdit(edit: Edit) returns (accepted: bool)
      modifies this
      ensures (doc, accepted) == M.ApplyEdit(old(doc), edit)
      ensures State() == old(State()).(doc := doc)
    {
      if edit.localVersion == doc.localVersion && edit.serverVersion == doc.serverVersion {
        if !IsEmpty(edit.diff) {
          doc := doc.(shadow := Patch(doc.shadow, edit.diff));
          doc := doc.(serverVersion := doc.serverVersion + 1);
          doc := doc.(localCopy := Patch(doc.localCopy, edit.diff));
        }
        return true;
      } else {
        return false;
      }
    }
  }

  /** `new Client(socket, room)`: throws when no socket is given. */
  method NewClient(socket: Option<Socket>, room: Option<string>) returns (r: Result<Client, string>)
    ensures r.Failure? <==> socket.None?
    ensures r.Success? ==> fresh(r.value)
    ensures r.Success? ==> r.value.State() == M.ClientState(
      socket.value.id, if room.Some? then room.value else "", false, false, false,
      M.VersionedDoc(0, 0, EmptyDoc, EmptyDoc, []), [], [])
  {
    if socket.None? {
      return Failure("No socket specified");
    }
    var c := new Client(socket.value, room);
    return Success(c);
  }
}
