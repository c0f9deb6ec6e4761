/**
 * One full synchronisation cycle between a client and the server's state for its
 * connection, with no other edits interleaved: the client's half-cycle, the server's
 * acceptance of the edit message, the server's reply, and the client applying it.
 */
module Convergence {
  import opened Wrappers
  import opened DiffEngine
  import opened Messages
  import C = ClientModel
  import S = ServerModel

  /** The server's shadow of a connection agrees with the client's shadow and versions,
      and neither side has unacknowledged edits. */
  predicate InStep(s: C.ClientState, c: S.ConnectionState)
  {
    && c.shadow == S.Shadow(s.doc.shadow, s.doc.localVersion, s.doc.serverVersion)
    && s.doc.edits == []
  }

  /** The edits a client cycle sends when its shadow is `shadow` and its local copy
      `local`, from an empty queue. */
  function CycleEdits(shadow: Doc, local: Doc, localVersion: nat, serverVersion: nat): seq<Edit>
  {
    if shadow == local then [] else [Edit(serverVersion, localVersion, Diff(shadow, local))]
  }

  /** The server side of the cycle: a shadow in step with the client accepts the
      client's edits, ends up equal to the client's local copy, and patches the same
      change into the server copy. */
  lemma ServerAcceptsCycle(c: S.ConnectionState, serverCopy: Doc, shadow: Doc, local: Doc,
                           localVersion: nat, serverVersion: nat, room: string)
    requires c.shadow == S.Shadow(shadow, localVersion, serverVersion)
    ensures var message := EditMessage(room, CycleEdits(shadow, local, localVersion, serverVersion), localVersion, serverVersion);
      var accepted := S.AcceptEditMessage(c, serverCopy, message);
      && accepted.0.shadow == S.Shadow(local, localVersion + (if shadow == local then 0 else 1), serverVersion)
      && accepted.0.edits == []
      && accepted.1 == if shadow == local then serverCopy else Patch(serverCopy, Diff(shadow, local))
  {
    var message := EditMessage(room, CycleEdits(shadow, local, localVersion, serverVersion), localVersion, serverVersion);
    var c0 := S.Acknowledge(c, message);
    if shadow != local {
      var e := Edit(serverVersion, localVersion, Diff(shadow, local));
      assert message.edits[..0] == [];
      PatchDiff(shadow, local);
      DiffIsEmptyIff(shadow, local);
      assert S.ApplyAllIncoming(c0, serverCopy, message.edits) == S.ApplyIncoming(c0, serverCopy, e);
    }
  }

  /** The client side of the reply: a client whose shadow and local copy agree with the
      server's shadow applies the server's diff to both and stops syncing. */
  lemma ClientAppliesReply(t: C.ClientState, c: S.ConnectionState, serverCopy: Doc)
    requires t.syncing && !t.scheduled && t.doc.shadow == t.doc.localCopy
    requires c.shadow == S.Shadow(t.doc.shadow, t.doc.localVersion, t.doc.serverVersion) && c.edits == []
    ensures var answer := S.SendServerChanges(serverCopy, c);
      var u := C.ApplyServerEditsStep(t, Some(answer.1));
      && u.doc.shadow == u.doc.localCopy == serverCopy == answer.0.shadow.doc
      && u.doc.localVersion == answer.0.shadow.localVersion
      && u.doc.serverVersion == answer.0.shadow.serverVersion
      && !u.syncing && u.doc.edits == [] && u.emitted == t.emitted + [C.Synced]
  {
    var answer := S.SendServerChanges(serverCopy, c);
    var reply := answer.1;
    var start := t.doc.(edits := []);
    assert reply.localVersion == t.doc.localVersion;
    if t.doc.shadow != serverCopy {
      var e := Edit(t.doc.serverVersion, t.doc.localVersion, Diff(t.doc.shadow, serverCopy));
      assert reply.edits == [e] && reply.edits[..0] == [];
      PatchDiff(t.doc.shadow, serverCopy);
      DiffIsEmptyIff(t.doc.shadow, serverCopy);
      assert C.ApplyEdits(start, reply.edits) == C.ApplyEdit(start, e).0;
    }
  }

  /** After one round trip both shadows, the client's local copy and the server copy are
      the same document and the version pairs match; the server copy is the old one
      patched with the client's change, and nothing is rejected. */
  lemma RoundTripConverges(s: C.ClientState, c: S.ConnectionState, serverCopy: Doc)
    requires s.initialized && !s.syncing && !s.scheduled && InStep(s, c)
    ensures var t := C.SyncStep(s).0;
      var message := t.sent[|t.sent| - 1].message;
      var accepted := S.AcceptEditMessage(c, serverCopy, message);
      var answer := S.SendServerChanges(accepted.1, accepted.0);
      var u := C.ApplyServerEditsStep(t, Some(answer.1));
      && u.doc.shadow == u.doc.localCopy == accepted.1 == answer.0.shadow.doc
      && u.doc.localVersion == answer.0.shadow.localVersion
      && u.doc.serverVersion == answer.0.shadow.serverVersion
      && accepted.1 == (if s.doc.shadow == s.doc.localCopy then serverCopy
                        else Patch(serverCopy, Diff(s.doc.shadow, s.doc.localCopy)))
      && !u.syncing && u.doc.edits == [] && u.emitted == s.emitted + [C.Synced]
  {
    var t := C.SyncStep(s).0;
    var d := s.doc;
    assert t.doc.edits == CycleEdits(d.shadow, d.localCopy, d.localVersion, d.serverVersion);
    var message := t.sent[|t.sent| - 1].message;
    assert message == EditMessage(s.room, t.doc.edits, d.localVersion, d.serverVersion);
    ServerAcceptsCycle(c, serverCopy, d.shadow, d.localCopy, d.localVersion, d.serverVersion, s.room);
    var accepted := S.AcceptEditMessage(c, serverCopy, message);
    ClientAppliesReply(t, accepted.0, accepted.1);
  }

  /** With no concurrent change on the server, the round trip makes the client's local
      copy the shared document. */
  lemma QuietRoundTripAdoptsLocalCopy(s: C.ClientState, c: S.ConnectionState)
    requires s.initialized && !s.syncing && !s.scheduled && InStep(s, c)
    ensures var t := C.SyncStep(s).0;
      var message := t.sent[|t.sent| - 1].message;
      S.AcceptEditMessage(c, s.doc.shadow, message).1 == s.doc.localCopy
  {
    RoundTripConverges(s, c, s.doc.shadow);
    PatchDiff(s.doc.shadow, s.doc.localCopy);
  }
}
