/**
 * The client role of differential synchronisation, as values: the versioned document,
 * the three flags that keep at most one sync cycle in flight, and one transition
 * function per operation of the client. The class in ClientEngine is proved to
 * perform exactly these transitions.
 */
module ClientModel {
  import opened Wrappers
  import opened DiffEngine
  import opened Messages

  /** The client's `doc` object. */
  datatype VersionedDoc = VersionedDoc(
    localVersion: nat,
    serverVersion: nat,
    shadow: Doc,
    localCopy: Doc,
    edits: seq<Edit>)

  /** Events the client emits to the application. */
  datatype Event = Connected | Synced | Error(reason: string)

  /** Messages the client emits on its socket. */
  datatype Outbound = Join(room: string) | Sync(message: EditMessage)

  /** The whole observable state of a client. */
  datatype ClientState = ClientState(
    socketId: string,
    room: string,
    syncing: bool,
    initialized: bool,
    scheduled: bool,
    doc: VersionedDoc,
    sent: seq<Outbound>,
    emitted: seq<Event>)

  const RejectedPatch := "REJECTED_PATCH"

  /** `initialize()`: take the sync lock and ask to join the room. */
  function InitializeStep(s: ClientState): (r: ClientState)
    ensures r.syncing && r.sent == s.sent + [Join(s.room)]
    ensures r == s.(syncing := true, sent := r.sent)
  {
    s.(syncing := true, sent := s.sent + [Join(s.room)])
  }

  /** `_onConnected(initialVersion)`. */
  function ConnectedStep(s: ClientState, initialVersion: Doc): (r: ClientState)
    ensures !r.syncing && r.initialized && r.scheduled == s.scheduled
    ensures r.doc.shadow == r.doc.localCopy == initialVersion && r.doc.serverVersion == 0
    ensures r.doc.localVersion == s.doc.localVersion && r.doc.edits == s.doc.edits
    ensures r.sent == s.sent && r.emitted == s.emitted + [Connected]
  {
    s.(syncing := false, initialized := true,
       doc := s.doc.(shadow := initialVersion, localCopy := initialVersion, serverVersion := 0),
       emitted := s.emitted + [Connected])
  }

  /** `syncWithServer()`: the client half of a cycle. The boolean says whether a cycle
      was started. */
  function SyncStep(s: ClientState): (r: (ClientState, bool))
    ensures r.1 <==> !s.syncing && s.initialized
    ensures !r.1 ==> r.0 == s
    ensures r.1 ==> SyncedFrom(s, r.0)
  {
    if s.syncing || !s.initialized then (s, false)
    else
      var diff := Diff(s.doc.shadow, s.doc.localCopy);
      var base := s.doc.localVersion;
      var d1 := if !IsEmpty(diff)
                then s.doc.(edits := s.doc.edits + [Edit(s.doc.serverVersion, base, diff)],
                            localVersion := base + 1)
                else s.doc;
      var message := EditMessage(s.room, d1.edits, base, d1.serverVersion);
      var d2 := d1.(shadow := Patch(d1.shadow, diff));
      PatchDiff(s.doc.shadow, s.doc.localCopy);
      DiffIsEmptyIff(s.doc.shadow, s.doc.localCopy);
      (s.(scheduled := false, syncing := true, doc := d2, sent := s.sent + [Sync(message)]), true)
  }

  /** What a started sync cycle does, stated by its meaning: the shadow catches up with
      the local copy, the local version moves by one exactly when they differed, and
      the message carries the pre-increment local version. */
  ghost predicate SyncedFrom(s: ClientState, t: ClientState)
  {
    && t.syncing && !t.scheduled && t.initialized
    && t.socketId == s.socketId && t.room == s.room && t.emitted == s.emitted
    && t.doc.shadow == s.doc.localCopy && t.doc.localCopy == s.doc.localCopy
    && t.doc.serverVersion == s.doc.serverVersion
    && (s.doc.shadow == s.doc.localCopy ==>
          t.doc.localVersion == s.doc.localVersion && t.doc.edits == s.doc.edits)
    && (s.doc.shadow != s.doc.localCopy ==>
          t.doc.localVersion == s.doc.localVersion + 1 &&
          t.doc.edits == s.doc.edits + [Edit(s.doc.serverVersion, s.doc.localVersion, Diff(s.doc.shadow, s.doc.localCopy))])
    && t.sent == s.sent + [Sync(EditMessage(s.room, t.doc.edits, s.doc.localVersion, s.doc.serverVersion))]
  }

  /** `schedule()`: idempotent request for a cycle. */
  function ScheduleStep(s: ClientState): (r: ClientState)
    ensures s.scheduled ==> r == s
    ensures !s.scheduled ==> r == SyncStep(s.(scheduled := true)).0
  {
    if s.scheduled then s else SyncStep(s.(scheduled := true)).0
  }

  /** `onRemoteUpdate(fromId)`: resync unless the update came from this client. */
  function RemoteUpdateStep(s: ClientState, fromId: string): (r: ClientState)
    ensures fromId == s.socketId ==> r == s
    ensures fromId != s.socketId ==> r == ScheduleStep(s)
  {
    if s.socketId != fromId then ScheduleStep(s) else s
  }

  /** The version test of `applyServerEdit`. */
  predicate AcceptsEdit(d: VersionedDoc, e: Edit)
  {
    e.localVersion == d.localVersion && e.serverVersion == d.serverVersion
  }

  /** `applyServerEdit(edit)` on the document; the boolean is its return value. */
  function ApplyEdit(d: VersionedDoc, e: Edit): (r: (VersionedDoc, bool))
    ensures r.1 <==> AcceptsEdit(d, e)
    ensures r.0.localVersion == d.localVersion && r.0.edits == d.edits
    ensures r.1 && !IsEmpty(e.diff) ==>
      r.0.serverVersion == d.serverVersion + 1 &&
      r.0.shadow == Patch(d.shadow, e.diff) && r.0.localCopy == Patch(d.localCopy, e.diff)
    ensures !r.1 || IsEmpty(e.diff) ==> r.0 == d
  {
    if AcceptsEdit(d, e) then
      if !IsEmpty(e.diff)
      then (d.(shadow := Patch(d.shadow, e.diff), serverVersion := d.serverVersion + 1,
               localCopy := Patch(d.localCopy, e.diff)), true)
      else (d, true)
    else (d, false)
  }

  /** The `forEach(applyServerEdit)` loop: the edits applied in array order. */
  function ApplyEdits(d: VersionedDoc, es: seq<Edit>): VersionedDoc
    decreases |es|
  {
    if es == [] then d else ApplyEdit(ApplyEdits(d, es[..|es| - 1]), es[|es| - 1]).0
  }

  /** Whether a reply is accepted by `applyServerEdits`. */
  predicate AcceptsReply(s: ClientState, reply: Option<Reply>)
  {
    reply.Some? && reply.value.localVersion == s.doc.localVersion
  }

  /** The first part of `applyServerEdits(reply)`: apply the reply, or report a
      rejected patch and leave the document alone; then release the sync lock. */
  function Released(s: ClientState, reply: Option<Reply>): (r: ClientState)
    ensures !r.syncing && r.scheduled == s.scheduled && r.initialized == s.initialized
    ensures r.socketId == s.socketId && r.room == s.room && r.sent == s.sent
    ensures r.emitted == s.emitted + (if AcceptsReply(s, reply) then [] else [Error(RejectedPatch)]) + [Synced]
    ensures AcceptsReply(s, reply) ==> r.doc == ApplyEdits(s.doc.(edits := []), reply.value.edits)
    ensures !AcceptsReply(s, reply) ==> r.doc == s.doc
  {
    var s1 := if AcceptsReply(s, reply)
              then s.(doc := ApplyEdits(s.doc.(edits := []), reply.value.edits))
              else s.(emitted := s.emitted + [Error(RejectedPatch)]);
    s1.(syncing := false, emitted := s1.emitted + [Synced])
  }

  /** `applyServerEdits(reply)`: after the release, a new cycle starts exactly when one
      was scheduled (and the client is initialized). */
  function ApplyServerEditsStep(s: ClientState, reply: Option<Reply>): (r: ClientState)
    ensures r.syncing <==> s.scheduled && s.initialized
    ensures !(s.scheduled && s.initialized) ==> r == Released(s, reply)
    ensures s.scheduled && s.initialized ==> SyncedFrom(Released(s, reply), r)
  {
    var s2 := Released(s, reply);
    if s2.scheduled then SyncStep(s2).0 else s2
  }

  // ---------------------------------------------------------------------------
  // Properties of the transitions

  /** Applying server edits never touches the local version or the pending edits and
      never decreases the server version. */
  lemma {:induction false} ApplyEditsMonotone(d: VersionedDoc, es: seq<Edit>)
    ensures ApplyEdits(d, es).localVersion == d.localVersion
    ensures ApplyEdits(d, es).edits == d.edits
    ensures ApplyEdits(d, es).serverVersion >= d.serverVersion
    decreases |es|
  {
    if es != [] {
      ApplyEditsMonotone(d, es[..|es| - 1]);
    }
  }

  /** Server edits are patched into the shadow and the local copy alike, so a client
      whose shadow agrees with its local copy still agrees after any batch. */
  lemma {:induction false} ApplyEditsKeepAgreement(d: VersionedDoc, es: seq<Edit>)
    requires d.shadow == d.localCopy
    ensures ApplyEdits(d, es).shadow == ApplyEdits(d, es).localCopy
    decreases |es|
  {
    if es != [] {
      ApplyEditsKeepAgreement(d, es[..|es| - 1]);
    }
  }

  /** A batch of edits whose diffs are all empty changes nothing: an empty diff neither
      patches the documents nor advances the server version. */
  lemma {:induction false} EmptyEditsChangeNothing(d: VersionedDoc, es: seq<Edit>)
    requires forall i | 0 <= i < |es| :: IsEmpty(es[i].diff)
    ensures ApplyEdits(d, es) == d
    decreases |es|
  {
    if es != [] {
      EmptyEditsChangeNothing(d, es[..|es| - 1]);
    }
  }

  /** A batch of edits none of which carries the client's current versions changes
      nothing. */
  lemma {:induction false} StaleEditsChangeNothing(d: VersionedDoc, es: seq<Edit>)
    requires forall i | 0 <= i < |es| :: !AcceptsEdit(d, es[i])
    ensures ApplyEdits(d, es) == d
    decreases |es|
  {
    if es != [] {
      StaleEditsChangeNothing(d, es[..|es| - 1]);
    }
  }

  /** `schedule()` called `n` times in a row. */
  function ScheduleTimes(s: ClientState, n: nat): ClientState
  {
    if n == 0 then s else ScheduleStep(ScheduleTimes(s, n - 1))
  }

  /** Single flight: while a cycle is in flight, any number of `schedule()` calls only
      set the deferred flag; no message is sent and the document is untouched. */
  lemma {:induction false} ScheduleWhileSyncing(s: ClientState, n: nat)
    requires s.syncing
    ensures ScheduleTimes(s, n) == if n == 0 then s else s.(scheduled := true)
  {
    if n > 0 {
      ScheduleWhileSyncing(s, n - 1);
    }
  }

  /** ... and the reply that ends the cycle starts exactly one deferred cycle, which
      clears the flag again. */
  lemma ReplyRunsOneDeferredCycle(s: ClientState, n: nat, reply: Option<Reply>)
    requires s.syncing && s.initialized && n > 0
    ensures var r := ApplyServerEditsStep(ScheduleTimes(s, n), reply);
      |r.sent| == |s.sent| + 1 && r.syncing && !r.scheduled
  {
    ScheduleWhileSyncing(s, n);
  }

  /** A `schedule()` that arrives while the join of `initialize()` holds the lock sets
      the deferred flag, and `_onConnected` neither clears it nor starts the deferred
      cycle. From then on `schedule()` and every remote update are no-ops; only a direct
      `syncWithServer()` starts a cycle again. */
  lemma ScheduleDuringJoinStalls(s: ClientState, initialVersion: Doc, fromId: string)
    ensures var u := ConnectedStep(ScheduleStep(InitializeStep(s)), initialVersion);
      && u.scheduled && !u.syncing && u.initialized
      && ScheduleStep(u) == u && RemoteUpdateStep(u, fromId) == u
      && SyncStep(u).1
  {
  }

  /** A cycle cannot start while another is in flight. */
  lemma SyncIsSingleFlight(s: ClientState)
    requires SyncStep(s).1
    ensures !SyncStep(SyncStep(s).0).1
  {
  }
}
