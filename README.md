# Differential synchronisation (diffsync) in Dafny

This project models the core of diffsync. diffsync keeps a JSON document shared between browser clients and a Node server by Neil Fraser's differential synchronisation. Each side keeps a *shadow* of what it believes the other side has. A sync cycle sends the diff from the shadow to the live copy with version numbers. The receiver applies only edits whose versions match its shadow, then answers with its own diff.

The model has three parts, and each has the form of its source file.

- **Client** (`src/client.js`). `ClientModel` holds the client's state as a value. It has one transition function per method: `initialize`, `_onConnected`, `onRemoteUpdate`, `schedule`, `syncWithServer`, `applyServerEdits` and `applyServerEdit`. Lemmas cover the versioned document and the three flags (`syncing`, `initialized`, `scheduled`). These flags allow one cycle in flight and one deferred re-run. `ClientEngine.Client` is a class whose fields are those of the JavaScript object. Each method is proved to carry out the transition of the same name. `createDiffMessage` and `createEditMessage` are helper functions of the class; `SyncStep`'s contract states the edit and the message they build.
- **Server** (`src/server.js`). `ServerModel` models the following as values:
  - the room cache `data[room] = {registeredSockets, clientVersions, serverCopy}`;
  - the per-connection `{backup, shadow, edits}`;
  - the flag maps `requests`, `saveRequests` and `saveQueue`.

  The adapter callbacks not yet answered are explicit state:
  - `pendingLoads` holds the continuation handed to `getData`;
  - `storesInFlight` counts stores not yet acknowledged.

  They are resumed by the later transitions `CompleteLoad` and `CompleteStore`. Adapter calls and transport emits are appended to the logs `adapterCalls` and `sent`. Two invariants hold across every operation:
  - `LoadsCoalesced`: at most one load per room, exactly while `requests[room]` is set;
  - `SavesCoalesced`: at most one store per room in flight, only while `saveRequests[room]` is set.

  `ServerEngine.Server` is the class carrying out these transitions in place. Its edit loop is a `while` loop proved against `ApplyAllIncoming`.
- **Storage** (`src/adapter.js`). `MemoryAdapter.InMemoryDataAdapter` holds the `cache` map. `getData` creates an empty document on a miss; `storeData` overwrites. `ServerEngine.DeliverLoad` connects it to the server's outstanding load.

jsondiffpatch is a foreign library and is not modelled as such. `DiffEngine` stands in for it with a concrete diff over a small JSON type: whole-value replacement, and field-wise changes between two objects. The three properties the protocol relies on are proved about it rather than assumed:
- `Patch(a, Diff(a, b)) == b`;
- the diff is empty exactly when `a == b`;
- an empty delta patches nothing.

`Convergence` joins the two halves for one connection. After a client cycle, the server half-cycle, the reply and its application, both shadows, the client's local copy and the server copy are one document, and the version pairs agree.

The model follows the code, including two behaviours that are evidently not intended. When a second caller asks for a room while its load is still outstanding, `getData` sets the flag again and drops that caller's callback. Every `getData` caller waiting on a load should instead be answered with the loaded record. `ServerModel.GetDataWhileLoadingDropsCaller` states the code's behaviour. `ServerModel.SecondJoinDuringLoadIsLost` shows its consequence: of two racing joins only the first is registered and answered. On the client, a `schedule()` made while the join of `initialize()` is outstanding sets `scheduled`, and `_onConnected` (src/client.js:75-93) never clears it or runs the deferred cycle. After that, `schedule()` and every remote update return at once (src/client.js:112). `ClientModel.ScheduleDuringJoinStalls` states this.

## Model

| member | source | states |
|---|---|---|
| DiffEngine.FieldsDiff | src/server.js:210 | the field-wise diff of two objects lists exactly the fields whose values differ, each with the value in the target |
| DiffEngine.PatchFields | src/server.js:151 | patching an object's fields sets or removes exactly the listed fields and keeps all others |
| DiffEngine.PatchDiff | src/client.js:137-150 | patching a document with the diff from it to another yields the other |
| DiffEngine.DiffIsEmptyIff | src/client.js:141 | the diff of two documents is empty if and only if they are equal |
| DiffEngine.PatchEmpty | src/server.js:146-157 | an empty delta leaves any document unchanged |
| ClientModel.InitializeStep | src/client.js:64-68 | `initialize` takes the sync lock and sends the join for the client's room, and changes nothing else |
| ClientModel.ConnectedStep | src/client.js:75-93 | `_onConnected(d)` releases the lock, sets initialized, makes shadow and local copy `d` and the server version 0, keeps local version and edits, emits connected |
| ClientModel.SyncStep | src/client.js:129-157 | a cycle starts iff not syncing and initialized; otherwise nothing changes; when it starts, scheduled is cleared, syncing set, the shadow becomes the local copy, the local version grows by one exactly when they differed and the edit is appended, and the message carries the old local version and the server version |
| ClientModel.ScheduleStep | src/client.js:110-117 | `schedule` changes nothing when already scheduled, and otherwise sets the flag and attempts one sync |
| ClientModel.RemoteUpdateStep | src/client.js:99-104 | a remote update schedules a sync iff it came from another socket, and otherwise changes nothing |
| ClientModel.ApplyEdit | src/client.js:247-269 | an edit is accepted iff both versions match; accepted and non-empty, it patches shadow and local copy and bumps the server version; otherwise the document is unchanged |
| ClientModel.Released | src/client.js:219-235 | a reply whose local version matches clears the edits and applies its edits in order; any other reply emits `REJECTED_PATCH` and leaves the document; the lock is released and synced emitted |
| ClientModel.ApplyServerEditsStep | src/client.js:219-240 | after the release a new cycle starts exactly when one was scheduled (and the client is initialized), and it is then a full sync from the released state |
| ClientModel.ApplyEditsMonotone | src/client.js:224 | applying a batch keeps the local version and the pending edits and never decreases the server version |
| ClientModel.ApplyEditsKeepAgreement | src/client.js:249-262 | a client whose shadow equals its local copy keeps them equal through any batch of server edits |
| ClientModel.EmptyEditsChangeNothing | src/client.js:252-262 | a batch of edits with empty diffs changes nothing |
| ClientModel.StaleEditsChangeNothing | src/client.js:249-268 | a batch none of whose edits carries the current versions changes nothing |
| ClientModel.ScheduleWhileSyncing | src/client.js:110-117 | while a cycle is in flight, any number of schedule calls only set the deferred flag |
| ClientModel.ReplyRunsOneDeferredCycle | src/client.js:236-239 | the reply ending that cycle sends exactly one more message and clears the deferred flag |
| ClientModel.ScheduleDuringJoinStalls | src/client.js:64-117 | a schedule during the initial join leaves, after `_onConnected`, the deferred flag set with no cycle in flight, so that `schedule()` and remote updates change nothing and only a direct sync starts a cycle |
| ClientModel.SyncIsSingleFlight | src/client.js:130-134 | a cycle cannot start while another is in flight |
| ClientEngine.Client.constructor | src/client.js:11-27 | a fresh client has every flag down, both versions 0, empty documents and edits, and room `''` when none is given |
| ClientEngine.NewClient | src/client.js:11-13 | construction fails exactly when no socket is given, and otherwise yields the fresh state |
| ClientEngine.Client.Initialize | src/client.js:64-68 | the object performs `InitializeStep` |
| ClientEngine.Client.OnConnected | src/client.js:75-93 | the object performs `ConnectedStep` |
| ClientEngine.Client.OnRemoteUpdate | src/client.js:99-104 | the object performs `RemoteUpdateStep` |
| ClientEngine.Client.Schedule | src/client.js:110-117 | the object performs `ScheduleStep` |
| ClientEngine.Client.SyncWithServer | src/client.js:129-157 | the object and the returned flag are those of `SyncStep` |
| ClientEngine.Client.ApplyServerEdits | src/client.js:219-240 | the object, looping over the reply's edits, performs `ApplyServerEditsStep` |
| ClientEngine.Client.ApplyServerEdit | src/client.js:247-269 | the document and the returned flag are those of `ApplyEdit`, and nothing else changes |
| ServerModel.NewConnection | src/server.js:58-69 | a joined connection starts with shadow and backup equal to the server copy, all versions 0 and no edits |
| ServerModel.ApplyIncoming | src/server.js:136-163 | an edit is accepted iff both versions match the shadow; then the backup takes the pre-patch shadow, shadow and server copy are patched, and the local version grows iff the diff is non-empty; a rejected edit changes nothing |
| ServerModel.Acknowledge | src/server.js:131-133 | the outbound edits are cleared iff the message's server version equals the shadow's |
| ServerModel.SendServerChanges | src/server.js:208-233 | afterwards the shadow equals the server copy; if they differed the edit based on the old server version is appended and the server version grows by one, otherwise versions and edits are unchanged; the reply always carries the local version, the base version and the edits |
| ServerModel.GetData | src/server.js:81-109 | keeps both invariants; on a cached room, load flags and pending loads are untouched and the adapter only sees stores |
| ServerModel.AddConnection | src/server.js:51-73 | the join callback changes only the room cache and the sent log |
| ServerModel.AbsorbEdits | src/server.js:130-164 | acknowledging and applying the message changes only the room's record: the sender's connection state and the server copy become those of `AcceptEditMessage`; both invariants hold |
| ServerModel.Broadcast | src/server.js:170-172 | the `remoteUpdateIncoming` notice names the room and the sender and changes nothing else |
| ServerModel.ReplyTo | src/server.js:208-233 | `sendServerChanges` on the cache stores the connection state `SendServerChanges` computes, sends its reply to the connection, and changes nothing else |
| ServerModel.HalfCycle | src/server.js:120-175 | keeps both invariants and the load state; the adapter only sees stores |
| ServerModel.SaveSnapshot | src/server.js:178-206 | keeps both invariants, the cache and the sent log |
| ServerModel.WriteSnapshot | src/server.js:194-197 | the save callback stores the current server copy once and marks one store in flight, changing nothing else |
| ServerModel.LoadInstalled | src/server.js:96-102 | the adapter's answer caches `{[], {}, loaded}`, clears the load flag and releases the held continuation, changing nothing else, and the continuation may then run |
| ServerModel.CompleteLoad | src/server.js:95-104 | completing a load keeps both invariants |
| ServerModel.StoreAcknowledged | src/server.js:180-185 | an acknowledgement leaves no store in flight and clears the save and queue flags, keeping the cache, the logs and the load state |
| ServerModel.CompleteStore | src/server.js:180-188 | acknowledging a store keeps both invariants |
| ServerModel.JoinConnection | src/server.js:50-74 | `joinConnection` keeps both invariants |
| ServerModel.ReceiveEdit | src/server.js:117-176 | `receiveEdit` keeps both invariants |
| ServerModel.StaleEditsIgnored | src/server.js:136-163 | edits none of which carries the shadow's versions leave connection state and server copy unchanged |
| ServerModel.ShadowFollowsServerCopy | src/server.js:142-151 | a shadow equal to the server copy stays equal to it through any batch |
| ServerModel.IncomingMonotone | src/server.js:136-164 | the edit loop keeps the shadow's server version, the outbound edits and the backup version, and never decreases the local version |
| ServerModel.GetDataLoadsOnce | src/server.js:88-104 | an uncached room with no load outstanding gets exactly one adapter load, the flag set and the continuation held, and nothing else changes |
| ServerModel.GetDataWhileLoadingDropsCaller | src/server.js:105-107 | while a load is outstanding a further `getData` changes nothing: no adapter call, and its callback is neither run nor kept |
| ServerModel.CompleteLoadInstallsRecord | src/server.js:95-104 | a completed load caches `{[], {}, loaded}`, clears the flag and runs the held callback: a join registers its connection, an edit message is refused |
| ServerModel.SecondJoinDuringLoadIsLost | src/server.js:93-107 | of two joins racing on an uncached room, one load is made and only the first connection is registered and answered |
| ServerModel.JoinRegistersConnection | src/server.js:50-73 | joining a cached room adds the fresh connection state, leaves all other connections and rooms alone, and sends the server copy |
| ServerModel.ReceiveFromUnknownConnection | src/server.js:122-128 | an edit message from an unknown connection only emits the re-connect error: no save, broadcast or reply |
| ServerModel.ReceiveRunsHalfCycle | src/server.js:117-120 | on a cached room `receiveEdit` runs the half-cycle at once |
| ServerModel.HalfCycleKnown | src/server.js:130-174 | for a known connection the room's connection state becomes the acknowledged, patched state as left by `sendServerChanges`, the server copy the patched copy, the room set is unchanged, and the sent log gains the broadcast iff the batch is non-empty, then the reply |
| ServerModel.HalfCycleKeepsOthers | src/server.js:120-175 | the half-cycle keeps the room's connection set and registered sockets, every other connection's state and every other room |
| ServerModel.HalfCycleDecomposes | src/server.js:166-174 | for a known connection the half-cycle is absorbing the edits, saving, broadcasting a non-empty batch and replying, in that order, and the middle two leave the cache alone |
| ServerModel.HalfCycleSaves | src/server.js:166-167 | the half-cycle always triggers a save of the new server copy: a store at once when none is in flight, otherwise a queued trailing save |
| ServerModel.SaveSnapshotCached | src/server.js:178-206 | on a cached room a save with none in flight stores the server copy once, and otherwise only sets the queue flag |
| ServerModel.SaveTimes | src/server.js:178-206 | any number of saves in a row keeps both invariants |
| ServerModel.SaveTimesShift | src/server.js:178-206 | `n + 1` saves are one save followed by `n` |
| ServerModel.SavesWhileBusyOnlyQueue | src/server.js:202-205 | while a save is in flight, any number of further saves only set the queue flag |
| ServerModel.CompleteStoreResavesOnce | src/server.js:180-188 | a store's acknowledgement clears the save flag and re-saves exactly once iff a save was queued |
| ServerModel.BurstMakesOneStore | src/server.js:178-206 | any burst of saves on an idle cached room makes exactly one store call, of the current server copy, with one store in flight; from the second save on a trailing save is queued |
| ServerModel.BurstWritesTwice | src/server.js:178-206 | against a slow store a burst of two or more saves makes exactly two store calls in all: the trailing one on the first acknowledgement, none on the second |
| ServerEngine.Server.constructor | src/server.js:16-19 | a fresh server has every map empty and nothing outstanding |
| ServerEngine.NewServer | src/server.js:10-11 | construction fails exactly when the adapter or the transport is missing |
| ServerEngine.Server.JoinConnection | src/server.js:50-74 | the object performs `ServerModel.JoinConnection` |
| ServerEngine.Server.ReceiveEdit | src/server.js:117-176 | the object performs `ServerModel.ReceiveEdit` |
| ServerEngine.Server.GetData | src/server.js:81-109 | the object performs `ServerModel.GetData` |
| ServerEngine.Server.Resume | src/server.js:86-87 | the object runs the continuation as `ServerModel.Resume` |
| ServerEngine.Server.AddConnection | src/server.js:51-73 | the object performs `ServerModel.AddConnection` |
| ServerEngine.Server.HalfCycle | src/server.js:120-175 | the object performs `ServerModel.HalfCycle` |
| ServerEngine.Server.ApplyEdits | src/server.js:136-164 | the edit loop yields exactly `ApplyAllIncoming` of the connection state, the server copy and the edits |
| ServerEngine.Server.SendServerChanges | src/server.js:208-233 | the object performs `ServerModel.ReplyTo` |
| ServerEngine.Server.SaveSnapshot | src/server.js:178-206 | the object performs `ServerModel.SaveSnapshot` |
| ServerEngine.Server.WriteSnapshot | src/server.js:194-197 | the object performs `ServerModel.WriteSnapshot` |
| ServerEngine.Server.CompleteLoad | src/server.js:95-104 | the object performs `ServerModel.CompleteLoad` |
| ServerEngine.Server.CompleteStore | src/server.js:180-188 | the object performs `ServerModel.CompleteStore` |
| ServerEngine.DeliverLoad | src/adapter.js:16-22 | the adapter's answer to an outstanding load is what `getData` yields from its cache, and the server completes the load with it |
| MemoryAdapter.Lookup | src/adapter.js:16-22 | a load yields the stored entry when present and truthy, and an empty document otherwise; never a falsy value |
| MemoryAdapter.StoreThenLoad | src/adapter.js:17-28 | after a store a load returns the stored document, unless it is falsy |
| MemoryAdapter.StoreKeepsOthers | src/adapter.js:27-28 | storing under one id leaves what every other id loads unchanged |
| MemoryAdapter.InMemoryDataAdapter.constructor | src/adapter.js:6-9 | the cache starts as the given map, or empty |
| MemoryAdapter.InMemoryDataAdapter.GetData | src/adapter.js:16-22 | returns `Lookup` of the old cache and writes that value back at the id only, so a present truthy entry leaves the cache as it was |
| MemoryAdapter.InMemoryDataAdapter.StoreData | src/adapter.js:27-30 | sets the id's entry and no other; the callback is acknowledged iff one is given |
| Convergence.ServerAcceptsCycle | src/server.js:130-164 | a server shadow in step with the client accepts the client's cycle: the shadow becomes the client's local copy with the local version advanced iff it changed, no edits remain, and the server copy gets the same change |
| Convergence.ClientAppliesReply | src/client.js:219-269 | a client whose shadow equals its local copy and the server's shadow applies the server's reply to both, ends with the server copy and the server's versions, and stops syncing with no rejection |
| Convergence.RoundTripConverges | src/server.js:117-233 | one client cycle, server half-cycle and applied reply leave both shadows, the local copy and the server copy equal with matching versions; the server copy is the old one patched with the client's change |
| Convergence.QuietRoundTripAdoptsLocalCopy | src/client.js:129-157 | with no concurrent server change the shared document becomes the client's local copy |

## Left out

- jsondiffpatch: the real diff (array moves, text diffs, `objectHash`, `diffOptions`) is a foreign library. `DiffEngine` keeps only the properties the protocol uses. Its object diff is top-level and field-wise. Arrays and nested objects are replaced whole.
- Numbers are integers. Floating point, `NaN` and `-0` are not modelled: a falsy number is `0`.
- Deep copies (`utils.deepCopy`) are the identity because Dafny values do not share. The model cannot show the source's aliasing. In the source, a loaded `serverCopy` is the adapter's own cache object, and replies share the connection's `edits` array.
- Transport and sockets: `socket.emit`/`on`, `connection.join`, `transport.to(room).emit` and `trackConnection` (src/server.js:39-42) are I/O. They appear as entries of the `sent` logs. The `_onConnected` subscription to remote updates (src/client.js:89) is not modelled.
- EventEmitter: inheritance and method binding are library plumbing. The `connected`, `synced` and `error` emissions are the `emitted` log.
- ClientModel.Released: assumes an `'error'` listener is attached, as the client's users do. Without one, Node's EventEmitter throws at the `REJECTED_PATCH` emission (src/client.js:227), so lines 231-239 never run. The lock stays taken, `synced` is not emitted, no deferred cycle starts, and the client never syncs again. The model does not capture this throwing path.
- ClientModel.RemoteUpdateStep: the socket id is fixed when the client is built. The source reads `this.socket.id` on every call (src/client.js:101), and socket.io assigns a new id on reconnect. Reconnection is not modelled.
- DiffEngine.Patch: the source ignores the return value of `jsondiffpatch.patch` (src/client.js:176, src/server.js:146, 151 and 224), so a delta that replaces the whole root would be lost there. The model's `Patch(d, Replace(v))` is `v`. Documents that the application edits in place only ever produce field-wise deltas at the root, so this case does not arise through them.
- Client `getData` (src/client.js:57-59) is a field accessor. `sync` (src/client.js:122-124) is an alias of `schedule`. `createDiff` and `applyPatchTo` are `Diff` and `Patch`.
- `console.log` of rejected patches (src/server.js:161-162).
- Server `getData`'s `err` argument and `receiveEdit`'s `err ||` test: the model's callback never receives an error, so only the missing-connection branch is modelled. The same holds for `saveSnapshot`'s `!err && data` test; its `else` branch cannot occur.
- Real asynchrony: adapter callbacks are explicit later transitions (`CompleteLoad`, `CompleteStore`). The in-memory adapter's synchronous callbacks are return values.
- Stores carry no per-store identity: `CompleteStore` acknowledges the room's one store in flight. `DeliverLoad` connects the adapter to loads only.
- index.js, utils.js and the TypeScript declarations only re-export, wrap or declare.
