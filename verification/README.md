# Signaling room manager of proximo-video/backend, in Dafny

The backend relays WebRTC signaling between the members of small video
meetings. This project models three parts of it and proves properties of them:

- **The room manager** (`signaling/room_managers.go`). It is one loop that
  applies register, unregister, forward and admission requests to a registry
  of rooms. Each room has an optional owner, at most four active members and,
  when locked, a waiting list of joiners that the owner admits or rejects.
- **The per-connection read pump** (`signaling/read_write.go`). It turns each
  client message into at most one request to the room manager. When reading
  stops, it sends one final SELF unregister.
- **The room store** (`database/crud.go`). Each user's document carries a list
  of rooms with a lock flag. The store validates its arguments, searches,
  appends, removes by swap-with-last, and refuses a room id that is already
  taken.

How the model is organised:

- **The room manager is a pure step function.**
  - `Actor.Step` maps a registry, an event and the room-store answer to a lookup (`Rooms.Lookup`) onto a `Turn`.
  - A `Turn` is either the next registry together with the ordered effects, or `Panic`.
  - Effects are messages queued on a connection (`Send`) and closed send queues (`Close`).
- **Connections are values.** A connection is a `Conn`. Its `id` is the identity of the Go connection object, which the source compares by pointer. Two connections may carry the same user id.
- **Map order is left open.** Go visits map entries in an unspecified order. Every broadcast walks `Collections.Enumerate` of the keys, which is some order, and no property depends on which.
- **The store is a map.** It maps user ids to user documents (`Database.Store`).
- **The pump is a classifier.** `Pump.Dispatch` classifies one message, and `Pump.Run` folds it over the frames read from the socket.

A note on the source's declared types:

- **Room members.** `signaling/types.go` declares the members as a set of connections and gives `Connection` no display name. The room manager keys members by user id and reads `displayName`, and so does the model.

## Model

| member | source | states |
|---|---|---|
| Database.GetDocument | database/crud.go:13-25 | a read succeeds exactly for a stored document, returns it, and otherwise fails with the missing-document error |
| Database.GetUser | database/crud.go:39-50 | an empty user id is refused before the store is read; otherwise the user's document, or an error when it is absent |
| Database.UpdateDocument | database/crud.go:52-67 | fails exactly when the document id, the field or the collection is empty; reports success on a missing document without changing the store; otherwise, when the field is Rooms in the users collection, replaces that user's rooms, and for any other field leaves the modelled store unchanged |
| Database.UpdateUser | database/crud.go:69-75 | fails exactly on an empty id or field; on success only the named user's rooms change, and a missing user leaves the store as it was |
| Database.SaveDocument | database/crud.go:77-87 | fails exactly on an empty document id; otherwise stores the document under that id |
| Database.SaveUser | database/crud.go:89-95 | fails exactly when the id is empty or differs from the document's id; otherwise stores the user under its own id |
| Database.FirstRoomIndex | database/crud.go:132-138 | the index of the first room with the id, with no earlier match, or -1 exactly when no room has the id |
| Database.SwapRemove | database/crud.go:143-144 | the list is one shorter, every other index keeps its room, the old last room lands on the removed index, and the multiset loses exactly the removed room |
| Database.AddRoom | database/crud.go:97-117 | succeeds exactly for non-empty ids of an existing user and then appends the room to that user's list; any failure leaves the store unchanged |
| Database.DeleteRoom | database/crud.go:120-152 | succeeds exactly when the user exists and lists the room; then removes the first match by swap-with-last; any failure leaves the store unchanged |
| Database.ToggleRoomLock | database/crud.go:243-269 | succeeds exactly when the user lists the room; then flips the lock of the first match only, keeping every room id |
| Database.GetUserRoom | database/crud.go:298-318 | returns the first of the user's rooms with that id, and an error exactly when the id is empty, the user is missing or no room matches |
| Database.CheckRoom | database/crud.go:196-222 | an empty room id is an error; otherwise it finds a document exactly when some user lists the room, and the document it returns lists it |
| Database.GetRoom | database/crud.go:271-296 | succeeds exactly when some user lists the room id, and returns a room with that id from a stored document |
| Database.NewRoom | database/crud.go:224-241 | succeeds exactly for non-empty ids of an existing user and a room id nobody lists; it appends the room; a refusal leaves the store unchanged |
| StoreProofs.NewRoomKeepsIdsUnique | database/crud.go:224-241 | creating rooms through the uniqueness check keeps every room id listed at most once across all users |
| StoreProofs.AddRoomMayDuplicateIds | database/crud.go:97-117 | appending without the check can list one room id twice |
| StoreProofs.DeleteRoomKeepsIdsUnique | database/crud.go:120-152 | deleting a room keeps room ids unique across users |
| StoreProofs.DeleteRoomMovesOne | database/crud.go:140-146 | every room listed after a deletion was listed before, at a known index of the same user, and the deleting user's list is one shorter |
| StoreProofs.ToggleRoomLockKeepsIdsUnique | database/crud.go:243-269 | flipping a lock keeps room ids unique across users |
| StoreProofs.GetRoomIsTheOwnersRoom | database/crud.go:271-318 | with unique room ids, the room a joiner reads is exactly the room its owner reads |
| Actor.SendError | signaling/room_managers.go:10-22 | an ERROR is queued on the connection itself, addressed to its own user id, carrying the error |
| Actor.LookupError | signaling/room_managers.go:53-61 | the store's two sentinels become NotFound and BadMessage; every other store error is passed on unchanged |
| Actor.Readies | signaling/room_managers.go:101-118 | a READY broadcast queues no more messages than members it visits; who receives READY is stated by ActorRules.ReadiesSpec |
| Actor.Permits | signaling/room_managers.go:120-134 | one PERMIT per waiting user, each to the owner, naming that user and its display name |
| Actor.CloseAll | signaling/room_managers.go:37-42 | one close per visited connection, in order |
| Actor.ForwardTo | signaling/room_managers.go:308-317 | at most one send: to the first member whose key differs from the sender and whose user id is the destination; none exactly when no member qualifies |
| Actor.RegisterOwner | signaling/room_managers.go:51-154 | an owner claim never dereferences a missing owner and always answers the claimant first; a failed lookup leaves the registry as it was, and a claim that changes it leaves the claimant owning the room |
| Actor.RegisterJoiner | signaling/room_managers.go:155-271 | a join never dereferences a missing owner; a failed lookup leaves the registry as it was; after a successful lookup the room is registered and its owner is unchanged, none for a room created here |
| Actor.JoinLocked | signaling/room_managers.go:179-215 | joining a locked room changes neither its members nor its owner nor the set of rooms |
| Actor.JoinOpen | signaling/room_managers.go:216-269 | joining an open room can add only the joiner to the members, and leaves the waiting list, the owner and the set of rooms as they were |
| Actor.DeleteUser | signaling/room_managers.go:24-45 | deleteUser closes the connection passed in first and leaves no member under its user id |
| Actor.DeleteAll | signaling/room_managers.go:278-282 | the ALL loop adds no member, and in a room keyed by user id every member it visits is gone afterwards |
| Actor.UnregisterUser | signaling/room_managers.go:272-299 | unregister never dereferences a missing owner, ignores an unknown room, and a member's SELF closes its own queue first |
| Actor.ForwardMessage | signaling/room_managers.go:300-319 | forward never changes the registry and queues at most one message, the one received, on a member of the named room |
| Actor.Admission | signaling/room_managers.go:320-395 | admission dereferences a missing owner only for a waiting target in an ownerless room, and creates no room |
| Actor.Approve | signaling/room_managers.go:322-368 | approval dereferences a missing owner exactly when the room has space and no owner; with space the user leaves the waiting list and joins the members; without space nothing changes |
| Actor.Reject | signaling/room_managers.go:370-394 | rejection dereferences a missing owner exactly when the room has none; otherwise exactly one message goes to the rejected connection, which leaves the waiting list while the members stay |
| Actor.Step | signaling/room_managers.go:47-398 | the only turn that can dereference a missing owner is an admission for a known room that has no owner |
| ActorProofs.RegisterOwnerKeepsInv | signaling/room_managers.go:51-154 | an owner claim never dereferences a missing owner and keeps every room valid: at most four members, not empty, keyed by user id, waiting list only when locked |
| ActorProofs.TakeoverKeepsValid | signaling/room_managers.go:87-99 | adding a new owner to a valid room with space leaves the room valid |
| ActorProofs.JoinLockedKeepsInv | signaling/room_managers.go:179-215 | joining a locked room keeps every room valid |
| ActorProofs.JoinOpenKeepsInv | signaling/room_managers.go:216-269 | joining an open room keeps every room valid, the capacity guard included |
| ActorProofs.RegisterJoinerKeepsInv | signaling/room_managers.go:155-271 | a join, with the room created on first use, never dereferences a missing owner and keeps every room valid |
| ActorProofs.DeleteUserSpec | signaling/room_managers.go:24-45 | deleteUser removes the member, closes the connection passed in first, clears the owner exactly when it is that connection, and deletes the room, closing every waiting connection, exactly when no member is left |
| ActorProofs.DeleteUserShape | signaling/room_managers.go:24-45 | deleteUser closes the connection passed in first and removes its key; the owner is cleared exactly when it was that connection; a last member's removal deletes the room and closes every waiting queue, otherwise the room is kept with its waiting list |
| ActorProofs.DeleteUserLast | signaling/room_managers.go:35-44 | when the last member leaves, deleteUser deletes the room and closes the connection passed in and then every waiting connection, in map order |
| ActorProofs.RemainingMembersValid | signaling/room_managers.go:24-36 | removing one of several members leaves a valid room |
| ActorProofs.CloseAllCovers | signaling/room_managers.go:37-42 | closing a map's connections closes each of them and nothing else |
| ActorProofs.DeleteAllKeepsInv | signaling/room_managers.go:278-282 | the ALL loop keeps every room valid |
| ActorProofs.DeleteAllOnEmpty | signaling/room_managers.go:278-282 | the ALL loop over a room with no member does nothing |
| ActorProofs.DeleteAllSpec | signaling/room_managers.go:278-282 | the ALL loop over a room with members deletes the room, keeps the other rooms, and closes every member and every waiting connection |
| ActorProofs.DeleteOneOfMany | signaling/room_managers.go:24-36 | removing one of several members closes only that member, keeps the room and its waiting list, changes no other room and keeps every room valid |
| ActorProofs.DeleteAllLastMember | signaling/room_managers.go:278-282 | the ALL loop reaching the last member deletes the room and closes every connection the room holds |
| ActorProofs.LastMemberCloses | signaling/room_managers.go:24-45 | the last member's departure closes exactly the connections the room holds, one per member and waiting user |
| ActorProofs.DeleteAllNextMember | signaling/room_managers.go:278-282 | one iteration of the ALL loop followed by a loop that ends the rest of the room ends the whole room |
| ActorProofs.HeldAfterRemoval | signaling/room_managers.go:24-36 | removing one member keeps every other connection the room holds and adds none |
| ActorProofs.UnregisterKeepsInv | signaling/room_managers.go:272-299 | every unregister keeps every room valid |
| ActorProofs.ApproveKeepsInv | signaling/room_managers.go:322-368 | an approval that does not dereference a missing owner keeps every room valid, the capacity guard included |
| ActorProofs.RejectKeepsInv | signaling/room_managers.go:370-394 | a rejection that does not dereference a missing owner keeps every room valid, deleting a room it empties |
| ActorProofs.AdmissionKeepsInv | signaling/room_managers.go:320-395 | every admission that does not dereference a missing owner keeps every room valid |
| ActorProofs.StepKeepsInv | signaling/room_managers.go:47-398 | every turn that does not dereference a missing owner keeps every room valid |
| ActorProofs.RunKeepsInv | signaling/room_managers.go:47-398 | for any sequence of events, while no turn dereferences a missing owner, no room has more than four members and no room is empty |
| ActorRules.ReadiesCount | signaling/room_managers.go:101-118 | a broadcast over a repetition-free order gives each member other than the entrant exactly one READY |
| ActorRules.ReadiesSpec | signaling/room_managers.go:101-118 | every effect of a broadcast is READY from the entrant to a visited member other than the entrant, and every visited member other than the entrant gets one; the register paths compare the member's user id and the admission path the map key |
| ActorRules.ReadiesReachOthers | signaling/room_managers.go:232-250 | every admission broadcast gives READY to every other member exactly once, never to the entrant, and to no one outside the room |
| ActorRules.FailedLookupRepliesError | signaling/room_managers.go:53-61 | a failed lookup queues exactly one ERROR on the caller and leaves the registry unchanged |
| ActorRules.OwnerCreatesRoom | signaling/room_managers.go:63-84 | an owner claim on an unknown room creates it with the store's lock flag and the claimant as sole member and owner; only the claimant is told, with APPROVE |
| ActorRules.PermitsCoverWaiting | signaling/room_managers.go:120-134 | the takeover prompts ask the new owner about every waiting user exactly once |
| ActorRules.OwnerTakesOver | signaling/room_managers.go:87-135 | the claimant joins and becomes owner; the effects are APPROVE to it first, then READY to every other member once, then, on a locked room only, one PERMIT to the new owner per waiting user |
| ActorRules.OwnerAlreadyPresentRefused | signaling/room_managers.go:147-151 | a claimant that is already a member gets ERROR and then its queue is closed; the registry is unchanged |
| ActorRules.JoinLockedWaits | signaling/room_managers.go:179-210 | a new joiner of a locked room goes on the waiting list only; the owner gets PERMIT exactly when there is one; the joiner gets WAIT |
| ActorRules.JoinLockedRefusesPresent | signaling/room_managers.go:211-215 | a joiner already a member or waiting gets ERROR and then its queue is closed; membership is unchanged |
| ActorRules.JoinOpenAdmits | signaling/room_managers.go:216-251 | a joiner of an open room with space becomes a member, gets APPROVE, and every other member gets READY once |
| ActorRules.ApprovedThenReady | signaling/room_managers.go:232-250 | after the entrant's APPROVE, the rest of the admission turn is READY to every other member once and to no one else |
| ActorRules.RegisterWhenFullRefused | signaling/room_managers.go:136-146 | a register that would make a fifth member gets FULL and nothing changes |
| ActorRules.SelfLeavesAsMember | signaling/room_managers.go:283-286 | a member's SELF closes its queue first, removes it and clears its ownership; only when it was the last member is the room deleted and every waiting queue closed |
| ActorRules.SelfLeavesWaitingList | signaling/room_managers.go:287-293 | a waiting user's SELF removes it and closes its queue; the room is deleted exactly when nobody is left |
| ActorRules.SelfUnknownIgnored | signaling/room_managers.go:274-296 | a SELF from a connection the room does not know, or for an unknown room, changes nothing |
| ActorRules.AllEndsRoom | signaling/room_managers.go:278-282 | ALL on a room with members removes it and closes every member and waiting queue; ALL on a room with no member changes nothing |
| ActorRules.ForwardDelivers | signaling/room_managers.go:300-319 | forward never changes the registry; the message goes verbatim to the destination member exactly when it exists and is not the sender, and nothing is sent otherwise |
| ActorRules.ForwardReachesDestination | signaling/room_managers.go:308-317 | over the members keyed by user id, the message goes to exactly the destination member when it exists and is not the sender, and to nobody otherwise |
| ActorRules.ApproveAdmits | signaling/room_managers.go:322-357 | an approved waiting user moves to the members, gets APPROVE from the owner, and every other member gets READY once |
| ActorRules.ApproveWhenFull | signaling/room_managers.go:358-368 | approving into a full room sends FULL to the waiting user and changes nothing |
| ActorRules.RejectDrops | signaling/room_managers.go:370-394 | a rejected user gets REJECT from the owner and leaves the waiting list without its queue being closed; a room left empty is deleted |
| ActorRules.AdmissionOfAbsentIgnored | signaling/room_managers.go:320-395 | a decision about a user who is not waiting, or for an unknown room, changes nothing |
| ActorRules.AdmissionPanicsWithoutOwner | signaling/room_managers.go:331 | admission dereferences a missing owner exactly when the target is waiting, the room has no owner, and the decision is a rejection or the room has space |
| Lookups.RegisterLookup | signaling/room_managers.go:52 | an owner claim finds the room exactly when the claimant's own document lists it; a join finds it exactly when any document lists it; failures are always the store's own errors |
| Lookups.SentinelTranslationsUnreachable | signaling/room_managers.go:55-58 | the store never returns its NotFound or InvalidRequest sentinel on register, so a failed lookup is always reported with the store's error |
| Lookups.ClaimOfUnlistedRoomRefused | signaling/room_managers.go:53-61 | an owner claim for a room the claimant does not own gets one ERROR and changes nothing |
| Lookups.ShadowLockFromStore | signaling/room_managers.go:167-176 | a room first created by a joiner takes the lock flag of a stored room with that id |
| Pump.PongBeatsReadDeadline | signaling/read_write.go:11-20 | the ping period is positive and shorter than the read window, so a peer that answers pings promptly never hits the read deadline |
| Pump.Dispatch | signaling/read_write.go:48-105 | START and JOIN overwrite the user id, take the room id and register, and panic when the data is not a string; END requests ALL exactly when ownership was claimed; LEAVE requests SELF; MESSAGE forwards exactly when room, sender and destination are non-empty and differ; APPROVE and REJECT request admission exactly when room and target are non-empty; any other action does nothing |
| Pump.Run | signaling/read_write.go:23-46 | a session that ends, by a break or a panic, sends the deferred SELF with its latest view as its last request; at most one request per frame plus that one |
| Pump.RunAppend | signaling/read_write.go:33-46 | while the loop runs, later frames are read from the view the earlier ones left |
| Pump.ReadOne | signaling/read_write.go:33-46 | a message that does not panic the pump hands on its request first and the rest is read from the view it leaves |
| Pump.RunIgnoresAfterEnd | signaling/read_write.go:33-46 | after the loop ends nothing read later has any effect |
| Pump.UndecodableEndsSession | signaling/read_write.go:41-46 | an undecodable frame ends the session with exactly one more request, the SELF unregister |
| Pump.RunOneRequestPerMessage | signaling/read_write.go:28-46 | requests never outnumber the messages read, except for the one deferred unregister of an ended session |
| Pump.ClaimAloneAuthorizesEnd | signaling/read_write.go:49-77 | a START followed by END yields a register and an ALL unregister, whatever the room store would answer |
| Findings.WaitingClaimantClosedTwice | signaling/room_managers.go:87-99 | a connection that waited and then claims the room becomes member and waiting at once, and its LEAVE closes it twice |
| Findings.WaitingClaimantJoins | signaling/room_managers.go:155-210 | a joiner of an unknown locked room creates it without an owner and waits |
| Findings.WaitingClaimantClaims | signaling/room_managers.go:87-135 | the waiting user's owner claim makes it member and owner while it stays on the waiting list, and it is prompted about itself |
| Findings.WaitingClaimantLeaves | signaling/room_managers.go:283-286 | that user's SELF deletes the room and closes its queue twice |
| Findings.DuplicateLoginClosedTwice | signaling/room_managers.go:284-286 | a refused duplicate login's deferred SELF closes the refused queue again and deletes the other connection's entry |
| Findings.UnverifiedClaimEndsRoom | signaling/read_write.go:67-77 | a START refused by the store followed by END ends another owner's room and disconnects its members |
| Findings.SoleMemberRoomEnds | signaling/room_managers.go:278-282 | ALL from any requester on a room whose only member is another connection closes that connection and deletes the room |
| Findings.OwnerlessApprovalPanics | signaling/room_managers.go:322-331 | two joiners waiting in an ownerless locked room: either's APPROVE of the other panics the room manager |
| Findings.CloseAllOnce | signaling/room_managers.go:37-42 | closing a keyed map's connections closes each connection at most once |
| Findings.ClaimTakeover | signaling/room_managers.go:87-99 | the corrected takeover moves the claimant from the waiting list to the members |
| Findings.TakeoverRoomValid | signaling/room_managers.go:87-99 | the room left by a corrected takeover is valid, and no one in it is both member and waiting |
| Findings.Unqueued | signaling/room_managers.go:87-99 | the corrected claim either leaves the registry as it was or takes the claimant off its room's waiting list; every other room, the members and the set of rooms stay as they were |
| Findings.RegisterOwnerFixed | signaling/room_managers.go:51-154 | the corrected owner claim never dereferences a missing owner and answers the claimant first |
| Findings.UnregisterFixed | signaling/room_managers.go:272-299 | the corrected unregister never dereferences a missing owner; ALL from anyone but the room's owner and SELF from a connection other than the one the room holds under that user id change nothing |
| Findings.AdmissionFixed | signaling/room_managers.go:320-395 | the corrected admission never dereferences a missing owner; in an ownerless room it changes nothing |
| Findings.StepFixed | signaling/room_managers.go:47-398 | no event makes the corrected room manager dereference a missing owner |
| Findings.RegisterOwnerFixedKeeps | signaling/room_managers.go:51-154 | the corrected owner claim never dereferences a missing owner, keeps every room valid and keeps members and waiting users apart |
| Findings.RegisterJoinerKeepsDisjoint | signaling/room_managers.go:155-271 | a join never makes a user both member and waiting |
| Findings.UnregisterKeepsDisjoint | signaling/room_managers.go:272-299 | no unregister makes a user both member and waiting |
| Findings.AllKeepsDisjoint | signaling/room_managers.go:278-282 | ALL keeps members and waiting users apart |
| Findings.MemberLeaveKeepsDisjoint | signaling/room_managers.go:283-286 | a member's SELF keeps members and waiting users apart |
| Findings.UnregisterFixedKeeps | signaling/room_managers.go:272-299 | the corrected unregister never dereferences a missing owner, keeps every room valid and keeps members and waiting users apart |
| Findings.AdmissionFixedKeeps | signaling/room_managers.go:320-395 | the corrected admission never dereferences a missing owner, keeps every room valid and keeps members and waiting users apart |
| Findings.AdmissionKeepsDisjoint | signaling/room_managers.go:320-395 | no admission makes a user both member and waiting |
| Findings.StepFixedKeeps | signaling/room_managers.go:47-398 | the corrected room manager never dereferences a missing owner, keeps every room valid, and never holds a user as both member and waiting |
| Findings.RunFixedKeeps | signaling/room_managers.go:47-398 | for any sequence of events the corrected room manager never dereferences a missing owner, keeping both properties after every turn |
| Findings.LastLeaverClosesOnce | signaling/room_managers.go:24-45 | when the leaver is not itself waiting, the last member's departure closes its own queue and every waiting queue, each exactly once, and nothing else |
| Findings.LeaverNotAmongWaiting | signaling/room_managers.go:37-42 | a connection whose user id is not waiting is never closed by the waiting list's close loop |
| Findings.MemberSelfClosesHeldOnce | signaling/room_managers.go:283-286 | a member's own SELF closes only connections the room holds, each at most once |
| Findings.WaitingSelfClosesHeldOnce | signaling/room_managers.go:287-293 | a waiting user's own SELF closes only its own queue, which the room holds, once |
| Findings.SelfFixedClosesHeldOnce | signaling/room_managers.go:283-293 | under the correction a SELF closes only connections the room holds, by identity, each at most once |
| Findings.DuplicateLoginFixed | signaling/room_managers.go:284-286 | under the correction the refused duplicate's SELF closes nothing and the member stays |
| Findings.EndFixedNeedsOwner | signaling/room_managers.go:278-282 | under the correction ALL from anyone but the room's owner changes nothing, and from the owner it still ends the room |
| Findings.WaitingClaimantFixed | signaling/room_managers.go:87-99 | under the correction the waiting claimant becomes a member only, and its LEAVE closes it once |

## Left out

- Sockets, deadlines, the ping ticker and the write pump (`writeMessage`) are transport I/O. Only the timing constants and the read loop over a sequence of frames are modelled.
- Panics from channels are not modelled. Go panics when a closed channel is closed again or sent on (room_managers.go:29, 41, 150, 213, 266, 289, and every `send <-`). `Actor.Step` returns `Next` for such turns, so `Panic` stands only for the nil owner dereference at room_managers.go:331 and 378, and "never panics" and "while no turn panics" in the rows above mean "never dereferences a missing owner". Double closes are instead stated as properties of the effects: Findings.WaitingClaimantClosedTwice, Findings.DuplicateLoginClosedTwice, Findings.CloseAllOnce, Findings.MemberSelfClosesHeldOnce and Findings.SelfFixedClosesHeldOnce.
- Goroutines and channels are left out. Events reach the room manager one at a time, as its single loop guarantees, and a channel send is an effect in order.
- JSON marshalling is taken to succeed. Its failure branches log and skip the send and the registry update that follow (room_managers.go:70-84, 94-99, 227-229, 381-390), or `continue` past one READY or PERMIT; none of them is modelled.
- Actor.Step reads a connection's user id as it was when the event was made. The pump rewrites the shared connection's user id in place on every START and JOIN (read_write.go:50 and 60). Entries stored earlier in the registry would see the new id in Go; in the model they keep the old one.
- The Firestore client and its failures other than a missing document are left out. A write to the store always succeeds.
- Which document a query returns when several match is left open: it is any matching one.
- The constants APPROVE, REJECT, PERMIT, FULL and the users collection name are declared in files that are not part of this model. They are taken to be their names.
- The `auth` package, `main.go`, the websocket upgrade in `signaling/handlers.go` and logging have no algorithmic content here.
- Database.UpdateDocument: a Firestore update of a missing document is reported as success and changes nothing. A store backend failure, which the source also swallows, is not modelled.
- Actor.Readies: its own contract is only a length bound. Who receives READY is stated by ActorRules.ReadiesSpec, which keeps the recipients out of every proof that unfolds a turn.
- Findings.StepFixed and the lemmas about it cover the room manager only. A connection that registers in a second room without leaving the first is still held by the first. That room's later ALL can close it again, and no property here excludes this.
- Findings.SelfFixedClosesHeldOnce speaks of one turn. Closes repeated across turns are excluded only in the duplicate-login case (Findings.DuplicateLoginFixed), not for every run.

## Findings

| source | as written | input that shows it | evidently intended | confidence | as-written member | corrected member |
|---|---|---|---|---|---|---|
| signaling/room_managers.go:87-99 | an owner claim adds the claimant to the members without taking it off the waiting list | connection `x` JOINs locked room `r` before any owner and waits; it then STARTs `r` as its owner, then LEAVEs | the claimant leaves the waiting list when it becomes a member; as written its queue is closed twice in one turn, which panics in Go | high, not executed | Findings.WaitingClaimantClosedTwice | Findings.StepFixedKeeps, Findings.WaitingClaimantFixed |
| signaling/room_managers.go:284-286 | SELF deletes the entry stored under the caller's user id and closes the caller's queue, whichever connection the entry holds | member A is user `x`; a second connection B with user id `x` STARTs and is refused and closed; B's pump then sends its deferred SELF | only the caller's own entry is removed; as written B is closed a second time (a panic) and A's entry is deleted while A stays open | high, not executed | Findings.DuplicateLoginClosedTwice | Findings.SelfFixedClosesHeldOnce, Findings.DuplicateLoginFixed |
| signaling/read_write.go:67-77 | END is authorised by the pump's own START flag, and the room manager ends the room without checking the requester | a user who does not own room `r` sends START `r`, which the store refuses with ERROR, then END | only the room's owner can end it; as written the whole meeting is disconnected | high, not executed | Findings.UnverifiedClaimEndsRoom | Findings.EndFixedNeedsOwner |
| signaling/room_managers.go:322-331 | admission reads `room.owner.userId` without a nil check, and any connection can send APPROVE or REJECT | users `x` and `y` JOIN locked room `r` before its owner; `x` sends APPROVE for `y` | decisions wait for an owner; as written the nil dereference ends the process for every meeting | high, not executed | Findings.OwnerlessApprovalPanics | Findings.RunFixedKeeps |
