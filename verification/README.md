# Verified models of the WebRTC sample and its base containers

The repository is a small C++ WebRTC client and server together with the WebRTC and Chromium
headers they use. This project models, in Dafny 4.11, the parts whose correctness is hardest to see
from the code, and proves what they promise for every input, every callback body and every
interleaving. `dafny verify dfyconfig.toml` checks all of it.

| files | what they model |
|---|---|
| `Registrations.dfy`, `Slots.dfy`, `ObserverList.dfy` | `ObserverList` and its iterators: traversals whose callbacks add, remove, clear, traverse again and destroy the list |
| `Notifications.dfy`, `CallbackList.dfy` | the repeating callback list, with cancellation and nested `Notify` |
| `OnceNotifications.dfy`, `OnceCallbackList.dfy` | the once callback list, with cancellation |
| `ThreadSafeObservers.dfy` | `ObserverListThreadSafe` over any number of lists and task sequences |
| `IceJson.dfy`, `Signalling.dfy` | the offer/answer/candidate handshake of client and server, and the echo after it |
| `ProxyCalls.dfy` | method calls marshalled between threads |
| `LazyPointer.dfy` | racing lazy construction of one instance |
| `ScopedRefPtr.dfy` | `scoped_refptr` over `RefCountedBase`, with pointers that are fields of counted objects |
| `SendTime.dfy`, `BigEndian.dfy`, `Bits.dfy` | fixed-width arithmetic |
| `Wrappers.dfy`, `Division.dfy` | definitions and facts the others share |

How the models are built:

- **Callback bodies are scripts.** A script is an inductive datatype of the operations a callback may
  perform, nested traversals and notifications included, so a statement about all scripts is a
  statement about everything a callback may do.
- **Containers are proved in two layers.** `Registrations`, `Notifications` and `OnceNotifications` say
  what a traversal or a notification means with no slots, marks, indices or flags: registrations carry stamps that are
  never reused and a pass goes on with the earliest one it has not passed. The classes in
  `ObserverList.dfy`, `CallbackList.dfy` and `OnceCallbackList.dfy` hold the fields of the source, change them in the order
  the source does, and are proved to do exactly what the first layer says. The hard claims are then
  proved once, about the first layer.
- **Every operation is pinned twice.** Beside the invariants, the effect of each operation is stated by
  itself, and whole runs are related to a simpler account of the operations performed: a set of
  observers, a set of live callbacks, the inputs of a program, the steps that added or removed.
- **Protocols are step machines.** A run is any sequence of steps and a step that is not enabled does
  nothing, so every claim about `Exec(steps)` is a claim about every interleaving. A region under a
  lock, an atomic access and the handling of one message are single steps.
- **Widths are explicit.** Wrap-around, truncation and sign conversion are written out; the bit and byte
  utilities are proved for every width.

Where the code and its documentation differ, the code is followed. Properties that hold only under a
condition are proved with that condition, both ways, and have a run that breaks them without it:

- Removal from another sequence can come too late, against the comment at
  `webrtc/include/base/observer_list_threadsafe.h:142-144` (`ThreadSafeObservers.RemovalElsewhereCanBeLate`);
  `ThreadSafeObservers.RemovalSilencesExactlyWhenNoneChecked` says exactly when it is in time.
- Marshalled calls can deadlock, and a call can hang for ever, exactly when the calls that may be made
  contain a cycle of threads (`ProxyCalls.DeadlockExactlyWithCycle`, `ProxyCalls.HangExactlyWithCycle`).
- A creator that returns null, which the header allows, can make callers return null, different values or
  the lock; `LazyPointer` says for each exactly for how many callers and which values.
- Late candidates make a side of the sample fail: WebSocket++ throws when a message is sent on a closed
  connection, and nothing catches it (`Signalling.FailsExactly`, `Signalling.LateCandidateFails`).
- Assigning to a smart pointer can destroy that pointer (`ScopedRefPtr.AssignToOwnFieldBreaks`);
  `ScopedRefPtr.KeepsAccountsExactlyWhenSafe` says exactly when, by a condition on the world before the
  assignment. Move assignment never goes wrong this way.
- `Align` rounds up exactly when its sum does not wrap (`Bits.AlignIsCeilingUnlessItWraps`).

## Model

| member | source | states |
|---|---|---|
| `Registrations.RunKeeps` | webrtc/include/base/observer_list.h:270-320 | whatever a callback body does, registrations stay in order and distinct, and a registration found afterwards is either new or was there before (stamps never come back) |
| `Registrations.WalkKeeps` | webrtc/include/base/observer_list.h:126-179 | the same for a whole traversal with all its callbacks |
| `Registrations.FirstIsEarliest` | webrtc/include/base/observer_list.h:209-216 | the next observer to notify is the earliest registration that the traversal has not passed and may still visit, and there is none exactly when no such registration exists |
| `Registrations.VisitsAreRegistered` | webrtc/include/base/observer_list.h:173-216 | every observer visited is registered at the moment it is reached |
| `Registrations.VisitsInOrder` | webrtc/include/base/observer_list.h:173-216 | visits are in strictly increasing order of registration, whatever the callbacks do |
| `Registrations.StepsAreHistory` | webrtc/include/base/observer_list.h:270-320 | the registries seen at successive visits form one history in which removed registrations never return |
| `Registrations.VisitedExactlyWhenRegisteredAtTurn` | webrtc/include/base/observer_list.h:209-222 | a complete traversal visits a registration if and only if it is still registered when its turn comes |
| `Registrations.KeptIsVisited` | webrtc/include/base/observer_list.h:126-179 | every registration in the traversal's range that is still there at the end was visited |
| `Registrations.RegisteredThroughoutIsNotifiedOnce` | webrtc/include/base/observer_list.h:126-179 | an observer registered throughout a complete traversal is notified exactly once, under either policy |
| `Registrations.ExistingOnlyVisitsExisting` | webrtc/include/base/observer_list.h:126-132 | under `EXISTING_ONLY` nothing added during the traversal is visited and there are at most as many visits as registrations at the start |
| `Registrations.AllVisitsAddedAndKept` | webrtc/include/base/observer_list.h:126-132 | under `ALL` an observer added during the traversal and kept is visited too |
| `Registrations.DestructionEndsTraversal` | webrtc/include/base/observer_list.h:252-263 | when a callback destroys the list, in this traversal or one nested in it, the traversal visits nothing more and is over |
| `Registrations.DestroyedIsFinal` | webrtc/include/base/observer_list.h:252-263 | nothing is done to a destroyed list |
| `Registrations.AddsExactly` | webrtc/include/base/observer_list.h:270-278 | adding registers the observer as the latest registration unless it is there, and changes no other registration |
| `Registrations.RemovesExactly` | webrtc/include/base/observer_list.h:282-296 | removing unregisters that observer and no other |
| `Registrations.RunLeavesMembers` | webrtc/include/base/observer_list.h:270-320 | after any script the registered observers are those that the additions, removals, clearings and destructions performed leave, one after the other, callbacks at every depth included; only a destruction ends the list |
| `Registrations.RunLogs` | webrtc/include/base/observer_list.h:126-179 | the log of a run lists exactly the observers notified by each traversal at every depth, and each of those is a whole traversal of which all the claims hold |
| `Registrations.CompleteExactlyWhenNothingLeft` | webrtc/include/base/observer_list.h:218-222 | a traversal is complete exactly when nothing is left for it to visit; otherwise it was left after as many visits as it was given |
| `Slots.AppendAdds` | webrtc/include/base/observer_list.h:276-277 | appending a slot adds exactly one registration, the latest |
| `Slots.MarkRemoves` | webrtc/include/base/observer_list.h:290-295 | marking a slot removes that observer's registration and no other |
| `Slots.EraseRemoves` | webrtc/include/base/observer_list.h:290-295 | erasing a slot has the same meaning as marking it |
| `Slots.CompactKeeps` | webrtc/include/base/observer_list.h:332-338 | compaction leaves no mark and keeps every registration in order |
| `Slots.SlotGone` | webrtc/include/base/observer_list.h:290-295 | erasing or marking the slot of an observer takes that one and no other out of the vector |
| `Slots.PositionNext` | webrtc/include/base/observer_list.h:209-222 | an iterator in position at an unmarked slot is at the next registration of the traversal |
| `Slots.PositionEnd` | webrtc/include/base/observer_list.h:218-222 | an iterator in position that is at its end has nothing left to visit |
| `Slots.PositionAdvances` | webrtc/include/base/observer_list.h:173-179 | an iterator stays in position across any callback and the increment after it, because the vector only grows at the tail or gains marks meanwhile |
| `Observers.ObserverList.HasObserver` | webrtc/include/base/observer_list.h:299-308 | answers whether the observer is registered; false for null, which a marked slot would equal |
| `Observers.ObserverList.AddObserver` | webrtc/include/base/observer_list.h:270-278 | keeps the list's invariant (the count is the number of unmarked slots, observers are distinct, marks only while an iterator lives, live iterators know the list); afterwards a slot holds the observer, every other observer is there or not as before, the count is one more unless it was there, and no slot has shifted |
| `Observers.ObserverList.RemoveObserver` | webrtc/include/base/observer_list.h:282-296 | keeps the invariant; afterwards no slot holds the observer, every other one is there or not as before, the count is one less if it was there, and no slot shifts while an iterator lives |
| `Observers.ObserverList.ClearObservers` | webrtc/include/base/observer_list.h:311-320 | keeps the invariant, leaves no observer in any slot, and shifts no slot while an iterator lives |
| `Observers.ObserverList.Compact` | webrtc/include/base/observer_list.h:332-338 | drops all marks and keeps the registrations |
| `Observers.ObserverList.RunScript` | webrtc/include/base/observer_list.h:270-320 | any callback body changes the list as the ideal registry says; while the list lives its live iterators stay and no index shifts, and once it is destroyed they are all detached |
| `Observers.ObserverList.Traverse` | webrtc/include/base/observer_list.h:126-179 | a range-for loop over the list notifies exactly the observers, in exactly the order, of the ideal traversal, at any nesting depth and also when a callback destroys the list, and leaves the registry it says |
| `Observers.ObserverList.NotifyCurrent` | webrtc/include/base/observer_list.h:173-216 | one turn of the loop notifies the next registration and leaves the iterator in position, or detached if the list was destroyed |
| `Observers.ObserverList.Destroy` | webrtc/include/base/observer_list.h:252-263 | destroying the list leaves nothing of it and turns every live iterator into an end iterator |
| `Observers.Iter.Begin` | webrtc/include/base/observer_list.h:126-137 | a new iterator is linked, bounded by its policy and at the first unmarked slot |
| `Observers.Iter.EnsureValidIndex` | webrtc/include/base/observer_list.h:209-216 | skips marked slots and nothing else, and stops at an unmarked one or the bound |
| `Observers.Iter.Advance` | webrtc/include/base/observer_list.h:173-179 | moves forward past marked slots only; a detached iterator stays |
| `Observers.Iter.Copy` | webrtc/include/base/observer_list.h:144-148 | a copy is linked to the same list at the same place |
| `Observers.Iter.Destroy` | webrtc/include/base/observer_list.h:139-142 | the list stays valid with the same registrations, and unless it was the last live iterator no slot changes |
| `Observers.Iter.Assign` | webrtc/include/base/observer_list.h:150-164 | assignment, to itself or from another list too, keeps both lists valid with their registrations, moves only this iterator between the live lists, and shifts no slot of a list that another iterator is live on |
| `Observers.Iter.SetList` | webrtc/include/base/observer_list_internal.h:118-123 | links a detached node at the end of the live list |
| `Observers.Iter.Invalidate` | webrtc/include/base/observer_list_internal.h:125-130 | a node's list is cleared exactly when the node leaves the live list, and only that node leaves |
| `Notifications.RunDeferred` | webrtc/include/base/callback_list.h:222-227 | inside a notification no operation, nested `Notify` included, removes or revives a node or runs the removal callback; there is one more null node per cancellation |
| `Notifications.WalkDeferred` | webrtc/include/base/callback_list.h:206-221 | the same for a whole nested pass |
| `Notifications.RunClean` | webrtc/include/base/callback_list.h:229-232 | outside every notification no null node remains and every live subscription has a live node, whatever ran |
| `Notifications.RemovalRunsWhenOwed` | webrtc/include/base/callback_list.h:173-266 | the removal callback runs once per outermost `Notify` in which something was cancelled and once per cancellation outside, if one is set by then, and never otherwise, also when callbacks set and clear it |
| `Notifications.PassInOrder` | webrtc/include/base/callback_list.h:206-221 | a pass runs callbacks in list order, each at most once and live at its turn |
| `Notifications.RunsExactlyWhenLiveAtTurn` | webrtc/include/base/callback_list.h:206-221 | a callback registered at the start runs if and only if it is not cancelled before its turn |
| `Notifications.KeptRuns` | webrtc/include/base/callback_list.h:206-221 | a callback registered throughout the pass runs in it |
| `Notifications.AddedRunsUnlessCursorAtEnd` | webrtc/include/base/callback_list.h:212-220 | a callback added while another ran runs in the same pass if and only if it is not cancelled before its turn and the pre-advanced cursor had not reached the end |
| `Notifications.AddsExactly` | webrtc/include/base/callback_list.h:153-168 | adding puts one live callback behind all others, subscribed or not, and changes none |
| `Notifications.CancelsExactly` | webrtc/include/base/callback_list.h:254-269 | cancelling a subscribed callback makes it null, or takes it out when no notification runs, ends its subscription, and leaves every other node and subscription |
| `Notifications.RunEnters` | webrtc/include/base/callback_list.h:153-269 | after any script the live callbacks, the subscriptions and the cancellations are those that the operations performed give, one after the other, nested notifications included |
| `Notifications.RunsUnlessCancelledBefore` | webrtc/include/base/callback_list.h:183-185 | a callback registered when a pass starts runs in it if and only if it has no subscription, or nothing the pass performs before its turn, at any depth, cancels it |
| `Notifications.RunLogs` | webrtc/include/base/callback_list.h:201-221 | the log of a run lists exactly the callbacks run by each notification at every depth |
| `CallbackLists.RepeatingCallbackList.AddCallback` | webrtc/include/base/callback_list.h:153-168 | appends a live node, with a subscription or without |
| `CallbackLists.RepeatingCallbackList.SetRemovalCallback` | webrtc/include/base/callback_list.h:173-175 | may be called at any time, inside a notification too, as the ideal list says |
| `CallbackLists.RepeatingCallbackList.CancelCallback` | webrtc/include/base/callback_list.h:254-269 | resets the node during iteration, erases it and runs the removal callback otherwise; afterwards a subscribed callback is neither live nor subscribed, and every other node is as before |
| `CallbackLists.IsEmpty` | webrtc/include/base/callback_list.h:178-181 | true exactly when no live callback remains |
| `CallbackLists.NextValid` | webrtc/include/base/callback_list.h:212-216 | skips null nodes to the first live one at or after the cursor; an end cursor stays at the end |
| `CallbackLists.Resumes` | webrtc/include/base/callback_list.h:217-220 | a cursor advanced past a callback before it ran is still in the list afterwards and leads to where the ideal pass goes on, also when the callback's own node was spliced out |
| `CallbackLists.RepeatingCallbackList.RunScript` | webrtc/include/base/callback_list.h:153-269 | any callback body has exactly the ideal effect and restores `iterating_` |
| `CallbackLists.RepeatingCallbackList.NotifyAll` | webrtc/include/base/callback_list.h:201-244 | `Notify` at any depth runs exactly the ideal pass, restores `iterating_` (webrtc/include/base/auto_reset.h:24-43) and prunes only in the outermost frame |
| `CallbackLists.RepeatingCallbackList.Prune` | webrtc/include/base/callback_list.h:229-243 | leaves exactly the live nodes and runs the removal callback if one is set and some node was null |
| `CallbackLists.RepeatingCallbackList.RunCallback` | webrtc/include/base/callback_list.h:327-331 | the cursor advanced before the callback is still valid after it and is where the ideal pass goes on |
| `OnceNotifications.UsesSound` | webrtc/include/base/callback_list.h:285-317 | however a fresh list is used without nested `Notify`: no callback runs twice, every callback ever added is exactly one of still to run, run, or cancelled first, and every live subscription points to a non-null node of `callbacks_` or a null one of `null_callbacks_` |
| `OnceNotifications.OncePassInOrder` | webrtc/include/base/callback_list.h:206-221 | a pass runs callbacks in list order, each live at its turn |
| `OnceNotifications.OnceRunsExactlyWhenLiveAtTurn` | webrtc/include/base/callback_list.h:206-221 | a callback created before the pass runs in it if and only if it is live when its turn comes |
| `OnceNotifications.RunsUnlessCancelled` | webrtc/include/base/callback_list.h:183-185 | a callback registered when the notification starts runs if and only if the bodies have not cancelled it when its turn comes |
| `OnceNotifications.SparedRuns` | webrtc/include/base/callback_list.h:183-185 | a callback that no body cancels runs |
| `OnceNotifications.OnceAddedRunsUnlessCursorAtEnd` | webrtc/include/base/callback_list.h:212-220 | a callback added while another ran runs in the same pass if and only if it is live at its turn and the pre-advanced cursor had not reached the end |
| `OnceNotifications.OnceCancelsExactly` | webrtc/include/base/callback_list.h:254-269 | cancelling ends the subscription; a callback that has run leaves `null_callbacks_`, one that has not becomes null or is erased and counts as cancelled; every other node stays |
| `OnceNotifications.OnceAddsExactly` | webrtc/include/base/callback_list.h:153-168 | adding puts one live callback behind all others and changes none |
| `OnceNotifications.OnceRemovalRunsWhenOwed` | webrtc/include/base/callback_list.h:234-266 | the removal callback runs once for each cancellation, outside notifications, of a callback that has not run, and once for each notification of a list that is not empty, if one is set by then |
| `OnceNotifications.UsesEntry` | webrtc/include/base/callback_list.h:285-317 | however a fresh list is used, what is still to run, what has run, in order, what was cancelled and what is subscribed are those that the additions, cancellations and runs give, one after the other |
| `OnceNotifications.OnceRunsUnlessCancelledBefore` | webrtc/include/base/callback_list.h:183-185 | a callback registered when the notification starts runs in it if and only if it has no subscription, or no body that runs before its turn cancels it |
| `OnceCallbackLists.OnceCallbackList.AddCallback` | webrtc/include/base/callback_list.h:153-168 | appends a live node, with a subscription or without, as the ideal list says |
| `OnceCallbackLists.OnceCallbackList.CancelNullCallback` | webrtc/include/base/callback_list.h:303-309 | a subscribed node is null exactly when it is in `null_callbacks_`, and is then erased from that list |
| `OnceCallbackLists.OnceCallbackList.CancelCallback` | webrtc/include/base/callback_list.h:254-269 | erases the node from the list that holds it, or resets it during iteration, exactly as the ideal list says |
| `OnceCallbackLists.OnceCallbackList.RunCallback` | webrtc/include/base/callback_list.h:292-300 | the node moves to `null_callbacks_` before the callback runs its body, with exactly the ideal effect |
| `OnceCallbackLists.OnceCallbackList.NotifyAll` | webrtc/include/base/callback_list.h:201-244 | returns the callbacks it ran: exactly those of the ideal pass over the given bodies, which also gives the state it leaves |
| `OnceCallbackLists.UseList` | webrtc/include/base/callback_list.h:285-317 | any sequence of uses leaves exactly the state of the ideal list, and returns what ran; over the whole run nothing ran twice |
| `OnceCallbackLists.KeptAfterSplice` | webrtc/include/base/callback_list.h:292-300 | around the splice the cursor, already past the callback, stays on a node of the list whatever the body does |
| `ThreadSafeObservers.EveryRunKeepsInvariant` | webrtc/include/base/observer_list_threadsafe.h:104-256 | in every interleaving the thread-local notification follows the call stack, work waits only on its observer's sequence, and tasks are conserved |
| `ThreadSafeObservers.PostedTasksSplitExactly` | webrtc/include/base/observer_list_threadsafe.h:163-251 | every posted task is exactly one of delivered (its callback has started), dropped at the locked check, or pending, and nothing else is |
| `ThreadSafeObservers.CurrentFollowsStack` | webrtc/include/base/observer_list_threadsafe.h:245-255 | inside a callback the thread-local notification is the innermost running one, and it has its prior value whenever the stack is back |
| `ThreadSafeObservers.AddObserverCatchesUp` | webrtc/include/base/observer_list_threadsafe.h:126-137 | `AddObserver` posts exactly one catch-up task if the policy is `ALL` and the innermost notification belongs to this list, and none otherwise |
| `ThreadSafeObservers.NotifyPostsOnePerObserver` | webrtc/include/base/observer_list_threadsafe.h:163-175 | `Notify` gives every sequence exactly one task for each observer of the list registered on it, and changes nothing else there |
| `ThreadSafeObservers.SynchronousSplitsObservers` | webrtc/include/base/observer_list_threadsafe.h:180-210 | `NotifySynchronously` calls each observer registered on its own sequence directly, once, and gives every other sequence exactly one task for each of its observers |
| `ThreadSafeObservers.DroppedExactly` | webrtc/include/base/observer_list_threadsafe.h:229-237 | a task is dropped if and only if its observer is gone when it is examined under the lock |
| `ThreadSafeObservers.DeliveredExactlyWhenRegistered` | webrtc/include/base/observer_list_threadsafe.h:227-256 | once a posted task is no longer pending, its callback has been started exactly once if its observer was registered at the locked check, and never otherwise |
| `ThreadSafeObservers.NotifiedIsCalledOnceIfRegistered` | webrtc/include/base/observer_list_threadsafe.h:163-256 | an observer registered when its list is notified, and still when its task is examined, has its callback for that notification started exactly once by the time its sequence is idle |
| `ThreadSafeObservers.NotifiedIsCalledOnce` | webrtc/include/base/observer_list_threadsafe.h:163-256 | the same for an observer that no later step removes |
| `ThreadSafeObservers.CanBecomeIdle` | webrtc/include/base/observer_list_threadsafe.h:227-256 | from every state of every run a sequence can become idle by its own steps alone |
| `ThreadSafeObservers.NotifiedCanBeCalled` | webrtc/include/base/observer_list_threadsafe.h:163-256 | so after a notification the callback of every observer registered then can be reached, and is started exactly once |
| `ThreadSafeObservers.StepRegistersExactly` | webrtc/include/base/observer_list_threadsafe.h:104-148 | a step registers an observer on a sequence, or leaves it so, exactly if it adds it there, or it was so and the step does not remove that very observer |
| `ThreadSafeObservers.RegisteredExactly` | webrtc/include/base/observer_list_threadsafe.h:104-148 | in every run an observer is registered on a sequence if and only if it was added there and no later step removed it |
| `ThreadSafeObservers.CallbackIsBracketed` | webrtc/include/base/observer_list_threadsafe.h:239-255 | starting a callback saves the current notification and makes its own current; finishing it takes exactly that back |
| `ThreadSafeObservers.NoCallbackAfterSelfRemoval` | webrtc/include/base/observer_list_threadsafe.h:145-148 | after an observer removes itself on its own sequence no callback to it starts, in any interleaving, until it is added again |
| `ThreadSafeObservers.RemovalSilencesExactlyWhenNoneChecked` | webrtc/include/base/observer_list_threadsafe.h:145-237 | a removal from any sequence stops every later callback until the observer is added again, however the run goes on, if and only if no callback to it has passed the locked check without having started |
| `ThreadSafeObservers.RemovalElsewhereCanBeLate` | webrtc/include/base/observer_list_threadsafe.h:229-251 | a run in which another sequence removes an observer after the locked check and the callback still starts |
| `IceJson.RoundTripIffTransmissible` | src/util/webrtc_manager.h:17-44 | a candidate survives encoding and decoding if and only if its text and media id are not empty and its index is not -1; any other is refused |
| `IceJson.DecodedIsTransmissible` | src/util/webrtc_manager.h:26-44 | whatever decodes successfully encodes to something that decodes to the same candidate |
| `IceJson.EncodesByName` | src/util/webrtc_manager.h:17-24 | the names and values of the members of an encoded candidate |
| `IceJson.DecodesByName` | src/util/webrtc_manager.h:26-44 | what is decoded comes from members of those names, and exactly the objects with a wrong type or a missing or empty member are refused |
| `Signalling.EveryRunKeepsInvariant` | src/util/webrtc_manager.h:295-394 | in every run each direction carries the description, then the candidates in order, then at most the close; each side's state is what it made of the messages it handled |
| `Signalling.HandshakeIsInOnePhase` | src/client/client.cpp:50-60 | once the offer is sent, exactly one of "offer in flight", "server answering", "answer in flight", "client stable" holds |
| `Signalling.StablePeersAgree` | src/util/webrtc_manager.h:73-79 | once the client is stable each side's local description is the other's remote description |
| `Signalling.CandidatesAfterDescription` | src/util/webrtc_manager.h:378-394 | candidates are pushed only after the peer's description, never into a null peer connection, and are an unchanged in-order prefix of the peer's list |
| `Signalling.CandidateMessage` | src/server/server.cpp:123-128 | a candidate message pushes the sender's candidate exactly when that is transmissible and accepted, and ends the process otherwise |
| `Signalling.FailsExactly` | src/server/server.cpp:25-132 | in every run a side fails if and only if it gathers a candidate after its end of the WebSocket is closed, or handles a message the library does not accept or a candidate that is not complete |
| `Signalling.FailsExactlyWhenLate` | src/client/client.cpp:28-36 | so, if the library accepts what it is given and candidates are complete, a side fails if and only if it gathers a candidate too late |
| `Signalling.LateCandidateFails` | src/server/server.cpp:67-71 | such a run: the server gathers a candidate after its data channel opened and it closed the WebSocket |
| `Signalling.FailsOnlyOnceStable` | src/client/client.cpp:28-36 | before the client is stable no side fails in such runs |
| `Signalling.HandshakeNeverStuck` | src/client/client.cpp:90-130 | until the client is stable some step of the handshake is possible |
| `Signalling.HandshakeCanComplete` | src/client/client.cpp:62-130 | from every run in which no side has failed and candidates are complete, the handshake can be completed: both data channels open, the WebSocket is closed, and the client begins to read |
| `Signalling.EchoedInOrder` | src/client/client.cpp:161-179 | the client sends nothing before the server's data channel is open, and what it received is the front of "Echo of: " before each of its lines other than "exit", in order |
| `Signalling.AllEchoedWhenDrained` | src/server/server.cpp:34-54 | while the client reads lines, once nothing is in flight every line has been echoed |
| `Signalling.AllCanBeEchoed` | src/server/server.cpp:34-54 | while the client reads lines and the server serves, everything sent so far can be echoed |
| `Signalling.StopsListeningExactlyOnExit` | src/server/server.cpp:42-46 | the server stops listening exactly when it has taken an "exit" |
| `Signalling.ServerCanQuitAfterExit` | src/server/server.cpp:153-158 | once it has taken an "exit", a server that has not failed can reach `quit` |
| `Signalling.ClientCanRead` | src/client/client.cpp:161-179 | while the two talk the client can read and send any line; only "exit" and the end of its input end it |
| `Signalling.EveryRunReflectsInputs` | src/util/webrtc_manager.h:73-88 | in every run each side's own description, its candidates in order, its open channel and the lines sent are exactly those that its library, its peer connection and its user gave it |
| `Signalling.ServerQuitsOnlyAfterExit` | src/server/server.cpp:34-54 | the server reaches `quit` only after the client sent "exit" |
| `ProxyCalls.EveryRunKeepsInvariant` | webrtc/include/api/proxy.h:110-130 | in every interleaving each call is queued, executing or finished in exactly the place that matches its record |
| `ProxyCalls.ReturnsItsOnlyInvocation` | webrtc/include/api/proxy.h:110-130 | a method is invoked at most once; `Marshal` returns only after it ran exactly once, on the target thread, and returns that result |
| `ProxyCalls.ResultExactly` | webrtc/include/api/proxy.h:110-130 | in every run a call has a result if and only if some step ended its invocation with that value |
| `ProxyCalls.ReturnsWhatItsInvocationProduced` | webrtc/include/api/proxy.h:110-130 | if `Marshal` has returned v, exactly one step ended an invocation of that call's method, it ran on the target thread, and v is what it produced |
| `ProxyCalls.InvokedInOrder` | webrtc/include/api/proxy.h:110-119 | calls posted to one thread are invoked in the order in which they were posted |
| `ProxyCalls.MarshalRecords` | webrtc/include/api/proxy.h:110-119 | a call on one's own thread runs at once; any other waits last in the target's queue while its caller is blocked |
| `ProxyCalls.DeadlockExactlyWithCycle` | webrtc/include/api/proxy.h:110-119 | runs that marshal only along given pairs of caller and target can reach a state where some thread has work and none with work can do anything, if and only if the pairs contain a cycle of different threads |
| `ProxyCalls.HangExactlyWithCycle` | webrtc/include/api/proxy.h:110-119 | they can leave a call that never returns, whatever any thread does from then on, if and only if the pairs contain a cycle |
| `ProxyCalls.AllCanReturn` | webrtc/include/api/proxy.h:110-130 | without a cycle, every state has a continuation with no new calls in which every call made so far returns |
| `ProxyCalls.FrozenForEver` | webrtc/include/api/proxy.h:114-117 | threads that wait for each other keep their stacks in every continuation |
| `ProxyCalls.RankedRunsNeverDeadlock` | webrtc/include/api/proxy.h:110-119 | if calls only go to threads of lower rank, no run deadlocks and no call can be left hanging |
| `ProxyCalls.MutualCallsDeadlock` | webrtc/include/api/proxy.h:114-117 | any two threads that may call each other can deadlock and hang for ever |
| `ProxyCalls.ProxiesDeadlockExactly` | webrtc/include/api/proxy.h:284-300 | whichever proxy calls a program makes, from any number of threads, they can deadlock, and leave a call hanging, if and only if the worker makes calls to the signalling thread and the signalling thread to the worker |
| `LazyPointer.RunsLocked` | webrtc/include/base/lazy_instance_helpers.h:18-33 | the word is the lock exactly while one thread, and only one, creates |
| `LazyPointer.CreatedOnceForAll` | webrtc/include/base/lazy_instance_helpers.h:58-95 | with a creator that never returns null, it is called at most once, all callers get the same instance, and the word moves only from 0 to the lock to the pointer |
| `LazyPointer.InstanceExactlyWithoutNull` | webrtc/include/base/lazy_instance_helpers.h:58-95 | for every number of callers and every set of values the creator may return: all callers get an instance in every run if and only if null is not among the values |
| `LazyPointer.OnceExactlyWithoutNull` | webrtc/include/base/lazy_instance_helpers.h:78-85 | the creator is called at most once in every run if and only if null is not among the values or there is one caller |
| `LazyPointer.AssertionMissedExactly` | webrtc/include/base/lazy_instance_helpers.h:86-92 | the assertion after the second load can be missed if and only if null is among the values and there are at least two callers |
| `LazyPointer.LockReturnedExactly` | webrtc/include/base/lazy_instance_helpers.h:86-94 | a caller can return the lock value itself if and only if null is among the values and there are at least three callers |
| `LazyPointer.SameExactly` | webrtc/include/base/lazy_instance_helpers.h:58-95 | all callers return the same value in every run if and only if null is not among the values, or there is one caller, or there are two and null is the only value |
| `LazyPointer.SameByRuleExactly` | webrtc/include/base/lazy_instance_helpers.h:43-48 | under the header's rule that null is final, all callers return the same value in every run if and only if null is not among the values or there are at most two callers |
| `LazyPointer.NullCreatorCreatesNothing` | webrtc/include/base/lazy_instance_helpers.h:78-85 | with a creator that only returns null nothing is ever created |
| `LazyPointer.SecondLoadsTheLock` | webrtc/include/base/lazy_instance_helpers.h:86-94 | a run with a creator that only returns null in which a caller returns the lock value |
| `LazyPointer.SomeCallerCanStep` | webrtc/include/base/lazy_instance_helpers.h:22-25 | while a caller has not returned, some caller can go on |
| `LazyPointer.AllCanComeBack` | webrtc/include/base/lazy_instance_helpers.h:58-95 | from every state of every run all callers can come back, in at most five steps each, whatever the creator returns |
| `LazyPointer.CreatedIsReturnedAtOnce` | webrtc/include/base/lazy_instance_helpers.h:76-78 | a caller that comes when the instance has been created gets it at once |
| `ScopedRefPtr.KeepsAccountsExactlyWhenSafe` | webrtc/include/api/scoped_refptr.h:76-156 | every operation, with all the deletions it sets off, keeps count equal to references for every object and uses nothing that is gone, if and only if it is safe, which can be read off the world before it: only assigning from a raw pointer or by copying to a field can be unsafe, exactly when the object of that field is in no set of objects that keep a reference without the field's own |
| `ScopedRefPtr.CascadeLeavesExactlyTheUpheld` | webrtc/include/api/ref_counted_base.h:24-30 | a release, with its whole cascade, leaves exactly the objects of those sets whose members each have a reference that is handed out, on its way, or held by a pointer that is no field or a field of a member; it deletes all others |
| `ScopedRefPtr.ReleasedKeeps` | webrtc/include/api/ref_counted_base.h:24-30 | a cascade of deletions through the fields of deleted objects keeps every account and touches nothing that is gone |
| `ScopedRefPtr.OutlivesExactly` | webrtc/include/api/scoped_refptr.h:120-128 | a pointer outlives the release in its own assignment if and only if it would outlive it when cleared first |
| `ScopedRefPtr.OutlivesExactlyWhenOwnerKept` | webrtc/include/api/scoped_refptr.h:120-128 | it would, if and only if it is no field or its object is in such a set before the assignment |
| `ScopedRefPtr.FreePointerOutlives` | webrtc/include/api/scoped_refptr.h:120-128 | assigning to a pointer that is not a field of a counted object is always safe |
| `ScopedRefPtr.BrokenExactlyByUnsafeAssignment` | webrtc/include/api/scoped_refptr.h:120-137 | a sequence of operations uses freed memory if and only if it performs an unsafe assignment |
| `ScopedRefPtr.AssignToOwnFieldBreaks` | webrtc/include/api/scoped_refptr.h:120-128 | such a sequence: null is assigned to a field that holds the only reference to its own object |
| `ScopedRefPtr.CountsAreReferences` | webrtc/include/api/scoped_refptr.h:76-156 | after any operations a live object's count is the number of pointers holding it, fields included, plus references handed out by `release()`, and a referenced object is deleted if and only if none remains |
| `ScopedRefPtr.OperationGives` | webrtc/include/api/scoped_refptr.h:76-156 | every operation that is allowed and safe leaves the pointers it names with the objects it says, hands out the references it says, and changes no other pointer but by deleting its object |
| `ScopedRefPtr.SelfAssignmentChangesNothing` | webrtc/include/api/scoped_refptr.h:120-148 | copy- or move-assigning a pointer to itself changes nothing |
| `ScopedRefPtr.Program.AddRef` | webrtc/include/api/ref_counted_base.h:23-23 | one more reference to the object, no other change |
| `ScopedRefPtr.Program.ReleaseRef` | webrtc/include/api/ref_counted_base.h:24-30 | one reference less; if it was the last the object is deleted and its fields are destroyed, recursively, with exactly the effect of the ideal cascade |
| `ScopedRefPtr.Program.DestroyFields` | webrtc/include/api/scoped_refptr.h:100-103 | destroying the fields of a deleted object one after the other is the ideal cascade |
| `ScopedRefPtr.Program.ConstructFrom` | webrtc/include/api/scoped_refptr.h:78-92 | the new pointer holds the given object, every other one what it held, and the accounts are kept |
| `ScopedRefPtr.Program.MoveConstructFrom` | webrtc/include/api/scoped_refptr.h:95-98 | the new pointer holds what the other held, the other holds null, and the accounts are kept |
| `ScopedRefPtr.Program.AssignRawTo` | webrtc/include/api/scoped_refptr.h:120-137 | after a safe assignment the pointer holds the new object, also when that is the old one, every other pointer what it held, and the accounts are kept |
| `ScopedRefPtr.Program.AssignMoveTo` | webrtc/include/api/scoped_refptr.h:139-148 | move assignment through a temporary leaves the first pointer with what the second held, the second with null, and all others alone, and keeps the accounts, also from itself and also when its release destroys the pointer assigned to |
| `ScopedRefPtr.Program.DestructPtr` | webrtc/include/api/scoped_refptr.h:100-103 | destruction drops the pointer's reference, with all that follows |
| `ScopedRefPtr.Program.SwapPtrs` | webrtc/include/api/scoped_refptr.h:150-156 | each of the two pointers holds what the other held, and the accounts are kept |
| `ScopedRefPtr.Program.ReleasePtr` | webrtc/include/api/scoped_refptr.h:114-118 | returns the raw pointer and hands its reference to the caller |
| `SendTime.TickDeltaIsUnique` | webrtc/include/api/rtp_headers.h:106-111 | the tick difference is the unique value in [-2^23, 2^23) congruent to the difference modulo 2^24 |
| `SendTime.GapRecovered` | webrtc/include/api/rtp_headers.h:106-111 | the true gap is recovered from wrapped times if and only if it lies in that range |
| `SendTime.TicksAddUp` | webrtc/include/api/rtp_headers.h:106-111 | over any run of send times with such gaps the tick deltas add up to the true elapsed ticks |
| `SendTime.MicrosAddUp` | webrtc/include/api/rtp_headers.h:106-113 | n truncated microsecond deltas add up to within n microseconds of the exact time |
| `SendTime.DeltaIsTimestampDifference` | webrtc/include/api/rtp_headers.h:99-113 | the microsecond delta is the difference of the two timestamps to within one microsecond, apart from the 64 seconds after which the clock wraps |
| `SendTime.TimestampRoundsDown` | webrtc/include/api/rtp_headers.h:99-104 | the timestamp is the exact time rounded down to whole microseconds |
| `SendTime.DeltaRoundsTowardsZero` | webrtc/include/api/rtp_headers.h:106-113 | the microsecond delta is the exact difference rounded towards zero |
| `BigEndian.ReadBigEndian` | webrtc/include/base/big_endian.h:22-35 | the loop computes the number the bytes denote, at every width, with no bit lost in a shift |
| `BigEndian.WriteBigEndian` | webrtc/include/base/big_endian.h:39-47 | the loop writes the bytes of the value, most significant first, and touches nothing else |
| `BigEndian.ReadOfWritten` | webrtc/include/base/big_endian.h:22-47 | reading what was written returns the value, for unsigned and signed types of every width |
| `BigEndian.WrittenOfRead` | webrtc/include/base/big_endian.h:22-47 | writing what was read restores the bytes, for unsigned and signed types of every width |
| `BigEndian.MostSignificantFirst` | webrtc/include/base/big_endian.h:27-33 | the first byte is the most significant one |
| `BigEndian.ConversionsAreModular` | webrtc/include/base/big_endian.h:27-44 | characters and signed values stand for the same number as their unsigned form, modulo the size of the type |
| `Bits.IsPowerOfTwoExactly` | webrtc/include/base/bits.h:29-37 | the bit test holds exactly for the powers of two |
| `Bits.AlignDownIsFloor` | webrtc/include/base/bits.h:53-56 | `AlignDown` is the greatest multiple of the alignment not above the size |
| `Bits.AlignIsCeilingUnlessItWraps` | webrtc/include/base/bits.h:40-43 | `Align` is the least multiple not below the size if and only if the sum does not wrap; otherwise it is 0 |
| `Bits.CountIsLeadingZeros` | webrtc/include/base/bits.h:80-90 | the scan-based count is the bit-by-bit number of leading zeros |
| `Bits.SplitCountIsLeadingZeros` | webrtc/include/base/bits.h:105-113 | counting in two 32-bit halves gives the leading zeros of the 64-bit word |
| `Bits.Log2FloorExactly` | webrtc/include/base/bits.h:208-211 | `Log2Floor` is the only i with 2^i <= n < 2^(i+1); -1 for 0 |
| `Bits.Log2CeilingExactly` | webrtc/include/base/bits.h:213-219 | `Log2Ceiling` is the only i with 2^(i-1) < n <= 2^i; -1 for 0 |

## Left out

- Observers.ObserverList.AddObserver: a null observer, which the source only asserts against, cannot be added.
- Observers.ObserverList.Traverse: `UncheckedObserverAdapter` only; `CheckedObserverAdapter` with its weak pointers, the sequence checkers and debug assertions are left out. A script performs no operation on a list it has destroyed.
- CallbackLists.RepeatingCallbackList.NotifyAll: what the removal callback itself does is covered as operations that follow in the script, except deleting the list.
- OnceCallbackLists.OnceCallbackList.NotifyAll: re-entrant `Notify` on a once list is excluded, because its splice can move the node under an outer cursor.
- ThreadSafeObservers.NoCallbackAfterSelfRemoval: an observer is not registered on a sequence while work for an earlier registration waits on another, which the source only asserts.
- ThreadSafeObservers.EveryRunKeepsInvariant: lists, queues and stacks are values changed by steps rather than objects, so aliasing inside one step is not captured; the same holds for `Signalling`, `ProxyCalls` and `LazyPointer`.
- LazyPointer.RunsLocked: `NeedsLazyInstance` and `CompleteLazyInstance` have no body in the repository; their documented contracts are the steps. Memory orderings are not modelled, an atomic access is one step.
- Signalling.EveryRunKeepsInvariant: one connection; the WebSocket ends only by the server's close; a handler that fails leaves its message unhandled; the server's data channel opens after the client's.
- Signalling.FailsExactly: whether the library accepts a description or candidate is an input of the step; SDP and candidate parsing are not modelled. WebSocket++ is not part of the repository; that sending on a closed connection throws is its documented behaviour.
- IceJson.RoundTripIffTransmissible: JSON objects with string and integer members, not JSON text; other member types and integers outside 32 bits are not modelled.
- ScopedRefPtr.CountsAreReferences: counts are unbounded, and the fields of a deleted object are its only smart pointers: a destructor runs no other code.
- BigEndianReader, BigEndianWriter: their bodies are not part of the repository.
- CountTrailingZeroBits, LeftmostBit and the pointer overloads of `Align`: easy members beside those modelled.
- The JavaScript client, audio, statistics, RTP parameter and peer-connection headers, `bind.h`, logging and check macros: declarations or machinery with no state worth proving.
- Thread start and stop, ICE, DTLS, SCTP, WebSocket and console I/O: libraries, represented only by the steps they cause.
