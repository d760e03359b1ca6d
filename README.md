# Shared bitmaps and bezel gestures: a Dafny model

This project models two stateful components of Chromium and proves properties about them.

**`content::HostSharedBitmapManager`** (`host_shared_bitmap_manager.dfy`, module `SharedBitmapManager`) is the
host-process registry of bitmaps shared with child processes. It keeps two maps:
- `handle_map_` maps a bitmap id to a `BitmapData` record: the owner process, the buffer size, and
  either a host-local pixel buffer or a shared-memory region.
- `process_map_` maps a process to the set of ids announced by or allocated for it.

The class `HostSharedBitmapManager` holds both maps as `map` fields. Each of its methods is proved to
leave the maps exactly as a pure transition function on `Registry` says (`AllocateLocal`,
`ChildAllocated`, `AllocateForChild`, `ChildDeleted`, `RemoveProcess`, `FreeFromMap`). Lemmas about those
functions state what each step means. `ProcessRemoved` keeps the source's loop over the process's id set.
`DestroyHostSharedBitmap` models the destructor of the returned bitmap: only a bitmap that carries a
manager erases its id.

Two invariants are stated:
- `Tracked`: every shared-memory record is listed under its owner. Every operation preserves it, so
  `ProcessRemoved(P)` never leaves one of P's shared regions behind.
- `Consistent`: every id listed under a process is a live shared-memory record owned by that process.
  Every operation preserves it except one. `FreeSharedMemoryFromMap` erases an id from `handle_map_` alone.
  That is harmless while the id still names the host-local buffer the handle came from. But the id may
  have been deleted through `ChildDeletedSharedBitmap` and then announced again by a child. In that case
  the child's id stays listed in `process_map_` with no record.
  `ReleaseAfterReannouncementBreaksConsistency` exhibits this sequence.

**`athena::BezelController`** (`bezel_controller.dfy`, module `BezelGestures`) recognises two-finger
swipes that start at the left or right screen edge.
- `GetBezel` and `ShouldProcessGesture` are pure classifiers.
- `SetStateReaction` and `GestureReaction` say what `SetState` and `OnGestureEvent` do to the fields
  `state_`, `scroll_bezel_` and `scroll_target_`. They also give the delegate calls made, whether the
  event is marked handled, and whether `CHECK(scroll_target_)` fails.
- The class `BezelController` updates those fields step by step. It records every `ScrollBegin`,
  `ScrollUpdate` and `ScrollEnd` in a `delegateCalls` trace. The trace is kept per controller: it merges
  the calls made on every delegate the controller has had.
- The main result, `BeginAndEndAlternate`, covers any sequence of events and delegate changes. In the
  controller's trace, begin and end calls strictly alternate, updates happen only inside a scroll, and a
  scroll is open exactly in `BEZEL_SCROLLING_TWO_FINGERS`. The result does not hold per delegate. A
  delegate installed during a two-finger scroll receives that scroll's updates and its `ScrollEnd`
  without ever receiving its `ScrollBegin`.

Behaviour of the registry code that the model keeps on purpose:
- `AllocateSharedBitmapForChild` takes the id from its caller rather than generating one.
- `AllocateSharedBitmapForChild` leaves the new entry in both maps when sharing with the child fails.
- `ChildDeletedSharedBitmap` never drops an emptied owner set, and its `process_map_[...]` indexing
  creates an empty set for an owner that had none.

Other behaviour of the code that the model keeps:
- `GetSharedBitmapFromId` accepts any request no larger than the stored size.
- In the bezel controller, a gesture that begins with more than two touch points from `NONE` moves to
  `IGNORE_CURRENT_SCROLL` without recording a target. Its end then fails `CHECK(scroll_target_)`, which
  is active in release builds (`CrowdedBeginThenEndFailsCheck`).
- Line 148 calls the one-argument `SetState` with `BEZEL_SCROLLING_TWO_FINGERS`, which that function's
  debug check at line 61 excludes. The model follows release builds, where the scroll then begins with
  delta 0.

Conventions:
- Ids, process handles and window ids are natural numbers or integers.
- Locations, the bezel width and scroll deltas are `real`.
- Sizes are unbounded naturals.

## Model

| member | source | states |
|---|---|---|
| `SharedBitmapManager.HostSharedBitmapManager.constructor` | content/common/host_shared_bitmap_manager.cc:60 | a new registry has no bitmaps and no process entries, and satisfies both invariants |
| `SharedBitmapManager.HostSharedBitmapManager.GenerateId` | content/common/host_shared_bitmap_manager.cc:83 | the id chosen for a host allocation is not currently registered |
| `SharedBitmapManager.HostSharedBitmapManager.AllocateSharedBitmap` | content/common/host_shared_bitmap_manager.cc:69-87 | returns null exactly when the size cannot be computed, leaving both maps unchanged; otherwise returns a bitmap with a fresh id, a host-owned pixel record of the computed size, and a manager; keeps both invariants |
| `SharedBitmapManager.AllocateLocalOutcome` | content/common/host_shared_bitmap_manager.cc:69-87 | a failed size leaves the registry unchanged; a success adds exactly the fresh id, keeps every other record, leaves `process_map_` alone and raises the count by one |
| `SharedBitmapManager.AllocateLocalKeepsInvariants` | content/common/host_shared_bitmap_manager.cc:83-84 | a host allocation under a fresh id keeps `Tracked` and `Consistent` |
| `SharedBitmapManager.DestroyHostSharedBitmap` | content/common/host_shared_bitmap_manager.cc:43-46 | a bitmap with a manager erases its id from that manager's `handle_map_` only; one without a manager changes nothing |
| `SharedBitmapManager.AllocateThenReleaseRestores` | content/common/host_shared_bitmap_manager.cc:204-208 | allocating a host bitmap and then releasing its handle restores the registry and its count exactly |
| `SharedBitmapManager.HostSharedBitmapManager.GetSharedBitmapFromId` | content/common/host_shared_bitmap_manager.cc:89-114 | succeeds iff the id is registered, the size is computable and no larger than the stored size, and the record has pixels or a mapping; the result shares the stored record and has no manager; nothing changes |
| `SharedBitmapManager.HostSharedBitmapManager.ChildAllocatedSharedBitmap` | content/common/host_shared_bitmap_manager.cc:116-138 | the new state is `ChildAllocated` of the old one, with the record mapped iff mapping succeeded; keeps both invariants |
| `SharedBitmapManager.ChildAllocatedOutcome` | content/common/host_shared_bitmap_manager.cc:121-137 | a known id is a no-op; a new id is recorded in `handle_map_` and listed under the announcing process, even when mapping failed, and the count rises by one |
| `SharedBitmapManager.ChildAllocatedIdempotent` | content/common/host_shared_bitmap_manager.cc:122-123 | announcing the same id twice, with any arguments, leaves the state of the first announcement |
| `SharedBitmapManager.HostSharedBitmapManager.AllocateSharedBitmapForChild` | content/common/host_shared_bitmap_manager.cc:140-169 | outputs the NULL handle when the id exists, creation fails or sharing fails, and the shared handle otherwise; the new state is `AllocateForChild` of the old one; keeps both invariants |
| `SharedBitmapManager.AllocateForChildOutcome` | content/common/host_shared_bitmap_manager.cc:145-168 | a known id or a failed creation inserts nothing; otherwise a mapped record is inserted in both maps and stays there whether or not sharing succeeds |
| `SharedBitmapManager.HostSharedBitmapManager.ChildDeletedSharedBitmap` | content/common/host_shared_bitmap_manager.cc:171-181 | the new state is `ChildDeleted` of the old one; keeps both invariants |
| `SharedBitmapManager.ChildDeletedOutcome` | content/common/host_shared_bitmap_manager.cc:171-181 | an unknown id is a no-op; a known one leaves `handle_map_` and its owner's set, the count drops by exactly one, the owner keeps a (possibly empty) entry, a repeated call changes nothing, and with consistent maps the id is listed nowhere afterwards |
| `SharedBitmapManager.HostSharedBitmapManager.ProcessRemoved` | content/common/host_shared_bitmap_manager.cc:183-197 | the loop erases exactly the process's ids from `handle_map_`, then its entry; the new state is `RemoveProcess` of the old one; no shared-memory record owned by the process remains; keeps both invariants |
| `SharedBitmapManager.RemoveProcessOutcome` | content/common/host_shared_bitmap_manager.cc:183-197 | an unknown process is a no-op; otherwise exactly its listed ids and its entry go, other processes' lists and all remaining records are untouched, and a repeated call changes nothing |
| `SharedBitmapManager.RemoveProcessCount` | content/common/host_shared_bitmap_manager.cc:191-196 | with consistent maps the count drops by exactly the number of ids the process owned, and every record owned by another process survives |
| `SharedBitmapManager.RemoveProcessKeepsInvariants` | content/common/host_shared_bitmap_manager.cc:194-196 | removing a process keeps `Tracked` and `Consistent` and leaves no shared-memory record of that process behind |
| `SharedBitmapManager.HostSharedBitmapManager.AllocatedBitmapCount` | content/common/host_shared_bitmap_manager.cc:199-202 | returns the number of registered bitmaps |
| `SharedBitmapManager.HostSharedBitmapManager.FreeSharedMemoryFromMap` | content/common/host_shared_bitmap_manager.cc:204-208 | erases the id from `handle_map_` only; keeps `Tracked`, and keeps `Consistent` when the id is absent or names a host-local buffer |
| `SharedBitmapManager.FreeFromMapOutcome` | content/common/host_shared_bitmap_manager.cc:204-208 | `process_map_` is untouched, the count drops by one iff the id was registered, and the invariants are kept under the same conditions |
| `SharedBitmapManager.ReleaseAfterReannouncementBreaksConsistency` | content/common/host_shared_bitmap_manager.cc:207 | allocate, delete as a child, re-announce by a child, release: the last step leaves the child's id listed with no record |
| `SharedBitmapManager.ChildBitmapScenario` | content/common/host_shared_bitmap_manager.cc:183-197 | a bitmap allocated for process 42 is found by lookup until process 42 is removed, and not afterwards |
| `SharedBitmapManager.LocalBitmapScenario` | content/common/host_shared_bitmap_manager.cc:43-46 | allocating a host bitmap makes the count 1; destroying its handle brings it to 0 and the id is no longer found |
| `BezelGestures.ShouldProcessGesture` | athena/wm/bezel_controller.cc:24-29 | true exactly for the four gesture kinds begin, end, scroll begin and scroll update |
| `BezelGestures.GetBezel` | athena/wm/bezel_controller.cc:83-92 | left iff x < 20; right iff x >= 20 and x > width - 20; none iff 20 <= x <= width - 20 (left wins when both edges apply) |
| `BezelGestures.BezelController.constructor` | athena/wm/bezel_controller.cc:51-57 | starts in NONE with no bezel, no target, no delegate and an empty trace |
| `BezelGestures.BezelController.SetState` | athena/wm/bezel_controller.cc:59-64 | behaves as `SetStateWithDelta` with delta 0 and keeps the trace in phase |
| `BezelGestures.BezelController.SetStateWithDelta` | athena/wm/bezel_controller.cc:66-80 | the new fields and trace are those of `SetStateReaction`; a scroll is open in the trace iff the state is two-finger scrolling |
| `BezelGestures.SetStateOutcome` | athena/wm/bezel_controller.cc:66-80 | no delegate or the same state: nothing happens; otherwise the state becomes the target, ScrollBegin (current bezel, delta) is called exactly on entering two-finger scrolling and ScrollEnd exactly on leaving it, entering NONE clears bezel and target, and other states keep them |
| `BezelGestures.SetStateKeepsPhase` | athena/wm/bezel_controller.cc:71-75 | after SetState, a scroll is open in the trace exactly when the state is two-finger scrolling |
| `BezelGestures.BezelController.OnGestureEvent` | athena/wm/bezel_controller.cc:94-187 | the new fields, trace, handled flag and CHECK outcome are those of `GestureReaction`; keeps the controller coherent |
| `BezelGestures.GestureIgnored` | athena/wm/bezel_controller.cc:101-109 | no delegate, an unprocessed kind, or a target other than the recorded one: nothing changes and nothing is called |
| `BezelGestures.GestureBeginOutcome` | athena/wm/bezel_controller.cc:120-154 | more than 2 points give IGNORE; from NONE the bezel and target are recorded and the state becomes STARTED for a left/right bezel, IGNORE otherwise; in STARTED or ONE_FINGER another bezel gives IGNORE and ONE_FINGER becomes TWO_FINGERS; IGNORE and TWO_FINGERS are unchanged |
| `BezelGestures.GestureEndOutcome` | athena/wm/bezel_controller.cc:155-164 | no-op in NONE; otherwise the CHECK fails iff no target is recorded (nothing changes), one point returns to NONE with bezel and target cleared, more points give IGNORE |
| `BezelGestures.ScrollEventsOutcome` | athena/wm/bezel_controller.cc:165-186 | scroll begin acts only in STARTED (1 point: ONE_FINGER, else TWO_FINGERS with ScrollBegin carrying the delta); scroll update calls ScrollUpdate(delta) only in TWO_FINGERS; handled iff the delegate is reached and can scroll |
| `BezelGestures.GestureCallsAtTwoFingerBoundary` | athena/wm/bezel_controller.cc:71-74 | each event makes at most one call: ScrollBegin exactly on entering two-finger scrolling, ScrollEnd exactly on leaving it, ScrollUpdate only while in it |
| `BezelGestures.IgnoreLeftOnlyByOneFingerEnd` | athena/wm/bezel_controller.cc:120-186 | IGNORE_CURRENT_SCROLL is left only through an end event with one touch point, into NONE |
| `BezelGestures.GestureKeepsTracking` | athena/wm/bezel_controller.cc:126-149 | while a bezel gesture is followed it has a left or right bezel and a target |
| `BezelGestures.GestureKeepsCoherent` | athena/wm/bezel_controller.cc:94-187 | every event keeps the trace phase equal to the state's and keeps the tracking facts |
| `BezelGestures.ScrollBeginNamesAnEdge` | athena/wm/bezel_controller.cc:71-72 | in a coherent controller every ScrollBegin names the left or right bezel |
| `BezelGestures.ReplayKeepsCoherent` | athena/wm/bezel_controller.cc:94-187 | any sequence of events and delegate changes keeps the controller and its merged trace coherent |
| `BezelGestures.PhaseMeansAlternation` | athena/wm/bezel_controller.cc:71-74 | a trace is in order iff its begin and end calls strictly alternate and its updates all fall inside scrolls; a scroll is open iff an odd number of begin and end calls were made |
| `BezelGestures.BeginAndEndAlternate` | athena/wm/bezel_controller.cc:71-74 | from a new controller, whatever the inputs, begin and end calls in the controller's merged trace strictly alternate, updates fall inside scrolls, and a scroll is open exactly in two-finger scrolling |
| `BezelGestures.CrowdedBeginThenEndFailsCheck` | athena/wm/bezel_controller.cc:120-164 | a begin with 3 points from NONE gives IGNORE with no target, and the following end fails `CHECK(scroll_target_)` |

## Left out

- The lock (`lock_`, `AutoLock`): each registry operation is one atomic step.
- Thread-safe reference counting of `BitmapData`: the lifetime of the memory is not modelled. The registry entry and the record a handle shares are what the model keeps.
- The `LazyInstance` singleton (`current()`) is not modelled.
- The destructor's `DCHECK(handle_map_.empty())` is not modelled.
- Pixel contents and the `memory()` accessor of the returned bitmap are not modelled.
- `cc::SharedBitmap::SizeInBytes` is not part of this model. It is an opaque partial function, the manager's `sizeInBytes` field.
- `cc::SharedBitmap::GenerateId` is not part of this model. It is replaced by a choice of any unregistered id.
- `CreateAndMapAnonymous`, `Map` and `ShareToProcess` are success/failure inputs. A mapping failure leaves the record unmapped.
- `Close` and the platform handle passed to `ChildAllocatedSharedBitmap` are not modelled. The Windows-only constructor variant is not modelled either.
- Error logging is not modelled.
- `GetDistance`, `GetDisplay` and `ConvertPointToScreen` do screen geometry. The distance from the current bezel and the screen width are inputs of each event.
- Floating-point rounding of locations is not modelled: they are `real`.
- `CanScroll` is an input answered by the delegate. `SetHandled` is the `handled` output.
- `DCHECK` and `NOTREACHED` are not modelled (release behaviour). `CHECK(scroll_target_)` is modelled as the `checkFailed` output with the fields left unchanged. The model does not stop after it, as the aborted process would.
- Event targets are never null in the model.
- `left_right_delegate_` is modelled only as present or absent. The trace merges the calls made on successive delegates, so alternation is proved per controller, not per delegate.
- `bezel_controller.h` is not part of this model. The delegate setter is `SetLeftRightDelegate`. The `Bezel` enumeration is limited to the three values this file uses.
- The other files of the repository are outside this model: the image-editor viewport, synthetic gesture dispatch, permission metrics, unit tests of components not modelled here, and declaration-only headers.
