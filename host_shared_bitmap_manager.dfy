/**
 * The host-side registry of shared bitmaps (content::HostSharedBitmapManager).
 *
 * The registry keeps two maps: `handle_map_` from bitmap id to the record of
 * the buffer (owner process, byte capacity, and either a host-local pixel
 * buffer or a shared-memory region), and `process_map_` from owner process to
 * the ids announced by or allocated for that process.  Every operation runs
 * under one lock, so each is modelled as one atomic step on the class's two
 * map fields.  The pure functions on `Registry` below say what each step does
 * to the pair of maps; the lemmas say what that means.
 */
module SharedBitmapManager {

  /** cc::SharedBitmapId: an opaque, comparable name. */
  type BitmapId = nat

  /** base::ProcessHandle, used only to group ids by owner. */
  type ProcessHandle = int

  datatype Option<T> = None | Some(value: T)

  /** gfx::Size, the requested bitmap dimensions. */
  datatype Size = Size(width: int, height: int)

  /** Where a record's bytes live. */
  datatype Storage =
    | Pixels                      // host-local buffer allocated with new uint8[]
    | SharedMemory(mapped: bool)  // base::SharedMemory; `mapped` iff memory() is non-null

  /** BitmapData: the record shared by the map entry and every handle on it. */
  datatype BitmapData = BitmapData(processHandle: ProcessHandle, bufferSize: nat, storage: Storage)

  /** base::SharedMemoryHandle as handed to a child process. */
  datatype SharedMemoryHandle = NullHandle | Handle(value: nat)

  /** The registry's whole state: `handle_map_` and `process_map_`. */
  datatype Registry = Registry(handles: map<BitmapId, BitmapData>, processes: map<ProcessHandle, set<BitmapId>>)

  /** The number of live bitmaps (AllocatedBitmapCount). */
  function Count(r: Registry): nat {
    |r.handles|
  }

  /** The ids listed under `p`; `process_map_[p]` reads an empty set for an absent key. */
  function IdsOf(r: Registry, p: ProcessHandle): set<BitmapId> {
    if p in r.processes then r.processes[p] else {}
  }

  /**
   * Every shared-memory record is listed under its owner, so removing the
   * owner's process reaches it.  This holds in every reachable state.
   */
  ghost predicate Tracked(r: Registry) {
    forall id :: id in r.handles && r.handles[id].storage.SharedMemory? ==>
      id in IdsOf(r, r.handles[id].processHandle)
  }

  /**
   * The two-map consistency: every id listed under a process is a live
   * shared-memory record owned by that process.
   */
  ghost predicate Consistent(r: Registry) {
    forall p, id :: p in r.processes && id in r.processes[p] ==>
      id in r.handles && r.handles[id].processHandle == p && r.handles[id].storage.SharedMemory?
  }

  /**
   * AllocateSharedBitmap: `bitmapSize` is the result of SizeInBytes, `id` the
   * one GenerateId returned, `host` the current process.
   */
  function AllocateLocal(r: Registry, bitmapSize: Option<nat>, id: BitmapId, host: ProcessHandle): Registry {
    if bitmapSize.None? then r
    else r.(handles := r.handles[id := BitmapData(host, bitmapSize.value, Pixels)])
  }

  /** Records a shared-memory bitmap under `id` in both maps. */
  function InsertShared(r: Registry, owner: ProcessHandle, bufferSize: nat, id: BitmapId, mapped: bool): Registry {
    Registry(r.handles[id := BitmapData(owner, bufferSize, SharedMemory(mapped))],
             r.processes[owner := IdsOf(r, owner) + {id}])
  }

  /** ChildAllocatedSharedBitmap: `mapped` is whether Map succeeded. */
  function ChildAllocated(r: Registry, bufferSize: nat, owner: ProcessHandle, id: BitmapId, mapped: bool): Registry {
    if id in r.handles then r else InsertShared(r, owner, bufferSize, id, mapped)
  }

  /**
   * AllocateSharedBitmapForChild: `created` is whether CreateAndMapAnonymous
   * succeeded.  Whether sharing succeeds does not change the registry.
   */
  function AllocateForChild(r: Registry, owner: ProcessHandle, bufferSize: nat, id: BitmapId, created: bool): Registry {
    if id in r.handles || !created then r else InsertShared(r, owner, bufferSize, id, true)
  }

  /**
   * ChildDeletedSharedBitmap.  The owner's set is written back even when it
   * becomes empty, and is created when it was absent.
   */
  function ChildDeleted(r: Registry, id: BitmapId): Registry {
    if id !in r.handles then r
    else
      var owner := r.handles[id].processHandle;
      Registry(r.handles - {id}, r.processes[owner := IdsOf(r, owner) - {id}])
  }

  /** ProcessRemoved: drops the process entry and every id listed under it. */
  function RemoveProcess(r: Registry, p: ProcessHandle): Registry {
    if p !in r.processes then r
    else Registry(r.handles - r.processes[p], r.processes - {p})
  }

  /** FreeSharedMemoryFromMap: erases the id from `handle_map_` only. */
  function FreeFromMap(r: Registry, id: BitmapId): Registry {
    r.(handles := r.handles - {id})
  }

  /** Removing registered ids from `handle_map_` shrinks it by exactly their number. */
  lemma RemoveKeysCount<V>(m: map<BitmapId, V>, ids: set<BitmapId>)
    requires ids <= m.Keys
    ensures |m - ids| == |m| - |ids|
  {
  }

  /**
   * AllocateSharedBitmap: a failed size computation changes nothing; otherwise
   * exactly one new id holding a host-local buffer of the computed size and
   * owned by the host appears in `handle_map_`, and `process_map_` is untouched.
   */
  lemma AllocateLocalOutcome(r: Registry, bitmapSize: Option<nat>, id: BitmapId, host: ProcessHandle)
    requires id !in r.handles
    ensures bitmapSize.None? ==> AllocateLocal(r, bitmapSize, id, host) == r
    ensures bitmapSize.Some? ==>
      var r' := AllocateLocal(r, bitmapSize, id, host);
      && r'.handles.Keys == r.handles.Keys + {id}
      && r'.handles[id] == BitmapData(host, bitmapSize.value, Pixels)
      && (forall other :: other in r.handles ==> r'.handles[other] == r.handles[other])
      && r'.processes == r.processes
      && Count(r') == Count(r) + 1
  {
  }

  /** A host-local allocation under a fresh id keeps both invariants. */
  lemma AllocateLocalKeepsInvariants(r: Registry, bitmapSize: Option<nat>, id: BitmapId, host: ProcessHandle)
    requires id !in r.handles
    ensures Tracked(r) ==> Tracked(AllocateLocal(r, bitmapSize, id, host))
    ensures Consistent(r) ==> Consistent(AllocateLocal(r, bitmapSize, id, host))
  {
    if bitmapSize.Some? {
      var r' := AllocateLocal(r, bitmapSize, id, host);
      assert r'.handles == r.handles[id := BitmapData(host, bitmapSize.value, Pixels)];
      if Tracked(r) {
        forall other | other in r'.handles && r'.handles[other].storage.SharedMemory?
          ensures other in IdsOf(r', r'.handles[other].processHandle)
        {
          assert other != id && r'.handles[other] == r.handles[other];
        }
      }
      if Consistent(r) {
        forall q, other | q in r'.processes && other in r'.processes[q]
          ensures other in r'.handles && r'.handles[other] == r.handles[other]
        {
          assert other in r.handles;
        }
      }
    }
  }

  /** Releasing the handle of a host-local allocation restores the registry exactly. */
  lemma AllocateThenReleaseRestores(r: Registry, bitmapSize: nat, id: BitmapId, host: ProcessHandle)
    requires id !in r.handles
    ensures FreeFromMap(AllocateLocal(r, Some(bitmapSize), id, host), id) == r
    ensures Count(FreeFromMap(AllocateLocal(r, Some(bitmapSize), id, host), id)) == Count(r)
  {
    assert r.handles[id := BitmapData(host, bitmapSize, Pixels)] - {id} == r.handles;
  }

  /**
   * ChildAllocatedSharedBitmap: a known id changes nothing; a new one is
   * recorded in `handle_map_` and listed under the announcing process, whether
   * or not the mapping succeeded.
   */
  lemma ChildAllocatedOutcome(r: Registry, bufferSize: nat, owner: ProcessHandle, id: BitmapId, mapped: bool)
    ensures id in r.handles ==> ChildAllocated(r, bufferSize, owner, id, mapped) == r
    ensures id !in r.handles ==>
      var r' := ChildAllocated(r, bufferSize, owner, id, mapped);
      && r'.handles == r.handles[id := BitmapData(owner, bufferSize, SharedMemory(mapped))]
      && owner in r'.processes && IdsOf(r', owner) == IdsOf(r, owner) + {id}
      && (forall q :: q != owner ==> IdsOf(r', q) == IdsOf(r, q))
      && Count(r') == Count(r) + 1
    ensures Tracked(r) ==> Tracked(ChildAllocated(r, bufferSize, owner, id, mapped))
    ensures Consistent(r) ==> Consistent(ChildAllocated(r, bufferSize, owner, id, mapped))
  {
  }

  /** A repeated announcement of the same id changes nothing: the first one wins. */
  lemma ChildAllocatedIdempotent(r: Registry, bufferSize: nat, owner: ProcessHandle, id: BitmapId, mapped: bool,
                                 bufferSize': nat, owner': ProcessHandle, mapped': bool)
    ensures var once := ChildAllocated(r, bufferSize, owner, id, mapped);
            ChildAllocated(once, bufferSize', owner', id, mapped') == once
  {
  }

  /**
   * AllocateSharedBitmapForChild: a known id or a failed creation changes
   * nothing; otherwise the new mapped region is recorded in both maps, and it
   * stays there even when sharing it with the child then fails.
   */
  lemma AllocateForChildOutcome(r: Registry, owner: ProcessHandle, bufferSize: nat, id: BitmapId, created: bool)
    ensures id in r.handles || !created ==> AllocateForChild(r, owner, bufferSize, id, created) == r
    ensures id !in r.handles && created ==>
      var r' := AllocateForChild(r, owner, bufferSize, id, created);
      && r'.handles == r.handles[id := BitmapData(owner, bufferSize, SharedMemory(true))]
      && owner in r'.processes && IdsOf(r', owner) == IdsOf(r, owner) + {id}
      && (forall q :: q != owner ==> IdsOf(r', q) == IdsOf(r, q))
      && Count(r') == Count(r) + 1
    ensures Tracked(r) ==> Tracked(AllocateForChild(r, owner, bufferSize, id, created))
    ensures Consistent(r) ==> Consistent(AllocateForChild(r, owner, bufferSize, id, created))
  {
  }

  /**
   * ChildDeletedSharedBitmap: an unknown id changes nothing; a known one leaves
   * `handle_map_` and its owner's set, the count drops by exactly one, the
   * owner keeps an entry (possibly empty) in `process_map_`, and a repeated
   * call changes nothing.
   */
  lemma ChildDeletedOutcome(r: Registry, id: BitmapId)
    ensures id !in r.handles ==> ChildDeleted(r, id) == r
    ensures id in r.handles ==>
      var owner := r.handles[id].processHandle;
      var r' := ChildDeleted(r, id);
      && r'.handles == r.handles - {id}
      && Count(r') == Count(r) - 1
      && owner in r'.processes && IdsOf(r', owner) == IdsOf(r, owner) - {id}
      && (forall q :: q != owner ==> IdsOf(r', q) == IdsOf(r, q))
    ensures ChildDeleted(ChildDeleted(r, id), id) == ChildDeleted(r, id)
    ensures Tracked(r) ==> Tracked(ChildDeleted(r, id))
    ensures Consistent(r) ==> Consistent(ChildDeleted(r, id)) && forall q :: id !in IdsOf(ChildDeleted(r, id), q)
  {
    if id in r.handles {
      RemoveKeysCount(r.handles, {id});
    }
  }

  /**
   * ProcessRemoved: an unknown process changes nothing; otherwise exactly the
   * ids listed under it leave `handle_map_`, its entry leaves `process_map_`,
   * every other process's list and every remaining record are untouched, and
   * a repeated call changes nothing.
   */
  lemma RemoveProcessOutcome(r: Registry, p: ProcessHandle)
    ensures p !in r.processes ==> RemoveProcess(r, p) == r
    ensures p in r.processes ==>
      var r' := RemoveProcess(r, p);
      && r'.handles.Keys == r.handles.Keys - r.processes[p]
      && p !in r'.processes
      && (forall q :: q != p ==> IdsOf(r', q) == IdsOf(r, q))
    ensures forall id :: id in RemoveProcess(r, p).handles ==> RemoveProcess(r, p).handles[id] == r.handles[id]
    ensures RemoveProcess(RemoveProcess(r, p), p) == RemoveProcess(r, p)
  {
  }

  /**
   * With consistent maps, ProcessRemoved drops the count by exactly the number
   * of ids the process owned, and every record owned by another process
   * survives.
   */
  lemma RemoveProcessCount(r: Registry, p: ProcessHandle)
    requires Consistent(r)
    ensures Count(RemoveProcess(r, p)) == Count(r) - |IdsOf(r, p)|
    ensures forall id :: id in r.handles && r.handles[id].processHandle != p ==> id in RemoveProcess(r, p).handles
  {
    if p in r.processes {
      assert r.processes[p] <= r.handles.Keys;
      RemoveKeysCount(r.handles, r.processes[p]);
    }
  }

  /**
   * ProcessRemoved keeps both invariants, and leaves no shared-memory record
   * owned by the removed process behind.
   */
  lemma RemoveProcessKeepsInvariants(r: Registry, p: ProcessHandle)
    ensures Tracked(r) ==>
      && Tracked(RemoveProcess(r, p))
      && forall id :: id in RemoveProcess(r, p).handles && RemoveProcess(r, p).handles[id].storage.SharedMemory? ==>
           RemoveProcess(r, p).handles[id].processHandle != p
    ensures Consistent(r) ==> Consistent(RemoveProcess(r, p))
  {
    var r' := RemoveProcess(r, p);
    if p in r.processes {
      assert r'.handles == r.handles - r.processes[p] && r'.processes == r.processes - {p};
      if Tracked(r) {
        forall id | id in r'.handles && r'.handles[id].storage.SharedMemory?
          ensures r'.handles[id].processHandle != p && id in IdsOf(r', r'.handles[id].processHandle)
        {
          assert r'.handles[id] == r.handles[id] && id !in r.processes[p];
        }
      }
      if Consistent(r) {
        forall q, id | q in r'.processes && id in r'.processes[q]
          ensures id in r'.handles && r'.handles[id] == r.handles[id]
        {
          assert q != p && id in r.processes[q] && r.handles[id].processHandle == q;
        }
      }
    }
  }

  /**
   * FreeSharedMemoryFromMap erases only from `handle_map_`.  It keeps the
   * maps consistent when the id is absent or still names a host-local buffer,
   * which is what a handle from AllocateSharedBitmap erases unless its id was
   * deleted and announced again by a child in between.
   */
  lemma FreeFromMapOutcome(r: Registry, id: BitmapId)
    ensures FreeFromMap(r, id).handles == r.handles - {id}
    ensures FreeFromMap(r, id).processes == r.processes
    ensures Count(FreeFromMap(r, id)) == if id in r.handles then Count(r) - 1 else Count(r)
    ensures Tracked(r) ==> Tracked(FreeFromMap(r, id))
    ensures Consistent(r) && (id in r.handles ==> r.handles[id].storage.Pixels?) ==> Consistent(FreeFromMap(r, id))
  {
    if id in r.handles {
      RemoveKeysCount(r.handles, {id});
    }
  }

  /**
   * The one way the maps fall out of step: a host-local bitmap is deleted as if
   * a child owned it, its id is announced again by a child, and then the
   * original handle is released.  The child's id stays listed in
   * `process_map_` with no record in `handle_map_`.
   */
  lemma ReleaseAfterReannouncementBreaksConsistency()
    ensures
      var empty := Registry(map[], map[]);
      var local := AllocateLocal(empty, Some(64), 7, 1);
      var deleted := ChildDeleted(local, 7);
      var announced := ChildAllocated(deleted, 64, 2, 7, true);
      var released := FreeFromMap(announced, 7);
      && Consistent(announced)
      && 7 in IdsOf(released, 2) && 7 !in released.handles
      && !Consistent(released)
  {
    var local := AllocateLocal(Registry(map[], map[]), Some(64), 7, 1);
    var deleted := ChildDeleted(local, 7);
    var announced := ChildAllocated(deleted, 64, 2, 7, true);
    assert 7 in local.handles;
    assert deleted.handles == map[] && deleted.processes.Keys == {1} && deleted.processes[1] == {};
    assert announced.handles == map[7 := BitmapData(2, 64, SharedMemory(true))];
    assert announced.processes.Keys == {1, 2} && announced.processes[1] == {} && announced.processes[2] == {7};
    assert 7 in FreeFromMap(announced, 7).processes[2];
  }

  /** A natural number above every element of `s`. */
  ghost function Bound(s: set<nat>): (b: nat)
    ensures forall x :: x in s ==> x < b
    decreases s
  {
    if s == {} then 0
    else
      var x :| x in s;
      var rest := Bound(s - {x});
      assert forall y :: y in s ==> y == x || y in s - {x};
      if rest <= x then x + 1 else rest
  }

  /** The handle a caller receives (cc::SharedBitmap); `manager` is `manager_`. */
  datatype HostSharedBitmap = HostSharedBitmap(id: BitmapId, data: BitmapData, manager: HostSharedBitmapManager?)

  class HostSharedBitmapManager {
    var handleMap: map<BitmapId, BitmapData>
    var processMap: map<ProcessHandle, set<BitmapId>>

    /** base::GetCurrentProcessHandle(). */
    const currentProcess: ProcessHandle

    /**
     * cc::SharedBitmap::SizeInBytes: the byte size of a bitmap of the given
     * dimensions, or None when it cannot be computed.
     */
    const sizeInBytes: Size -> Option<nat>

    function Snapshot(): Registry
      reads this
    {
      Registry(handleMap, processMap)
    }

    /** The invariant every operation keeps. */
    ghost predicate Valid()
      reads this
    {
      Tracked(Snapshot())
    }

    constructor (currentProcess: ProcessHandle, sizeInBytes: Size -> Option<nat>)
      ensures Valid() && Consistent(Snapshot())
      ensures Count(Snapshot()) == 0 && processMap == map[]
      ensures this.currentProcess == currentProcess && this.sizeInBytes == sizeInBytes
    {
      handleMap := map[];
      processMap := map[];
      this.currentProcess := currentProcess;
      this.sizeInBytes := sizeInBytes;
    }

    /** cc::SharedBitmap::GenerateId: some id not currently registered. */
    method GenerateId() returns (id: BitmapId)
      ensures id !in handleMap
    {
      ghost var unused := Bound(handleMap.Keys);
      assert unused !in handleMap;
      id :| id !in handleMap;
    }

    method AllocateSharedBitmap(size: Size) returns (bitmap: Option<HostSharedBitmap>)
      requires Valid()
      modifies this
      ensures Valid()
      ensures old(Consistent(Snapshot())) ==> Consistent(Snapshot())
      ensures bitmap.None? <==> sizeInBytes(size).None?
      ensures bitmap.Some? ==>
        && bitmap.value.id !in old(handleMap)
        && bitmap.value.manager == this
        && bitmap.value.data == BitmapData(currentProcess, sizeInBytes(size).value, Pixels)
      ensures Snapshot() == AllocateLocal(old(Snapshot()), sizeInBytes(size),
                                          if bitmap.Some? then bitmap.value.id else 0, currentProcess)
    {
      var bitmapSize := sizeInBytes(size);
      if bitmapSize.None? {
        return None;
      }
      var data := BitmapData(currentProcess, bitmapSize.value, Pixels);
      var id := GenerateId();
      handleMap := handleMap[id := data];
      return Some(HostSharedBitmap(id, data, this));
    }

    method GetSharedBitmapFromId(size: Size, id: BitmapId) returns (bitmap: Option<HostSharedBitmap>)
      ensures bitmap.Some? <==>
        && id in handleMap
        && sizeInBytes(size).Some?
        && sizeInBytes(size).value <= handleMap[id].bufferSize
        && (handleMap[id].storage.Pixels? || handleMap[id].storage.mapped)
      ensures bitmap.Some? ==> bitmap.value == HostSharedBitmap(id, handleMap[id], null)
    {
      if id !in handleMap {
        return None;
      }
      var data := handleMap[id];
      var bitmapSize := sizeInBytes(size);
      if bitmapSize.None? || bitmapSize.value > data.bufferSize {
        return None;
      }
      if data.storage.Pixels? {
        return Some(HostSharedBitmap(id, data, null));
      }
      if !data.storage.mapped {
        return None;
      }
      return Some(HostSharedBitmap(id, data, null));
    }

    method ChildAllocatedSharedBitmap(bufferSize: nat, processHandle: ProcessHandle, id: BitmapId, mapSucceeds: bool)
      requires Valid()
      modifies this
      ensures Valid()
      ensures old(Consistent(Snapshot())) ==> Consistent(Snapshot())
      ensures Snapshot() == ChildAllocated(old(Snapshot()), bufferSize, processHandle, id, mapSucceeds)
    {
      if id in handleMap {
        return;
      }
      handleMap := handleMap[id := BitmapData(processHandle, bufferSize, SharedMemory(false))];
      processMap := processMap[processHandle := IdsOf(Snapshot(), processHandle) + {id}];
      // Map(buffer_size) either maps the region or leaves memory() null.
      handleMap := handleMap[id := handleMap[id].(storage := SharedMemory(mapSucceeds))];
    }

    method AllocateSharedBitmapForChild(processHandle: ProcessHandle, bufferSize: nat, id: BitmapId,
                                        createSucceeds: bool, shareResult: Option<nat>)
      returns (sharedMemoryHandle: SharedMemoryHandle)
      requires Valid()
      modifies this
      ensures Valid()
      ensures old(Consistent(Snapshot())) ==> Consistent(Snapshot())
      ensures sharedMemoryHandle ==
        if id in old(handleMap) || !createSucceeds || shareResult.None? then NullHandle
        else Handle(shareResult.value)
      ensures Snapshot() == AllocateForChild(old(Snapshot()), processHandle, bufferSize, id, createSucceeds)
    {
      if id in handleMap {
        return NullHandle;
      }
      if !createSucceeds {
        return NullHandle;
      }
      handleMap := handleMap[id := BitmapData(processHandle, bufferSize, SharedMemory(true))];
      processMap := processMap[processHandle := IdsOf(Snapshot(), processHandle) + {id}];
      if shareResult.None? {
        return NullHandle;
      }
      return Handle(shareResult.value);
    }

    method ChildDeletedSharedBitmap(id: BitmapId)
      requires Valid()
      modifies this
      ensures Valid()
      ensures old(Consistent(Snapshot())) ==> Consistent(Snapshot())
      ensures Snapshot() == ChildDeleted(old(Snapshot()), id)
    {
      if id !in handleMap {
        return;
      }
      var owner := handleMap[id].processHandle;
      var res := IdsOf(Snapshot(), owner);
      processMap := processMap[owner := res - {id}];
      handleMap := handleMap - {id};
    }

    method ProcessRemoved(processHandle: ProcessHandle)
      requires Valid()
      modifies this
      ensures Valid()
      ensures old(Consistent(Snapshot())) ==> Consistent(Snapshot())
      ensures Snapshot() == RemoveProcess(old(Snapshot()), processHandle)
      ensures forall id :: id in handleMap && handleMap[id].storage.SharedMemory? ==>
        handleMap[id].processHandle != processHandle
    {
      if processHandle !in processMap {
        return;
      }
      var res := processMap[processHandle];
      var rest := res;
      ghost var erased: set<BitmapId> := {};
      while rest != {}
        invariant rest <= res && erased == res - rest
        invariant handleMap == old(handleMap) - erased
        invariant processMap == old(processMap)
        decreases rest
      {
        var id :| id in rest;
        handleMap := handleMap - {id};
        rest := rest - {id};
        assert old(handleMap) - erased - {id} == old(handleMap) - (erased + {id});
        erased := erased + {id};
      }
      assert erased == res;
      processMap := processMap - {processHandle};
      RemoveProcessKeepsInvariants(old(Snapshot()), processHandle);
    }

    method AllocatedBitmapCount() returns (count: nat)
      ensures count == Count(Snapshot())
    {
      count := |handleMap|;
    }

    method FreeSharedMemoryFromMap(id: BitmapId)
      requires Valid()
      modifies this
      ensures Valid()
      ensures old(Consistent(Snapshot())) && (id in old(handleMap) ==> old(handleMap)[id].storage.Pixels?) ==>
        Consistent(Snapshot())
      ensures Snapshot() == FreeFromMap(old(Snapshot()), id)
    {
      handleMap := handleMap - {id};
    }
  }

  /** ~HostSharedBitmap: only a handle carrying a manager erases its id. */
  method DestroyHostSharedBitmap(bitmap: HostSharedBitmap)
    requires bitmap.manager != null ==> bitmap.manager.Valid()
    modifies bitmap.manager
    ensures bitmap.manager != null ==> bitmap.manager.Valid()
    ensures bitmap.manager != null && old(Consistent(bitmap.manager.Snapshot())) &&
            (bitmap.id in old(bitmap.manager.handleMap) ==> old(bitmap.manager.handleMap)[bitmap.id].storage.Pixels?) ==>
      Consistent(bitmap.manager.Snapshot())
    ensures bitmap.manager != null ==>
      bitmap.manager.Snapshot() == FreeFromMap(old(bitmap.manager.Snapshot()), bitmap.id)
  {
    if bitmap.manager != null {
      bitmap.manager.FreeSharedMemoryFromMap(bitmap.id);
    }
  }

  /**
   * A bitmap allocated for a child can be looked up until the child's process
   * is removed, and not afterwards.
   */
  method ChildBitmapScenario() returns (foundBefore: bool, foundAfter: bool)
    ensures foundBefore && !foundAfter
  {
    var manager := new HostSharedBitmapManager(1, (s: Size) => if s == Size(5, 5) then Some(100) else None);
    var handle := manager.AllocateSharedBitmapForChild(42, 100, 9, true, Some(3));
    var bitmap := manager.GetSharedBitmapFromId(Size(5, 5), 9);
    foundBefore := bitmap.Some?;
    manager.ProcessRemoved(42);
    bitmap := manager.GetSharedBitmapFromId(Size(5, 5), 9);
    foundAfter := bitmap.Some?;
  }

  /**
   * Releasing the handle of a host-local allocation brings the count back and
   * makes its id unknown.
   */
  method LocalBitmapScenario() returns (countWhileHeld: nat, countAfter: nat, foundAfter: bool)
    ensures countWhileHeld == 1 && countAfter == 0 && !foundAfter
  {
    var manager := new HostSharedBitmapManager(1, (s: Size) => if s == Size(4, 4) then Some(64) else None);
    var bitmap := manager.AllocateSharedBitmap(Size(4, 4));
    countWhileHeld := manager.AllocatedBitmapCount();
    DestroyHostSharedBitmap(bitmap.value);
    countAfter := manager.AllocatedBitmapCount();
    var again := manager.GetSharedBitmapFromId(Size(4, 4), bitmap.value.id);
    foundAfter := again.Some?;
  }
}
