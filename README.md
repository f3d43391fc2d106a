# Named locks and query-parameter updates, modelled in Dafny

This project models two parts of the Trickster proxy.

**The named-lock registry (`pkg/locks/locks.go`).** A `namedLocker` maps lock
names to `namedLock` entries. Each entry holds:

- a reference count (`queueSize`);
- a pending-writer flag (`writeLockMode`);
- a lifetime count of exclusive grants (`writeLockCount`);
- an embedded RWMutex.

An entry is created on the first acquire of its name. It is removed when its
count returns to zero. `Upgrade` turns a shared hold into an exclusive one on
the same entry.

The model has two layers:

- `LockModel` (lock_model.dfy) treats the registry as a value
  (`map<string, Entry>`).
  - The RWMutex becomes holder accounting: `readers`, `writers`, and
    `waitingReaders`/`waitingWriters` for callers that are counted in but not
    yet granted, by the mode they asked for.
  - The registry moves by fine-grained steps (request, grant, release) that may
    interleave between callers. A request counts the caller in and stores its
    mode flag in one step, and a release clears the flag, decrements the count
    and removes an emptied entry in one step; "## Left out" says which Go runs
    this excludes.
  - Every public call is a fixed sequence of these steps, or one transition
    defined from the same per-entry functions.
  - The invariant is proved for every interleaving of steps: each entry is keyed
    by its own non-empty name, its count is positive and equals its
    participants, a writer excludes readers and other writers, and a raised
    pending-writer flag means a writer is waiting or holding.
  - The ordering properties of `Upgrade` are proved here.
- `Locks` (locks.dfy) has the classes `NamedLocker` and `NamedLock`. Their
  fields are updated in place by methods with `modifies` clauses. Each public
  call is one atomic method.
  - A blocking `Lock()`/`RLock()` becomes the precondition of its grant. A
    write grant needs no holder; a read grant needs no writer.
  - `Upgrade` runs one of the orders of effects the Go code allows: count the
    write intent, raise the flag, call `RRelease`, then take the exclusive
    grant. In the Go code the helper task signals the caller after the count
    and before the flag store, so the flag may also be raised after `RRelease`.
  - Each method's postcondition gives the touched entry as the `LockModel`
    transition of the same name applied to the entry before the call. It gives
    the registry map as the insertion or deletion of that one name. The
    `modifies` clause leaves every other entry as it was.
  - `ValidIsRegistryInv` links the object invariant to `LockModel.RegistryInv`
    of the registry value `Abs()`.

**Query-parameter updates (`pkg/proxy/params/params.go`, `UpdateParams`).**
`url.Values` is a `QueryValues` object holding `map<string, seq<string>>`.
`Del`, `Add` and `Set` are its methods. `UpdateParams` loops over the updates,
which are given as a sequence of (key, value) pairs. The loop invariant says
the collection equals the fold `ApplyAll` over the updates processed so far.
The first character of each key selects the action:

- `-k` deletes `k`;
- `+k` appends to `k`;
- any other non-empty key replaces its values;
- an empty key is skipped.

The lemmas cover several facts:

- the one-character prefix rule;
- keys that no update names;
- which update decides a key's final value;
- skipped empty keys;
- when two updates can be visited in either order.

`wrappers.dfy` holds the `Option` type used for error returns.

## Model

| member | source | states |
|---|---|---|
| Locks.NamedLocker.constructor | pkg/locks/locks.go:36-41 | a new locker has an empty map and satisfies the registry invariant |
| Locks.NamedLock.constructor | pkg/locks/locks.go:52-58 | a new entry has its name and locker, count 0, flag off, no grants and no holder |
| Locks.NamedLocker.Find | pkg/locks/locks.go:154-159 | find-or-create: returns the entry registered under the name (same object) or a fresh one, now inserted under that name, with the prior entry value (or a fresh one) |
| Locks.NamedLocker.Acquire | pkg/locks/locks.go:149-168 | an empty name gives InvalidLockName, returns null and changes nothing; otherwise the entry found or created under the name (same object, or fresh if absent) becomes `Acquired` of its previous value, the map maps the name to it, and the locker stays valid |
| Locks.NamedLocker.RAcquire | pkg/locks/locks.go:171-189 | as Acquire, but the entry becomes `RAcquired` of its previous value (flag cleared, one more shared holder) |
| Locks.NamedLock.Enter | pkg/locks/locks.go:160-162 | counts a caller in and stores its mode flag: the entry becomes `Requested` of its previous value |
| Locks.NamedLock.GrantWrite | pkg/locks/locks.go:164-166 | when nobody holds the entry, a waiter gets the exclusive hold and the grant counter goes up by one |
| Locks.NamedLock.GrantRead | pkg/locks/locks.go:187 | when no writer holds the entry, a waiter gets a shared hold |
| Locks.NamedLock.Release | pkg/locks/locks.go:70-86 | an empty name gives InvalidLockName and changes nothing; otherwise the entry becomes `Released` (flag off, count minus one, exclusive hold dropped), it leaves the map exactly when its count is now 0, and the locker stays valid |
| Locks.NamedLock.RRelease | pkg/locks/locks.go:89-104 | an empty name gives InvalidLockName and changes nothing; otherwise the entry becomes `RReleased` (count minus one, one shared hold dropped, flag untouched), it leaves the map exactly when its count is now 0, and the locker stays valid |
| Locks.NamedLock.WriteLockCounter | pkg/locks/locks.go:109-111 | returns the lifetime count of exclusive grants, which is never negative |
| Locks.NamedLock.WriteLockMode | pkg/locks/locks.go:114-116 | returns the pending-writer flag |
| Locks.NamedLock.Upgrade | pkg/locks/locks.go:123-146 | from the sole shared hold, the same entry is returned with no error, still registered, the map unchanged, and the entry is `Upgraded` of its previous value |
| Locks.ValidIsRegistryInv | pkg/locks/locks.go:154-161 | a valid locker viewed as a registry value satisfies the model invariant; find-or-create on the objects agrees with `Lookup` on the value |
| LockModel.NewEntry | pkg/locks/locks.go:52-58 | a fresh entry has its name, count 0, flag off, grant counter 0, and nobody holding or waiting; it is accounted |
| LockModel.Lookup | pkg/locks/locks.go:155-159 | find-or-create on the registry value: the registered entry when the name is present, otherwise a fresh entry for it; under the invariant the result carries the name and is accounted |
| LockModel.Requested | pkg/locks/locks.go:160-185 | one caller counts itself in and stores its mode flag: count plus one, the flag equal to the requested mode, one more waiter of that mode, nothing else changed; preserves accounting |
| LockModel.WriteGranted | pkg/locks/locks.go:164-166 | a waiting writer takes the exclusive hold and bumps the grant counter, nothing else changed; preserves accounting |
| LockModel.ReadGranted | pkg/locks/locks.go:187 | a waiting reader takes a shared hold, nothing else changed; preserves accounting |
| LockModel.Request | pkg/locks/locks.go:154-162 | find-or-create, count and flag on the registry: the name maps to `Requested` of its `Lookup` entry; every other name is unchanged |
| LockModel.Settle | pkg/locks/locks.go:77-100 | after a release the name is kept with its new entry exactly when its count is not zero, and is deleted otherwise; no other name changes |
| LockModel.StepApply | pkg/locks/locks.go:154-187 | one fine-grained step changes only its own name, and a name can leave the registry only by a release of its last participant |
| LockModel.Run | pkg/locks/locks.go:70-189 | an interleaving of steps leaves every name that none of its steps is on present or absent as before, with the same entry |
| LockModel.Acquired | pkg/locks/locks.go:160-166 | one entry after Acquire: same name, count plus one, flag on, grant counter plus one, one writer and no reader, waiters unchanged; preserves accounting and leaves the count positive |
| LockModel.RAcquired | pkg/locks/locks.go:183-187 | one entry after RAcquire: same name, count plus one, flag off, grant counter unchanged, one more reader and no writer, waiters unchanged; preserves accounting |
| LockModel.Released | pkg/locks/locks.go:76-84 | one entry after Release: flag off, count minus one, exclusive hold dropped, nothing else changed; preserves accounting, and the entry is idle exactly when its count is zero |
| LockModel.RReleased | pkg/locks/locks.go:95-102 | one entry after RRelease: count minus one, one shared hold dropped, nothing else (the flag included) changed; preserves accounting, and idle exactly when the count is zero |
| LockModel.Upgraded | pkg/locks/locks.go:128-143 | one entry after Upgrade: net count unchanged, flag on, grant counter plus one, the reader replaced by the writer; preserves accounting |
| LockModel.Acquire | pkg/locks/locks.go:149-168 | on the registry: an empty name leaves it equal; otherwise the name's entry (an existing one or a fresh one) has count plus one, flag on, grant counter plus one and the writer; every other name is unchanged |
| LockModel.RAcquire | pkg/locks/locks.go:171-189 | on the registry: an empty name leaves it equal; otherwise count plus one, flag off, counter unchanged, one more reader; every other name is unchanged |
| LockModel.Release | pkg/locks/locks.go:70-86 | on the registry: an empty name leaves it equal; otherwise the entry is kept exactly when its count was not 1, with flag off, count minus one and the writer dropped; every other name is unchanged |
| LockModel.RRelease | pkg/locks/locks.go:89-104 | on the registry: an empty name leaves it equal; otherwise the entry is kept exactly when its count was not 1, count and readers minus one, all else equal; every other name is unchanged |
| LockModel.Upgrade | pkg/locks/locks.go:123-146 | on the registry: the entry stays, the net count is unchanged, the writer replaces the reader, flag on, counter plus one; every other name is unchanged |
| LockModel.EmptyRegistryInv | pkg/locks/locks.go:36-41 | the empty registry satisfies the invariant |
| LockModel.StepPreservesInv | pkg/locks/locks.go:70-189 | every enabled request, grant or release step keeps the invariant (names keyed by themselves and non-empty, positive counts equal to participants, writer exclusive) |
| LockModel.RunPreservesInv | pkg/locks/locks.go:70-189 | any interleaving of enabled steps keeps the invariant |
| LockModel.ReachableInv | pkg/locks/locks.go:70-189 | every state reachable from the empty registry satisfies the invariant, so no entry ever has two writers or a writer beside a reader, and a raised pending-writer flag always has a writer waiting or holding |
| LockModel.NoEvictionWhileInUse | pkg/locks/locks.go:77-82 | an entry leaves the registry only by the release of its last participant, and it is then idle |
| LockModel.AcquireIsSteps | pkg/locks/locks.go:154-166 | Acquire equals the step sequence request-write then grant-write, and that sequence is enabled |
| LockModel.UpgradeIsSteps | pkg/locks/locks.go:128-143 | Upgrade equals request-write, release-read, grant-write in that order, and that sequence is enabled |
| LockModel.AcquirePreservesInv | pkg/locks/locks.go:149-168 | Acquire keeps the invariant |
| LockModel.RAcquirePreservesInv | pkg/locks/locks.go:171-189 | RAcquire keeps the invariant |
| LockModel.ReleasePreservesInv | pkg/locks/locks.go:70-86 | Release keeps the invariant, whether or not it removes the entry |
| LockModel.RReleasePreservesInv | pkg/locks/locks.go:89-104 | RRelease keeps the invariant, whether or not it removes the entry |
| LockModel.UpgradePreservesInv | pkg/locks/locks.go:123-146 | Upgrade keeps the invariant |
| LockModel.AcquireAbsent | pkg/locks/locks.go:155-160 | acquiring an absent name yields an entry with its own name, count 1, and a grant counter of 1 (write) or 0 (read) |
| LockModel.ReacquireAfterRemoval | pkg/locks/locks.go:77-82 | once the last holder releases, the name is gone, and re-acquiring it restarts the grant counter |
| LockModel.QueuedWriterReusesEntry | pkg/locks/locks.go:154-166 | a writer that registers behind the exclusive holder keeps the entry alive across the holder's `Release` (which, in the model's step order, clears the flag while it waits), then takes the exclusive hold on the same entry with the grant counter one higher |
| LockModel.CounterCountsWriteGrants | pkg/locks/locks.go:118-122 | along any interleaving that keeps the name registered, the grant counter rises by exactly the number of exclusive grants on that name, so the counter read by an exclusive holder tells how many writers were granted since it last looked |
| LockModel.UpgradeSeesInterveningWriter | pkg/locks/locks.go:118-143 | an upgrading reader behind a queued writer: intent increment, `RRelease`, the other writer's grant and release, then the upgrader's grant form an enabled interleaving, and the upgrader holds the same entry alone with the counter two higher, showing the writer that came in between |
| LockModel.UpgradeKeepsEntry | pkg/locks/locks.go:129-140 | after the intent increment and the caller's RRelease, the entry is still registered with its grant counter, now with the writer waiting and no reader |
| LockModel.UpgradeInOtherOrderRestartsCounter | pkg/locks/locks.go:137-140 | releasing the sole read hold before registering write intent would delete the entry and restart its counter, unlike Upgrade |
| LockModel.ReadRequestClearsPendingWrite | pkg/locks/locks.go:162-185 | a read request after a write request clears the one pending-writer flag while the writer still waits |
| Params.Classify | pkg/proxy/params/params.go:36-49 | the empty key is skipped, and only it; a delete comes from `-` followed by its key; an append from `+`, its key and the value; a replace from a key that starts with neither |
| Params.ApplyAll | pkg/proxy/params/params.go:35-50 | no updates leave the collection as it was, and a key absent before is present after only if some update names it |
| Params.ApplyAction | pkg/proxy/params/params.go:41-49 | Del removes the key, Add makes its list the old list (or none) plus the value, Set makes it exactly `[v]`; every other key keeps its presence and values |
| Params.QueryValues.Del | pkg/proxy/params/params.go:41 | the collection becomes the delete action applied to it |
| Params.QueryValues.Add | pkg/proxy/params/params.go:46 | the collection becomes the append action applied to it |
| Params.QueryValues.Set | pkg/proxy/params/params.go:49 | the collection becomes the replace action applied to it |
| Params.UpdateParams | pkg/proxy/params/params.go:31-51 | a missing collection is left alone, an empty update list changes nothing, and otherwise the collection becomes the in-order fold of the updates' actions |
| Params.ClassifySpelling | pkg/proxy/params/params.go:36-49 | the action read from a key spells back to exactly that key, and every canonical action is read back from its spelling |
| Params.OneCharacterPrefix | pkg/proxy/params/params.go:39-48 | `-k` deletes `k` and `+k` appends to `k` whatever `k` starts with, so `--a` deletes `-a` and `++a` appends to `+a` |
| Params.ApplyAllConcat | pkg/proxy/params/params.go:35-50 | applying a concatenation of updates is applying the parts in turn |
| Params.ApplyAllSplit | pkg/proxy/params/params.go:35-50 | the same, for a split into three parts |
| Params.ApplyPair | pkg/proxy/params/params.go:35-50 | two updates are applied in their sequence order |
| Params.UntouchedKeyKept | pkg/proxy/params/params.go:35-50 | a key no update names keeps its presence and its value list |
| Params.LastUpdateDecides | pkg/proxy/params/params.go:39-49 | when no later update names `k`, a `-k` update leaves `k` absent, a plain `k` leaves `[v]`, and a `+k` leaves the earlier list plus `v` |
| Params.EmptyKeyIgnored | pkg/proxy/params/params.go:36-38 | an update with the empty key has no effect wherever it stands |
| Params.DistinctKeysCommute | pkg/proxy/params/params.go:39-49 | actions on different keys commute |
| Params.SwapDistinctUpdates | pkg/proxy/params/params.go:35-50 | two adjacent updates that name different keys may be visited in either order |
| Params.CollidingUpdatesDependOnOrder | pkg/proxy/params/params.go:35-50 | updates that name the same key (`a` and `-a`) give different results in the two visiting orders |

## Left out

- Concurrency is not modelled. Each public call is one atomic method. The goroutine, channel and WaitGroup handshake of `Upgrade` is reduced to one order of its effects that the Go code allows. The `sync/atomic` operations are plain field updates.
- `sync.RWMutex` blocking is a precondition of the grant, with no fairness. The RWMutex's own state is ghost holder accounting.
- In the Go code, another caller can take `mapLock` between the atomic decrement of `queueSize` and the deletion from the map. It can find the entry and count itself in before the entry is deleted. The model makes decrement and deletion one step, so it says nothing about that window.
- Three more pairs of Go operations are single steps of the model. A request counts the caller in under `mapLock` (locks.go:160, 183) and stores the mode flag, which the Go code does only after `mapLock.Unlock()` (162, 185). A write release clears the flag (76) and decrements the count (77) together. `Upgrade`'s helper task counts itself in (129) and stores the flag (131) together, although it signals the caller in between and the caller's `RRelease` (140) may run before the flag store. Go runs in which a waiting writer's flag store lands after another caller's `Release` are not modelled; in such a run the writer is later granted with the flag still raised, whereas in the model that release leaves the flag cleared (`QueuedWriterReusesEntry`, and `UpgradeSeesInterveningWriter` for an upgrader).
- `mapLock` is not modelled; each method body already runs without interruption.
- Locks.NamedLock.Upgrade: requires a non-empty name. For an entry with an empty name, the Go `RRelease` returns an error that `Upgrade` ignores. The read hold is then kept and `Lock()` can never return. Entries created by `Acquire`/`RAcquire` never have an empty name.
- Locks.NamedLock.Upgrade: because every call of the class is one atomic method, the class-level `Upgrade` always ends with the counter exactly one higher. The promise that the upgraded holder's `WriteLockCounter()` counts the writers granted between its `RRelease` and its own grant (locks.go:118-122) is stated at the step level only (`LockModel.CounterCountsWriteGrants`, `LockModel.UpgradeSeesInterveningWriter`).
- Locks.NamedLock.Release: requires the caller to hold the exclusive lock. Releasing without it is outside the RWMutex's contract. The same holds for `RRelease` and a shared hold.
- Locks.NamedLocker.Acquire: each public call is one atomic method, so no caller is ever left waiting between calls. Through the class methods a registered name therefore always has a holder, `Acquire` never reuses an existing entry, and every exclusive holder sees `WriteLockCounter()` equal to 1; `RAcquire` likewise reuses only an entry held by readers. A writer that queues behind another and then reuses the entry, with its grant counter going on, is modelled only at the step level (`LockModel.QueuedWriterReusesEntry`, `LockModel.Run`).
- LockModel.Acquire: `queueSize` is an unbounded integer. The Go code's `int32` wrap-around after 2^31 participants is not modelled.
- The flag is advisory. The model keeps the Go code's single flag, so a read request or a `Release` can clear it while a writer still waits (`ReadRequestClearsPendingWrite`, `QueuedWriterReusesEntry`). `RRelease` leaves it untouched.
- The error value is the kind `InvalidLockName(name)`; the `fmt.Errorf` message text is not modelled.
- Per-method refinement of the registry value `Abs()` is left out. The method contracts give the touched entry and the map change, and `LockModel` defines its registry functions from the same per-entry functions. One proof per method linking `Abs()` before and after is not included.
- `GetRequestValues` and `SetRequestValues` in pkg/proxy/params/params.go are left out. They do HTTP request-body I/O through `url.Values.Encode` and `ParseForm`.
- Go map iteration order is not modelled. The updates are a given sequence. Order independence is stated only for keys no update names, and for adjacent updates on different keys.
- Strings are sequences of characters. The Go code tests the first byte; since `-` and `+` are single-byte characters, that agrees with testing the first character.
- pkg/util/compress/gzip, pkg/proxy/listeners/listeners_test.go and pkg/util/testing are not part of this model. They are a thin gzip wrapper, network and TLS tests, and test scaffolding.
