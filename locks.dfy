/**
 * The named locks of pkg/locks/locks.go as objects updated in place.
 *
 * `NamedLocker` owns the map from name to `NamedLock`; a `NamedLock` keeps the
 * counters of the Go code and, in ghost fields, who holds its RWMutex and who
 * waits for it. Every public call is one atomic method: the blocking
 * `Lock()`/`RLock()` of the Go code is the precondition under which its grant happens. Each method's
 * postcondition gives the touched entry as the LockModel transition of the same
 * name applied to the entry before the call, and the registry map as the
 * insertion or deletion of that one name; LockModel defines its registry
 * functions the same way and proves the invariants and ordering properties.
 */
module Locks {
  import opened Wrappers
  import LockModel

  class NamedLock {
    const name: string
    const locker: NamedLocker
    var queueSize: int
    var writeLockMode: bool
    var writeLockCount: nat
    // holder accounting that stands for the embedded sync.RWMutex
    ghost var readers: nat
    ghost var writers: nat
    ghost var waitingReaders: nat
    ghost var waitingWriters: nat

    /** This entry as a LockModel value. */
    ghost function Snapshot(): LockModel.Entry
      reads this
    {
      LockModel.Entry(name, queueSize, writeLockMode, writeLockCount, readers, writers, waitingReaders, waitingWriters)
    }

    /** Somebody takes part in this entry, and the count matches the participants. */
    ghost predicate InUse()
      reads this
    {
      queueSize > 0 && LockModel.Accounted(Snapshot())
    }

    /** This entry is the one registered under its name in a valid locker. */
    ghost predicate Registered()
      reads this, locker, locker.locks.Values
    {
      locker.Valid() && name in locker.locks && locker.locks[name] == this
    }

    /** `newNamedLock`: a fresh entry bound to its name and its locker. */
    constructor (name: string, locker: NamedLocker)
      ensures this.name == name && this.locker == locker
      ensures Snapshot() == LockModel.NewEntry(name)
    {
      this.name := name;
      this.locker := locker;
      queueSize := 0;
      writeLockMode := false;
      writeLockCount := 0;
      readers, writers, waitingReaders, waitingWriters := 0, 0, 0, 0;
    }

    /** A caller counts itself in and stores its mode flag; it now waits for the mutex in that mode. */
    method Enter(write: bool)
      modifies this
      ensures Snapshot() == LockModel.Requested(old(Snapshot()), write)
    {
      queueSize := queueSize + 1;
      if write {
        waitingWriters := waitingWriters + 1;
      } else {
        waitingReaders := waitingReaders + 1;
      }
      writeLockMode := write;
    }

    /** `Lock()` returns to a waiter, which then bumps the grant counter. */
    method GrantWrite()
      requires LockModel.CanGrantWrite(Snapshot())
      modifies this
      ensures Snapshot() == LockModel.WriteGranted(old(Snapshot()))
    {
      waitingWriters, writers := waitingWriters - 1, writers + 1;
      writeLockCount := writeLockCount + 1;
    }

    /** `RLock()` returns to a waiter. */
    method GrantRead()
      requires LockModel.CanGrantRead(Snapshot())
      modifies this
      ensures Snapshot() == LockModel.ReadGranted(old(Snapshot()))
    {
      waitingReaders, readers := waitingReaders - 1, readers + 1;
    }

    /** Release drops the exclusive hold; an entry with an empty name is refused. */
    method Release() returns (err: Option<LockModel.LockError>)
      requires name != "" ==> Registered() && writers > 0
      modifies this, locker
      ensures name == "" ==> err == Some(LockModel.InvalidLockName(name))
      ensures name == "" ==> unchanged(this) && unchanged(locker)
      ensures name != "" ==> err == None && locker.Valid()
      ensures name != "" ==> Snapshot() == LockModel.Released(old(Snapshot()))
      ensures name != "" ==> locker.locks == if queueSize == 0 then old(locker.locks) - {name} else old(locker.locks)
    {
      if name == "" {
        return Some(LockModel.InvalidLockName(name));
      }
      writeLockMode := false;
      queueSize := queueSize - 1;
      // In the Go code the decrement is atomic and mapLock is only taken after it.
      if queueSize == 0 {
        locker.locks := locker.locks - {name};
      }
      writers := writers - 1;
      err := None;
    }

    /** RRelease drops one shared hold; an entry with an empty name is refused. */
    method RRelease() returns (err: Option<LockModel.LockError>)
      requires name != "" ==> Registered() && readers > 0
      modifies this, locker
      ensures name == "" ==> err == Some(LockModel.InvalidLockName(name))
      ensures name == "" ==> unchanged(this) && unchanged(locker)
      ensures name != "" ==> err == None && locker.Valid()
      ensures name != "" ==> Snapshot() == LockModel.RReleased(old(Snapshot()))
      ensures name != "" ==> locker.locks == if queueSize == 0 then old(locker.locks) - {name} else old(locker.locks)
    {
      if name == "" {
        return Some(LockModel.InvalidLockName(name));
      }
      queueSize := queueSize - 1;
      if queueSize == 0 {
        locker.locks := locker.locks - {name};
      }
      readers := readers - 1;
      err := None;
    }

    /** The lifetime count of exclusive grants of this entry. */
    method WriteLockCounter() returns (c: int)
      ensures c == writeLockCount && c >= 0
    {
      c := writeLockCount;
    }

    /** The pending-writer flag. */
    method WriteLockMode() returns (b: bool)
      ensures b == writeLockMode
    {
      b := writeLockMode;
    }

    /**
     * Upgrade turns the caller's read hold into the write hold on the same entry.
     * The helper task of the Go code counts itself in before the caller's
     * RRelease, so the entry stays registered between the two holds.
     */
    method Upgrade() returns (nl: NamedLock, err: Option<LockModel.LockError>)
      requires name != "" && Registered() && readers == 1 && writers == 0
      modifies this, locker
      ensures nl == this && err == None
      ensures Registered()
      ensures Snapshot() == LockModel.Upgraded(old(Snapshot()))
      ensures locker.locks == old(locker.locks)
    {
      // helper task: count the write intent, signal the caller, then raise the flag
      // (the Go code does not order that flag store against the RRelease below;
      // this is one of the orders it allows)
      Enter(true);
      // caller, after the signal: release the read hold (its result is ignored)
      var _ := RRelease();
      // helper task: Lock() returns now that the read hold is gone
      GrantWrite();
      nl := this;
      err := None;
    }
  }

  class NamedLocker {
    var locks: map<string, NamedLock>

    /**
     * Every registered entry is keyed by its own non-empty name, points back to
     * this locker, and has participants that its count accounts for.
     */
    ghost predicate Valid()
      reads this, locks.Values
    {
      forall n | n in locks :: n != "" && locks[n].name == n && locks[n].locker == this && locks[n].InUse()
    }

    /** The entry under `n` as a LockModel value, or the fresh one find-or-create would make. */
    ghost function EntryOf(n: string): LockModel.Entry
      reads this, locks.Values
    {
      if n in locks then locks[n].Snapshot() else LockModel.NewEntry(n)
    }

    /** The registry as a LockModel value. */
    ghost function Abs(): LockModel.Registry
      reads this, locks.Values
    {
      map n | n in locks :: locks[n].Snapshot()
    }

    /** `NewNamedLocker`: an empty registry. */
    constructor ()
      ensures Valid() && locks == map[]
    {
      locks := map[];
    }

    /**
     * Find-or-create under mapLock: the entry registered under `n`, or a fresh
     * one that is registered now.
     */
    method Find(n: string) returns (nl: NamedLock)
      requires Valid() && n != ""
      modifies this
      ensures nl.name == n && nl.locker == this && nl.Snapshot() == old(EntryOf(n))
      ensures if n in old(locks) then nl == old(locks[n]) else fresh(nl)
      ensures locks == old(locks)[n := nl]
    {
      if n in locks {
        nl := locks[n];
      } else {
        nl := new NamedLock(n, this);
        locks := locks[n := nl];
      }
    }

    /** Acquire registers on `lockName` with write intent and obtains the exclusive lock. */
    method Acquire(lockName: string) returns (nl: NamedLock?, err: Option<LockModel.LockError>)
      requires Valid()
      requires lockName in locks ==> locks[lockName].readers == 0 && locks[lockName].writers == 0
      modifies this, if lockName in locks then {locks[lockName]} else {}
      ensures Valid()
      ensures lockName == "" ==> nl == null && err == Some(LockModel.InvalidLockName(lockName)) && unchanged(this)
      ensures lockName != "" ==> err == None && nl != null && nl.name == lockName && nl.Registered()
      ensures lockName != "" ==> nl.Snapshot() == LockModel.Acquired(old(EntryOf(lockName)))
      ensures lockName != "" ==> if lockName in old(locks) then nl == old(locks[lockName]) else fresh(nl)
      ensures lockName != "" ==> locks == old(locks)[lockName := nl]
    {
      if lockName == "" {
        return null, Some(LockModel.InvalidLockName(lockName));
      }
      var e := Find(lockName);
      // under mapLock: count the caller in; after it: raise the flag
      e.Enter(true);
      // Lock() returns: nobody else holds the entry
      e.GrantWrite();
      nl := e;
      err := None;
    }

    /** RAcquire registers on `lockName` with the flag cleared and obtains a shared lock. */
    method RAcquire(lockName: string) returns (nl: NamedLock?, err: Option<LockModel.LockError>)
      requires Valid()
      requires lockName in locks ==> locks[lockName].writers == 0
      modifies this, if lockName in locks then {locks[lockName]} else {}
      ensures Valid()
      ensures lockName == "" ==> nl == null && err == Some(LockModel.InvalidLockName(lockName)) && unchanged(this)
      ensures lockName != "" ==> err == None && nl != null && nl.name == lockName && nl.Registered()
      ensures lockName != "" ==> nl.Snapshot() == LockModel.RAcquired(old(EntryOf(lockName)))
      ensures lockName != "" ==> if lockName in old(locks) then nl == old(locks[lockName]) else fresh(nl)
      ensures lockName != "" ==> locks == old(locks)[lockName := nl]
    {
      if lockName == "" {
        return null, Some(LockModel.InvalidLockName(lockName));
      }
      var e := Find(lockName);
      e.Enter(false);
      // RLock() returns: no writer holds the entry
      e.GrantRead();
      nl := e;
      err := None;
    }
  }

  /** A valid locker is a registry value that satisfies the LockModel invariant. */
  lemma ValidIsRegistryInv(l: NamedLocker)
    requires l.Valid()
    ensures LockModel.RegistryInv(l.Abs())
    ensures l.Abs().Keys == l.locks.Keys
    ensures forall n :: l.EntryOf(n) == LockModel.Lookup(l.Abs(), n)
  {
  }
}
