/**
 * The named-lock registry of pkg/locks/locks.go, seen as values.
 *
 * A `namedLocker` owns a map from lock name to `namedLock`. Every entry keeps a
 * reference count (`queueSize`), a pending-writer flag (`writeLockMode`), a
 * lifetime count of exclusive grants (`writeLockCount`) and an RWMutex. Here the
 * RWMutex is replaced by holder accounting: how many callers hold it shared
 * (`readers`), how many hold it exclusively (`writers`), and how many have
 * registered on the entry but are not yet granted, by the mode they asked for
 * (`waitingReaders`, `waitingWriters`).
 *
 * The registry moves by fine-grained steps (a request, a grant, a release),
 * which may interleave arbitrarily between callers; each public call of the
 * package is a fixed sequence of these steps. The atomic decrement of
 * `queueSize` and the removal under `mapLock` that follows it (locks.go:77-81,
 * 95-99) are ONE step here: in the Go code another caller can take `mapLock`
 * in between, find the entry whose count just reached zero, and register on it
 * before it is deleted. This model does not claim that window away.
 *
 * Three more pairs of Go operations are one step here. A request counts the
 * caller in under `mapLock` (locks.go:160, 183) and stores the mode flag, which
 * the Go code does only after `mapLock.Unlock()` (162, 185). A write release
 * clears the flag (76) and decrements the count (77) together. And the helper
 * task of `Upgrade` counts itself in (129) and stores the flag (131) together,
 * although it signals the caller in between, so that in the Go code the
 * caller's `RRelease` (140) may come before the flag store. So the Go runs
 * in which a waiting writer's flag store lands after another caller's
 * `Release` (leaving the flag raised once that writer is granted) are not
 * among the runs of this model.
 */
module LockModel {

  /** The one error the package reports (errInvalidLockName); the message text is not modelled. */
  datatype LockError = InvalidLockName(name: string)

  /** One `namedLock` with its RWMutex replaced by holder accounting. */
  datatype Entry = Entry(
    name: string,
    queueSize: int,
    writeLockMode: bool,
    writeLockCount: nat,
    readers: nat,
    writers: nat,
    waitingReaders: nat,
    waitingWriters: nat)

  /** The `locks` map of a `namedLocker`. */
  type Registry = map<string, Entry>

  /** Nobody holds the entry and nobody waits for it. */
  predicate Idle(e: Entry) {
    e.readers == 0 && e.writers == 0 && e.waitingReaders == 0 && e.waitingWriters == 0
  }

  /**
   * The reference count counts exactly the participants; the RWMutex
   * discipline holds (at most one writer, never a writer beside a reader); and
   * a raised flag means that a writer is waiting or holding.
   */
  ghost predicate Accounted(e: Entry) {
    && e.queueSize == e.readers + e.writers + e.waitingReaders + e.waitingWriters
    && e.writers <= 1
    && (e.writers > 0 ==> e.readers == 0)
    && (e.writeLockMode ==> e.writers + e.waitingWriters > 0)
  }

  /** Every entry is keyed by its own non-empty name, is in use, and is accounted. */
  ghost predicate RegistryInv(m: Registry) {
    forall n | n in m :: n != "" && m[n].name == n && m[n].queueSize > 0 && Accounted(m[n])
  }

  /** `newNamedLock`: count zero, flag off, never granted, nobody holding or waiting. */
  function NewEntry(name: string): (r: Entry)
    ensures r.name == name && r.queueSize == 0 && !r.writeLockMode && r.writeLockCount == 0
    ensures Idle(r) && Accounted(r)
  {
    Entry(name, 0, false, 0, 0, 0, 0, 0)
  }

  /** Find-or-create: the entry registered under `n`, or a fresh one (locks.go:155-159). */
  function Lookup(m: Registry, n: string): (r: Entry)
    ensures n in m ==> r == m[n]
    ensures n !in m ==> r == NewEntry(n)
    ensures RegistryInv(m) ==> r.name == n && r.queueSize >= 0 && Accounted(r)
  {
    if n in m then m[n] else NewEntry(n)
  }

  // ---------------------------------------------------------------------------
  // One entry's transitions
  // ---------------------------------------------------------------------------

  /** A caller counts itself in and stores the mode flag; it now waits for the mutex in that mode. */
  function Requested(e: Entry, write: bool): (r: Entry)
    ensures r.queueSize == e.queueSize + 1 && r.writeLockMode == write
    ensures write ==> r == e.(queueSize := r.queueSize, writeLockMode := true, waitingWriters := e.waitingWriters + 1)
    ensures !write ==> r == e.(queueSize := r.queueSize, writeLockMode := false, waitingReaders := e.waitingReaders + 1)
    ensures Accounted(e) ==> Accounted(r)
  {
    if write then e.(queueSize := e.queueSize + 1, writeLockMode := true, waitingWriters := e.waitingWriters + 1)
    else e.(queueSize := e.queueSize + 1, writeLockMode := false, waitingReaders := e.waitingReaders + 1)
  }

  /** `Lock()` can return: a write request waits and nobody holds the mutex. */
  predicate CanGrantWrite(e: Entry) {
    e.waitingWriters > 0 && e.readers == 0 && e.writers == 0
  }

  /** `RLock()` can return: a read request waits and no writer holds the mutex. */
  predicate CanGrantRead(e: Entry) {
    e.waitingReaders > 0 && e.writers == 0
  }

  /** A waiting write request obtains the exclusive lock and bumps the grant counter. */
  function WriteGranted(e: Entry): (r: Entry)
    requires CanGrantWrite(e)
    ensures r.writers == 1 && r.waitingWriters == e.waitingWriters - 1 && r.writeLockCount == e.writeLockCount + 1
    ensures r.(writers := 0, waitingWriters := e.waitingWriters, writeLockCount := e.writeLockCount) == e
    ensures Accounted(e) ==> Accounted(r)
  {
    e.(waitingWriters := e.waitingWriters - 1, writers := e.writers + 1, writeLockCount := e.writeLockCount + 1)
  }

  /** A waiting read request obtains a shared lock. */
  function ReadGranted(e: Entry): (r: Entry)
    requires CanGrantRead(e)
    ensures r.readers == e.readers + 1 && r.waitingReaders == e.waitingReaders - 1 && r.writers == 0
    ensures r.(readers := e.readers, waitingReaders := e.waitingReaders) == e
    ensures Accounted(e) ==> Accounted(r)
  {
    e.(waitingReaders := e.waitingReaders - 1, readers := e.readers + 1)
  }

  /** The entry after `Release`: flag cleared, count decremented, exclusive hold dropped. */
  function Released(e: Entry): (r: Entry)
    requires e.writers > 0
    ensures r.queueSize == e.queueSize - 1 && !r.writeLockMode && r.writers == e.writers - 1
    ensures r.(queueSize := e.queueSize, writeLockMode := e.writeLockMode, writers := e.writers) == e
    ensures Accounted(e) ==> Accounted(r) && Idle(r) == (r.queueSize == 0)
  {
    e.(writeLockMode := false, queueSize := e.queueSize - 1, writers := e.writers - 1)
  }

  /** The entry after `RRelease`: count decremented, one shared hold dropped, flag untouched. */
  function RReleased(e: Entry): (r: Entry)
    requires e.readers > 0
    ensures r.queueSize == e.queueSize - 1 && r.readers == e.readers - 1
    ensures r.(queueSize := e.queueSize, readers := e.readers) == e
    ensures Accounted(e) ==> Accounted(r) && Idle(r) == (r.queueSize == 0)
  {
    e.(queueSize := e.queueSize - 1, readers := e.readers - 1)
  }

  /** Acquire on one entry: write request, then the exclusive grant. */
  function Acquired(e: Entry): (r: Entry)
    requires e.readers == 0 && e.writers == 0
    ensures r.name == e.name && r.queueSize == e.queueSize + 1 && r.writeLockMode
    ensures r.writeLockCount == e.writeLockCount + 1
    ensures r.readers == 0 && r.writers == 1
    ensures r.waitingReaders == e.waitingReaders && r.waitingWriters == e.waitingWriters
    ensures Accounted(e) ==> Accounted(r) && r.queueSize > 0
  {
    WriteGranted(Requested(e, true))
  }

  /** RAcquire on one entry: read request, then a shared grant. */
  function RAcquired(e: Entry): (r: Entry)
    requires e.writers == 0
    ensures r.name == e.name && r.queueSize == e.queueSize + 1 && !r.writeLockMode
    ensures r.writeLockCount == e.writeLockCount
    ensures r.readers == e.readers + 1 && r.writers == 0
    ensures r.waitingReaders == e.waitingReaders && r.waitingWriters == e.waitingWriters
    ensures Accounted(e) ==> Accounted(r) && r.queueSize > 0
  {
    ReadGranted(Requested(e, false))
  }

  /** Upgrade on one entry: write request, release of the caller's read hold, then the exclusive grant. */
  function Upgraded(e: Entry): (r: Entry)
    requires e.readers == 1 && e.writers == 0
    ensures r.name == e.name && r.queueSize == e.queueSize && r.writeLockMode
    ensures r.writeLockCount == e.writeLockCount + 1
    ensures r.readers == 0 && r.writers == 1
    ensures r.waitingReaders == e.waitingReaders && r.waitingWriters == e.waitingWriters
    ensures Accounted(e) ==> Accounted(r)
  {
    WriteGranted(RReleased(Requested(e, true)))
  }

  // ---------------------------------------------------------------------------
  // Fine-grained steps on the registry
  // ---------------------------------------------------------------------------

  /**
   * A caller registers on `n`: find-or-create, count it, store the mode flag.
   * This is the part of Acquire (write) and RAcquire (read) before the blocking
   * lock call, and the first half of Upgrade's helper task (write).
   */
  function Request(m: Registry, n: string, write: bool): (r: Registry)
    ensures n in r && r[n] == Requested(Lookup(m, n), write)
    ensures r - {n} == m - {n}
  {
    m[n := Requested(Lookup(m, n), write)]
  }

  /** Store the updated entry, or delete the name when its count reached zero. */
  function Settle(m: Registry, n: string, e: Entry): (r: Registry)
    ensures n in r <==> e.queueSize != 0
    ensures n in r ==> r[n] == e
    ensures r - {n} == m - {n}
  {
    if e.queueSize == 0 then m - {n} else m[n := e]
  }

  datatype Step =
    | RequestWrite(name: string)
    | RequestRead(name: string)
    | GrantWriteTo(name: string)
    | GrantReadTo(name: string)
    | ReleaseWrite(name: string)
    | ReleaseRead(name: string)

  /** What each step needs: a valid name to register, a grantable mutex, a hold to release. */
  predicate StepEnabled(m: Registry, s: Step) {
    match s
    case RequestWrite(n) => n != ""
    case RequestRead(n) => n != ""
    case GrantWriteTo(n) => n in m && CanGrantWrite(m[n])
    case GrantReadTo(n) => n in m && CanGrantRead(m[n])
    case ReleaseWrite(n) => n in m && m[n].writers > 0
    case ReleaseRead(n) => n in m && m[n].readers > 0
  }

  /** One step on its name; the name leaves the registry only by a release that empties it. */
  function StepApply(m: Registry, s: Step): (r: Registry)
    requires StepEnabled(m, s)
    ensures r - {s.name} == m - {s.name}
    ensures s.name !in r ==> (s.ReleaseWrite? || s.ReleaseRead?) && m[s.name].queueSize == 1
  {
    match s
    case RequestWrite(n) => Request(m, n, true)
    case RequestRead(n) => Request(m, n, false)
    case GrantWriteTo(n) => m[n := WriteGranted(m[n])]
    case GrantReadTo(n) => m[n := ReadGranted(m[n])]
    case ReleaseWrite(n) => Settle(m, n, Released(m[n]))
    case ReleaseRead(n) => Settle(m, n, RReleased(m[n]))
  }

  /** Every step of `steps` is enabled in the state the previous ones lead to. */
  predicate Trace(m: Registry, steps: seq<Step>)
    decreases |steps|
  {
    steps == [] || (StepEnabled(m, steps[0]) && Trace(StepApply(m, steps[0]), steps[1..]))
  }

  /** No step of `steps` is on the name `k`. */
  predicate NotNamed(steps: seq<Step>, k: string) {
    forall i | 0 <= i < |steps| :: steps[i].name != k
  }

  /** The steps in order; a name that no step is on keeps its presence and its entry. */
  function Run(m: Registry, steps: seq<Step>): (r: Registry)
    requires Trace(m, steps)
    ensures forall k | NotNamed(steps, k) :: (k in r <==> k in m) && (k in r ==> r[k] == m[k])
    decreases |steps|
  {
    if steps == [] then m
    else
      assert forall k | NotNamed(steps, k) :: NotNamed(steps[1..], k) && k != steps[0].name by {
        forall k | NotNamed(steps, k)
          ensures NotNamed(steps[1..], k) && k != steps[0].name
        {
          assert steps[0].name != k;
          forall i | 0 <= i < |steps[1..]|
            ensures steps[1..][i].name != k
          {
            assert steps[1..][i] == steps[i + 1];
          }
        }
      }
      Run(StepApply(m, steps[0]), steps[1..])
  }

  // ---------------------------------------------------------------------------
  // The public calls, each one atomic transition
  // ---------------------------------------------------------------------------

  /** The write grant of Acquire can be given: nobody holds the entry. */
  predicate MayAcquire(m: Registry, n: string) {
    n !in m || (m[n].readers == 0 && m[n].writers == 0)
  }

  /** The read grant of RAcquire can be given: no writer holds the entry. */
  predicate MayRAcquire(m: Registry, n: string) {
    n !in m || m[n].writers == 0
  }

  /** Acquire(n): an empty name is refused; otherwise register with write intent, then the exclusive grant. */
  function Acquire(m: Registry, n: string): (r: Registry)
    requires n != "" ==> MayAcquire(m, n)
    ensures n == "" ==> r == m
    ensures n != "" ==> n in r && r[n].name == Lookup(m, n).name
    ensures n != "" ==> r[n].queueSize == Lookup(m, n).queueSize + 1 && r[n].writeLockMode
    ensures n != "" ==> r[n].writeLockCount == Lookup(m, n).writeLockCount + 1
    ensures n != "" ==> r[n].writers == 1 && r[n].readers == 0
    ensures n != "" ==> r[n].waitingReaders == Lookup(m, n).waitingReaders
    ensures n != "" ==> r[n].waitingWriters == Lookup(m, n).waitingWriters
    ensures r - {n} == m - {n}
  {
    if n == "" then m else m[n := Acquired(Lookup(m, n))]
  }

  /** RAcquire(n): an empty name is refused; otherwise register with the flag cleared, then a shared grant. */
  function RAcquire(m: Registry, n: string): (r: Registry)
    requires n != "" ==> MayRAcquire(m, n)
    ensures n == "" ==> r == m
    ensures n != "" ==> n in r && r[n].name == Lookup(m, n).name
    ensures n != "" ==> r[n].queueSize == Lookup(m, n).queueSize + 1 && !r[n].writeLockMode
    ensures n != "" ==> r[n].writeLockCount == Lookup(m, n).writeLockCount
    ensures n != "" ==> r[n].readers == Lookup(m, n).readers + 1 && r[n].writers == 0
    ensures n != "" ==> r[n].waitingReaders == Lookup(m, n).waitingReaders
    ensures n != "" ==> r[n].waitingWriters == Lookup(m, n).waitingWriters
    ensures r - {n} == m - {n}
  {
    if n == "" then m else m[n := RAcquired(Lookup(m, n))]
  }

  /** Release on the handle of `n`: an empty name is refused; otherwise drop the exclusive hold. */
  function Release(m: Registry, n: string): (r: Registry)
    requires n != "" ==> n in m && m[n].writers > 0
    ensures n == "" ==> r == m
    ensures n != "" ==> (n in r <==> m[n].queueSize != 1)
    ensures n != "" && n in r ==> r[n].queueSize == m[n].queueSize - 1 && !r[n].writeLockMode
    ensures n != "" && n in r ==> r[n].writers == m[n].writers - 1
    ensures n != "" && n in r ==> r[n].(writeLockMode := m[n].writeLockMode, queueSize := m[n].queueSize, writers := m[n].writers) == m[n]
    ensures r - {n} == m - {n}
  {
    if n == "" then m else Settle(m, n, Released(m[n]))
  }

  /** RRelease on the handle of `n`: an empty name is refused; otherwise drop one shared hold. */
  function RRelease(m: Registry, n: string): (r: Registry)
    requires n != "" ==> n in m && m[n].readers > 0
    ensures n == "" ==> r == m
    ensures n != "" ==> (n in r <==> m[n].queueSize != 1)
    ensures n != "" && n in r ==> r[n].queueSize == m[n].queueSize - 1 && r[n].readers == m[n].readers - 1
    ensures n != "" && n in r ==> r[n].(queueSize := m[n].queueSize, readers := m[n].readers) == m[n]
    ensures r - {n} == m - {n}
  {
    if n == "" then m else Settle(m, n, RReleased(m[n]))
  }

  /** The write grant of Upgrade can be given once the caller's read hold is gone: it is the only holder. */
  predicate MayUpgrade(m: Registry, n: string) {
    n != "" && n in m && m[n].readers == 1 && m[n].writers == 0
  }

  /**
   * Upgrade on a shared handle of `n`: register write intent, set the flag,
   * release the caller's read hold, then the exclusive grant (locks.go:128-143).
   * The entry stays under `n` throughout (see UpgradeIsSteps).
   */
  function Upgrade(m: Registry, n: string): (r: Registry)
    requires MayUpgrade(m, n)
    ensures n in r && r[n].queueSize == m[n].queueSize
    ensures r[n].readers == 0 && r[n].writers == 1 && r[n].writeLockMode
    ensures r[n].writeLockCount == m[n].writeLockCount + 1
    ensures r[n].name == m[n].name
    ensures r[n].waitingReaders == m[n].waitingReaders && r[n].waitingWriters == m[n].waitingWriters
    ensures r - {n} == m - {n}
  {
    m[n := Upgraded(m[n])]
  }

  // ---------------------------------------------------------------------------
  // Properties
  // ---------------------------------------------------------------------------

  /** The registry a fresh `namedLocker` starts with satisfies the invariant. */
  lemma EmptyRegistryInv()
    ensures RegistryInv(map[])
  {
  }

  /** Every enabled step keeps the invariant, whatever other callers are doing. */
  lemma StepPreservesInv(m: Registry, s: Step)
    requires RegistryInv(m) && StepEnabled(m, s)
    ensures RegistryInv(StepApply(m, s))
  {
    var r := StepApply(m, s);
    forall k | k in r
      ensures k != "" && r[k].name == k && r[k].queueSize > 0 && Accounted(r[k])
    {
      if k != s.name {
        assert r[k] == m[k];
      }
    }
  }

  /** Any interleaving of steps keeps the invariant. */
  lemma {:induction false} RunPreservesInv(m: Registry, steps: seq<Step>)
    requires RegistryInv(m) && Trace(m, steps)
    ensures RegistryInv(Run(m, steps))
    decreases |steps|
  {
    if steps != [] {
      StepPreservesInv(m, steps[0]);
      RunPreservesInv(StepApply(m, steps[0]), steps[1..]);
    }
  }

  /**
   * So in every state reachable from the empty registry, no entry has two
   * writers or a writer beside a reader, and a raised pending-writer flag means
   * that a write request is waiting or holding the lock.
   */
  lemma {:induction false} ReachableInv(steps: seq<Step>)
    requires Trace(map[], steps)
    ensures RegistryInv(Run(map[], steps))
    ensures forall n | n in Run(map[], steps) ::
      Run(map[], steps)[n].writers <= 1 && (Run(map[], steps)[n].writers > 0 ==> Run(map[], steps)[n].readers == 0)
    ensures forall n | n in Run(map[], steps) ::
      Run(map[], steps)[n].writeLockMode ==> Run(map[], steps)[n].writers + Run(map[], steps)[n].waitingWriters > 0
  {
    EmptyRegistryInv();
    RunPreservesInv(map[], steps);
  }

  /**
   * An entry leaves the registry only through the release of its last
   * participant: while anybody holds it or waits for it, it stays registered.
   */
  lemma NoEvictionWhileInUse(m: Registry, s: Step, n: string)
    requires RegistryInv(m) && StepEnabled(m, s) && n in m
    ensures n !in StepApply(m, s) <==>
      ((s == ReleaseWrite(n) || s == ReleaseRead(n)) && m[n].queueSize == 1)
    ensures n !in StepApply(m, s) ==>
      Idle(if s.ReleaseWrite? then Released(m[n]) else RReleased(m[n]))
  {
  }

  /** Acquire is the step sequence request-write, grant-write. */
  lemma AcquireIsSteps(m: Registry, n: string)
    requires n != "" && MayAcquire(m, n)
    ensures Trace(m, [RequestWrite(n), GrantWriteTo(n)])
    ensures Acquire(m, n) == Run(m, [RequestWrite(n), GrantWriteTo(n)])
  {
    var m1 := Request(m, n, true);
    assert [RequestWrite(n), GrantWriteTo(n)][1..] == [GrantWriteTo(n)];
    var m2 := m1[n := WriteGranted(m1[n])];
    assert Trace(m2, []);
    assert Run(m1, [GrantWriteTo(n)]) == Run(m2, []);
  }

  /** Upgrade is the step sequence request-write, release-read, grant-write, in that order. */
  lemma UpgradeIsSteps(m: Registry, n: string)
    requires RegistryInv(m) && MayUpgrade(m, n)
    ensures Trace(m, [RequestWrite(n), ReleaseRead(n), GrantWriteTo(n)])
    ensures Upgrade(m, n) == Run(m, [RequestWrite(n), ReleaseRead(n), GrantWriteTo(n)])
  {
    var steps := [RequestWrite(n), ReleaseRead(n), GrantWriteTo(n)];
    var m1 := Request(m, n, true);
    var m2 := Settle(m1, n, RReleased(m1[n]));
    var m3 := m2[n := WriteGranted(m2[n])];
    assert steps[1..] == [ReleaseRead(n), GrantWriteTo(n)];
    assert steps[1..][1..] == [GrantWriteTo(n)];
    assert Trace(m3, []);
    assert Run(m2, [GrantWriteTo(n)]) == Run(m3, []);
  }

  /** Acquire keeps the invariant: a request step, then a grant step. */
  lemma AcquirePreservesInv(m: Registry, n: string)
    requires RegistryInv(m) && (n != "" ==> MayAcquire(m, n))
    ensures RegistryInv(Acquire(m, n))
  {
    if n != "" {
      StepPreservesInv(m, RequestWrite(n));
      StepPreservesInv(Request(m, n, true), GrantWriteTo(n));
    }
  }

  /** RAcquire keeps the invariant: a request step, then a grant step. */
  lemma RAcquirePreservesInv(m: Registry, n: string)
    requires RegistryInv(m) && (n != "" ==> MayRAcquire(m, n))
    ensures RegistryInv(RAcquire(m, n))
  {
    if n != "" {
      StepPreservesInv(m, RequestRead(n));
      StepPreservesInv(Request(m, n, false), GrantReadTo(n));
    }
  }

  /** Release keeps the invariant, whether or not it removes the entry. */
  lemma ReleasePreservesInv(m: Registry, n: string)
    requires RegistryInv(m) && (n != "" ==> n in m && m[n].writers > 0)
    ensures RegistryInv(Release(m, n))
  {
    if n != "" {
      StepPreservesInv(m, ReleaseWrite(n));
    }
  }

  /** RRelease keeps the invariant, whether or not it removes the entry. */
  lemma RReleasePreservesInv(m: Registry, n: string)
    requires RegistryInv(m) && (n != "" ==> n in m && m[n].readers > 0)
    ensures RegistryInv(RRelease(m, n))
  {
    if n != "" {
      StepPreservesInv(m, ReleaseRead(n));
    }
  }

  /** Upgrade keeps the invariant: its three steps keep it one by one. */
  lemma UpgradePreservesInv(m: Registry, n: string)
    requires RegistryInv(m) && MayUpgrade(m, n)
    ensures RegistryInv(Upgrade(m, n))
  {
    UpgradeIsSteps(m, n);
    RunPreservesInv(m, [RequestWrite(n), ReleaseRead(n), GrantWriteTo(n)]);
  }

  /** A name absent from the registry gets a fresh entry: its grant counter starts from zero. */
  lemma AcquireAbsent(m: Registry, n: string)
    requires n != "" && n !in m
    ensures Acquire(m, n)[n] == Entry(n, 1, true, 1, 0, 1, 0, 0)
    ensures RAcquire(m, n)[n] == Entry(n, 1, false, 0, 1, 0, 0, 0)
  {
  }

  /**
   * Once the last holder releases, the entry is gone, and re-acquiring the name
   * restarts its grant counter, however many grants the old entry counted.
   */
  lemma ReacquireAfterRemoval(m: Registry, n: string)
    requires RegistryInv(m) && n in m && m[n].writers > 0 && m[n].queueSize == 1
    ensures n !in Release(m, n)
    ensures Acquire(Release(m, n), n)[n].writeLockCount == 1
    ensures RAcquire(Release(m, n), n)[n].writeLockCount == 0
  {
  }

  /**
   * A writer that queues behind the holder keeps the entry alive across the
   * holder's release and then reuses it: its grant counts on from the old
   * counter, so the counter tells it that another writer came first. On the way
   * the holder's release clears the flag although this writer still waits (in
   * the Go code the writer's flag store may instead land after that release).
   */
  lemma QueuedWriterReusesEntry(m: Registry, n: string)
    requires RegistryInv(m) && n in m && m[n].writers == 1
    ensures Trace(m, [RequestWrite(n), ReleaseWrite(n), GrantWriteTo(n)])
    ensures var queued := Release(Request(m, n, true), n);
      n in queued && queued[n].waitingWriters == m[n].waitingWriters + 1 && !queued[n].writeLockMode
    ensures var r := Run(m, [RequestWrite(n), ReleaseWrite(n), GrantWriteTo(n)]);
      n in r && r[n].writers == 1 && r[n].writeLockCount == m[n].writeLockCount + 1
      && r[n].queueSize == m[n].queueSize
  {
    var steps := [RequestWrite(n), ReleaseWrite(n), GrantWriteTo(n)];
    var m1 := Request(m, n, true);
    var m2 := Settle(m1, n, Released(m1[n]));
    var m3 := m2[n := WriteGranted(m2[n])];
    assert steps[1..] == [ReleaseWrite(n), GrantWriteTo(n)];
    assert steps[1..][1..] == [GrantWriteTo(n)];
    assert Trace(m3, []);
    assert Run(m2, [GrantWriteTo(n)]) == Run(m3, []);
  }

  /**
   * Upgrade raises the count before the caller's RRelease, so in the middle of
   * the sequence the entry is still registered even when the caller was its only
   * participant; the upgraded holder sees the same entry and its counter goes on.
   */
  lemma UpgradeKeepsEntry(m: Registry, n: string)
    requires RegistryInv(m) && MayUpgrade(m, n)
    ensures var intent := Request(m, n, true);
      var released := RRelease(intent, n);
      n in released && released[n].waitingWriters == m[n].waitingWriters + 1 && released[n].readers == 0
      && released[n].writeLockCount == m[n].writeLockCount
  {
  }

  /** How many steps of `steps` grant the exclusive lock of `n`. */
  function WriteGrants(steps: seq<Step>, n: string): nat
    decreases |steps|
  {
    if steps == [] then 0
    else (if steps[0] == GrantWriteTo(n) then 1 else 0) + WriteGrants(steps[1..], n)
  }

  /** `n` is registered before and after every step of the trace. */
  predicate StaysRegistered(m: Registry, steps: seq<Step>, n: string)
    requires Trace(m, steps)
    decreases |steps|
  {
    n in m && (steps == [] || StaysRegistered(StepApply(m, steps[0]), steps[1..], n))
  }

  /**
   * While an entry stays registered, its grant counter rises by exactly the
   * number of exclusive grants on its name: this is what lets the holder of the
   * exclusive lock tell from WriteLockCounter() whether other writers came
   * first.
   */
  lemma {:induction false} CounterCountsWriteGrants(m: Registry, steps: seq<Step>, n: string)
    requires Trace(m, steps) && StaysRegistered(m, steps, n)
    ensures n in Run(m, steps)
    ensures Run(m, steps)[n].writeLockCount == m[n].writeLockCount + WriteGrants(steps, n)
    decreases |steps|
  {
    if steps != [] {
      var m1 := StepApply(m, steps[0]);
      CounterCountsWriteGrants(m1, steps[1..], n);
      assert Run(m, steps) == Run(m1, steps[1..]);
    }
  }

  /**
   * An upgrading reader that finds another writer queued: after its intent
   * increment and its RRelease, the other writer is granted first and releases,
   * and then the upgrader is granted on the same entry. Its counter is two
   * higher, so WriteLockCounter() shows that one writer came in between. (The
   * flag ends cleared here; in the Go code the upgrader's flag store may land
   * after the other writer's release and leave it raised.)
   */
  lemma UpgradeSeesInterveningWriter(m: Registry, n: string)
    requires RegistryInv(m) && MayUpgrade(m, n) && m[n].waitingWriters == 1
    ensures Trace(m, [RequestWrite(n), ReleaseRead(n), GrantWriteTo(n), ReleaseWrite(n), GrantWriteTo(n)])
    ensures var r := Run(m, [RequestWrite(n), ReleaseRead(n), GrantWriteTo(n), ReleaseWrite(n), GrantWriteTo(n)]);
      n in r && r[n].writers == 1 && r[n].readers == 0
      && r[n].writeLockCount == m[n].writeLockCount + 2
  {
    var steps := [RequestWrite(n), ReleaseRead(n), GrantWriteTo(n), ReleaseWrite(n), GrantWriteTo(n)];
    var m1 := Request(m, n, true);
    var m2 := Settle(m1, n, RReleased(m1[n]));
    var m3 := m2[n := WriteGranted(m2[n])];
    var m4 := Settle(m3, n, Released(m3[n]));
    var m5 := m4[n := WriteGranted(m4[n])];
    assert steps[1..] == [ReleaseRead(n), GrantWriteTo(n), ReleaseWrite(n), GrantWriteTo(n)];
    assert steps[2..] == [GrantWriteTo(n), ReleaseWrite(n), GrantWriteTo(n)];
    assert steps[3..] == [ReleaseWrite(n), GrantWriteTo(n)];
    assert steps[4..] == [GrantWriteTo(n)];
    assert Trace(m5, []);
    assert Run(m4, steps[4..]) == m5;
    assert Run(m3, steps[3..]) == m5;
    assert Run(m2, steps[2..]) == m5;
    assert Run(m1, steps[1..]) == m5;
  }

  /**
   * The opposite order loses the entry: if the sole reader released first and
   * only then registered write intent, the entry would be deleted and a fresh
   * one created, so its grant counter would restart at one.
   */
  lemma UpgradeInOtherOrderRestartsCounter(m: Registry, n: string)
    requires RegistryInv(m) && MayUpgrade(m, n) && m[n].queueSize == 1 && m[n].writeLockCount > 0
    ensures n !in RRelease(m, n)
    ensures Acquire(RRelease(m, n), n)[n].writeLockCount == 1
    ensures Upgrade(m, n)[n].writeLockCount == m[n].writeLockCount + 1
    ensures Acquire(RRelease(m, n), n)[n] != Upgrade(m, n)[n]
  {
  }

  /**
   * The pending-writer flag is one flag per entry: a read request that comes
   * after a write request clears it although the writer is still waiting.
   */
  lemma ReadRequestClearsPendingWrite(m: Registry, n: string)
    requires n != ""
    ensures Request(m, n, true)[n].writeLockMode
    ensures var r := Request(Request(m, n, true), n, false);
      !r[n].writeLockMode && r[n].waitingWriters == Lookup(m, n).waitingWriters + 1
      && r[n].writers == Lookup(m, n).writers
  {
  }
}
