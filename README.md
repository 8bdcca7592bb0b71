# nsync synchronisation primitives, modelled in Dafny

This project models two files of the Go library nsync as sequential state
machines, one call at a time:

- `namedoncemutex.go`: `OnceMutex` is a lock that grants success only once.
  `NamedOnceMutex` is a registry. It creates a `OnceMutex` for a key when the
  key is first locked, and it discards that mutex on unlock, so the next lock
  of the key opens a new cycle.
- `semaphore.go`: `Semaphore` is a counting semaphore built on a buffered
  channel of empty structs.

Every `sync.Mutex` becomes a `held` flag. The semaphore's channel becomes
`count` (its `len`) and `capacity` (its `cap`).

The project has five modules.

- `OnceMutexSpec` (`once_mutex_spec.dfy`) holds the pure state machine of one
  `OnceMutex` and runs of calls on it.
- `NamedOnceMutexSpec` (`named_once_mutex_spec.dfy`) holds the registry as a
  map from key to mutex state, and runs of registry calls.
- `NSync` (`nsync.dfy`) holds the classes `OnceMutex` and `NamedOnceMutex`.
  Their fields change in place. Each method is proved equal to its step
  function in the two modules above.
- `SemaphoreSpec` (`semaphore_spec.dfy`) holds the pure counter and runs of
  calls on it.
- `NMutex` (`nmutex.dfy`) holds the class `Semaphore`, proved against
  `SemaphoreSpec`.

Go's `Lock` on a `OnceMutex` blocks while another caller holds it. Here it
returns a three-valued `LockOutcome` instead:

- `Acquired` is Go's `true`.
- `Refused` is Go's `false`.
- `Blocked` means the Go call would still be waiting. It changes nothing, and
  the caller resumes by calling `Lock` on the same instance again.

`NamedOnceMutex.Lock` also returns the instance it went to. A blocked caller
can therefore resume on the mutex it was waiting for, as the Go caller does
inside `m.Lock()`. Go panics become values:

- `Release` on an empty semaphore gives `Panic("No semafore locks!")`.
- `make` with a negative size gives `Panic("makechan: size out of range")`.

## Model

| member | source | states |
|---|---|---|
| `OnceMutexSpec.LockStep` | namedoncemutex.go:19-26 | Lock succeeds iff the mutex is free and unused, and then leaves it held and unused. A used mutex is refused and left exactly as it was, because `mu` is released again. A held mutex blocks and nothing changes. `used` never changes. |
| `OnceMutexSpec.UnlockStep` | namedoncemutex.go:29-32 | Unlock of a held mutex leaves it free and used. Every later Lock on it is refused. |
| `OnceMutexSpec.FreshLockSucceeds` | namedoncemutex.go:14-16 | A new OnceMutex is free and unused. Its first Lock succeeds and leaves it held and unused. |
| `OnceMutexSpec.SingleUse` | namedoncemutex.go:5-8 | Starting from any state a OnceMutex can be in between calls (never held and used at once), for calls that never unlock a free mutex: at most one Lock succeeds, and only if the mutex was fresh. A run starting from a used mutex refuses every Lock and ends used. |
| `NamedOnceMutexSpec.RegistryLock` | namedoncemutex.go:55-68 | An absent key: Lock succeeds and adds exactly one entry, held and unused. A present key: the result is the stored mutex's Lock result. Other entries are unchanged. When every entry is held and unused, a present key blocks and the registry is unchanged. |
| `NamedOnceMutexSpec.RegistryUnlock` | namedoncemutex.go:71-81 | Unlock removes exactly the key and keeps every other entry. A removed mutex ends free and used, so its waiters are refused. An absent key gives no removed mutex. The invariant that every entry is held and unused is preserved. |
| `NamedOnceMutexSpec.UnlockAbsentIsNoOp` | namedoncemutex.go:78-80 | Unlock of an absent key leaves the registry unchanged. |
| `NamedOnceMutexSpec.NewCycle` | namedoncemutex.go:38 | Lock(k), Unlock(k), Lock(k) from a state without k: both Locks succeed, and the Unlock restores the starting registry. |
| `NamedOnceMutexSpec.RunRegistry` | namedoncemutex.go:53-81 | Any sequence of Lock and Unlock calls preserves the invariant that every entry is held and unused. |
| `NamedOnceMutexSpec.OneGrantPerCycle` | namedoncemutex.go:34-38 | Over any sequence of calls, every grant of key k opens a cycle, and every Unlock of k made while a cycle is in flight closes one. So k's grants, plus 1 if k was in flight at the start, equal the cycles closed, plus 1 if k is in flight at the end. An Unlock of an absent key closes nothing, so k is granted at most once between two effective Unlocks. |
| `NamedOnceMutexSpec.GrantIffNotInFlight` | namedoncemutex.go:55-68 | After any sequence of calls, a further Lock(k) succeeds exactly when no cycle of k is in flight, read off the calls alone. Otherwise it blocks on the mutex in flight. |
| `NamedOnceMutexSpec.EntryIffInFlight` | namedoncemutex.go:63-75 | After any sequence of calls, k has an entry iff the last call on k was a Lock. If no call touched k, the entry is there iff it was there at the start. |
| `NSync.OnceMutex.constructor` | namedoncemutex.go:14-16 | A new OnceMutex is free and unused. |
| `NSync.OnceMutex.Lock` | namedoncemutex.go:19-26 | The new state and the outcome are those of `LockStep`. An unsuccessful call leaves the object unchanged. |
| `NSync.OnceMutex.Unlock` | namedoncemutex.go:29-32 | Requires the mutex held. The new state is that of `UnlockStep`: free and used. |
| `NSync.NamedOnceMutex.constructor` | namedoncemutex.go:47-51 | A new registry has an empty map and a free guard, and satisfies the invariant. |
| `NSync.NamedOnceMutex.Lock` | namedoncemutex.go:55-68 | Keeps the invariant: guard free, every entry held and unused, no instance under two keys. The abstract result is `RegistryLock`. An absent key gets a fresh instance inserted and the call succeeds. A present key leaves the map unchanged, blocks, and returns the stored instance. No stored instance changes. |
| `NSync.NamedOnceMutex.Unlock` | namedoncemutex.go:71-81 | Keeps the invariant. The map loses exactly the key. The removed instance ends free and used, as `RegistryUnlock` says. No other instance changes. An absent key changes nothing. |
| `NSync.CacheFillCycle` | namedoncemutex.go:34-40 | On a new registry: the first caller succeeds, and a second caller blocks on the same mutex. That caller is refused after Unlock, and a new Lock of the key succeeds again. |
| `SemaphoreSpec.NewSemaphore` | semaphore.go:15-19 | Any size >= 0 gives count 0 and that capacity. A negative size panics with make's message. |
| `SemaphoreSpec.AcquireStep` | semaphore.go:22-24 | With room in the buffer, Acquire raises the count by exactly 1, keeps the capacity and stays in bounds. |
| `SemaphoreSpec.TryAcquireStep` | semaphore.go:40-47 | TryAcquire succeeds iff count < capacity. On success the count rises by 1, and on failure nothing changes. With capacity 0 it always fails. Bounds are preserved. |
| `SemaphoreSpec.ReleaseStep` | semaphore.go:31-37 | Release succeeds iff count > 0, and then lowers the count by exactly 1. At count 0 it panics with "No semafore locks!". |
| `SemaphoreSpec.TryAcquireThenRelease` | semaphore.go:31-47 | A successful TryAcquire followed by Release restores the original state. |
| `SemaphoreSpec.Conservation` | semaphore.go:10-47 | A sequence of calls that finishes keeps 0 <= count <= capacity and never changes the capacity. The final count equals the first count plus the acquisitions minus the releases. Acquisitions never exceed releases plus capacity. |
| `SemaphoreSpec.AcquiresAddUp` | semaphore.go:22-28 | K Acquires with room for them all finish with K granted and the count raised by K. |
| `SemaphoreSpec.FullRefusesMore` | semaphore.go:40-47 | From empty, after `capacity` Acquires another TryAcquire is refused and changes nothing, and another Acquire would wait. |
| `NMutex.Semaphore.constructor` | semaphore.go:15-19 | Requires a size >= 0. The new state is `NewSemaphore`'s: count 0, capacity the size. |
| `NMutex.Semaphore.Acquire` | semaphore.go:22-24 | Requires room in the buffer. The new state is `AcquireStep`'s. |
| `NMutex.Semaphore.Value` | semaphore.go:26-28 | Returns the count, which lies between 0 and the capacity. Changes nothing. |
| `NMutex.Semaphore.Release` | semaphore.go:31-37 | With count > 0 it returns Ok and the new state is `ReleaseStep`'s. At count 0 it returns the panic and changes nothing. |
| `NMutex.Semaphore.TryAcquire` | semaphore.go:40-47 | The outcome and new state are `TryAcquireStep`'s. |
| `NMutex.SingleSlotScenario` | semaphore.go:30-47 | On a semaphore of capacity 1: TryAcquire succeeds, a second TryAcquire is refused, Release succeeds, a second Release panics, and Value is 0. |

## Left out

- Goroutine interleaving, waiter queues and wake-up order are not modelled. A call that would wait becomes the outcome `Blocked` (OnceMutex, registry) or a precondition (`Semaphore.Acquire`).
- NSync.NamedOnceMutex.Lock: the race between the map lookup and the inner `m.Lock()` (namedoncemutex.go:57-60) is not modelled. The guard is released before the per-key mutex is taken, and only a concurrent semantics can show what happens in that window. Each registry call here is one atomic step.
- NMutex.Semaphore.Acquire: blocking on a full buffer is written as the precondition `count < capacity` instead of a wait.
- NMutex.Semaphore.TryAcquire: with capacity 0, a Go send on an unbuffered channel succeeds when a receiver is waiting at that moment. There is no concurrent receiver here, so it always fails.
- `TryAcquireTimeout` (semaphore.go:51-58) is left out. It depends on `time.After` and on Go's random choice between ready `select` cases.
- NMutex.Semaphore.constructor: Go's panic on a negative size is a precondition here. A constructor cannot return an error, so the panic path is modelled only in `SemaphoreSpec.NewSemaphore`.
- NSync.OnceMutex.Unlock: unlocking a free `sync.Mutex` is a fatal Go runtime error. The class states this as `requires held`, and runs in `OnceMutexSpec.Run` end in `None`.
- The internals of `sync.Mutex` and of Go's channel runtime are foreign library code. They are reduced to a flag and a counter.
- Keys of type `interface{}` become a generic type `K` with equality. Dynamic typing of keys is not modelled.
- Go's `Lock` returns a bool, but `NSync.NamedOnceMutex.Lock` also returns the instance it went to. That instance stands for the Go caller still waiting inside `m.Lock()`.
