/** The Semaphore of semaphore.go as an object: the buffered channel `sch`
    becomes a counter of the structs in it and the fixed buffer size. Each
    method is tied to the step function of SemaphoreSpec it implements. */
module NMutex {
  import opened SemaphoreSpec

  class Semaphore {
    var count: nat        // len(sch)
    const capacity: nat   // cap(sch), fixed by make

    function State(): SemState
      reads this
    {
      SemState(count, capacity)
    }

    ghost predicate Valid()
      reads this
    {
      InBounds(State())
    }

    /** NewSemaphore(value). Go's make panics on a negative size, so the
        caller must pass a size NewSemaphore accepts. */
    constructor (value: int)
      requires value >= 0
      ensures Valid() && Ok(State()) == NewSemaphore(value)
    {
      count := 0;
      capacity := value;
    }

    /** Acquire: a send that only completes when the buffer has room. */
    method Acquire()
      requires Valid() && count < capacity
      modifies this
      ensures Valid() && State() == AcquireStep(old(State()))
    {
      count := count + 1;
    }

    /** Value: the number of outstanding acquisitions; changes nothing. */
    method Value() returns (v: int)
      requires Valid()
      ensures 0 <= v <= capacity
      ensures v == count
    {
      v := count;
    }

    /** Release: panics with "No semafore locks!" when nothing is acquired,
        otherwise takes one struct out of the buffer. */
    method Release() returns (r: Result<()>)
      requires Valid()
      modifies this
      ensures Valid()
      ensures ReleaseStep(old(State())).Ok? ==> r == Ok(()) && State() == ReleaseStep(old(State())).value
      ensures ReleaseStep(old(State())).Panic? ==> r == Panic(ReleaseStep(old(State())).message) && unchanged(this)
    {
      if count == 0 {
        return Panic(ReleasePanicMessage);
      }
      count := count - 1;
      return Ok(());
    }

    /** TryAcquire: a send that succeeds exactly when the buffer has room. */
    method TryAcquire() returns (ok: bool)
      requires Valid()
      modifies this
      ensures Valid() && (ok, State()) == TryAcquireStep(old(State()))
    {
      if count < capacity {
        count := count + 1;
        return true;
      }
      return false;
    }
  }

  /** A semaphore of capacity 1 in use: the first TryAcquire succeeds, the
      second is refused, a Release succeeds and a second Release panics, and
      Value is back at zero. */
  method SingleSlotScenario() returns (first: bool, second: bool, released: Result<()>, overReleased: Result<()>, v: int)
    ensures first && !second
    ensures released == Ok(()) && overReleased == Panic(ReleasePanicMessage)
    ensures v == 0
  {
    var s := new Semaphore(1);
    first := s.TryAcquire();
    second := s.TryAcquire();
    released := s.Release();
    overReleased := s.Release();
    v := s.Value();
  }
}
