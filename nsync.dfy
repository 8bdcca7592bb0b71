/** OnceMutex and NamedOnceMutex of namedoncemutex.go as objects whose fields
    change in place. Every sync.Mutex becomes a `held` flag; a call that would
    wait for a held mutex returns Blocked instead (see OnceMutexSpec). Each
    method is tied to the step function of OnceMutexSpec or NamedOnceMutexSpec
    that it implements, and the properties are proved about those functions. */
module NSync {
  import opened OnceMutexSpec
  import opened NamedOnceMutexSpec

  /** A mutex that can be locked successfully only once. */
  class OnceMutex {
    var held: bool  // the field `mu`
    var used: bool

    function State(): OnceState
      reads this
    {
      OnceState(held, used)
    }

    /** NewOnceMutex. */
    constructor ()
      ensures State() == Fresh
    {
      held, used := false, false;
    }

    /** Lock: Acquired leaves the mutex held by the caller; Refused (it was
        used) leaves it as it was; Blocked (it is held) changes nothing, and
        the caller may call Lock again once the holder has unlocked. */
    method Lock() returns (r: LockOutcome)
      modifies this
      ensures (r, State()) == LockStep(old(State()))
      ensures r != Acquired ==> unchanged(this)
    {
      if held {
        return Blocked;  // mu.Lock() waits
      }
      held := true;
      if used {
        held := false;
        return Refused;
      }
      return Acquired;
    }

    /** Unlock: mark used for good, then free `mu`. */
    method Unlock()
      requires held
      modifies this
      ensures State() == UnlockStep(old(State()))
    {
      used := true;
      held := false;
    }
  }

  /** A registry of OnceMutex instances created on demand per key. */
  class NamedOnceMutex<K(==)> {
    var lockMap: map<K, OnceMutex>
    var guarded: bool  // the field `mutex`, held while the map is looked at

    /** The invariant kept across calls: the guard is free, every stored
        mutex is held and unused, and no mutex is stored under two keys. */
    ghost predicate Valid()
      reads this, lockMap.Values
    {
      && !guarded
      && (forall k | k in lockMap :: lockMap[k].State() == Locked)
      && (forall j, k | j in lockMap && k in lockMap && j != k :: lockMap[j] != lockMap[k])
    }

    /** The registry as a value: the state of the mutex under each key. */
    ghost function Abstract(): map<K, OnceState>
      reads this, lockMap.Values
    {
      map k | k in lockMap :: lockMap[k].State()
    }

    /** NewNamedOnceMutex. */
    constructor ()
      ensures Valid() && lockMap == map[] && Abstract() == map[]
    {
      lockMap := map[];
      guarded := false;
    }

    /** Lock(k). Besides the outcome it returns the mutex the call went to:
        the newly stored one, or the stored one a Blocked caller waits on. */
    method Lock(k: K) returns (r: LockOutcome, m: OnceMutex)
      requires Valid()
      modifies this, lockMap.Values
      ensures Valid() && InFlight(Abstract())
      ensures (r, Abstract()) == RegistryLock(old(Abstract()), k)
      ensures k in old(lockMap) ==> r == Blocked && lockMap == old(lockMap) && m == old(lockMap)[k]
      ensures k !in old(lockMap) ==> r == Acquired && fresh(m) && lockMap == old(lockMap)[k := m]
      ensures forall j | j in old(lockMap) :: unchanged(old(lockMap)[j])
    {
      guarded := true;
      if k in lockMap {
        m := lockMap[k];
        guarded := false;
        r := m.Lock();
        assert Abstract() == old(Abstract());
        return;
      }
      m := new OnceMutex();
      var _ := m.Lock();
      lockMap := lockMap[k := m];
      guarded := false;
      r := Acquired;
      assert Abstract() == old(Abstract())[k := Locked];
    }

    /** Unlock(k). A stored mutex is removed from the map first and unlocked
        afterwards, so it ends free and used and a caller blocked on it is
        refused; an absent key leaves everything as it was. */
    method Unlock(k: K)
      requires Valid()
      modifies this, lockMap.Values
      ensures Valid() && InFlight(Abstract())
      ensures Abstract() == RegistryUnlock(old(Abstract()), k).0
      ensures lockMap == old(lockMap) - {k}
      ensures k in old(lockMap) ==> Some(old(lockMap)[k].State()) == RegistryUnlock(old(Abstract()), k).1
      ensures forall j | j in old(lockMap) && j != k :: unchanged(old(lockMap)[j])
    {
      guarded := true;
      if k in lockMap {
        var m := lockMap[k];
        lockMap := lockMap - {k};
        guarded := false;
        assert forall j | j in lockMap :: lockMap[j] != m;
        m.Unlock();
        assert Abstract() == old(Abstract()) - {k};
      } else {
        guarded := false;
        assert lockMap == old(lockMap) - {k};
      }
    }
  }

  /** The cache-fill pattern the registry exists for: the first caller for a
      key wins, a concurrent caller waits on that caller's mutex and is
      refused once it is unlocked, and a later caller for the same key starts
      a new cycle and wins again. */
  method CacheFillCycle<K(==)>(k: K) returns (first: LockOutcome, contender: LockOutcome, resumed: LockOutcome, later: LockOutcome)
    ensures first == Acquired && contender == Blocked && resumed == Refused && later == Acquired
  {
    var registry := new NamedOnceMutex<K>();
    var owner;
    first, owner := registry.Lock(k);
    var waitedOn;
    contender, waitedOn := registry.Lock(k);
    registry.Unlock(k);
    resumed := waitedOn.Lock();
    var next;
    later, next := registry.Lock(k);
  }
}
