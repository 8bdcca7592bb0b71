/** The Semaphore of semaphore.go as a counter: `count` is the number of
    empty structs in the buffered channel (len) and `capacity` its buffer
    size (cap). A send into a full buffer blocks in Go; here that is either a
    precondition (AcquireStep) or the outcome Stuck of a run. */
module SemaphoreSpec {

  /** A Go panic is modelled as a value carrying the panic message. */
  datatype Result<T> = Ok(value: T) | Panic(message: string)

  /** The message Release panics with. */
  const ReleasePanicMessage: string := "No semafore locks!"

  /** The message the Go runtime panics with when make is given a negative
      buffer size. */
  const MakeChanPanicMessage: string := "makechan: size out of range"

  datatype SemState = SemState(count: nat, capacity: nat)

  /** The channel never holds more elements than its buffer has room for. */
  predicate InBounds(s: SemState) {
    s.count <= s.capacity
  }

  /** NewSemaphore(value): an empty buffer of `value` slots; a negative size
      panics inside make. */
  function NewSemaphore(value: int): (r: Result<SemState>)
    ensures r.Ok? <==> value >= 0
    ensures r.Ok? ==> InBounds(r.value) && r.value.count == 0 && r.value.capacity == value
    ensures r.Panic? ==> r.message == MakeChanPanicMessage
  {
    if value < 0 then Panic(MakeChanPanicMessage) else Ok(SemState(0, value))
  }

  /** Acquire: a blocking send, which the caller can only complete when the
      buffer has room. */
  function AcquireStep(s: SemState): (r: SemState)
    requires s.count < s.capacity
    ensures r.count == s.count + 1 && r.capacity == s.capacity
    ensures InBounds(r)
  {
    s.(count := s.count + 1)
  }

  /** TryAcquire: a send in a select with a default case; it succeeds exactly
      when the buffer has room. */
  function TryAcquireStep(s: SemState): (r: (bool, SemState))
    ensures r.0 <==> s.count < s.capacity
    ensures r.0 ==> r.1 == AcquireStep(s)
    ensures !r.0 ==> r.1 == s
    ensures s.capacity == 0 ==> !r.0
    ensures InBounds(s) ==> InBounds(r.1)
  {
    if s.count < s.capacity then (true, AcquireStep(s)) else (false, s)
  }

  /** Release: a receive in a select whose default case panics, so it fails
      exactly when the buffer is empty. */
  function ReleaseStep(s: SemState): (r: Result<SemState>)
    ensures r.Ok? <==> s.count > 0
    ensures r.Ok? ==> r.value.count == s.count - 1 && r.value.capacity == s.capacity
    ensures r.Panic? ==> r.message == ReleasePanicMessage
    ensures InBounds(s) && r.Ok? ==> InBounds(r.value)
  {
    if s.count == 0 then Panic(ReleasePanicMessage) else Ok(s.(count := s.count - 1))
  }

  /** A successful TryAcquire followed by Release restores the count. */
  lemma TryAcquireThenRelease(s: SemState)
    requires TryAcquireStep(s).0
    ensures ReleaseStep(TryAcquireStep(s).1) == Ok(s)
  {
  }

  datatype SemCall = AcquireCall | TryAcquireCall | ReleaseCall

  /** How a run of calls ends: with the number of acquisitions granted, the
      number of releases and the final state; or, at call index `at`, in an
      Acquire that would wait forever, or in the panic of a Release. */
  datatype RunResult =
    | Finished(granted: nat, released: nat, last: SemState)
    | Stuck(at: nat)
    | Panicked(at: nat, message: string)

  /** Runs `calls` one after another on one semaphore; `index` is the
      position of calls[0] in the whole run. */
  function RunFrom(s: SemState, calls: seq<SemCall>, index: nat): (r: RunResult)
    ensures r.Finished? ==> r.granted + r.released <= |calls|
    ensures r.Stuck? ==> index <= r.at < index + |calls|
    ensures r.Panicked? ==> index <= r.at < index + |calls|
    decreases |calls|
  {
    if calls == [] then Finished(0, 0, s)
    else
      match calls[0]
      case AcquireCall =>
        if s.count < s.capacity then Then(1, 0, RunFrom(AcquireStep(s), calls[1..], index + 1))
        else Stuck(index)
      case TryAcquireCall =>
        var (ok, next) := TryAcquireStep(s);
        Then(if ok then 1 else 0, 0, RunFrom(next, calls[1..], index + 1))
      case ReleaseCall =>
        match ReleaseStep(s)
        case Ok(next) => Then(0, 1, RunFrom(next, calls[1..], index + 1))
        case Panic(message) => Panicked(index, message)
  }

  /** Adds one call's acquisitions and releases in front of the rest's. */
  function Then(granted: nat, released: nat, rest: RunResult): (r: RunResult)
    ensures r.Finished? <==> rest.Finished?
    ensures !rest.Finished? ==> r == rest
    ensures rest.Finished? ==> r.granted == granted + rest.granted && r.released == released + rest.released
  {
    match rest
    case Finished(g, r, last) => Finished(granted + g, released + r, last)
    case _ => rest
  }

  /** A run that finishes keeps the count in bounds, never changes the
      capacity, and accounts for every slot: the final count is the first
      plus the acquisitions granted minus the releases. Hence no more than
      `capacity` acquisitions are ever outstanding at once. */
  lemma {:induction false} Conservation(s: SemState, calls: seq<SemCall>, index: nat)
    requires InBounds(s)
    ensures var r := RunFrom(s, calls, index);
            r.Finished? ==>
              && InBounds(r.last)
              && r.last.capacity == s.capacity
              && r.last.count + r.released == s.count + r.granted
              && r.granted <= r.released + s.capacity
    decreases |calls|
  {
    if calls != [] {
      match calls[0]
      case AcquireCall =>
        if s.count < s.capacity {
          Conservation(AcquireStep(s), calls[1..], index + 1);
        }
      case TryAcquireCall =>
        Conservation(TryAcquireStep(s).1, calls[1..], index + 1);
      case ReleaseCall =>
        if s.count > 0 {
          Conservation(ReleaseStep(s).value, calls[1..], index + 1);
        }
    }
  }

  /** K acquisitions with room for them leave Value() at the old count plus K. */
  lemma {:induction false} AcquiresAddUp(s: SemState, k: nat, index: nat)
    requires s.count + k <= s.capacity
    ensures RunFrom(s, seq(k, _ => AcquireCall), index) == Finished(k, 0, s.(count := s.count + k))
    decreases k
  {
    if k > 0 {
      var calls := seq(k, _ => AcquireCall);
      assert calls[0] == AcquireCall;
      assert calls[1..] == seq(k - 1, _ => AcquireCall);
      AcquiresAddUp(AcquireStep(s), k - 1, index + 1);
    }
  }

  /** With `capacity` acquisitions outstanding, one more TryAcquire is refused
      and one more Acquire would wait. */
  lemma {:induction false} FullRefusesMore(s: SemState, index: nat)
    requires s.count == 0
    ensures var full := s.(count := s.capacity);
            RunFrom(s, seq(s.capacity, _ => AcquireCall) + [TryAcquireCall], index) == Finished(s.capacity, 0, full)
            && RunFrom(s, seq(s.capacity, _ => AcquireCall) + [AcquireCall], index) == Stuck(index + s.capacity)
  {
    var fill := seq(s.capacity, _ => AcquireCall);
    AcquiresAddUp(s, s.capacity, index);
    RunFromAppend(s, fill, [TryAcquireCall], index);
    RunFromAppend(s, fill, [AcquireCall], index);
  }

  /** Running a concatenation is running the two parts in turn, when the
      first part finishes. */
  lemma {:induction false} RunFromAppend(s: SemState, a: seq<SemCall>, b: seq<SemCall>, index: nat)
    requires RunFrom(s, a, index).Finished?
    ensures var first := RunFrom(s, a, index);
            RunFrom(s, a + b, index) == Then(first.granted, first.released, RunFrom(first.last, b, index + |a|))
    decreases |a|
  {
    if a == [] {
      assert a + b == b;
      assert Then(0, 0, RunFrom(s, b, index)) == RunFrom(s, b, index);
    } else {
      assert (a + b)[0] == a[0];
      assert (a + b)[1..] == a[1..] + b;
      match a[0]
      case AcquireCall =>
        RunFromAppend(AcquireStep(s), a[1..], b, index + 1);
      case TryAcquireCall =>
        RunFromAppend(TryAcquireStep(s).1, a[1..], b, index + 1);
      case ReleaseCall =>
        RunFromAppend(ReleaseStep(s).value, a[1..], b, index + 1);
    }
  }
}
