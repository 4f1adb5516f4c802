/** Event of webrtc/base/event.cc, as it is on POSIX systems: a flag under a mutex, and a condition
    variable that wakes its waiters with or without reason.

    Every piece of code between taking and giving back the mutex is one step.  While a thread waits,
    the others go on; `Run` below is any interleaving of them. */
module Events {
  import opened Arithmetic

  const NS_PER_S := 1_000_000_000

  // ----- The deadline of a wait

  datatype Timeval = Timeval(sec: int, usec: int)
  datatype Timespec = Timespec(sec: int, nsec: int)

  /** Division and remainder of C, which round towards zero. */
  function Quotient(a: int, b: int): int
    requires b > 0
  {
    if a >= 0 then a / b else -(-a / b)
  }

  function Remainder(a: int, b: int): int
    requires b > 0
  {
    if a >= 0 then a % b else -(-a % b)
  }

  lemma QuotientAndRemainder(a: int, b: int)
    requires b > 0
    ensures a == Quotient(a, b) * b + Remainder(a, b) && -b < Remainder(a, b) < b
    ensures if a >= 0 then Remainder(a, b) >= 0 else Remainder(a, b) <= 0
  {
    var n := if a >= 0 then a else -a;
    assert n == (n / b) * b + n % b;
    assert -(n / b) * b == -((n / b) * b);
  }

  predicate Normal(t: Timespec) {
    0 <= t.nsec < NS_PER_S
  }

  /** The absolute deadline of a wait of `cms` milliseconds, which are not kForever.  It is exact for every number; and it is
      a valid time exactly if the milliseconds that are not whole seconds, when they are negative, do
      not reach back behind the beginning of the current second. */
  method Deadline(now: Timeval, cms: int) returns (t: Timespec)
    requires 0 <= now.usec < 1_000_000
    ensures t.sec * NS_PER_S + t.nsec == now.sec * NS_PER_S + now.usec * 1000 + cms * 1_000_000
    ensures Normal(t) <==> now.usec + Remainder(cms, 1000) * 1000 >= 0
  {
    QuotientAndRemainder(cms, 1000);
    var sec, nsec := now.sec + Quotient(cms, 1000), now.usec * 1000 + Remainder(cms, 1000) * 1_000_000;
    if nsec >= NS_PER_S {
      sec := sec + 1;
      nsec := nsec - NS_PER_S;
    }
    t := Timespec(sec, nsec);
  }

  /** Timeouts that are not negative, or whole seconds, are never rejected; every other one is at the
      beginning of a second. */
  lemma NegativeTimeouts(now: Timeval, cms: int)
    requires 0 <= now.usec < 1_000_000
    ensures cms >= 0 || cms % 1000 == 0 ==> now.usec + Remainder(cms, 1000) * 1000 >= 0
    ensures cms < 0 && cms % 1000 != 0 && now.usec == 0 ==> now.usec + Remainder(cms, 1000) * 1000 < 0
  {
    QuotientAndRemainder(cms, 1000);
    if cms < 0 {
      var q, r := Quotient(cms, 1000), Remainder(cms, 1000);
      if r == 0 {
        QuotientUnique(cms, 1000, q, 0);
      } else {
        QuotientUnique(cms, 1000, q - 1, r + 1000);
      }
    }
  }

  // ----- The event

  /** A return from pthread_cond_wait or pthread_cond_timedwait: the flag as other threads have left
      it, and whether there is an error, such as a time-out. */
  datatype Wake = Wake(status: bool, failed: bool)

  datatype WaitResult = Passed | Failed | Waiting

  /** How a thread leaves its wait, and the flag it leaves behind. */
  function Leave(manual: bool, status: bool, failed: bool): (WaitResult, bool) {
    if failed then (Failed, status) else (Passed, manual && status)
  }

  class Event {
    const is_manual_reset_: bool
    var event_status_: bool

    constructor (manualReset: bool, initiallySignaled: bool)
      ensures is_manual_reset_ == manualReset && event_status_ == initiallySignaled
    {
      is_manual_reset_, event_status_ := manualReset, initiallySignaled;
    }

    method Set()
      modifies this
      ensures event_status_
    {
      event_status_ := true;
    }

    method Reset()
      modifies this
      ensures !event_status_
    {
      event_status_ := false;
    }

    /** Event::Wait from taking the mutex to giving it back, with the wakes in between. */
    method Wait(wakes: seq<Wake>) returns (result: WaitResult)
      modifies this
      ensures old(event_status_) ==> (result, event_status_) == Leave(is_manual_reset_, true, false)
      // The first wake that finds the flag set or an error ends the wait; all others are passed over.
      ensures !old(event_status_) && result != Waiting ==>
                exists k :: 0 <= k < |wakes| && (wakes[k].status || wakes[k].failed) &&
                            (forall j :: 0 <= j < k ==> !wakes[j].status && !wakes[j].failed) &&
                            (result, event_status_) == Leave(is_manual_reset_, wakes[k].status, wakes[k].failed)
      ensures result == Waiting <==> !old(event_status_) && forall j :: 0 <= j < |wakes| ==> !wakes[j].status && !wakes[j].failed
    {
      var error, next := false, 0;
      while !event_status_ && !error
        invariant next <= |wakes|
        invariant old(event_status_) ==> next == 0 && event_status_ && !error
        invariant forall j :: 0 <= j < next - 1 ==> !wakes[j].status && !wakes[j].failed
        invariant next > 0 ==> event_status_ == wakes[next - 1].status && error == wakes[next - 1].failed
        invariant next == 0 ==> event_status_ == old(event_status_) && !error
        decreases |wakes| - next
      {
        if next == |wakes| {
          return Waiting;
        }
        event_status_, error := wakes[next].status, wakes[next].failed;
        next := next + 1;
      }
      assert next > 0 ==> wakes[next - 1].status || wakes[next - 1].failed;
      if !error && !is_manual_reset_ {
        event_status_ := false;
      }
      result := if error then Failed else Passed;
    }
  }

  // ----- Any number of threads

  /** The flag, the threads inside Wait, and what has happened so far: calls of Set, waits that passed,
      waits that failed, and signals that were overwritten by another Set or taken back by Reset. */
  datatype System = System(manual: bool, status: bool, waiting: set<nat>, sets: nat, passed: nat, failed: nat, dropped: nat)

  datatype Step = Set | Reset | Enter(thread: nat) | WakeUp(thread: nat, error: bool)

  function Start(manual: bool, initially: bool): System {
    System(manual, initially, {}, 0, 0, 0, 0)
  }

  function Signals(status: bool): nat {
    if status then 1 else 0
  }

  /** A thread that holds the mutex inside Wait: it leaves, or goes on waiting. */
  function Holding(s: System, thread: nat, error: bool): System {
    if !s.status && !error then s.(waiting := s.waiting + {thread})
    else
      var (result, status) := Leave(s.manual, s.status, error);
      s.(status := status, waiting := s.waiting - {thread},
         passed := s.passed + (if result.Passed? then 1 else 0),
         failed := s.failed + (if result.Failed? then 1 else 0))
  }

  function Take(s: System, step: Step): System {
    match step
    case Set => s.(status := true, sets := s.sets + 1, dropped := s.dropped + Signals(s.status))
    case Reset => s.(status := false, dropped := s.dropped + Signals(s.status))
    case Enter(thread) => if thread in s.waiting then s else Holding(s, thread, false)
    case WakeUp(thread, error) => if thread in s.waiting then Holding(s, thread, error) else s
  }

  function Run(s: System, steps: seq<Step>): System
    decreases |steps|
  {
    if steps == [] then s else Run(Take(s, steps[0]), steps[1..])
  }

  /** An event that resets itself conserves its signals over all interleavings, spurious wakes and
      time-outs: each signal is waiting to be taken, has let exactly one wait pass, or was dropped by
      another Set or a Reset.  A wait that fails takes none. */
  lemma {:induction false} SignalsAreConserved(s: System, steps: seq<Step>)
    requires !s.manual
    ensures var t := Run(s, steps);
            && !t.manual
            && t.passed + t.dropped + Signals(t.status) - t.sets == s.passed + s.dropped + Signals(s.status) - s.sets
    decreases |steps|
  {
    if steps != [] {
      SignalsAreConserved(Take(s, steps[0]), steps[1..]);
    }
  }

  /** So no more waits pass than there are calls of Set, and the initial signal. */
  lemma PassedAtMostSignals(initially: bool, steps: seq<Step>)
    ensures var t := Run(Start(false, initially), steps);
            && t.passed <= t.sets + Signals(initially)
            && (t.dropped == 0 ==> t.passed + Signals(t.status) == t.sets + Signals(initially))
  {
    SignalsAreConserved(Start(false, initially), steps);
  }

  /** An event without automatic reset stays set until it is reset: after a Set, every wait that comes
      or wakes up without an error passes, and no thread starts waiting. */
  lemma {:induction false} ManualStaysSet(s: System, steps: seq<Step>)
    requires s.manual && s.status && Reset !in steps && forall step :: step in steps && step.WakeUp? ==> !step.error
    ensures var t := Run(s, steps);
            && t.manual && t.status && t.waiting <= s.waiting
            && t.failed == s.failed && t.passed >= s.passed + |s.waiting - t.waiting|
    decreases |steps|
  {
    if steps != [] {
      var next := Take(s, steps[0]);
      ManualStaysSet(next, steps[1..]);
      var t := Run(s, steps);
      LeftWaiting(s.waiting, next.waiting, t.waiting);
    }
  }

  lemma LeftWaiting(a: set<nat>, b: set<nat>, c: set<nat>)
    requires c <= b <= a
    ensures |a - c| == |a - b| + |b - c|
  {
    assert a - c == (a - b) + (b - c);
  }
}
