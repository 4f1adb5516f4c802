/** FixedSizeLockFreeQueue of webrtc/base/atomicops.h with one producer and one consumer.

    The counters are 32 bits wide and wrap around; they are reduced modulo the capacity to find a
    slot.  The two threads are interleaved at the points where they touch shared memory, which is
    taken to be sequentially consistent. */
module LockFreeQueue {
  import opened Arithmetic

  const MODULUS: nat := 0x1_0000_0000

  /** Atomic32, and size_t of the 32-bit platform the queue is written for. */
  type Count = n: int | 0 <= n < MODULUS

  function Increment(n: Count): Count {
    if n + 1 == MODULUS then 0 else n + 1
  }

  // ----- The shared memory

  datatype Shared<T> = Shared(pushed: Count, popped: Count, data: seq<T>) {
    ghost predicate Fits() {
      |data| < MODULUS
    }

    predicate IsFull()
      requires Fits()
    {
      pushed == (popped + |data|) % MODULUS
    }

    predicate IsEmpty() {
      pushed == popped
    }

    function Size(): nat {
      (pushed - popped) % MODULUS
    }

    /** data_[pushed_count_ % capacity_] = value */
    function Store(value: T): Shared<T>
      requires data != []
    {
      this.(data := data[pushed % |data| := value])
    }

    function Front(): T
      requires data != []
    {
      data[popped % |data|]
    }
  }

  /** The queue as its methods work on it when nothing runs at the same time. */
  class FixedSizeLockFreeQueue<T(0)> {
    var pushed_count_: Count
    var popped_count_: Count
    var data_: array<T>

    ghost predicate Valid()
      reads this
    {
      data_.Length < MODULUS
    }

    ghost function Memory(): Shared<T>
      reads this, data_
    {
      Shared(pushed_count_, popped_count_, data_[..])
    }

    constructor (capacity: Count)
      ensures Valid() && fresh(data_) && data_.Length == capacity
      ensures pushed_count_ == popped_count_ == 0
    {
      pushed_count_, popped_count_ := 0, 0;
      data_ := new T[capacity];
    }

    method ClearAndResizeUnsafe(capacity: Count)
      modifies this
      ensures Valid() && fresh(data_) && data_.Length == capacity
      ensures pushed_count_ == popped_count_ == 0
    {
      data_ := new T[capacity];
      pushed_count_, popped_count_ := 0, 0;
    }

    method PushBack(value: T) returns (ok: bool)
      requires Valid()
      modifies this`pushed_count_, data_
      ensures Valid() && ok == (old(Memory()).data != [] && !old(Memory()).IsFull())
      ensures ok ==> var stored := old(Memory()).Store(value);
                     Memory() == stored.(pushed := Increment(stored.pushed))
      ensures !ok ==> Memory() == old(Memory())
    {
      if data_.Length == 0 || pushed_count_ == (popped_count_ + data_.Length) % MODULUS {
        return false;
      }
      data_[pushed_count_ % data_.Length] := value;
      pushed_count_ := Increment(pushed_count_);
      ok := true;
    }

    method PeekFront(unused: T) returns (ok: bool, value: T)
      requires Valid()
      ensures ok == (data_.Length != 0 && !Memory().IsEmpty())
      ensures value == if ok then Memory().Front() else unused
    {
      if data_.Length == 0 || pushed_count_ == popped_count_ {
        return false, unused;
      }
      return true, data_[popped_count_ % data_.Length];
    }

    method PopFront(unused: T) returns (ok: bool, value: T)
      requires Valid()
      modifies this`popped_count_
      ensures Valid() && ok == (data_.Length != 0 && !old(Memory()).IsEmpty())
      ensures value == if ok then old(Memory()).Front() else unused
      ensures Memory() == if ok then old(Memory()).(popped := Increment(old(popped_count_))) else old(Memory())
    {
      ok, value := PeekFront(unused);
      if ok {
        popped_count_ := Increment(popped_count_);
      }
    }
  }

  // ----- Two threads

  /** Where the producer is in PushBack: outside, past the full check, past the store. */
  datatype Producer<T> = NotPushing | Checked(value: T) | Stored(value: T)

  /** Where the consumer is in PopFront or PeekFront: outside, past the empty check, past the load. */
  datatype Consumer<T> = NotPopping | SawItem | Loaded(value: T)

  /** The shared memory, the two threads, and all values pushed and popped so far. */
  datatype System<T> = System(memory: Shared<T>, producer: Producer<T>, consumer: Consumer<T>,
                              pushes: seq<T>, pops: seq<T>)

  datatype Step<T> = PushCheck(value: T) | PushStore | PushCount | PopCheck | PopLoad | PopCount | PeekReturn

  function Start<T>(data: seq<T>): System<T> {
    System(Shared(0, 0, data), NotPushing, NotPopping, [], [])
  }

  function Take<T>(s: System<T>, step: Step<T>): (t: System<T>)
    requires s.memory.Fits()
    ensures |t.memory.data| == |s.memory.data|
  {
    var m := s.memory;
    match step
    case PushCheck(v) =>
      if s.producer.NotPushing? && m.data != [] && !m.IsFull() then s.(producer := Checked(v)) else s
    case PushStore =>
      if s.producer.Checked? && m.data != [] then s.(memory := m.Store(s.producer.value), producer := Stored(s.producer.value)) else s
    case PushCount =>
      if s.producer.Stored? then
        s.(memory := m.(pushed := Increment(m.pushed)), producer := NotPushing, pushes := s.pushes + [s.producer.value])
      else s
    case PopCheck =>
      if s.consumer.NotPopping? && m.data != [] && !m.IsEmpty() then s.(consumer := SawItem) else s
    case PopLoad =>
      if s.consumer.SawItem? && m.data != [] then s.(consumer := Loaded(m.Front())) else s
    case PopCount =>
      if s.consumer.Loaded? then
        s.(memory := m.(popped := Increment(m.popped)), consumer := NotPopping, pops := s.pops + [s.consumer.value])
      else s
    case PeekReturn =>
      if s.consumer.Loaded? then s.(consumer := NotPopping) else s
  }

  /** Any interleaving. */
  function Exec<T>(s: System<T>, steps: seq<Step<T>>): (t: System<T>)
    requires s.memory.Fits()
    ensures |t.memory.data| == |s.memory.data|
    decreases |steps|
  {
    if steps == [] then s else Take(Exec(s, steps[..|steps| - 1]), steps[|steps| - 1])
  }

  // ----- Safety

  /** Counters that may be reduced modulo the capacity before or after the wrap. */
  predicate Wraps(capacity: nat, pushes: nat) {
    capacity != 0 && (MODULUS % capacity == 0 || pushes < MODULUS)
  }

  ghost predicate Inv<T>(s: System<T>) {
    var n, p, c := |s.memory.data|, |s.pushes|, |s.pops|;
    && 0 < n < MODULUS
    && c <= p <= c + n
    && s.memory.pushed == p % MODULUS && s.memory.popped == c % MODULUS
    && s.pops == s.pushes[..c]
    && (forall k :: c <= k < p ==> s.memory.data[k % n] == s.pushes[k])
    && (s.producer.Checked? ==> p < c + n)
    && (s.producer.Stored? ==> p < c + n && s.memory.data[p % n] == s.producer.value)
    && (s.consumer.SawItem? ==> c < p)
    && (s.consumer.Loaded? ==> c < p && s.consumer.value == s.pushes[c])
  }

  /** Reducing a wrapped counter modulo a capacity that divides 2^32 finds the slot of the full count. */
  lemma SlotOfCounter(k: nat, n: nat)
    requires 0 < n < MODULUS && (MODULUS % n == 0 || k < MODULUS)
    ensures (k % MODULUS) % n == k % n
  {
    if k >= MODULUS {
      var q, m, r := k / MODULUS, MODULUS / n, k % MODULUS;
      var a, b := r / n, r % n;
      assert k == q * MODULUS + r && MODULUS == m * n && r == a * n + b;
      assert q * (m * n) == (q * m) * n;
      assert (q * m + a) * n == (q * m) * n + a * n;
      QuotientUnique(k, n, q * m + a, b);
    }
  }

  lemma DistinctSlots(i: nat, j: nat, n: nat)
    requires 0 < n && i < j < i + n
    ensures i % n != j % n
  {
    var a, b := i / n, j / n;
    assert i == a * n + i % n && j == b * n + j % n;
    assert (b - a) * n == b * n - a * n;
    if i % n == j % n {
      SmallMultiple(b - a, n);
    }
  }

  lemma ModIncrement(p: nat)
    ensures Increment(p % MODULUS) == (p + 1) % MODULUS
  {
    SumRemainder(p, 1, MODULUS);
  }

  /** The two tests are exact as long as the size does not exceed the capacity. */
  lemma TestsAreExact<T>(s: System<T>)
    requires Inv(s)
    ensures s.memory.IsFull() <==> |s.pushes| == |s.pops| + |s.memory.data|
    ensures s.memory.IsEmpty() <==> |s.pushes| == |s.pops|
    ensures s.memory.Size() == |s.pushes| - |s.pops| <= |s.memory.data|
  {
    var n, p, c := |s.memory.data|, |s.pushes|, |s.pops|;
    SameRemainder(p, c + n, MODULUS);
    SumRemainder(c, n, MODULUS);
    SameRemainder(c, p, MODULUS);
    DifferenceRemainder(c, p, MODULUS);
  }

  /** A store hits no slot that is still to be read. */
  lemma StoreKeepsUnread<T>(s: System<T>)
    requires Inv(s) && s.producer.Checked? && Wraps(|s.memory.data|, |s.pushes|)
    ensures Inv(Take(s, PushStore))
  {
    var n, p, c := |s.memory.data|, |s.pushes|, |s.pops|;
    SlotOfCounter(p, n);
    forall k | c <= k < p ensures k % n != p % n {
      DistinctSlots(k, p, n);
    }
  }

  lemma StepKeepsInv<T>(s: System<T>, step: Step<T>)
    requires Inv(s) && Wraps(|s.memory.data|, |s.pushes|)
    ensures Inv(Take(s, step))
  {
    TestsAreExact(s);
    ModIncrement(|s.pushes|);
    ModIncrement(|s.pops|);
    match step
    case PushStore =>
      if s.producer.Checked? {
        StoreKeepsUnread(s);
      }
    case PopLoad =>
      SlotOfCounter(|s.pops|, |s.memory.data|);
    case _ =>
  }

  lemma {:induction false} RunKeepsInv<T>(data: seq<T>, steps: seq<Step<T>>)
    requires Start(data).memory.Fits() && Wraps(|data|, |Exec(Start(data), steps).pushes|)
    ensures Inv(Exec(Start(data), steps))
    decreases |steps|
  {
    if steps != [] {
      var before := Exec(Start(data), steps[..|steps| - 1]);
      RunKeepsInv(data, steps[..|steps| - 1]);
      StepKeepsInv(before, steps[|steps| - 1]);
    }
  }

  /** Popped values are a prefix of pushed values, in every interleaving of every run that pushes
      fewer than 2^32 values, and in every run at all if the capacity divides 2^32. */
  lemma PopsArePrefix<T>(data: seq<T>, steps: seq<Step<T>>)
    requires Start(data).memory.Fits()
    requires data != [] && MODULUS % |data| != 0 ==> |Exec(Start(data), steps).pushes| < MODULUS
    ensures var s := Exec(Start(data), steps);
            && s.pops <= s.pushes
            && s.memory.Size() == |s.pushes| - |s.pops| <= |data|
  {
    if data == [] {
      NoCapacity(data, steps);
    } else {
      RunKeepsInv(data, steps);
      TestsAreExact(Exec(Start(data), steps));
    }
  }

  lemma {:induction false} NoCapacity<T>(data: seq<T>, steps: seq<Step<T>>)
    requires data == []
    ensures Exec(Start(data), steps) == Start(data)
    decreases |steps|
  {
    if steps != [] {
      NoCapacity(data, steps[..|steps| - 1]);
    }
  }

  // ----- What goes wrong with any other capacity

  lemma {:induction false} ExecAppend<T>(s: System<T>, a: seq<Step<T>>, b: seq<Step<T>>)
    requires s.memory.Fits()
    ensures Exec(s, a + b) == Exec(Exec(s, a), b)
    decreases |b|
  {
    if b == [] {
      assert a + b == a;
    } else {
      var n := |b| - 1;
      ExecAppend(s, a, b[..n]);
      assert (a + b)[..|a + b| - 1] == a + b[..n] && (a + b)[|a + b| - 1] == b[n];
    }
  }

  function PushSteps<T>(value: T): seq<Step<T>> {
    [PushCheck(value), PushStore, PushCount]
  }

  function PopSteps<T>(): seq<Step<T>> {
    [PopCheck, PopLoad, PopCount]
  }

  ghost predicate Quiet<T>(s: System<T>) {
    s.producer.NotPushing? && s.consumer.NotPopping? && 0 < |s.memory.data| < MODULUS
  }

  lemma ExecThree<T>(s: System<T>, x: Step<T>, y: Step<T>, z: Step<T>)
    requires s.memory.Fits()
    ensures Exec(s, [x, y, z]) == Take(Take(Take(s, x), y), z)
  {
    assert [x, y, z][..2] == [x, y] && [x, y][..1] == [x] && [x][..0] == [];
    assert Exec(s, []) == s;
    assert Exec(s, [x]) == Take(s, x);
    assert Exec(s, [x, y]) == Take(Take(s, x), y);
  }

  /** PushBack without interference is the three steps in a row. */
  lemma PushAlone<T>(s: System<T>, value: T)
    requires Quiet(s) && !s.memory.IsFull()
    ensures var m := s.memory.Store(value);
            Exec(s, PushSteps(value)) ==
            s.(memory := m.(pushed := Increment(m.pushed)), pushes := s.pushes + [value])
  {
    ExecThree(s, PushCheck(value), PushStore, PushCount);
  }

  /** PopFront without interference is the three steps in a row. */
  lemma PopAlone<T>(s: System<T>)
    requires Quiet(s) && !s.memory.IsEmpty()
    ensures Exec(s, PopSteps()) ==
            s.(memory := s.memory.(popped := Increment(s.memory.popped)), pops := s.pops + [s.memory.Front()])
  {
    ExecThree(s, PopCheck, PopLoad, PopCount);
  }

  lemma ExecNone<T>(s: System<T>)
    requires s.memory.Fits()
    ensures Exec(s, []) == s
  {
  }

  /** One push and one pop on an empty queue. */
  lemma CycleAdvances(s: System<int>)
    requires Quiet(s) && s.memory.pushed == s.memory.popped && s.pushes == s.pops
    ensures var t := Exec(s, PushSteps(0) + PopSteps());
            && Quiet(t) && |t.memory.data| == |s.memory.data|
            && t.memory.pushed == t.memory.popped == Increment(s.memory.pushed)
            && t.pushes == t.pops && |t.pops| == |s.pops| + 1
  {
    hide Exec, Take;
    ExecAppend(s, PushSteps(0), PopSteps());
    PushAlone(s, 0);
    PopAlone(Exec(s, PushSteps(0)));
  }

  function Cycles(n: nat): seq<Step<int>> {
    if n == 0 then [] else Cycles(n - 1) + (PushSteps(0) + PopSteps())
  }

  /** Push and pop in turn: the counters move through all values, and the queue ends up empty. */
  lemma {:induction false} CyclesAdvance(data: seq<int>, n: nat)
    requires 0 < |data| < MODULUS && n < MODULUS
    ensures var s := Exec(Start(data), Cycles(n));
            Quiet(s) && |s.memory.data| == |data| && s.memory.pushed == s.memory.popped == n && s.pushes == s.pops && |s.pops| == n
  {
    hide Exec, Take, PushSteps, PopSteps;
    if n == 0 {
      ExecNone(Start(data));
    } else {
      CyclesAdvance(data, n - 1);
      ExecAppend(Start(data), Cycles(n - 1), PushSteps(0) + PopSteps());
      CycleAdvances(Exec(Start(data), Cycles(n - 1)));
    }
  }

  function Ones(n: nat): seq<int> {
    seq(n, _ => 1)
  }

  function PushOnes(n: nat): seq<Step<int>> {
    if n == 0 then [] else PushOnes(n - 1) + PushSteps(1)
  }

  predicate BehindWrap(s: System<int>, n: nat) {
    && s.producer.NotPushing? && s.consumer.NotPopping? && n < |s.memory.data| < MODULUS
    && s.memory.pushed == n && s.memory.popped == MODULUS - 1
  }

  lemma OneFillsSlot(s: System<int>, n: nat)
    requires BehindWrap(s, n) && n + 1 < |s.memory.data|
    ensures var t := Exec(s, PushSteps(1));
            && BehindWrap(t, n + 1) && t.memory.data == s.memory.data[n := 1]
            && t.pushes == s.pushes + [1] && t.pops == s.pops
  {
    hide Exec, Take, PushSteps;
    var size := |s.memory.data|;
    QuotientUnique(MODULUS - 1 + size, MODULUS, 1, size - 1);
    QuotientUnique(n, size, 0, n);
    PushAlone(s, 1);
  }

  /** Behind the wrap, pushing goes through the slots from 0 on, whatever is still unread there. */
  lemma {:induction false} OnesFillSlots(s: System<int>, n: nat)
    requires BehindWrap(s, 0) && n < |s.memory.data|
    ensures var t := Exec(s, PushOnes(n));
            && BehindWrap(t, n) && |t.memory.data| == |s.memory.data|
            && (forall i :: 0 <= i < n ==> t.memory.data[i] == 1)
            && t.pushes == s.pushes + Ones(n) && t.pops == s.pops
  {
    hide Exec, Take, PushSteps;
    if n == 0 {
      ExecNone(s);
      assert Ones(0) == [];
    } else {
      OnesFillSlots(s, n - 1);
      ExecAppend(s, PushOnes(n - 1), PushSteps(1));
      OneFillsSlot(Exec(s, PushOnes(n - 1)), n - 1);
      assert Ones(n) == Ones(n - 1) + [1];
    }
  }

  /** The run that breaks a capacity that does not divide 2^32: advance the counters to 2^32 - 1,
      push 0, then push as many 1s as 2^32 leaves over modulo the capacity.  The last of them
      lands on the unread 0, and the next pop returns 1. */
  function BreakingRun(capacity: nat): seq<Step<int>>
    requires capacity > 0
  {
    Cycles(MODULUS - 1) + (PushSteps(0) + (PushOnes(MODULUS % capacity) + PopSteps()))
  }

  lemma BreakingRunBreaks(data: seq<int>)
    requires 0 < |data| < MODULUS && MODULUS % |data| != 0
    ensures var s := Exec(Start(data), BreakingRun(|data|)); !(s.pops <= s.pushes)
  {
    hide Exec, Take, PushSteps, PopSteps, Cycles, PushOnes;
    var n := |data|;
    var r := MODULUS % n;
    var rest := PushOnes(r) + PopSteps();
    CyclesAdvance(data, MODULUS - 1);
    var s0 := Exec(Start(data), Cycles(MODULUS - 1));
    ExecAppend(Start(data), Cycles(MODULUS - 1), PushSteps(0) + rest);
    ExecAppend(s0, PushSteps(0), rest);
    PushAlone(s0, 0);
    var s1 := Exec(s0, PushSteps(0));
    ExecAppend(s1, PushOnes(r), PopSteps());
    OnesFillSlots(s1, r);
    var s2 := Exec(s1, PushOnes(r));
    SlotBeforeWrap(n);
    PopAlone(s2);
    var s3 := Exec(s2, PopSteps());
    assert s3.pops[MODULUS - 1] == 1 && s3.pushes[MODULUS - 1] == 0;
  }

  lemma SlotBeforeWrap(n: nat)
    requires 0 < n && MODULUS % n != 0
    ensures (MODULUS - 1) % n == MODULUS % n - 1
  {
    var q, r := MODULUS / n, MODULUS % n;
    assert MODULUS == q * n + r;
    QuotientUnique(MODULUS - 1, n, q, r - 1);
  }

  /** No run on a queue of this capacity pops anything but a prefix of what was pushed. */
  ghost predicate SafeForever(capacity: nat) {
    forall data: seq<int>, steps: seq<Step<int>> :: |data| == capacity && Start(data).memory.Fits() ==>
      Exec(Start(data), steps).pops <= Exec(Start(data), steps).pushes
  }

  /** Exactly the capacities that divide 2^32 are safe, and the capacity 0. */
  lemma SafeCapacities(capacity: Count)
    ensures SafeForever(capacity) <==> capacity == 0 || MODULUS % capacity == 0
  {
    if capacity == 0 || MODULUS % capacity == 0 {
      forall data: seq<int>, steps: seq<Step<int>> | |data| == capacity && Start(data).memory.Fits()
        ensures Exec(Start(data), steps).pops <= Exec(Start(data), steps).pushes
      {
        PopsArePrefix(data, steps);
      }
    } else {
      var data := seq(capacity, _ => 0);
      BreakingRunBreaks(data);
    }
  }
}
