/** How a dispatch cuts its elements into tasks: the ring, its growth, and the ranges. */
module DispatchRing {
  import opened CInts

  const TASK_GRAIN: nat := 8 * 1024
  const FIRST_CAP: nat := 1024
  const MAX_RING_CAP: nat := 65536
  const TWO_32: nat := 0x1_0000_0000

  datatype Task = Task(start: int, end: int)

  predicate RingSize(cap: nat) { cap in {1024, 2048, 4096, 8192, 16384, 32768, 65536} }

  function CeilDiv(a: nat, b: nat): (q: nat)
    requires b > 0
    ensures q * b >= a && (q > 0 ==> (q - 1) * b < a)
  {
    var q := (a + b - 1) / b;
    QuotientRange(a + b - 1, b);
    assert (q - 1) * b == q * b - b;
    q
  }

  lemma QuotientRange(a: nat, b: nat)
    requires b > 0
    ensures (a / b) * b <= a < (a / b) * b + b
  {
  }

  /** The range task `i` gets: its end cut off at the total, which a late task may
      already have passed. */
  function TaskOf(total: nat, grain: int, i: nat): Task {
    Task(i * grain, if i * grain + grain > total then total else i * grain + grain)
  }

  ghost predicate InTask(t: Task, e: nat) { t.start <= e < t.end }

  ghost predicate InSome(tasks: seq<Task>, e: nat) { exists i :: 0 <= i < |tasks| && InTask(tasks[i], e) }

  ghost predicate InAtMostOne(tasks: seq<Task>, e: nat) {
    forall i, j :: 0 <= i < |tasks| && 0 <= j < |tasks| && InTask(tasks[i], e) && InTask(tasks[j], e) ==> i == j
  }

  /** Every element is in exactly one task. */
  ghost predicate Partition(tasks: seq<Task>, total: nat) {
    forall e: nat :: e < total ==> InSome(tasks, e) && InAtMostOne(tasks, e)
  }

  ghost predicate Ranges(tasks: seq<Task>, total: nat, grain: int) {
    forall i :: 0 <= i < |tasks| ==> tasks[i] == TaskOf(total, grain, i)
  }

  lemma MulLess(i: nat, j: nat, grain: nat)
    requires i < j
    ensures i * grain + grain <= j * grain
  {
    Scaled(grain, i, j);
    assert grain * (i + 1) == i * grain + grain && grain * j == j * grain;
  }

  lemma OneAtMost(tasks: seq<Task>, total: nat, grain: nat, e: nat)
    requires Ranges(tasks, total, grain)
    ensures InAtMostOne(tasks, e)
  {
    forall i, j | 0 <= i < |tasks| && 0 <= j < |tasks| && InTask(tasks[i], e) && InTask(tasks[j], e)
      ensures i == j
    {
      if i < j { MulLess(i, j, grain); } else if j < i { MulLess(j, i, grain); }
    }
  }

  /** The ranges partition the elements exactly when together they are long enough. */
  lemma RangesPartition(tasks: seq<Task>, total: nat, grain: nat)
    requires grain > 0 && Ranges(tasks, total, grain)
    ensures Partition(tasks, total) <==> |tasks| * grain >= total
  {
    hide InSome, InAtMostOne, Ranges;
    if |tasks| * grain >= total {
      forall e: nat | e < total
        ensures InSome(tasks, e) && InAtMostOne(tasks, e)
      {
        OneAtMost(tasks, total, grain, e);
        Owner(tasks, total, grain, e);
      }
    } else {
      BeyondAll(tasks, total, grain);
      assert !InSome(tasks, |tasks| * grain);
    }
  }

  /** With a negative grain no task has an element. */
  lemma NoElements(tasks: seq<Task>, total: nat, grain: int)
    requires Ranges(tasks, total, grain) && grain < 0 < total
    ensures !Partition(tasks, total)
  {
    forall i | 0 <= i < |tasks|
      ensures !InTask(tasks[i], 0)
    {
      assert tasks[i] == TaskOf(total, grain, i) && i * grain <= 0;
    }
    assert !InSome(tasks, 0);
  }

  lemma BeyondAll(tasks: seq<Task>, total: nat, grain: nat)
    requires Ranges(tasks, total, grain)
    ensures !InSome(tasks, |tasks| * grain)
  {
    forall i | 0 <= i < |tasks|
      ensures !InTask(tasks[i], |tasks| * grain)
    {
      MulLess(i, |tasks|, grain);
    }
  }

  lemma Owner(tasks: seq<Task>, total: nat, grain: nat, e: nat)
    requires grain > 0 && Ranges(tasks, total, grain) && e < total <= |tasks| * grain
    ensures InSome(tasks, e)
  {
    var i := e / grain;
    QuotientRange(e, grain);
    if i > |tasks| { MulLess(|tasks|, i, grain); }
    assert InTask(tasks[i], e);
  }

  class Ring {
    var tasks: array<Task>

    ghost predicate Valid()
      reads this
    {
      RingSize(tasks.Length)
    }

    constructor ()
      ensures Valid() && tasks.Length == FIRST_CAP && fresh(tasks)
    {
      tasks := new Task[FIRST_CAP](_ => Task(0, 0));
    }

    /** Doubles the ring until it has `n` slots or its greatest size, if memory allows. */
    method Grow(n: nat, room: bool)
      requires Valid()
      modifies this
      ensures Valid() && tasks.Length >= old(tasks.Length) && (tasks == old(tasks) || fresh(tasks))
      ensures room ==> tasks.Length >= n || tasks.Length == MAX_RING_CAP
      ensures tasks == old(tasks) || old(tasks.Length) < tasks.Length < 2 * n
      ensures !room ==> tasks == old(tasks)
    {
      if n > tasks.Length {
        var newCap := tasks.Length;
        while newCap < n && newCap < MAX_RING_CAP
          invariant RingSize(newCap) && (newCap == tasks.Length || tasks.Length < newCap < 2 * n)
        {
          newCap := newCap * 2;
        }
        if newCap > tasks.Length && room {
          tasks := new Task[newCap](_ => Task(0, 0));
        }
      }
    }

    /** The first half of ray_pool_dispatch: how many tasks, and what each covers. The
        number of tasks is a 32-bit value, and is cut to the size of the ring; the grain of
        a cut ring is computed in 64 bits. */
    method Fill(elems: int, room: bool) returns (n: nat, total: nat, grain: int)
      requires Valid() && elems <= INT64_MAX
      modifies this, tasks
      ensures Valid() && n <= tasks.Length
      ensures elems <= 0 ==> n == 0 && total == 0
      ensures elems > 0 ==> total == (if elems > INT64_MAX - TASK_GRAIN + 1 then INT64_MAX - TASK_GRAIN + 1 else elems)
      ensures elems > 0 ==> Ranges(tasks[..n], total, grain) && EndsFit(tasks[..n])
      ensures elems > 0 ==> (Partition(tasks[..n], total) <==> AllServed(total, tasks.Length))
      ensures elems > 0 && CeilDiv(total, TASK_GRAIN) % TWO_32 <= tasks.Length ==>
                grain == TASK_GRAIN && n == CeilDiv(total, TASK_GRAIN) % TWO_32
      ensures elems > 0 && total + tasks.Length - 1 <= INT64_MAX
              && CeilDiv(total, TASK_GRAIN) % TWO_32 > tasks.Length ==>
                grain == CeilDiv(total, tasks.Length) && n == tasks.Length
      ensures elems > 0 && Partition(tasks[..n], total) ==> grain > 0
      ensures !room ==> tasks == old(tasks)
      ensures elems > 0 && room ==> CeilDiv(total, TASK_GRAIN) % TWO_32 <= tasks.Length || tasks.Length == MAX_RING_CAP
      ensures elems > 0 && CeilDiv(total, TASK_GRAIN) % TWO_32 <= tasks.Length ==>
        forall i :: 0 <= i < n ==> tasks[i].start % 8 == 0
    {
      hide CeilDiv, Partition, AllServed, EndsFit, Ranges, Trunc, Wrap64;
      if elems <= 0 { return 0, 0, 0; }
      total := elems;
      if elems > INT64_MAX - TASK_GRAIN + 1 { total := INT64_MAX - TASK_GRAIN + 1; }
      grain := TASK_GRAIN;
      n := CeilDiv(total, grain) % TWO_32;
      ghost var wanted := n;
      Grow(n, room);
      if n > tasks.Length {
        n := tasks.Length;
        grain := Trunc(Wrap64(total + n - 1), n);
      }
      FillRanges(n, total, grain);
      Served(tasks[..n], total, wanted, grain, tasks.Length);
      if wanted <= tasks.Length {
        Aligned8(tasks[..n], total);
      } else if total + tasks.Length - 1 <= INT64_MAX {
        CutGrain(total, tasks.Length);
      } else {
        Overflowed(total, tasks.Length, grain);
        NoElements(tasks[..n], total, grain);
      }
    }

    method FillRanges(n: nat, total: nat, grain: int)
      requires Valid() && n <= tasks.Length
      modifies tasks
      ensures Ranges(tasks[..n], total, grain)
    {
      var i := 0;
      while i < n
        invariant 0 <= i <= n && Ranges(tasks[..i], total, grain)
      {
        var start := i * grain;
        var end := start + grain;
        if end > total { end := total; }
        var slot := i % tasks.Length;
        assert slot == i;
        ghost var before := tasks[..i];
        tasks[slot] := Task(start, end);
        assert tasks[..i + 1] == before + [Task(start, end)];
        i := i + 1;
      }
    }

    /** ray_pool_dispatch_n: one task per partition, as many as the ring takes. */
    method FillOne(parts: nat, room: bool) returns (n: nat)
      requires Valid() && parts < TWO_32
      modifies this, tasks
      ensures Valid() && n == (if parts > tasks.Length then tasks.Length else parts)
      ensures forall i :: 0 <= i < n ==> tasks[i] == Task(i, i + 1)
      ensures room && parts <= MAX_RING_CAP ==> n == parts
    {
      n := parts;
      Grow(n, room);
      if n > tasks.Length { n := tasks.Length; }
      FillOnes(n);
    }

    method FillOnes(n: nat)
      requires Valid() && n <= tasks.Length
      modifies tasks
      ensures forall i :: 0 <= i < n ==> tasks[i] == Task(i, i + 1)
    {
      var i := 0;
      while i < n
        invariant 0 <= i <= n && forall k :: 0 <= k < i ==> tasks[k] == Task(k, k + 1)
      {
        var slot := i % tasks.Length;
        assert slot == i;
        tasks[slot] := Task(i, i + 1);
        i := i + 1;
      }
    }
  }

  /** Every element gets a task: the number of tasks was not cut to 32 bits, or the ring
      was too small for it and the grain computed anew did not overflow. */
  ghost predicate AllServed(total: nat, cap: nat) {
    CeilDiv(total, TASK_GRAIN) < TWO_32 || (CeilDiv(total, TASK_GRAIN) % TWO_32 > cap && total + cap - 1 <= INT64_MAX)
  }

  /** No start or end, and no sum on the way to one, overflows. */
  ghost predicate EndsFit(tasks: seq<Task>) {
    forall i :: 0 <= i < |tasks| ==> Fits64(tasks[i].start) && Fits64(tasks[i].end)
  }

  lemma Served(tasks: seq<Task>, total: nat, wanted: nat, grain: int, cap: nat)
    requires 0 < total <= INT64_MAX - TASK_GRAIN + 1 && RingSize(cap) && wanted == CeilDiv(total, TASK_GRAIN) % TWO_32
    requires if wanted > cap then |tasks| == cap && grain == Trunc(Wrap64(total + cap - 1), cap)
             else |tasks| == wanted && grain == TASK_GRAIN
    requires Ranges(tasks, total, grain)
    ensures EndsFit(tasks) && (Partition(tasks, total) <==> AllServed(total, cap))
  {
    hide Partition, Ranges, InSome, EndsFit;
    if wanted <= cap || total + cap - 1 <= INT64_MAX {
      if wanted > cap {
        CutGrain(total, cap);
      } else {
        assert |tasks| * grain <= MAX_RING_CAP * TASK_GRAIN;
      }
      var g: nat := grain;
      RangesPartition(tasks, total, g);
      LongEnough(total, wanted, |tasks|, g, cap);
      PositiveEnds(tasks, total, g);
    } else {
      Overflowed(total, cap, grain);
      NoElements(tasks, total, grain);
      NegativeEnds(tasks, total, grain, cap);
      SmallTotals(total);
    }
  }

  lemma CutGrain(total: nat, cap: nat)
    requires 0 < total && RingSize(cap) && total + cap - 1 <= INT64_MAX
    ensures var g := CeilDiv(total, cap);
            Trunc(Wrap64(total + cap - 1), cap) == g > 0 && cap * g <= total + cap - 1
  {
    var g := CeilDiv(total, cap);
    assert (g - 1) * cap == g * cap - cap;
  }

  lemma SmallTotals(total: nat)
    ensures CeilDiv(total, TASK_GRAIN) < TWO_32 ==> total < TWO_32 * TASK_GRAIN
  {
  }

  lemma Overflowed(total: nat, cap: nat, grain: int)
    requires total <= INT64_MAX - TASK_GRAIN + 1 && RingSize(cap) && total + cap - 1 > INT64_MAX
    requires grain == Trunc(Wrap64(total + cap - 1), cap)
    ensures grain < 0 && grain * cap >= -INT64_MAX - 1
  {
    var w := Wrap64(total + cap - 1);
    assert w == total + cap - 1 - 0x1_0000_0000_0000_0000;
    var m: nat := -w;
    QuotientRange(m, cap);
    assert m >= cap && (m / cap) * cap > 0;
    assert grain == -(m / cap);
    assert grain * cap == -((m / cap) * cap);
  }

  lemma NegativeEnds(tasks: seq<Task>, total: nat, grain: int, cap: nat)
    requires Ranges(tasks, total, grain) && |tasks| <= cap && grain < 0 && grain * cap >= -INT64_MAX - 1
    ensures EndsFit(tasks)
  {
    forall i | 0 <= i < |tasks|
      ensures Fits64(tasks[i].start) && Fits64(tasks[i].end)
    {
      assert tasks[i] == TaskOf(total, grain, i);
      var g: nat := -grain;
      MulLess(i, cap, g);
      assert i * grain == -(i * g) && grain * cap == -(cap * g);
    }
  }

  lemma PositiveEnds(tasks: seq<Task>, total: nat, grain: nat)
    requires Ranges(tasks, total, grain) && total <= INT64_MAX && |tasks| * grain <= INT64_MAX
    ensures EndsFit(tasks)
  {
    forall i | 0 <= i < |tasks|
      ensures Fits64(tasks[i].start) && Fits64(tasks[i].end)
    {
      assert tasks[i] == TaskOf(total, grain, i);
      MulLess(i, |tasks|, grain);
    }
  }

  /** The greatest number of elements, on a ring that may grow: nothing gets a task. */
  method GreatestUnserved(ring: Ring) returns (n: nat, total: nat, grain: int)
    requires ring.Valid()
    modifies ring, ring.tasks
    ensures ring.Valid() && n <= ring.tasks.Length && !Partition(ring.tasks[..n], total)
  {
    hide Partition, Ranges;
    n, total, grain := ring.Fill(INT64_MAX, true);
    assert CeilDiv(total, TASK_GRAIN) == 0x3_ffff_ffff_ffff;
    assert CeilDiv(total, TASK_GRAIN) % TWO_32 == TWO_32 - 1;
  }

  lemma Aligned8(tasks: seq<Task>, total: nat)
    requires Ranges(tasks, total, TASK_GRAIN)
    ensures forall i :: 0 <= i < |tasks| ==> tasks[i].start % 8 == 0
  {
    forall i | 0 <= i < |tasks|
      ensures tasks[i].start % 8 == 0
    {
      assert tasks[i].start == 8 * (1024 * i);
    }
  }

  /** When the tasks together are long enough: the number wanted was not cut to 32 bits,
      or the ring was too small for it and the grain was computed anew. */
  lemma LongEnough(total: nat, wanted: nat, n: nat, grain: nat, cap: nat)
    requires total > 0 && wanted == CeilDiv(total, TASK_GRAIN) % TWO_32 && 0 < cap <= MAX_RING_CAP
    requires if wanted > cap then n == cap && grain == CeilDiv(total, n) else n == wanted && grain == TASK_GRAIN
    ensures n * grain >= total <==> CeilDiv(total, TASK_GRAIN) < TWO_32 || wanted > cap
  {
    var q := CeilDiv(total, TASK_GRAIN);
    if wanted <= cap {
      if q >= TWO_32 {
        MulLess(n, q - 1, TASK_GRAIN);
        assert (q - 1) * TASK_GRAIN < total;
      }
    } else {
      assert grain * n >= total;
    }
  }

  /** A ring cut short can leave trailing tasks that start past the end: they are empty. */
  lemma TrailingEmpty(total: nat, grain: nat, i: nat)
    ensures (forall e: nat :: !InTask(TaskOf(total, grain, i), e)) <==> i * grain >= total || grain == 0
  {
    var t := TaskOf(total, grain, i);
    if i * grain < total && grain > 0 { assert InTask(t, i * grain); }
  }

  /** For 65537 full grains on the largest ring, the last task starts beyond its end. */
  lemma TrailingExample()
    ensures var total := 65537 * TASK_GRAIN;
            var t := TaskOf(total, CeilDiv(total, MAX_RING_CAP), MAX_RING_CAP - 1);
            t.start > t.end == total
  {
    var total := 65537 * TASK_GRAIN;
    var q := CeilDiv(total, MAX_RING_CAP);
    assert q == 8193;
  }
}
