/** Whole runs of the simulator: bursts keep their device to the end, every process is paid in full,
    and when the loop ends. */
module SjfRuns {
  import opened SjfModel
  import opened SjfSafety

  // ---------- runs ----------

  /** The state after `n` more ticks. */
  ghost function After(s: State, arrival: seq<nat>, n: nat): (t: State)
    requires Inv(s, arrival)
    ensures Inv(t, arrival) && Shape(t, arrival)
  {
    if n == 0 then s
    else
      TickKeeps(After(s, arrival, n - 1), arrival);
      Tick(After(s, arrival, n - 1), arrival).0
  }

  ghost function ServedIn(s: State, arrival: seq<nat>, n: nat): Served
    requires Inv(s, arrival)
  {
    Tick(After(s, arrival, n), arrival).1
  }

  /** Ticks out of the first `n` that serve process `r`. */
  ghost function Units(s: State, arrival: seq<nat>, n: nat, r: nat): nat
    requires Inv(s, arrival)
  {
    if n == 0 then 0
    else
      var v := ServedIn(s, arrival, n - 1);
      Units(s, arrival, n - 1, r) + (if v.cpu == r then 1 else 0) + (if v.io == r then 1 else 0)
  }

  /** Over any number of ticks a process is served exactly what it is no longer owed. */
  lemma {:induction false} RunPays(s: State, arrival: seq<nat>, n: nat, r: nat)
    requires Inv(s, arrival) && r < |arrival|
    ensures Units(s, arrival, n, r) + Owed(After(s, arrival, n), r) == Owed(s, r)
  {
    hide Tick, Inv, Owed;
    if n > 0 {
      RunPays(s, arrival, n - 1, r);
      TickPays(After(s, arrival, n - 1), arrival, r);
    }
  }

  /** A burst under way on the CPU keeps it for as many ticks as it has left, and no longer. */
  lemma {:induction false} CpuNotPreempted(s: State, arrival: seq<nat>, n: nat)
    requires Inv(s, arrival) && !s.cpu.idle && n <= s.cpu.left
    ensures n < s.cpu.left ==> ServedIn(s, arrival, n).cpu == s.cpu.pid
    ensures After(s, arrival, n).cpu.left == s.cpu.left - n && (After(s, arrival, n).cpu.idle <==> n == s.cpu.left)
    ensures n < s.cpu.left ==> After(s, arrival, n).cpu.pid == s.cpu.pid
  {
    hide Tick, Inv;
    InvShape(s, arrival);
    if n > 0 {
      CpuNotPreempted(s, arrival, n - 1);
      CpuHolds(After(s, arrival, n - 1), arrival);
    }
    if n < s.cpu.left {
      CpuHolds(After(s, arrival, n), arrival);
    }
  }

  lemma {:induction false} IoNotPreempted(s: State, arrival: seq<nat>, n: nat)
    requires Inv(s, arrival) && !s.io.idle && n <= s.io.left
    ensures n < s.io.left ==> ServedIn(s, arrival, n).io == s.io.pid
    ensures After(s, arrival, n).io.left == s.io.left - n && (After(s, arrival, n).io.idle <==> n == s.io.left)
    ensures n < s.io.left ==> After(s, arrival, n).io.pid == s.io.pid
  {
    hide Tick, Inv;
    InvShape(s, arrival);
    if n > 0 {
      IoNotPreempted(s, arrival, n - 1);
      IoHolds(After(s, arrival, n - 1), arrival);
    }
    if n < s.io.left {
      IoHolds(After(s, arrival, n), arrival);
    }
  }

  // ---------- whole bursts ----------

  /** Tick `d` takes the first burst off the list of process `k`. */
  ghost predicate TakesBurst(s: State, arrival: seq<nat>, d: nat, k: nat)
    requires Inv(s, arrival) && k < |arrival|
  {
    After(s, arrival, d).procs[k] != [] && After(s, arrival, d + 1).procs[k] != After(s, arrival, d).procs[k]
  }

  /** A CPU burst of length v that tick d takes has the CPU in ticks d to d + v - 1 and then leaves it. */
  lemma CpuBurstHolds(s: State, arrival: seq<nat>, d: nat, k: nat, i: nat)
    requires Inv(s, arrival) && k < |arrival| && TakesBurst(s, arrival, d, k)
    requires var b := After(s, arrival, d).procs[k][0]; b.kind == Cpu && i < b.val
    ensures var b := After(s, arrival, d).procs[k][0];
            && ServedIn(s, arrival, d + i).cpu == k
            && (After(s, arrival, d + i + 1).cpu.idle <==> i == b.val - 1)
  {
    hide Tick, Inv;
    var u, t := After(s, arrival, d), After(s, arrival, d + 1);
    InvShape(u, arrival);
    DispatchInOrder(u, arrival, k);
    if i > 0 {
      AfterAfter(s, arrival, d + 1, i - 1);
      CpuNotPreempted(t, arrival, i - 1);
      AfterAfter(s, arrival, d + 1, i);
      CpuNotPreempted(t, arrival, i);
    }
  }

  /** The same for an I/O burst and the I/O device. */
  lemma IoBurstHolds(s: State, arrival: seq<nat>, d: nat, k: nat, i: nat)
    requires Inv(s, arrival) && k < |arrival| && TakesBurst(s, arrival, d, k)
    requires var b := After(s, arrival, d).procs[k][0]; b.kind == Io && i < b.val
    ensures var b := After(s, arrival, d).procs[k][0];
            && ServedIn(s, arrival, d + i).io == k
            && (After(s, arrival, d + i + 1).io.idle <==> i == b.val - 1)
  {
    hide Tick, Inv;
    var u, t := After(s, arrival, d), After(s, arrival, d + 1);
    InvShape(u, arrival);
    DispatchInOrder(u, arrival, k);
    if i > 0 {
      AfterAfter(s, arrival, d + 1, i - 1);
      IoNotPreempted(t, arrival, i - 1);
      AfterAfter(s, arrival, d + 1, i);
      IoNotPreempted(t, arrival, i);
    }
  }

  /** A completion, once recorded, stays. */
  lemma LastStays(s: State, arrival: seq<nat>, k: nat)
    requires Inv(s, arrival) && k < |arrival| && s.procs[k] == []
    ensures Tick(s, arrival).0.last[k] == s.last[k]
  {
    CpuKeeps(s, arrival);
    var (s1, c) := CpuPart(s, arrival);
    IoKeeps(s1, arrival, c);
    assert s1.last == s.last;
  }

  /** Tick `d` dispatches the last burst of process `k` to the CPU, and `last` is `d` plus the
      length of that burst, minus one. */
  ghost predicate CompletedAt(s: State, arrival: seq<nat>, k: nat, d: nat, last: int)
    requires Inv(s, arrival) && k < |arrival|
  {
    var l := After(s, arrival, d).procs[k];
    ServedIn(s, arrival, d).cpu == k && |l| == 1 && l[0].kind == Cpu && last == d + l[0].val - 1
  }

  /** At any time in a run, a process out of bursts has its completion recorded like that. */
  lemma {:induction false} CompletedInRun(s: State, arrival: seq<nat>, n: nat, k: nat) returns (d: nat)
    requires Inv(s, arrival) && s.time == 0 && k < |arrival| && After(s, arrival, n).procs[k] == []
    ensures d < n && CompletedAt(s, arrival, k, d, After(s, arrival, n).last[k])
  {
    hide Tick, Inv, CompletedAt, ServedIn;
    StartHasBursts(s, arrival, k);
    if n > 0 {
      var t := After(s, arrival, n - 1);
      if t.procs[k] == [] {
        d := CompletedInRun(s, arrival, n - 1, k);
        LastStays(t, arrival, k);
      } else {
        d := n - 1;
        CompletedNow(s, arrival, d, k);
      }
    }
  }

  lemma CompletedNow(s: State, arrival: seq<nat>, d: nat, k: nat)
    requires Inv(s, arrival) && s.time == 0 && k < |arrival|
    requires After(s, arrival, d).procs[k] != [] && Tick(After(s, arrival, d), arrival).0.procs[k] == []
    ensures CompletedAt(s, arrival, k, d, Tick(After(s, arrival, d), arrival).0.last[k])
  {
    hide Tick, Inv;
    TimeIs(s, arrival, d);
    CompletionIsRight(After(s, arrival, d), arrival, k);
  }

  lemma {:induction false} TimeIs(s: State, arrival: seq<nat>, n: nat)
    requires Inv(s, arrival)
    ensures After(s, arrival, n).time == s.time + n
  {
    hide Tick, Inv;
    if n > 0 {
      TimeIs(s, arrival, n - 1);
      TickTime(After(s, arrival, n - 1), arrival);
    }
  }

  lemma InvShape(s: State, arrival: seq<nat>)
    requires Inv(s, arrival)
    ensures Shape(s, arrival) && DeviceOk(s.cpu, |arrival|) && DeviceOk(s.io, |arrival|)
  {
  }

  lemma StartHasBursts(s: State, arrival: seq<nat>, k: nat)
    requires Inv(s, arrival) && s.time == 0 && k < |arrival|
    ensures s.procs[k] != []
  {
  }

  lemma TickTime(s: State, arrival: seq<nat>)
    requires Shape(s, arrival)
    ensures Tick(s, arrival).0.time == s.time + 1
  {
  }

  // ---------- how long it takes ----------

  ghost function TotalOwed(s: State, n: nat): nat
    requires n <= |s.procs|
  {
    if n == 0 then 0 else TotalOwed(s, n - 1) + Owed(s, n - 1)
  }

  /** The processes below `n` together are paid the units that served one of them. */
  lemma {:induction false} TotalPays(s: State, arrival: seq<nat>, n: nat)
    requires Inv(s, arrival) && n <= |arrival|
    ensures var (t, v) := Tick(s, arrival);
            TotalOwed(t, n) + (if 0 <= v.cpu < n then 1 else 0) + (if 0 <= v.io < n then 1 else 0) == TotalOwed(s, n)
  {
    hide Tick, Inv, Owed;
    InvShape(s, arrival);
    if n > 0 {
      TotalPays(s, arrival, n - 1);
      TickPays(s, arrival, n - 1);
    }
  }

  lemma ServedInRange(s: State, arrival: seq<nat>)
    requires Inv(s, arrival)
    ensures var v := Tick(s, arrival).1; -1 <= v.cpu < |arrival| && -1 <= v.io < |arrival|
  {
    CpuKeeps(s, arrival);
    IoKeeps(CpuPart(s, arrival).0, arrival, CpuPart(s, arrival).1);
  }

  ghost function LastArrival(arrival: seq<nat>): nat {
    if arrival == [] then 0 else arrival[|arrival| - 1]
  }

  /** Ticks still needed at most: the time to the last arrival and all the work owed. */
  ghost function Budget(s: State, arrival: seq<nat>): nat
    requires Shape(s, arrival)
  {
    (if s.time < LastArrival(arrival) then LastArrival(arrival) - s.time else 0) + TotalOwed(s, |arrival|)
  }

  /** Unless it is stuck, every tick of a loop that has not ended brings the end nearer. */
  lemma BudgetShrinks(s: State, arrival: seq<nat>)
    requires Inv(s, arrival) && !Done(s) && !Stuck(s, arrival)
    ensures Budget(Tick(s, arrival).0, arrival) < Budget(s, arrival)
  {
    TotalPays(s, arrival, |arrival|);
    ServedInRange(s, arrival);
    TickServesExactly(s, arrival);
    TickTime(s, arrival);
    if s.cpu.idle && s.io.idle && !Ready(s, arrival) {
      IdleTick(s, arrival);
    }
    hide Tick, Inv, Stuck, Ready;
  }

  /** A tick that serves nobody although the loop has not ended is stuck or before the last arrival. */
  lemma IdleTick(s: State, arrival: seq<nat>)
    requires Inv(s, arrival) && !Done(s) && !Stuck(s, arrival) && s.cpu.idle && s.io.idle && !Ready(s, arrival)
    ensures s.time < LastArrival(arrival)
  {
    LastIsLatest(arrival);
    var k :| 0 <= k < |s.procs| && s.procs[k] != [];
  }

  lemma LastIsLatest(arrival: seq<nat>)
    requires Sorted(arrival)
    ensures forall r :: 0 <= r < |arrival| ==> arrival[r] <= LastArrival(arrival)
  {
  }

  // ---------- the start ----------

  ghost predicate GoodInput(arrival: seq<nat>, bursts: seq<seq<Burst>>) {
    && |arrival| == |bursts| && Sorted(arrival)
    && forall k :: 0 <= k < |bursts| ==> bursts[k] != [] && bursts[k][0].kind == Cpu && WellFormed(bursts[k])
  }

  /** Every CPU burst but the last of its process takes two ticks or more. */
  ghost predicate LongInput(arrival: seq<nat>, bursts: seq<seq<Burst>>) {
    GoodInput(arrival, bursts) && forall k :: 0 <= k < |bursts| ==> LongCpu(bursts[k])
  }

  /** A single process that arrives after time 0. */
  predicate LoneLate(arrival: seq<nat>) {
    |arrival| == 1 && arrival[0] > 0
  }

  ghost predicate SafeInput(arrival: seq<nat>, bursts: seq<seq<Burst>>) {
    LongInput(arrival, bursts) && !LoneLate(arrival)
  }

  /** The globals start out as zeros, with both devices marked idle. */
  function Start(bursts: seq<seq<Burst>>): State {
    State(bursts, Device(true, 0, 0), Device(true, 0, 0), 0, seq(|bursts|, _ => -1))
  }

  lemma StartInv(arrival: seq<nat>, bursts: seq<seq<Burst>>)
    requires GoodInput(arrival, bursts)
    ensures Inv(Start(bursts), arrival)
    ensures LongInput(arrival, bursts) ==> Untouched(Start(bursts), arrival)
    ensures SafeInput(arrival, bursts) ==> Clear(Start(bursts), arrival)
  {
  }

  /** The sum of all bursts of the first `n` processes. */
  function TotalWork(bursts: seq<seq<Burst>>, n: nat): nat
    requires n <= |bursts|
  {
    if n == 0 then 0 else TotalWork(bursts, n - 1) + Work(bursts[n - 1])
  }

  /** At the start exactly that is owed. */
  lemma {:induction false} StartOwes(bursts: seq<seq<Burst>>, n: nat)
    requires n <= |bursts|
    ensures TotalOwed(Start(bursts), n) == TotalWork(bursts, n)
  {
    if n > 0 {
      StartOwes(bursts, n - 1);
    }
  }

  /** Process `k` has been served all its bursts but for what the CPU still has left of its last one,
      and its completion is recorded as it should be. */
  ghost predicate Settled(arrival: seq<nat>, bursts: seq<seq<Burst>>, n: nat, k: nat)
    requires Inv(Start(bursts), arrival) && k < |bursts|
  {
    var s := Start(bursts);
    var t := After(s, arrival, n);
    && Units(s, arrival, n, k) + (if t.cpu.pid == k then t.cpu.left else 0) == Work(bursts[k])
    && exists d: nat :: d < n && CompletedAt(s, arrival, k, d, t.last[k])
  }

  /** When every burst is dispatched, that is how every process stands. */
  lemma DoneSettles(arrival: seq<nat>, bursts: seq<seq<Burst>>, n: nat, k: nat)
    requires Inv(Start(bursts), arrival) && Done(After(Start(bursts), arrival, n)) && k < |bursts|
    ensures Settled(arrival, bursts, n, k)
  {
    var s := Start(bursts);
    var t := After(s, arrival, n);
    RunPays(s, arrival, n, k);
    var d := CompletedInRun(s, arrival, n, k);
    assert t.io.idle;
    hide After, Units, CompletedAt;
  }

  // ---------- when the loop ends ----------

  /** After `n` ticks every burst has been dispatched. */
  ghost predicate DoneAt(s: State, arrival: seq<nat>, n: nat)
    requires Inv(s, arrival)
  {
    Done(After(s, arrival, n))
  }

  ghost predicate StuckAt(s: State, arrival: seq<nat>, n: nat)
    requires Inv(s, arrival)
  {
    Stuck(After(s, arrival, n), arrival)
  }

  ghost predicate Ends(s: State, arrival: seq<nat>)
    requires Inv(s, arrival)
  {
    exists n: nat :: DoneAt(s, arrival, n)
  }

  lemma {:induction false} AfterAfter(s: State, arrival: seq<nat>, n: nat, m: nat)
    requires Inv(s, arrival)
    ensures After(After(s, arrival, n), arrival, m) == After(s, arrival, n + m)
  {
    hide Tick, Inv;
    if m > 0 {
      AfterAfter(s, arrival, n, m - 1);
    }
  }

  lemma {:induction false} DoneStays(s: State, arrival: seq<nat>, n: nat)
    requires Inv(s, arrival) && Done(s)
    ensures Done(After(s, arrival, n))
  {
    hide Tick, Inv;
    if n > 0 {
      var t := After(s, arrival, n - 1);
      DoneStays(s, arrival, n - 1);
      forall k | 0 <= k < |arrival| ensures Tick(t, arrival).0.procs[k] == [] {
        DispatchInOrder(t, arrival, k);
      }
    }
  }

  /** A stuck state lasts for good: however many ticks pass, only the clock moves. */
  lemma {:induction false} StuckForGood(s: State, arrival: seq<nat>, n: nat)
    requires Inv(s, arrival) && Stuck(s, arrival)
    ensures After(s, arrival, n) == s.(time := s.time + n) && Stuck(After(s, arrival, n), arrival) && !Done(After(s, arrival, n))
  {
    hide Tick, Inv;
    if n > 0 {
      StuckForGood(s, arrival, n - 1);
      StuckTick(After(s, arrival, n - 1), arrival);
    }
  }

  /** A run that is never stuck ends within its budget. */
  lemma {:induction false} EndsInTime(s: State, arrival: seq<nat>) returns (n: nat)
    requires Inv(s, arrival) && forall m: nat :: !StuckAt(s, arrival, m)
    ensures DoneAt(s, arrival, n) && n <= Budget(s, arrival)
    decreases Budget(s, arrival)
  {
    hide Tick, Inv, Stuck, Done, Budget;
    assert After(s, arrival, 0) == s && !StuckAt(s, arrival, 0);
    if Done(s) {
      n := 0;
    } else {
      BudgetShrinks(s, arrival);
      var t := After(s, arrival, 1);
      assert t == Tick(After(s, arrival, 0), arrival).0;
      forall m: nat ensures !StuckAt(t, arrival, m) {
        AfterAfter(s, arrival, 1, m);
        assert !StuckAt(s, arrival, 1 + m);
      }
      n := EndsInTime(t, arrival);
      AfterAfter(s, arrival, 1, n);
      n := n + 1;
    }
  }

  /** For every input the loop ends if and only if it never gets stuck. */
  lemma EndsExactly(s: State, arrival: seq<nat>)
    requires Inv(s, arrival)
    ensures Ends(s, arrival) <==> forall n: nat :: !StuckAt(s, arrival, n)
  {
    hide Inv, StuckAt, DoneAt;
    if n: nat :| StuckAt(s, arrival, n) {
      forall m: nat ensures !DoneAt(s, arrival, m) {
        NotDoneIfStuck(s, arrival, n, m);
      }
    } else {
      var n := EndsInTime(s, arrival);
    }
  }

  lemma NotDoneIfStuck(s: State, arrival: seq<nat>, n: nat, m: nat)
    requires Inv(s, arrival) && StuckAt(s, arrival, n)
    ensures !DoneAt(s, arrival, m)
  {
    hide Tick, Inv, Stuck, Done;
    if m >= n {
      AfterAfter(s, arrival, n, m - n);
      StuckForGood(After(s, arrival, n), arrival, m - n);
    } else if Done(After(s, arrival, m)) {
      AfterAfter(s, arrival, m, n - m);
      DoneStays(After(s, arrival, m), arrival, n - m);
      assert After(After(s, arrival, n), arrival, 0) == After(s, arrival, n);
      StuckForGood(After(s, arrival, n), arrival, 0);
    }
  }

  lemma {:induction false} RunClear(s: State, arrival: seq<nat>, n: nat)
    requires Inv(s, arrival) && Clear(s, arrival)
    ensures Clear(After(s, arrival, n), arrival) && !Stuck(After(s, arrival, n), arrival)
  {
    hide Tick, Inv, Clear;
    if n > 0 {
      RunClear(s, arrival, n - 1);
      TickClears(After(s, arrival, n - 1), arrival);
    }
    ClearIsNotStuck(After(s, arrival, n), arrival);
  }

  /** With safe input the loop ends by the last arrival plus the sum of all bursts. */
  lemma SafeInputEnds(arrival: seq<nat>, bursts: seq<seq<Burst>>) returns (n: nat)
    requires SafeInput(arrival, bursts)
    ensures Inv(Start(bursts), arrival) && Done(After(Start(bursts), arrival, n))
    ensures n <= LastArrival(arrival) + TotalWork(bursts, |bursts|)
  {
    var s := Start(bursts);
    StartInv(arrival, bursts);
    forall m: nat ensures !StuckAt(s, arrival, m) {
      RunClear(s, arrival, m);
    }
    n := EndsInTime(s, arrival);
    StartOwes(bursts, |bursts|);
    hide Inv, Stuck, After, Done;
  }

  /** A process that is alone and arrives after time 0 never runs, whatever its bursts: the CPU names
      process 0 from the start. */
  lemma LoneLateSticks(a: nat, l: seq<Burst>, n: nat)
    requires a > 0 && GoodInput([a], [l])
    ensures Inv(Start([l]), [a])
    ensures After(Start([l]), [a], n) == Start([l]).(time := n) && !Done(After(Start([l]), [a], n))
  {
    hide Tick, Inv, WellFormed;
    var s := Start([l]);
    StartInv([a], [l]);
    LoneLateFirst(a, l);
    assert s.procs[0] != [];
    if n > 0 {
      assert After(s, [a], 1) == Tick(After(s, [a], 0), [a]).0;
      StuckForGood(After(s, [a], 1), [a], n - 1);
      AfterAfter(s, [a], 1, n - 1);
    }
  }

  lemma LoneLateFirst(a: nat, l: seq<Burst>)
    requires a > 0 && GoodInput([a], [l])
    ensures Tick(Start([l]), [a]).0 == Start([l]).(time := 1) && Stuck(Start([l]).(time := 1), [a])
  {
    var s := Start([l]);
    assert FindNext(s, [a], Cpu) == -1 && FindNext(s, [a], Io) == -1;
    assert Finish(s).last == s.last;
  }

  /** With CPU bursts of two ticks or more but for each last one, the loop ends if and only if it is
      not given a single process that arrives late. */
  lemma LongInputEnds(arrival: seq<nat>, bursts: seq<seq<Burst>>)
    requires LongInput(arrival, bursts)
    ensures Inv(Start(bursts), arrival) && (Ends(Start(bursts), arrival) <==> !LoneLate(arrival))
  {
    hide Tick, WellFormed;
    StartInv(arrival, bursts);
    if LoneLate(arrival) {
      assert arrival == [arrival[0]] && bursts == [bursts[0]];
      forall n: nat ensures !DoneAt(Start(bursts), arrival, n) {
        LoneLateSticks(arrival[0], bursts[0], n);
      }
    } else {
      var n := SafeInputEnds(arrival, bursts);
      assert DoneAt(Start(bursts), arrival, n);
    }
  }

  /** Nothing moves before the first arrival. */
  lemma {:induction false} UntouchedUntil(arrival: seq<nat>, bursts: seq<seq<Burst>>, n: nat)
    requires LongInput(arrival, bursts) && arrival != [] && n <= arrival[0]
    ensures Inv(Start(bursts), arrival)
    ensures After(Start(bursts), arrival, n) == Start(bursts).(time := n)
    ensures Untouched(After(Start(bursts), arrival, n), arrival)
  {
    hide Tick, Inv, WellFormed;
    var s := Start(bursts);
    StartInv(arrival, bursts);
    if n > 0 {
      UntouchedUntil(arrival, bursts, n - 1);
      var t := After(s, arrival, n - 1);
      assert FindNext(t, arrival, Cpu) == -1;
      TickUntouched(t, arrival);
    }
  }

  /** Process 1 comes with process 0, or process 0 is there at time 0. */
  predicate PromptStart(arrival: seq<nat>) {
    arrival == [] || arrival[0] == 0 || (|arrival| >= 2 && arrival[1] == arrival[0])
  }

  /** At the first arrival the CPU is taken exactly if so. */
  lemma FirstDispatch(arrival: seq<nat>, bursts: seq<seq<Burst>>)
    requires LongInput(arrival, bursts) && arrival != []
    ensures var s := Start(bursts).(time := arrival[0]);
            Inv(s, arrival) ==> (FindNext(s, arrival, Cpu) != -1 <==> PromptStart(arrival))
  {
    var s := Start(bursts).(time := arrival[0]);
    FindNextShortest(s, arrival, Cpu);
    assert WellFormed(bursts[0]) && (|arrival| >= 2 ==> WellFormed(bursts[1]));
    if arrival[0] == 0 {
      assert Eligible(s, arrival, Cpu, 0);
    } else if |arrival| >= 2 && arrival[1] == arrival[0] {
      assert Eligible(s, arrival, Cpu, 1);
    }
  }

  lemma {:induction false} RunUnnamed(arrival: seq<nat>, bursts: seq<seq<Burst>>, n: nat)
    requires LongInput(arrival, bursts) && arrival != [] && PromptStart(arrival) && n > arrival[0]
    ensures Inv(Start(bursts), arrival) && Unnamed(After(Start(bursts), arrival, n), arrival)
  {
    hide Tick, Inv, WellFormed, PromptStart;
    UntouchedUntil(arrival, bursts, arrival[0]);
    var t := After(Start(bursts), arrival, n - 1);
    if n - 1 > arrival[0] {
      RunUnnamed(arrival, bursts, n - 1);
    } else {
      FirstDispatch(arrival, bursts);
    }
    TickUnnames(t, arrival);
  }

  /** Tick `n` begins with an arrived process that holds bursts, and serves nobody. */
  ghost predicate Wasted(s: State, arrival: seq<nat>, n: nat)
    requires Inv(s, arrival)
  {
    Waiting(After(s, arrival, n), arrival) && ServedIn(s, arrival, n) == Served(-1, -1)
  }

  /** With CPU bursts of two ticks or more but for each last one, no tick is wasted if and only if
      process 0 is there at time 0 or process 1 comes with it. */
  lemma NoneWastedExactly(arrival: seq<nat>, bursts: seq<seq<Burst>>)
    requires LongInput(arrival, bursts)
    ensures Inv(Start(bursts), arrival)
    ensures (forall n: nat :: !Wasted(Start(bursts), arrival, n)) <==> PromptStart(arrival)
  {
    hide Inv, Tick, WellFormed, Unnamed, After, ServedIn;
    StartInv(arrival, bursts);
    if PromptStart(arrival) {
      forall n: nat ensures !Wasted(Start(bursts), arrival, n) {
        NotWasted(arrival, bursts, n);
      }
    } else {
      FirstTickWasted(arrival, bursts);
    }
  }

  lemma NotWasted(arrival: seq<nat>, bursts: seq<seq<Burst>>, n: nat)
    requires LongInput(arrival, bursts) && PromptStart(arrival)
    ensures Inv(Start(bursts), arrival) && !Wasted(Start(bursts), arrival, n)
  {
    hide Tick, Inv, WellFormed;
    StartInv(arrival, bursts);
    var t := After(Start(bursts), arrival, n);
    TickServesExactly(t, arrival);
    if arrival != [] {
      if n > arrival[0] {
        RunUnnamed(arrival, bursts, n);
      } else {
        UntouchedUntil(arrival, bursts, n);
        assert arrival[0] == 0 || n < arrival[0] || arrival[1] == n;
      }
    }
  }

  lemma FirstTickWasted(arrival: seq<nat>, bursts: seq<seq<Burst>>)
    requires LongInput(arrival, bursts) && !PromptStart(arrival)
    ensures Inv(Start(bursts), arrival) && Wasted(Start(bursts), arrival, arrival[0])
  {
    hide Tick, Inv, WellFormed;
    UntouchedUntil(arrival, bursts, arrival[0]);
    TickServesExactly(After(Start(bursts), arrival, arrival[0]), arrival);
  }

  // ---------- a CPU burst of one tick ----------

  /** A lone process with a CPU burst of one tick ahead, not its last, cannot finish: dispatching that
      burst leaves the CPU naming the process, and nothing moves from then on. */
  lemma ShortBurstAhead(s: State, arrival: seq<nat>)
    requires Inv(s, arrival) && |arrival| == 1 && !LongCpu(s.procs[0])
    ensures var t := Tick(s, arrival).0; !LongCpu(t.procs[0]) || Stuck(t, arrival)
  {
    assert WellFormed(s.procs[0]);
    var (s1, c) := CpuPart(s, arrival);
    CpuKeeps(s, arrival);
    assert s.procs[0] != [];
    assert !LongCpu(s1.procs[0]) || (s1.cpu == Device(true, 0, 0) && c == 0 && s1.io.idle && s1.procs[0] != []);
    var (s2, i) := IoPart(s1, arrival, c);
    assert c == 0 ==> s2.procs == s1.procs;
  }

  lemma {:induction false} ShortBurstRun(s: State, arrival: seq<nat>, n: nat)
    requires Inv(s, arrival) && |arrival| == 1 && !LongCpu(s.procs[0])
    ensures var t := After(s, arrival, n); (!LongCpu(t.procs[0]) || Stuck(t, arrival)) && !Done(t)
  {
    hide Tick, Inv;
    if n > 0 {
      var t := After(s, arrival, n - 1);
      ShortBurstRun(s, arrival, n - 1);
      if Stuck(t, arrival) {
        StuckTick(t, arrival);
      } else {
        ShortBurstAhead(t, arrival);
      }
    }
  }

  /** For one process the loop ends if and only if it arrives at time 0 and every CPU burst but the
      last is of two ticks or more. */
  lemma OneProcessEnds(l: seq<Burst>, a: nat)
    requires l != [] && l[0].kind == Cpu && WellFormed(l)
    ensures Inv(Start([l]), [a]) && (Ends(Start([l]), [a]) <==> a == 0 && LongCpu(l))
  {
    hide Tick, WellFormed;
    StartInv([a], [l]);
    if a > 0 {
      forall n: nat ensures !DoneAt(Start([l]), [a], n) {
        LoneLateSticks(a, l, n);
      }
    } else if LongCpu(l) {
      LongInputEnds([a], [l]);
    } else {
      forall n: nat ensures !DoneAt(Start([l]), [a], n) {
        ShortBurstRun(Start([l]), [a], n);
      }
    }
  }

  const ONE_TICK := [Burst(1, Cpu), Burst(1, Io), Burst(2, Cpu)]

  /** The least such input: a process with bursts C1, I1, C2 is not served again after its first tick. */
  lemma OneTickBurstSticks(n: nat)
    ensures Inv(Start([ONE_TICK]), [0])
    ensures After(Start([ONE_TICK]), [0], n + 1) ==
            State([ONE_TICK[1..]], Device(true, 0, 0), Device(true, 0, 0), n + 1, [-1])
  {
    var l := ONE_TICK;
    assert WellFormed(l[2..]) && l[1..][1..] == l[2..] && WellFormed(l[1..]);
    var s := Start([l]);
    StartInv([0], [l]);
    FindNextShortest(s, [0], Cpu);
    assert Eligible(s, [0], Cpu, 0);
    assert FindNext(s, [0], Cpu) == 0;
    var t := CpuPart(s, [0]).0;
    assert t == State([l[1..]], Device(true, 0, 0), Device(true, 0, 0), 0, [-1]);
    assert IoPart(t, [0], 0).0 == t;
    assert Finish(t) == t.(time := 1);
    assert After(s, [0], 1) == Tick(After(s, [0], 0), [0]).0;
    hide Tick, Inv;
    StuckForGood(After(s, [0], 1), [0], n);
    AfterAfter(s, [0], 1, n);
  }
}
