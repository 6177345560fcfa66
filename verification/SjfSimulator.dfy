/** The simulator as it runs, updating its globals in place. */
module SjfSimulator {
  import opened SjfModel
  import opened SjfSafety
  import opened SjfRuns

  /** No burst at the front of a list is empty. */
  predicate Positive(procs: seq<seq<Burst>>) {
    forall k :: 0 <= k < |procs| && procs[k] != [] ==> procs[k][0].val >= 1
  }

  lemma GoodIsPositive(procs: seq<seq<Burst>>)
    requires forall k :: 0 <= k < |procs| ==> WellFormed(procs[k])
    ensures Positive(procs)
  {
  }

  class Simulator {
    var procs: seq<seq<Burst>>
    var cpu: Device
    var io: Device
    var time: nat
    var last: seq<int>

    function S(): State reads this {
      State(procs, cpu, io, time, last)
    }

    constructor (bursts: seq<seq<Burst>>)
      ensures S() == Start(bursts)
    {
      procs, cpu, io, time := bursts, Device(true, 0, 0), Device(true, 0, 0), 0;
      last := seq(|bursts|, _ => -1);
    }

    /** find_next. The ages are compared but cannot change the choice. */
    method FindNextProc(arrival: seq<nat>, ages: seq<int>, kind: Kind) returns (leastInd: int)
      requires Shape(S(), arrival) && |ages| == |arrival|
      ensures leastInd == FindNext(S(), arrival, kind)
    {
      var least, leastAge := INT_MAX, INT_MAX;
      leastInd := -1;
      var r := 0;
      while r < |arrival|
        invariant 0 <= r <= |arrival| && (leastInd == -1 || Eligible(S(), arrival, kind, leastInd))
        invariant least == if leastInd == -1 then INT_MAX else procs[leastInd][0].val
        invariant FindFrom(S(), arrival, kind, r, leastInd) == FindNext(S(), arrival, kind)
      {
        if arrival[r] > time {
          break;
        }
        if procs[r] != [] && procs[r][0].val < least && procs[r][0].kind == kind && (time == 0 || r != cpu.pid) {
          least := procs[r][0].val;
          leastInd := r;
          if kind == Io && ages[r] < leastAge {
            leastAge := ages[r];
            least := procs[r][0].val;
            leastInd := r;
          }
        }
        r := r + 1;
      }
    }

    method CpuHalf(arrival: seq<nat>, ages: seq<int>) returns (flag: int)
      requires Shape(S(), arrival) && |ages| == |arrival| && DeviceOk(cpu, |arrival|)
      requires Positive(procs)
      modifies this`procs, this`cpu
      ensures (S(), flag) == CpuPart(old(S()), arrival)
    {
      flag := -1;
      if cpu.idle {
        var next := FindNextProc(arrival, ages, Cpu);
        if next == -1 || (next == io.pid && io.left >= 1) {
        } else {
          cpu := Device(false, next, procs[next][0].val);
          procs := procs[next := procs[next][1..]];
          flag := next;
          cpu := cpu.(left := cpu.left - 1);
          if cpu.left == 0 {
            cpu := cpu.(idle := true);
          }
        }
      } else {
        flag := cpu.pid;
        if cpu.left == 1 {
          cpu := cpu.(idle := true, pid := -1);
        }
        cpu := cpu.(left := cpu.left - 1);
      }
    }

    method IoHalf(arrival: seq<nat>, ages: seq<int>, flag: int) returns (served: int)
      requires Shape(S(), arrival) && |ages| == |arrival| && DeviceOk(io, |arrival|)
      requires Positive(procs)
      modifies this`procs, this`io
      ensures (S(), served) == IoPart(old(S()), arrival, flag)
    {
      served := -1;
      if io.idle {
        var next := FindNextProc(arrival, ages, Io);
        if next == -1 || flag == next {
        } else {
          io := Device(false, next, procs[next][0].val);
          procs := procs[next := procs[next][1..]];
          served := next;
          io := io.(left := io.left - 1);
          if io.left == 0 {
            io := io.(idle := true);
          }
        }
      } else {
        served := io.pid;
        if io.left == 1 {
          io := io.(idle := true);
        }
        io := io.(left := io.left - 1);
      }
    }

    /** Advances the clock, records completions, ages the I/O bursts at the front, and tells whether
        every burst has been dispatched. */
    method CloseTick(ages: seq<int>) returns (done: bool, older: seq<int>)
      requires |procs| == |last| == |ages|
      modifies this`time, this`last
      ensures S() == Finish(old(S())) && (done <==> Done(S())) && |older| == |ages|
    {
      ghost var was := last;
      time := time + 1;
      done, older := true, ages;
      var k := 0;
      while k < |procs|
        invariant 0 <= k <= |procs| && |last| == |was| && |older| == |ages| && time == old(time) + 1
        invariant done <==> forall i :: 0 <= i < k ==> procs[i] == []
        invariant forall i :: 0 <= i < k ==> last[i] == if procs[i] == [] && was[i] < 0 then time - 1 + cpu.left else was[i]
        invariant forall i :: k <= i < |was| ==> last[i] == was[i]
      {
        if procs[k] != [] {
          done := false;
          if procs[k][0].kind == Io {
            older := older[k := older[k] + 1];
          }
        } else if last[k] < 0 {
          last := last[k := time - 1 + cpu.left];
        }
        k := k + 1;
      }
      assert last == Finish(old(S())).last;
    }

    /** One turn of the loop of main. */
    method OneTick(arrival: seq<nat>, ages: seq<int>) returns (done: bool, older: seq<int>, v: Served)
      requires Inv(S(), arrival) && |ages| == |arrival|
      modifies this
      ensures (S(), v) == Tick(old(S()), arrival) && Inv(S(), arrival)
      ensures (done <==> Done(S())) && |older| == |arrival|
    {
      TickKeeps(S(), arrival);
      CpuKeeps(S(), arrival);
      GoodIsPositive(procs);
      var flag := CpuHalf(arrival, ages);
      GoodIsPositive(procs);
      hide Inv, Halfway, CpuPart, IoPart;
      var i := IoHalf(arrival, ages, flag);
      done, older := CloseTick(ages);
      v := Served(flag, i);
    }

    /** The loop of main. It ends no later than the last arrival plus the sum of all bursts; by then
        every process has been served its bursts in full but for what its last one still has left,
        and its completion is recorded. */
    method Simulate(arrival: seq<nat>, bursts: seq<seq<Burst>>) returns (ghost ticks: nat)
      requires SafeInput(arrival, bursts) && S() == Start(bursts)
      modifies this
      ensures Inv(Start(bursts), arrival) && S() == After(Start(bursts), arrival, ticks)
      ensures ticks == time && Done(S())
      ensures time <= if bursts == [] then 1 else LastArrival(arrival) + TotalWork(bursts, |bursts|)
      ensures forall k :: 0 <= k < |bursts| ==> Settled(arrival, bursts, ticks, k)
    {
      hide Inv, SafeInput, Tick, Fuel, Running, TotalWork, Start, Done, Settled;
      Begun(arrival, bursts);
      ghost var s0 := S();
      var ages := seq(|bursts|, _ => 0);
      var done := false;
      ticks := 0;
      while !done
        invariant Running(s0, S(), arrival, ticks, done) && |ages| == |arrival|
        decreases Fuel(S(), arrival, done)
      {
        var v;
        Progress(s0, S(), arrival, ticks);
        done, ages, v := OneTick(arrival, ages);
        ticks := ticks + 1;
      }
      Ended(s0, S(), arrival, ticks);
      forall k | 0 <= k < |bursts| ensures Settled(arrival, bursts, ticks, k) {
        DoneSettles(arrival, bursts, ticks, k);
      }
    }
  }

  /** How the loop of main stands after `ticks` turns. */
  ghost predicate Running(s0: State, s: State, arrival: seq<nat>, ticks: nat, done: bool) {
    && Inv(s0, arrival) && s0.time == 0 && Inv(s, arrival) && Clear(s, arrival)
    && s == After(s0, arrival, ticks) && s.time == ticks
    && (arrival == [] ==> done == (ticks == 1) && ticks <= 1)
    && (arrival != [] ==> (done <==> Done(s)) && s.time + Budget(s, arrival) <= Budget(s0, arrival))
  }

  ghost function Fuel(s: State, arrival: seq<nat>, done: bool): nat {
    (if Shape(s, arrival) then Budget(s, arrival) else 0) + if done then 0 else 1
  }

  lemma Progress(s0: State, s: State, arrival: seq<nat>, ticks: nat)
    requires Running(s0, s, arrival, ticks, false)
    ensures Inv(s, arrival) && Shape(s, arrival)
    ensures var t := Tick(s, arrival).0;
            Running(s0, t, arrival, ticks + 1, Done(t)) && Fuel(t, arrival, Done(t)) < Fuel(s, arrival, false)
  {
    var t := Tick(s, arrival).0;
    TickKeeps(s, arrival);
    TickClears(s, arrival);
    TickTime(s, arrival);
    if arrival == [] {
      EmptyBudget(s, arrival);
      EmptyBudget(t, arrival);
    } else {
      ClearIsNotStuck(s, arrival);
      BudgetShrinks(s, arrival);
    }
    hide Budget, Tick;
  }

  lemma Ended(s0: State, s: State, arrival: seq<nat>, ticks: nat)
    requires Running(s0, s, arrival, ticks, true)
    ensures Inv(s0, arrival) && s == After(s0, arrival, ticks) && s.time == ticks && Done(s)
    ensures s.time <= if arrival == [] then 1 else Budget(s0, arrival)
  {
    if arrival == [] {
      EmptyBudget(s, arrival);
    }
  }

  lemma EmptyBudget(s: State, arrival: seq<nat>)
    requires Shape(s, arrival) && arrival == []
    ensures Budget(s, arrival) == 0 && Done(s)
  {
  }

  lemma Begun(arrival: seq<nat>, bursts: seq<seq<Burst>>)
    requires SafeInput(arrival, bursts)
    ensures Running(Start(bursts), Start(bursts), arrival, 0, false) && |arrival| == |bursts|
    ensures Inv(Start(bursts), arrival)
    ensures Budget(Start(bursts), arrival) == LastArrival(arrival) + TotalWork(bursts, |bursts|)
  {
    StartInv(arrival, bursts);
    StartOwes(bursts, |bursts|);
    if bursts != [] {
      assert Start(bursts).procs[0] != [];
    }
  }
}
