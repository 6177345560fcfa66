/** What one tick of the simulator does: it keeps the invariant, serves no process twice, pays
    exactly what it serves, and serves someone whenever an arrived process still has bursts. */
module SjfSafety {
  import opened SjfModel

  /** Between the two halves of a tick, after the CPU half has served `c`. */
  ghost predicate Halfway(s: State, arrival: seq<nat>, c: int) {
    && Shape(s, arrival) && Sorted(arrival)
    && DeviceOk(s.cpu, |arrival|) && DeviceOk(s.io, |arrival|)
    && (!s.cpu.idle ==> c == s.cpu.pid)
    && (c == -1 || (0 <= c < |arrival| && (!s.io.idle ==> c != s.io.pid)))
    && (!s.io.idle ==> s.procs[s.io.pid] != [])
    && (forall k :: 0 <= k < |arrival| ==> WellFormed(s.procs[k]))
    && (forall k :: 0 <= k < |arrival| && s.procs[k] == [] ==> s.last[k] >= 0 || c == k)
    && (forall k :: 0 <= k < |arrival| && s.last[k] >= 0 ==> s.procs[k] == [])
  }

  lemma CpuKeeps(s: State, arrival: seq<nat>)
    requires Inv(s, arrival)
    ensures var (t, c) := CpuPart(s, arrival); Halfway(t, arrival, c) && t.time == s.time
  {
    var p := FindNext(s, arrival, Cpu);
    if s.cpu.idle && p != -1 {
      assert WellFormed(s.procs[p]);
    }
  }

  /** After both halves, before the clock moves. */
  ghost predicate Ticked(s: State, arrival: seq<nat>, c: int) {
    && Shape(s, arrival) && Sorted(arrival)
    && DeviceOk(s.cpu, |arrival|) && DeviceOk(s.io, |arrival|)
    && (!s.cpu.idle ==> c == s.cpu.pid)
    && (!s.cpu.idle && !s.io.idle ==> s.cpu.pid != s.io.pid)
    && (!s.io.idle ==> s.procs[s.io.pid] != [])
    && (forall k :: 0 <= k < |arrival| ==> WellFormed(s.procs[k]))
    && (forall k :: 0 <= k < |arrival| && s.last[k] >= 0 ==> s.procs[k] == [])
  }

  lemma IoKeeps(s: State, arrival: seq<nat>, c: int)
    requires Halfway(s, arrival, c)
    ensures var (t, i) := IoPart(s, arrival, c);
            Ticked(t, arrival, c) && t.time == s.time && t.cpu == s.cpu && (i == -1 || i != c) && (i == -1 || 0 <= i < |arrival|)
  {
    var p := FindNext(s, arrival, Io);
    if s.io.idle && p != -1 {
      assert WellFormed(s.procs[p]);
    }
  }

  /** Every tick keeps the invariant and never has one process on both devices. */
  lemma TickKeeps(s: State, arrival: seq<nat>)
    requires Inv(s, arrival)
    ensures Inv(Tick(s, arrival).0, arrival)
    ensures var v := Tick(s, arrival).1; v.cpu == -1 || v.io == -1 || v.cpu != v.io
  {
    CpuKeeps(s, arrival);
    var (s1, c) := CpuPart(s, arrival);
    IoKeeps(s1, arrival, c);
    hide CpuPart, IoPart;
  }

  // ---------- conservation ----------

  /** The CPU half pays one unit to the process it serves and nothing to anyone else. */
  lemma CpuPays(s: State, arrival: seq<nat>, r: nat)
    requires Inv(s, arrival) && r < |arrival|
    ensures var (t, c) := CpuPart(s, arrival); Owed(t, r) + (if c == r then 1 else 0) == Owed(s, r)
  {
    var p := FindNext(s, arrival, Cpu);
    if s.cpu.idle && p != -1 {
      assert WellFormed(s.procs[p]);
    }
  }

  lemma IoPays(s: State, arrival: seq<nat>, c: int, r: nat)
    requires Halfway(s, arrival, c) && r < |arrival|
    ensures var (t, i) := IoPart(s, arrival, c); Owed(t, r) + (if i == r then 1 else 0) == Owed(s, r)
  {
    var p := FindNext(s, arrival, Io);
    if s.io.idle && p != -1 {
      assert WellFormed(s.procs[p]);
    }
  }

  /** A tick pays each process exactly the units it serves it. */
  lemma TickPays(s: State, arrival: seq<nat>, r: nat)
    requires Inv(s, arrival) && r < |arrival|
    ensures var (t, v) := Tick(s, arrival);
            Owed(t, r) + (if v.cpu == r then 1 else 0) + (if v.io == r then 1 else 0) == Owed(s, r)
  {
    CpuKeeps(s, arrival);
    CpuPays(s, arrival, r);
    var (s1, c) := CpuPart(s, arrival);
    IoPays(s1, arrival, c, r);
    hide CpuPart, IoPart, Inv, Halfway;
  }

  // ---------- liveness ----------

  /** A process that has arrived still has bursts to dispatch. */
  ghost predicate Waiting(s: State, arrival: seq<nat>)
    requires Shape(s, arrival)
  {
    exists r :: 0 <= r < |arrival| && arrival[r] <= s.time && s.procs[r] != []
  }

  /** Such a process, and not one that the CPU still names after time 0. */
  ghost predicate Ready(s: State, arrival: seq<nat>)
    requires Shape(s, arrival)
  {
    exists r :: 0 <= r < |arrival| && arrival[r] <= s.time && s.procs[r] != [] && (s.time == 0 || r != s.cpu.pid)
  }

  /** A tick serves a device exactly if one is busy or a process is ready. */
  lemma TickServesExactly(s: State, arrival: seq<nat>)
    requires Inv(s, arrival)
    ensures var v := Tick(s, arrival).1;
            v.cpu != -1 || v.io != -1 <==> !s.cpu.idle || !s.io.idle || Ready(s, arrival)
  {
    FindNextShortest(s, arrival, Cpu);
    FindNextShortest(s, arrival, Io);
    if s.cpu.idle && s.io.idle && Ready(s, arrival) {
      var r :| 0 <= r < |arrival| && arrival[r] <= s.time && s.procs[r] != [] && (s.time == 0 || r != s.cpu.pid);
      assert WellFormed(s.procs[r]);
      assert Eligible(s, arrival, s.procs[r][0].kind, r);
    }
  }

  /** While the CPU names nobody who waits, and at time 0, every tick that begins with an arrived
      process holding bursts serves the CPU or the I/O device. */
  lemma TickServes(s: State, arrival: seq<nat>)
    requires Inv(s, arrival) && (Unnamed(s, arrival) || s.time == 0) && Waiting(s, arrival)
    ensures var v := Tick(s, arrival).1; v.cpu != -1 || v.io != -1
  {
    hide Inv, Tick;
    TickServesExactly(s, arrival);
  }

  /** The CPU goes on naming nobody who waits, and starts to when it is first used. */
  lemma TickUnnames(s: State, arrival: seq<nat>)
    requires Inv(s, arrival)
    requires Unnamed(s, arrival) || (Untouched(s, arrival) && FindNext(s, arrival, Cpu) != -1)
    ensures Unnamed(Tick(s, arrival).0, arrival)
  {
    CpuUnnames(s, arrival);
    IoUnnames(CpuPart(s, arrival).0, arrival, CpuPart(s, arrival).1);
    hide CpuPart, IoPart, Inv;
  }

  lemma CpuUnnames(s: State, arrival: seq<nat>)
    requires Inv(s, arrival)
    requires Unnamed(s, arrival) || (Untouched(s, arrival) && FindNext(s, arrival, Cpu) != -1)
    ensures Unnamed(CpuPart(s, arrival).0, arrival)
  {
    var p := FindNext(s, arrival, Cpu);
    if s.cpu.idle && p != -1 {
      assert WellFormed(s.procs[p]) && LongCpu(s.procs[p]);
    }
  }

  lemma IoUnnames(s: State, arrival: seq<nat>, c: int)
    requires Shape(s, arrival) && Unnamed(s, arrival)
    ensures Unnamed(IoPart(s, arrival, c).0, arrival)
  {
    var p := FindNext(s, arrival, Io);
    if s.io.idle && p != -1 {
      assert LongCpu(s.procs[p]);
    }
  }

  /** Until the CPU is first used only the clock moves. */
  lemma TickUntouched(s: State, arrival: seq<nat>)
    requires Inv(s, arrival) && Untouched(s, arrival) && FindNext(s, arrival, Cpu) == -1
    ensures Tick(s, arrival) == (s.(time := s.time + 1), Served(-1, -1))
  {
    assert Finish(s).last == s.last;
  }

  /** At time 0 the first process is eligible if it has arrived. */
  lemma FirstIsEligible(s: State, arrival: seq<nat>)
    requires Inv(s, arrival) && s.time == 0 && arrival != [] && arrival[0] == 0
    ensures FindNext(s, arrival, Cpu) != -1
  {
    FindNextShortest(s, arrival, Cpu);
    assert WellFormed(s.procs[0]);
    assert Eligible(s, arrival, Cpu, 0);
  }

  /** A state that cannot get stuck leads to such a state. */
  lemma TickClears(s: State, arrival: seq<nat>)
    requires Inv(s, arrival) && Clear(s, arrival)
    ensures Clear(Tick(s, arrival).0, arrival)
  {
    hide Tick;
    if Unnamed(s, arrival) || FindNext(s, arrival, Cpu) != -1 {
      TickUnnames(s, arrival);
    } else {
      if |arrival| == 1 {
        FirstIsEligible(s, arrival);
      }
      TickUntouched(s, arrival);
    }
  }

  lemma ClearIsNotStuck(s: State, arrival: seq<nat>)
    requires Shape(s, arrival) && Clear(s, arrival)
    ensures !Stuck(s, arrival)
  {
    if |arrival| >= 2 && Untouched(s, arrival) {
      assert s.procs[1] != [];
    }
  }

  /** A stuck state: a tick moves nothing but the clock. */
  lemma StuckTick(s: State, arrival: seq<nat>)
    requires Inv(s, arrival) && Stuck(s, arrival)
    ensures Tick(s, arrival) == (s.(time := s.time + 1), Served(-1, -1)) && !Done(s)
  {
    assert forall kind, r :: !Eligible(s, arrival, kind, r);
    assert Finish(s).last == s.last;
  }

  // ---------- which process is taken ----------

  lemma ShortestIsUnique(s: State, arrival: seq<nat>, kind: Kind, p: int, q: int)
    requires Shape(s, arrival) && IsShortest(s, arrival, kind, p) && IsShortest(s, arrival, kind, q)
    ensures p == q
  {
  }

  /** An idle CPU takes the shortest eligible job, the first of the shortest ones, and takes none
      exactly if there is none or that one is busy with I/O. */
  lemma CpuTakesShortest(s: State, arrival: seq<nat>, p: int)
    requires Inv(s, arrival) && s.cpu.idle && IsShortest(s, arrival, Cpu, p)
    ensures Tick(s, arrival).1.cpu == if p == -1 || (p == s.io.pid && s.io.left >= 1) then -1 else p
  {
    FindNextShortest(s, arrival, Cpu);
    ShortestIsUnique(s, arrival, Cpu, p, FindNext(s, arrival, Cpu));
  }

  /** So does an idle I/O device among the jobs as the CPU half leaves them, and it takes none exactly
      if there is none or that one has just had the CPU. */
  lemma IoTakesShortest(s: State, arrival: seq<nat>, p: int)
    requires Inv(s, arrival) && s.io.idle && IsShortest(CpuPart(s, arrival).0, arrival, Io, p)
    ensures var v := Tick(s, arrival).1; v.io == if p == -1 || p == v.cpu then -1 else p
  {
    var s1 := CpuPart(s, arrival).0;
    CpuKeeps(s, arrival);
    FindNextShortest(s1, arrival, Io);
    ShortestIsUnique(s1, arrival, Io, p, FindNext(s1, arrival, Io));
  }

  // ---------- completion ----------

  /** The completion recorded when a process runs out of bursts is the tick that dispatched its
      last burst plus that burst's length minus one. */
  lemma CompletionIsRight(s: State, arrival: seq<nat>, k: nat)
    requires Inv(s, arrival) && k < |arrival| && s.procs[k] != [] && Tick(s, arrival).0.procs[k] == []
    ensures var (t, v) := Tick(s, arrival);
            |s.procs[k]| == 1 && s.procs[k][0].kind == Cpu && v.cpu == k && t.last[k] == s.time + s.procs[k][0].val - 1
  {
    assert WellFormed(s.procs[k]);
    var (s1, c) := CpuPart(s, arrival);
    var p, q := FindNext(s, arrival, Cpu), FindNext(s1, arrival, Io);
    CpuKeeps(s, arrival);
    IoKeeps(s1, arrival, c);
    assert WellFormed(s1.procs[k]);
  }

  /** Bursts leave a process's list one at a time and from the front, and each goes to the device of
      its kind, idle until then, which has served its first tick. */
  lemma DispatchInOrder(s: State, arrival: seq<nat>, k: nat)
    requires Inv(s, arrival) && k < |arrival|
    ensures var (t, v) := Tick(s, arrival);
            t.procs[k] == s.procs[k] ||
            (s.procs[k] != [] && t.procs[k] == s.procs[k][1..] &&
             var b := s.procs[k][0];
             if b.kind == Cpu then
               v.cpu == k && s.cpu.idle && t.cpu == Device(b.val == 1, k, b.val - 1)
             else
               v.io == k && s.io.idle && t.io == Device(b.val == 1, k, b.val - 1))
  {
    CpuDispatch(s, arrival, k);
    CpuKeeps(s, arrival);
    var (s1, c) := CpuPart(s, arrival);
    IoDispatch(s1, arrival, c, k);
    IoKeeps(s1, arrival, c);
    hide CpuPart, IoPart, Inv, Halfway;
  }

  lemma CpuDispatch(s: State, arrival: seq<nat>, k: nat)
    requires Inv(s, arrival) && k < |arrival|
    ensures var (t, c) := CpuPart(s, arrival);
            t.io == s.io &&
            (t.procs[k] == s.procs[k] ||
             (s.procs[k] != [] && t.procs[k] == s.procs[k][1..] && c == k && s.cpu.idle &&
              var b := s.procs[k][0]; b.kind == Cpu && b.val >= 1 && t.cpu == Device(b.val == 1, k, b.val - 1)))
  {
    assert WellFormed(s.procs[k]);
  }

  lemma IoDispatch(s: State, arrival: seq<nat>, c: int, k: nat)
    requires Halfway(s, arrival, c) && k < |arrival|
    ensures var (t, i) := IoPart(s, arrival, c);
            t.procs[k] == s.procs[k] ||
            (s.procs[k] != [] && t.procs[k] == s.procs[k][1..] && i == k && k != c && s.io.idle &&
             var b := s.procs[k][0]; b.kind == Io && b.val >= 1 && t.io == Device(b.val == 1, k, b.val - 1))
  {
    assert WellFormed(s.procs[k]);
  }

  // ---------- no preemption ----------

  /** A busy CPU goes on serving its process and falls idle exactly when the burst is over. */
  lemma CpuHolds(s: State, arrival: seq<nat>)
    requires Inv(s, arrival) && !s.cpu.idle
    ensures var (t, v) := Tick(s, arrival);
            v.cpu == s.cpu.pid && t.cpu.left == s.cpu.left - 1 && (t.cpu.idle <==> s.cpu.left == 1) &&
            (!t.cpu.idle ==> t.cpu.pid == s.cpu.pid)
  {
  }

  lemma IoHolds(s: State, arrival: seq<nat>)
    requires Inv(s, arrival) && !s.io.idle
    ensures var (t, v) := Tick(s, arrival);
            v.io == s.io.pid && t.io.left == s.io.left - 1 && (t.io.idle <==> s.io.left == 1) &&
            (!t.io.idle ==> t.io.pid == s.io.pid)
  {
  }
}
