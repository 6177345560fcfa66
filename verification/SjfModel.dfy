/** The shortest-job-first simulator of sjf-hash.c: one CPU, one I/O device, one tick at a time. */
module SjfModel {

  const INT_MAX := 0x7fff_ffff

  datatype Kind = Cpu | Io

  datatype Burst = Burst(val: nat, kind: Kind)

  datatype Device = Device(idle: bool, pid: int, left: nat)

  /** `procs` holds the bursts not yet dispatched; `last` is the recorded completion, or -1. */
  datatype State = State(procs: seq<seq<Burst>>, cpu: Device, io: Device, time: nat, last: seq<int>)

  predicate Shape(s: State, arrival: seq<nat>) {
    |s.procs| == |arrival| && |s.last| == |arrival|
  }

  /** Process `r` has arrived and its next burst is of the wanted kind; from time 1 on the process
      that the CPU field names is passed over. */
  predicate Eligible(s: State, arrival: seq<nat>, kind: Kind, r: int)
    requires Shape(s, arrival)
  {
    && 0 <= r < |arrival| && arrival[r] <= s.time
    && s.procs[r] != [] && s.procs[r][0].kind == kind && s.procs[r][0].val < INT_MAX
    && (s.time == 0 || r != s.cpu.pid)
  }

  /** The scan of find_next from process `r` on. */
  function FindFrom(s: State, arrival: seq<nat>, kind: Kind, r: nat, best: int): (x: int)
    requires Shape(s, arrival) && r <= |arrival| && (best == -1 || Eligible(s, arrival, kind, best))
    ensures x == -1 || Eligible(s, arrival, kind, x)
    decreases |arrival| - r
  {
    if r == |arrival| || arrival[r] > s.time then best
    else if Eligible(s, arrival, kind, r) && (best == -1 || s.procs[r][0].val < s.procs[best][0].val) then
      FindFrom(s, arrival, kind, r + 1, r)
    else
      FindFrom(s, arrival, kind, r + 1, best)
  }

  function FindNext(s: State, arrival: seq<nat>, kind: Kind): (x: int)
    requires Shape(s, arrival)
    ensures x == -1 || Eligible(s, arrival, kind, x)
  {
    FindFrom(s, arrival, kind, 0, -1)
  }

  predicate Sorted(arrival: seq<nat>) {
    forall i, j :: 0 <= i < j < |arrival| ==> arrival[i] <= arrival[j]
  }

  /** `x` is the shortest eligible job, the first of the shortest ones. */
  ghost predicate IsShortest(s: State, arrival: seq<nat>, kind: Kind, x: int)
    requires Shape(s, arrival)
  {
    if x == -1 then forall r :: !Eligible(s, arrival, kind, r)
    else
      && Eligible(s, arrival, kind, x)
      && forall r :: Eligible(s, arrival, kind, r) ==>
           s.procs[x][0].val < s.procs[r][0].val || (s.procs[x][0].val == s.procs[r][0].val && x <= r)
  }

  /** `best` is the shortest eligible job among the first `r`. */
  ghost predicate BestBefore(s: State, arrival: seq<nat>, kind: Kind, r: nat, best: int)
    requires Shape(s, arrival)
  {
    && (best == -1 || (best < r && Eligible(s, arrival, kind, best)))
    && forall k :: Eligible(s, arrival, kind, k) && k < r ==>
         best != -1 && (s.procs[best][0].val < s.procs[k][0].val || (s.procs[best][0].val == s.procs[k][0].val && best <= k))
  }

  lemma {:induction false} FindFromShortest(s: State, arrival: seq<nat>, kind: Kind, r: nat, best: int)
    requires Shape(s, arrival) && Sorted(arrival) && r <= |arrival| && BestBefore(s, arrival, kind, r, best)
    ensures IsShortest(s, arrival, kind, FindFrom(s, arrival, kind, r, best))
    decreases |arrival| - r
  {
    if r == |arrival| {
    } else if arrival[r] > s.time {
      forall k | Eligible(s, arrival, kind, k) ensures k < r {
      }
    } else if Eligible(s, arrival, kind, r) && (best == -1 || s.procs[r][0].val < s.procs[best][0].val) {
      FindFromShortest(s, arrival, kind, r + 1, r);
    } else {
      FindFromShortest(s, arrival, kind, r + 1, best);
    }
  }

  /** With arrivals in order, find_next returns the shortest eligible job, or none if there is none. */
  lemma FindNextShortest(s: State, arrival: seq<nat>, kind: Kind)
    requires Shape(s, arrival) && Sorted(arrival)
    ensures IsShortest(s, arrival, kind, FindNext(s, arrival, kind))
  {
    FindFromShortest(s, arrival, kind, 0, -1);
  }

  // ---------- one tick ----------

  function Dispatch(s: State, p: nat): seq<seq<Burst>>
    requires p < |s.procs| && s.procs[p] != []
  {
    s.procs[p := s.procs[p][1..]]
  }

  /** The CPU half of a tick and the process it served, or -1. */
  function CpuPart(s: State, arrival: seq<nat>): (r: (State, int))
    requires Shape(s, arrival)
    ensures Shape(r.0, arrival)
  {
    if s.cpu.idle then
      var p := FindNext(s, arrival, Cpu);
      if p == -1 || (p == s.io.pid && s.io.left >= 1) then (s, -1)
      else
        var v := s.procs[p][0].val;
        var left := if v > 0 then v - 1 else 0;
        (s.(procs := Dispatch(s, p), cpu := Device(left == 0, p, left)), p)
    else
      var left := if s.cpu.left > 0 then s.cpu.left - 1 else 0;
      (s.(cpu := if s.cpu.left == 1 then Device(true, -1, left) else Device(false, s.cpu.pid, left)), s.cpu.pid)
  }

  /** The I/O half; `flag` is the process the CPU half served. */
  function IoPart(s: State, arrival: seq<nat>, flag: int): (r: (State, int))
    requires Shape(s, arrival)
    ensures Shape(r.0, arrival)
  {
    if s.io.idle then
      var p := FindNext(s, arrival, Io);
      if p == -1 || p == flag then (s, -1)
      else
        var v := s.procs[p][0].val;
        var left := if v > 0 then v - 1 else 0;
        (s.(procs := Dispatch(s, p), io := Device(left == 0, p, left)), p)
    else
      var left := if s.io.left > 0 then s.io.left - 1 else 0;
      (s.(io := Device(s.io.left == 1, s.io.pid, left)), s.io.pid)
  }

  /** The clock moves on, and processes without bursts get their completion recorded. */
  function Finish(s: State): State {
    s.(time := s.time + 1,
       last := seq(|s.last|, k requires 0 <= k < |s.last| =>
                 if k < |s.procs| && s.procs[k] == [] && s.last[k] < 0 then s.time + s.cpu.left else s.last[k]))
  }

  datatype Served = Served(cpu: int, io: int)

  function Tick(s: State, arrival: seq<nat>): (r: (State, Served))
    requires Shape(s, arrival)
    ensures Shape(r.0, arrival)
  {
    var (s1, c) := CpuPart(s, arrival);
    var (s2, i) := IoPart(s1, arrival, c);
    (Finish(s2), Served(c, i))
  }

  predicate Done(s: State) {
    forall k :: 0 <= k < |s.procs| ==> s.procs[k] == []
  }

  // ---------- the invariant ----------

  /** Bursts alternate, end on the CPU, and take a tick or more each. */
  predicate WellFormed(l: seq<Burst>) {
    l != [] ==>
      && 1 <= l[0].val < INT_MAX
      && (l[0].kind == Cpu ==> |l| > 1 ==> l[1].kind == Io)
      && (l[0].kind == Io ==> |l| > 1 && l[1].kind == Cpu)
      && WellFormed(l[1..])
  }

  /** Every CPU burst but the last burst of all takes two ticks or more. */
  predicate LongCpu(l: seq<Burst>) {
    l != [] ==> (l[0].kind == Cpu && |l| > 1 ==> l[0].val >= 2) && LongCpu(l[1..])
  }

  predicate DeviceOk(d: Device, n: nat) {
    (d.idle ==> d.left == 0) && (!d.idle ==> d.left >= 1 && 0 <= d.pid < n)
  }

  ghost predicate Inv(s: State, arrival: seq<nat>) {
    && Shape(s, arrival) && Sorted(arrival)
    && DeviceOk(s.cpu, |arrival|) && DeviceOk(s.io, |arrival|)
    && (!s.cpu.idle && !s.io.idle ==> s.cpu.pid != s.io.pid)
    && (!s.io.idle ==> s.procs[s.io.pid] != [])
    && (forall k :: 0 <= k < |arrival| ==> WellFormed(s.procs[k]))
    && (forall k :: 0 <= k < |arrival| ==> (s.last[k] >= 0 <==> s.procs[k] == []))
    && (s.time == 0 ==> s.cpu.idle && s.io.idle && forall k :: 0 <= k < |arrival| ==> s.procs[k] != [] && s.procs[k][0].kind == Cpu)
  }

  /** Every CPU burst but the last of its process is long, and an idle CPU names no process that
      still has bursts. */
  ghost predicate Unnamed(s: State, arrival: seq<nat>)
    requires Shape(s, arrival)
  {
    && (forall k :: 0 <= k < |arrival| ==> LongCpu(s.procs[k]))
    && (s.cpu.idle && 0 <= s.cpu.pid < |arrival| ==> s.procs[s.cpu.pid] == [])
  }

  /** Nothing has been dispatched, and the CPU still names process 0, as it does at the start. */
  ghost predicate Untouched(s: State, arrival: seq<nat>)
    requires Shape(s, arrival)
  {
    && s.cpu == Device(true, 0, 0) && s.io.idle
    && forall k :: 0 <= k < |arrival| ==> LongCpu(s.procs[k]) && s.procs[k] != [] && s.procs[k][0].kind == Cpu
  }

  /** A state that cannot get stuck: the CPU names nobody who waits, or it has not been used yet and
      somebody else is there, or will be served at once. */
  ghost predicate Clear(s: State, arrival: seq<nat>)
    requires Shape(s, arrival)
  {
    Unnamed(s, arrival) ||
    (Untouched(s, arrival) && (|arrival| >= 2 || (|arrival| == 1 && s.time == 0 && arrival[0] == 0)))
  }

  /** Only the process that the idle CPU still names has bursts left, and the I/O device is idle. */
  ghost predicate Stuck(s: State, arrival: seq<nat>)
    requires Shape(s, arrival)
  {
    && s.time > 0 && s.cpu.idle && s.io.idle
    && 0 <= s.cpu.pid < |arrival| && s.procs[s.cpu.pid] != []
    && forall r :: 0 <= r < |arrival| && r != s.cpu.pid ==> s.procs[r] == []
  }

  // ---------- work ----------

  function Work(l: seq<Burst>): nat {
    if l == [] then 0 else l[0].val + Work(l[1..])
  }

  /** What is still owed to process `r`: its undispatched bursts and the rest of one under way. */
  function Owed(s: State, r: nat): nat
    requires r < |s.procs|
  {
    Work(s.procs[r]) + (if s.cpu.pid == r then s.cpu.left else 0) + (if s.io.pid == r then s.io.left else 0)
  }
}
