/** The process table of the MINIX process manager and the handlers of forkexit.c as functions
    from one table to the next. */
module ProcTable {

  const LAST_FEW := 2
  const NO_TRACER := 0

  type TableSize = n: nat | n > LAST_FEW + 1 witness 256
  const NR_PROCS: TableSize

  type InitSlot = n: nat | 0 < n < NR_PROCS witness 1
  const INIT: InitSlot

  /** The process manager's own slot. */
  const PM := 0

  /** The request to VFS that VFS_CALL stands for. */
  datatype VfsCall = NoCall | OtherCall | ExitCall | CoreCall

  datatype Proc = Proc(
    inUse: bool, exiting: bool, zombie: bool, traceZombie: bool, toldParent: bool, waiting: bool,
    privProc: bool, traceExit: bool, traceFork: bool, traceStopped: bool, stopSignals: nat, vfs: VfsCall,
    pid: int, procgrp: int, wpid: int, parent: nat, tracer: nat, realuid: nat, effuid: nat)

  /** What the rest of the system gets to see of slot `i`. Told and TracerTold are notices of its exit,
      sent to parent or tracer `to`. */
  datatype Event =
    | Created(i: nat) | Exited(i: nat) | Told(i: nat, to: nat) | TracerTold(i: nat, to: nat) | Replied(i: nat) | Freed(i: nat)

  datatype State = State(procs: seq<Proc>, used: nat, next: nat, panicked: bool, log: seq<Event>)

  predicate InTable(s: State, i: nat) {
    |s.procs| == NR_PROCS && i < NR_PROCS
  }

  /** Every link that a handler may follow stays inside the table. */
  predicate Shape(s: State) {
    && |s.procs| == NR_PROCS
    && forall i :: 0 <= i < NR_PROCS ==> s.procs[i].parent < NR_PROCS && s.procs[i].tracer < NR_PROCS
  }

  function Panic(s: State): State {
    s.(panicked := true)
  }

  function Emit(s: State, e: Event): State {
    s.(log := s.log + [e])
  }

  function Put(s: State, i: nat, p: Proc): State
    requires InTable(s, i)
  {
    s.(procs := s.procs[i := p])
  }

  function Unwait(s: State, w: nat): State
    requires InTable(s, w)
  {
    Put(s, w, s.procs[w].(waiting := false))
  }

  predicate WaitTest(w: Proc, child: Proc) {
    w.waiting && (w.wpid == -1 || w.wpid == child.pid || -w.wpid == child.procgrp)
  }

  function ClearFlags(p: Proc): Proc {
    p.(inUse := false, exiting := false, zombie := false, traceZombie := false, toldParent := false,
       waiting := false, privProc := false, traceExit := false, traceStopped := false, vfs := NoCall)
  }

  function Cleanup(s: State, c: nat): State
    requires InTable(s, c)
  {
    Emit(Put(s, c, ClearFlags(s.procs[c]).(pid := 0)).(used := if s.used > 0 then s.used - 1 else 0), Freed(c))
  }

  function TellParent(s: State, c: nat): (t: State)
    requires Shape(s) && InTable(s, c)
    ensures Shape(t)
  {
    var p := s.procs[c].parent;
    if p == 0 || !s.procs[c].zombie || s.procs[c].toldParent then
      Panic(s)
    else
      var s1 := Unwait(s, p);
      Emit(Put(s1, c, s1.procs[c].(zombie := false, toldParent := true)), Told(c, p))
  }

  function TellTracer(s: State, c: nat): (t: State)
    requires Shape(s) && InTable(s, c)
    ensures Shape(t)
  {
    var t := s.procs[c].tracer;
    if t == 0 || !s.procs[c].traceZombie then
      Panic(s)
    else
      var s1 := Unwait(s, t);
      Emit(Put(s1, c, s1.procs[c].(traceZombie := false, zombie := true)), TracerTold(c, t))
  }

  function CheckParent(s: State, c: nat, tryCleanup: bool): (t: State)
    requires Shape(s) && InTable(s, c)
    ensures Shape(t)
  {
    var p := s.procs[s.procs[c].parent];
    if p.exiting then
      s
    else if WaitTest(p, s.procs[c]) then
      var s1 := TellParent(s, c);
      if tryCleanup && s1.procs[c].vfs == NoCall then Cleanup(s1, c) else s1
    else
      s
  }

  function Zombify(s: State, c: nat): (t: State)
    requires Shape(s) && InTable(s, c)
    ensures Shape(t)
  {
    var p := s.procs[c];
    if p.traceZombie || p.zombie then
      Panic(s)
    else if p.tracer != NO_TRACER && p.tracer != p.parent then
      var s1 := Put(s, c, p.(traceZombie := true));
      if !WaitTest(s1.procs[p.tracer], s1.procs[c]) then s1
      else CheckParent(TellTracer(s1, c), c, false)
    else
      CheckParent(Put(s, c, p.(zombie := true)), c, false)
  }

  function TracerDied(s: State, c: nat): (t: State)
    requires Shape(s) && InTable(s, c)
    ensures Shape(t)
  {
    var p := s.procs[c].(tracer := NO_TRACER, traceExit := false);
    if p.exiting && p.traceZombie then
      CheckParent(Put(s, c, p.(traceZombie := false, zombie := true)), c, true)
    else
      Put(s, c, p)
  }

  /** One turn of the loop that disinherits the children and tracees of `x`. */
  function DisinheritOne(s: State, x: nat, i: nat): (t: State)
    requires Shape(s) && InTable(s, i)
    ensures Shape(t)
  {
    if !s.procs[i].inUse then
      s
    else
      var s1 := if s.procs[i].tracer == x then TracerDied(s, i) else s;
      if s1.procs[i].parent == x then
        var s2 := Put(s1, i, s1.procs[i].(parent := INIT));
        if s2.procs[i].zombie then CheckParent(s2, i, true) else s2
      else
        s1
  }

  function Disinherit(s: State, x: nat, i: nat): (t: State)
    requires Shape(s) && i <= NR_PROCS
    ensures Shape(t)
    decreases NR_PROCS - i
  {
    if i == NR_PROCS then s else Disinherit(DisinheritOne(s, x, i), x, i + 1)
  }

  predicate DumpsCore(p: Proc, dump: bool) {
    dump && p.realuid == p.effuid && !p.privProc
  }

  /** The record of a process that has just told VFS it is leaving. */
  function Leaving(p: Proc, dump: bool, byTracer: bool): Proc {
    p.(exiting := true, zombie := false, traceZombie := false, toldParent := false, waiting := false,
       traceStopped := false, traceExit := p.traceExit || byTracer,
       vfs := if DumpsCore(p, dump) then CoreCall else ExitCall)
  }

  function ExitProc(s: State, c: nat, dump: bool, byTracer: bool): (t: State)
    requires Shape(s) && InTable(s, c)
    ensures Shape(t)
  {
    if c == INIT then
      s
    else
      var s1 := Emit(Put(s, c, Leaving(s.procs[c], dump, byTracer)), Exited(c));
      var s2 := if DumpsCore(s.procs[c], dump) then s1 else Zombify(s1, c);
      Disinherit(s2, c, 0)
  }

  function Answered(s: State, c: nat): (t: State)
    requires Shape(s) && InTable(s, c)
    ensures Shape(t)
  {
    Put(s, c, s.procs[c].(vfs := NoCall))
  }

  /** VFS has answered an exit or core dump request. */
  function ExitRestart(s: State, c: nat, dump: bool): (t: State)
    requires Shape(s) && InTable(s, c)
    ensures Shape(t)
  {
    var s1 := Emit(Answered(s, c), Replied(c));
    var s2 := if dump then Zombify(s1, c) else s1;
    if s2.procs[c].toldParent then Cleanup(s2, c) else s2
  }

  function VfsReply(s: State, c: nat): (t: State)
    requires Shape(s) && InTable(s, c)
    ensures Shape(t)
  {
    match s.procs[c].vfs
    case ExitCall => ExitRestart(s, c, false)
    case CoreCall => ExitRestart(s, c, true)
    case _ => Answered(s, c)
  }

  /** do_waitpid's test on the pid argument. */
  predicate Qualifies(pidarg: int, child: Proc) {
    (pidarg > 0 ==> pidarg == child.pid) && (pidarg < -1 ==> -pidarg == child.procgrp)
  }

  /** do_waitpid counts slot `c` among the children or tracees of `w` that meet the pid test. */
  predicate Acceptable(p: Proc, w: nat, pidarg: int) {
    && p.inUse && !p.toldParent
    && (p.parent == w || p.tracer == w)
    && !(p.parent != w && p.zombie)
    && Qualifies(pidarg, p)
  }

  datatype WaitResult = Suspend | Reply(pid: int) | NoHang | ECHILD

  /** The action do_waitpid takes on an acceptable slot, if it ends the scan. */
  datatype WaitAction = Pass | Traced | Stopped | Collect

  function ActionOn(p: Proc, w: nat): WaitAction {
    if p.tracer == w && p.traceZombie then Traced
    else if p.tracer == w && p.traceStopped && p.stopSignals > 0 then Stopped
    else if p.parent == w && p.zombie then Collect
    else Pass
  }

  function WaitOn(s: State, c: nat, a: WaitAction): (t: State)
    requires Shape(s) && InTable(s, c)
    ensures Shape(t)
  {
    match a
    case Pass => s
    case Traced => CheckParent(TellTracer(s, c), c, true)
    case Stopped => Put(s, c, s.procs[c].(stopSignals := if s.procs[c].stopSignals > 0 then s.procs[c].stopSignals - 1 else 0))
    case Collect =>
      var s1 := TellParent(s, c);
      if s1.procs[c].vfs == NoCall then Cleanup(s1, c) else s1
  }

  /** The scan of do_waitpid from slot `i` on, with `children` acceptable slots already seen. */
  function Scan(s: State, w: nat, pidarg: int, nohang: bool, i: nat, children: nat): (t: (State, WaitResult))
    requires Shape(s) && InTable(s, w) && i <= NR_PROCS
    ensures Shape(t.0)
    decreases NR_PROCS - i
  {
    if i == NR_PROCS then
      if children == 0 then (s, ECHILD)
      else if nohang then (s, NoHang)
      else (Put(s, w, s.procs[w].(waiting := true, wpid := pidarg)), Suspend)
    else if !Acceptable(s.procs[i], w, pidarg) then
      Scan(s, w, pidarg, nohang, i + 1, children)
    else
      var a := ActionOn(s.procs[i], w);
      if a == Pass then Scan(s, w, pidarg, nohang, i + 1, children + 1)
      else (WaitOn(s, i, a), if a == Stopped then Reply(s.procs[i].pid) else Suspend)
  }

  function PidArg(p: Proc, pidarg: int): int {
    if pidarg == 0 then -p.procgrp else pidarg
  }

  function WaitPid(s: State, w: nat, pidarg: int, nohang: bool): (t: (State, WaitResult))
    requires Shape(s) && InTable(s, w)
    ensures Shape(t.0)
  {
    Scan(s, w, PidArg(s.procs[w], pidarg), nohang, 0, 0)
  }

  function Wrap(i: nat): (k: nat)
    requires i < NR_PROCS
    ensures k < NR_PROCS && k == (i + 1) % NR_PROCS
  {
    if i + 1 == NR_PROCS then 0 else i + 1
  }

  /** The do-while search of do_fork: the slot it stops at and the number of slots looked at. */
  function Search(procs: seq<Proc>, cur: nat, n: nat): (r: (nat, nat))
    requires |procs| == NR_PROCS && cur < NR_PROCS && n <= NR_PROCS
    ensures r.0 < NR_PROCS
    decreases NR_PROCS + 1 - n
  {
    var k := Wrap(cur);
    if procs[k].inUse && n + 1 <= NR_PROCS then Search(procs, k, n + 1) else (k, n + 1)
  }

  datatype ForkResult = EAGAIN | VmError | Forked(slot: nat) | ForkPanic

  predicate TableFull(s: State, w: nat)
    requires InTable(s, w)
  {
    s.used == NR_PROCS || (s.used >= NR_PROCS - LAST_FEW && s.procs[w].effuid != 0)
  }

  /** The child's record: the parent's with only IN_USE inherited among the flags modelled here. */
  function ChildOf(p: Proc, w: nat, pid: int): Proc {
    ClearFlags(p).(inUse := true, parent := w, pid := pid, vfs := OtherCall,
                   tracer := if p.traceFork then p.tracer else NO_TRACER,
                   stopSignals := if p.traceFork then p.stopSignals else 0)
  }

  function Fork(s: State, w: nat, pid: int, vmOk: bool): (t: (State, ForkResult))
    requires Shape(s) && InTable(s, w) && s.next < NR_PROCS
    ensures Shape(t.0) && t.0.next < NR_PROCS
  {
    if TableFull(s, w) then
      (s, EAGAIN)
    else
      var (k, n) := Search(s.procs, s.next, 0);
      var s1 := s.(next := k);
      if n > NR_PROCS || s.procs[k].inUse then (Panic(s1), ForkPanic)
      else if !vmOk then (s1, VmError)
      else (Emit(Put(s1, k, ChildOf(s.procs[w], w, pid)), Created(k)).(used := s.used + 1), Forked(k))
  }
}
