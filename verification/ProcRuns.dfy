/** Waiting, forking, and the whole runs of the process manager. */
module ProcRuns {
  import opened ProcTable
  import opened ProcSafety

  // ---------- waitpid ----------

  predicate MayCall(s: State, w: nat) {
    && Shape(s) && 0 < w < NR_PROCS
    && s.procs[w].inUse && !s.procs[w].exiting && !s.procs[w].waiting && s.procs[w].vfs == NoCall
  }

  /** do_waitpid's filter and wait_test's agree on every pid argument but zero, which is left when
      a caller without a process group waits for its own group: the filter then takes any child
      and wait_test only those without a group. */
  lemma FiltersAgree(w: Proc, child: Proc)
    requires w.waiting && child.pid > 0 && child.procgrp >= 0
    ensures WaitTest(w, child) <==> Qualifies(w.wpid, child) && (w.wpid == 0 ==> child.procgrp == 0)
  {
  }

  lemma WaitOnKeeps(s: State, w: nat, c: nat, pidarg: int)
    requires Inv(s) && c < NR_PROCS && Acceptable(s.procs[c], w, pidarg)
    ensures Inv(WaitOn(s, c, ActionOn(s.procs[c], w)))
  {
    hide InvBut, TellParent, TellTracer, CheckParent, Cleanup;
    SettledAt(s, NR_PROCS, NR_PROCS, NR_PROCS, c);
    LinksAt(s, NR_PROCS, NR_PROCS, NR_PROCS, c);
    InitAlive(s, NR_PROCS, NR_PROCS, NR_PROCS);
    Unsettle(s, NR_PROCS, NR_PROCS, c);
    match ActionOn(s.procs[c], w)
    case Pass =>
    case Stopped =>
      var p := s.procs[c].(stopSignals := s.procs[c].stopSignals - 1);
      PutKeeps(s, NR_PROCS, NR_PROCS, c, p);
      Settle(Put(s, c, p), NR_PROCS, NR_PROCS, c);
    case Traced =>
      TellTracerKeeps(s, NR_PROCS, NR_PROCS, c);
      CheckParentKeeps(TellTracer(s, c), NR_PROCS, NR_PROCS, c, true);
    case Collect =>
      TellParentKeeps(s, NR_PROCS, NR_PROCS, c);
      var s1 := TellParent(s, c);
      if s1.procs[c].vfs == NoCall {
        CleanupKeeps(s1, NR_PROCS, NR_PROCS, c);
      } else {
        Settle(s1, NR_PROCS, NR_PROCS, c);
      }
  }

  /** Slot `c` gives a scan for `w` nothing to act on. */
  predicate PassedOver(s: State, w: nat, pidarg: int, c: nat)
    requires InTable(s, c)
  {
    Acceptable(s.procs[c], w, pidarg) ==> ActionOn(s.procs[c], w) == Pass
  }

  lemma StartWaiting(s: State, w: nat, pidarg: int)
    requires Inv(s) && MayCall(s, w)
    requires forall c :: 0 <= c < NR_PROCS ==> PassedOver(s, w, pidarg, c)
    ensures Inv(Put(s, w, s.procs[w].(waiting := true, wpid := pidarg)))
  {
    var p := s.procs[w].(waiting := true, wpid := pidarg);
    var t := Put(s, w, p);
    CountUpdate(s.procs, w, p);
    forall i: nat | i < NR_PROCS ensures LinksOk(t, i, NR_PROCS, NR_PROCS) {
      assert LinksOk(s, i, NR_PROCS, NR_PROCS);
    }
    forall i: nat | i < NR_PROCS ensures Settled(t, i) {
      assert Settled(s, i) && PassedOver(s, w, pidarg, i);
      StartWaitingAt(s, w, pidarg, i);
    }
  }

  lemma StartWaitingAt(s: State, w: nat, pidarg: int, i: nat)
    requires Inv(s) && MayCall(s, w) && i < NR_PROCS && PassedOver(s, w, pidarg, i)
    ensures WakeOk(Put(s, w, s.procs[w].(waiting := true, wpid := pidarg)), i)
  {
    hide InvBut, LifeOf, View;
    LinksAt(s, NR_PROCS, NR_PROCS, NR_PROCS, i);
    SettledAt(s, NR_PROCS, NR_PROCS, NR_PROCS, i);
  }

  lemma {:induction false} ScanKeeps(s: State, w: nat, pidarg: int, nohang: bool, i: nat, children: nat)
    requires Inv(s) && MayCall(s, w) && i <= NR_PROCS
    requires forall c :: 0 <= c < i ==> PassedOver(s, w, pidarg, c)
    ensures Inv(Scan(s, w, pidarg, nohang, i, children).0)
    decreases NR_PROCS - i
  {
    hide InvBut;
    if i == NR_PROCS {
      StartWaiting(s, w, pidarg);
    } else if !Acceptable(s.procs[i], w, pidarg) {
      ScanKeeps(s, w, pidarg, nohang, i + 1, children);
    } else if ActionOn(s.procs[i], w) == Pass {
      ScanKeeps(s, w, pidarg, nohang, i + 1, children + 1);
    } else {
      WaitOnKeeps(s, w, i, pidarg);
    }
  }

  /** do_waitpid acts on the first acceptable slot that has something for the caller. If there is
      none it fails with ECHILD exactly when no slot is acceptable at all, and otherwise waits. */
  lemma {:induction false} ScanMeaning(s: State, w: nat, pidarg: int, nohang: bool, i: nat, children: nat) returns (hit: nat)
    requires Shape(s) && w < NR_PROCS && i <= NR_PROCS
    ensures i <= hit <= NR_PROCS && forall c :: i <= c < hit ==> PassedOver(s, w, pidarg, c)
    ensures hit < NR_PROCS ==> !PassedOver(s, w, pidarg, hit)
    ensures hit < NR_PROCS ==>
              var a := ActionOn(s.procs[hit], w);
              Scan(s, w, pidarg, nohang, i, children) ==
                (WaitOn(s, hit, a), if a == Stopped then Reply(s.procs[hit].pid) else Suspend)
    ensures hit == NR_PROCS ==>
              var none := children == 0 && forall c :: i <= c < NR_PROCS ==> !Acceptable(s.procs[c], w, pidarg);
              Scan(s, w, pidarg, nohang, i, children) ==
                if none then (s, ECHILD)
                else if nohang then (s, NoHang)
                else (Put(s, w, s.procs[w].(waiting := true, wpid := pidarg)), Suspend)
    decreases NR_PROCS - i
  {
    hide WaitOn, Acceptable, ActionOn;
    if i == NR_PROCS {
      hit := i;
    } else if !Acceptable(s.procs[i], w, pidarg) {
      hit := ScanMeaning(s, w, pidarg, nohang, i + 1, children);
    } else if ActionOn(s.procs[i], w) == Pass {
      hit := ScanMeaning(s, w, pidarg, nohang, i + 1, children + 1);
    } else {
      hit := i;
    }
  }

  // ---------- zombify ----------

  /** A tracer other than the parent hears of an exit first: until it has, the parent is not told;
      after that the parent is told at once if it waits for the child and is not exiting itself. */
  lemma TracerFirst(s: State, c: nat)
    requires Shape(s) && c < NR_PROCS && s.procs[c].parent != 0 && s.procs[c].parent != c && s.procs[c].tracer != c
    requires !s.procs[c].zombie && !s.procs[c].traceZombie && !s.procs[c].toldParent
    ensures var p, q := s.procs[c], Zombify(s, c).procs[c];
            var heard := p.tracer == NO_TRACER || p.tracer == p.parent || WaitTest(s.procs[p.tracer], p);
            var told := heard && !s.procs[p.parent].exiting && WaitTest(s.procs[p.parent], p);
            q.traceZombie == !heard && q.toldParent == told && q.zombie == (heard && !told)
  {
  }

  // ---------- fork ----------

  /** The slot `d` places after `start`, going round. */
  function Around(start: nat, d: nat): nat
    requires start < NR_PROCS && d <= NR_PROCS
  {
    if start + d < NR_PROCS then start + d else start + d - NR_PROCS
  }

  /** If some slot is free, the search ends within one turn at the first free slot. */
  lemma {:induction false} SearchFinds(procs: seq<Proc>, start: nat, cur: nat, n: nat, free: nat)
    requires |procs| == NR_PROCS && start < NR_PROCS && n <= NR_PROCS && cur == Around(start, n)
    requires free < NR_PROCS && !procs[free].inUse
    requires forall d :: 1 <= d <= n ==> procs[Around(start, d)].inUse
    ensures var (k, m) := Search(procs, cur, n);
            && m <= NR_PROCS && k == Around(start, m) && !procs[k].inUse
            && forall d :: 1 <= d < m ==> procs[Around(start, d)].inUse
    decreases NR_PROCS - n
  {
    var e := if free > start then free - start else free + NR_PROCS - start;
    assert free == Around(start, e);
    assert n < NR_PROCS;
    var k := Wrap(cur);
    assert k == Around(start, n + 1);
    if procs[k].inUse {
      SearchFinds(procs, start, k, n + 1, free);
    }
  }

  /** Whenever the table check passes, do_fork finds the next free slot: its panics are dead. */
  lemma ForkFinds(s: State, w: nat)
    requires Inv(s) && w < NR_PROCS && !TableFull(s, w)
    ensures var (k, m) := Search(s.procs, s.next, 0);
            && m <= NR_PROCS && !s.procs[k].inUse && k == Around(s.next, m)
            && forall d :: 1 <= d < m ==> s.procs[Around(s.next, d)].inUse
  {
    CountAll(s.procs);
    var free :| 0 <= free < NR_PROCS && !s.procs[free].inUse;
    SearchFinds(s.procs, s.next, s.next, 0, free);
  }

  /** A free slot is nobody's parent and nobody's tracer, so its next owner inherits no kin. */
  lemma FreeSlotHasNoKin(s: State, k: nat, i: nat)
    requires Inv(s) && k < NR_PROCS && !s.procs[k].inUse && i < NR_PROCS && s.procs[i].inUse
    ensures s.procs[i].parent != k && (s.procs[i].tracer != NO_TRACER ==> s.procs[i].tracer != k)
  {
    LinksAt(s, NR_PROCS, NR_PROCS, NR_PROCS, i);
  }

  lemma ForkKeeps(s: State, w: nat, pid: int, vmOk: bool)
    requires Inv(s) && MayCall(s, w) && pid > 0
    ensures Inv(Fork(s, w, pid, vmOk).0) && Fork(s, w, pid, vmOk).1 != ForkPanic
  {
    if !TableFull(s, w) {
      ForkFinds(s, w);
      var k := Search(s.procs, s.next, 0).0;
      if vmOk {
        OccupyKeeps(s, w, k, pid);
      } else {
        MoveNext(s, k);
      }
    }
  }

  /** A successful fork fills one slot, the next free one, with a live child of the caller that keeps
      the caller's tracer only if it asked for that; every other slot stays as it was, and the last
      few slots stay free unless the caller is the superuser. */
  lemma ForkMakesChild(s: State, w: nat, pid: int)
    requires Inv(s) && MayCall(s, w) && pid > 0 && !TableFull(s, w)
    ensures var (t, r) := Fork(s, w, pid, true);
            && r.Forked? && PM < r.slot < NR_PROCS && !s.procs[r.slot].inUse && t.next == r.slot
            && View(t.procs[r.slot]) == Alive && t.procs[r.slot].parent == w && t.procs[r.slot].pid == pid
            && t.procs[r.slot].tracer == (if s.procs[w].traceFork then s.procs[w].tracer else NO_TRACER)
            && !t.procs[r.slot].waiting && t.procs[r.slot].vfs == OtherCall
            && t.procs[r.slot].traceFork == s.procs[w].traceFork
            && t.procs[r.slot].stopSignals == (if s.procs[w].traceFork then s.procs[w].stopSignals else 0)
            && t.procs[r.slot].procgrp == s.procs[w].procgrp
            && t.procs[r.slot].realuid == s.procs[w].realuid && t.procs[r.slot].effuid == s.procs[w].effuid
            && (forall i :: 0 <= i < NR_PROCS && i != r.slot ==> t.procs[i] == s.procs[i])
            && Count(t.procs) == Count(s.procs) + 1
            && (s.procs[w].effuid != 0 ==> Count(t.procs) <= NR_PROCS - LAST_FEW)
  {
    hide InvBut, Search, Count, LifeOf;
    ForkFinds(s, w);
    PmAndCount(s);
    CountUpdate(s.procs, Search(s.procs, s.next, 0).0, ChildOf(s.procs[w], w, pid));
  }

  /** A fork is refused exactly if no slot is free, or the caller is not the superuser and only the
      last few are; then, and if memory cannot be copied, no slot changes. */
  lemma ForkRefusedExactly(s: State, w: nat, pid: int, vmOk: bool)
    requires Inv(s) && MayCall(s, w) && pid > 0
    ensures var (t, r) := Fork(s, w, pid, vmOk);
            && (r == EAGAIN <==> Count(s.procs) == NR_PROCS ||
                                 (Count(s.procs) >= NR_PROCS - LAST_FEW && s.procs[w].effuid != 0))
            && (r == VmError <==> r != EAGAIN && !vmOk) && (r == VmError ==> !s.procs[t.next].inUse)
            && (!r.Forked? ==> t.procs == s.procs && t.used == s.used && t.log == s.log)
  {
    hide InvBut, Search, Count, LifeOf;
    PmAndCount(s);
    if !TableFull(s, w) {
      ForkFinds(s, w);
    }
  }

  lemma PmAndCount(s: State)
    requires Inv(s)
    ensures Shape(s) && s.next < NR_PROCS && s.used == Count(s.procs) && s.procs[PM].inUse
  {
  }

  lemma MoveNext(s: State, k: nat)
    requires Inv(s) && k < NR_PROCS
    ensures Inv(s.(next := k))
  {
    var t := s.(next := k);
    forall i: nat | i < NR_PROCS ensures LinksOk(t, i, NR_PROCS, NR_PROCS) && Settled(t, i) {
      assert LinksOk(s, i, NR_PROCS, NR_PROCS) && Settled(s, i);
    }
  }

  /** The table with slot `k` taken by a child of `w`. */
  function Occupy(s: State, w: nat, k: nat, pid: int): State
    requires InTable(s, w) && InTable(s, k)
  {
    Emit(Put(s.(next := k), k, ChildOf(s.procs[w], w, pid)), Created(k)).(used := s.used + 1)
  }

  lemma OccupyAt(s: State, w: nat, k: nat, pid: int, i: nat)
    requires Inv(s) && MayCall(s, w) && pid > 0 && k < NR_PROCS && !s.procs[k].inUse && i < NR_PROCS
    ensures Shape(Occupy(s, w, k, pid)) && LinksOk(Occupy(s, w, k, pid), i, NR_PROCS, NR_PROCS)
    ensures SlotOk(Occupy(s, w, k, pid).procs[i]) && WakeOk(Occupy(s, w, k, pid), i)
  {
    hide InvBut, LifeOf, View;
    LinksAt(s, NR_PROCS, NR_PROCS, NR_PROCS, w);
    SettledAt(s, NR_PROCS, NR_PROCS, NR_PROCS, w);
    LinksAt(s, NR_PROCS, NR_PROCS, NR_PROCS, i);
    SettledAt(s, NR_PROCS, NR_PROCS, NR_PROCS, i);
  }

  lemma OccupyKeeps(s: State, w: nat, k: nat, pid: int)
    requires Inv(s) && MayCall(s, w) && pid > 0 && k < NR_PROCS && !s.procs[k].inUse
    ensures Inv(Occupy(s, w, k, pid))
  {
    var c := ChildOf(s.procs[w], w, pid);
    var t := Occupy(s, w, k, pid);
    CountUpdate(s.procs, k, c);
    OccupyAt(s, w, k, pid, k);
    forall i: nat | i < NR_PROCS ensures LinksOk(t, i, NR_PROCS, NR_PROCS) && Settled(t, i) {
      OccupyAt(s, w, k, pid, i);
      SettledAt(s, NR_PROCS, NR_PROCS, NR_PROCS, i);
      EmitLife(Put(s.(next := k), k, c), Created(k), i);
      hide SlotOk, WakeOk, LinksOk;
    }
  }

  // ---------- runs ----------

  /** A step of the process manager. The last four stand for parts of it outside forkexit.c: a
      tracer attaches, a signal ends a wait, a process starts a group, a tracee stops. */
  datatype Action =
    | DoFork(w: nat, pid: int, vmOk: bool)
    | DoExit(c: nat, dump: bool, byTracer: bool)
    | DoReply(c: nat)
    | DoWait(w: nat, pidarg: int, nohang: bool)
    | Attach(t: nat, c: nat)
    | Interrupt(w: nat)
    | NewGroup(w: nat)
    | StopTracee(c: nat)

  predicate Enabled(s: State, a: Action)
    requires Shape(s)
  {
    match a
    case DoFork(w, pid, _) => MayCall(s, w) && pid > 0
    case DoExit(c, _, byTracer) => MayExit(s, c, byTracer)
    case DoReply(c) => c < NR_PROCS && s.procs[c].inUse && s.procs[c].vfs != NoCall
    case DoWait(w, _, _) => MayCall(s, w)
    case Attach(t, c) => MayCall(s, t) && c < NR_PROCS && t != c && s.procs[c].inUse && !s.procs[c].exiting &&
                         s.procs[c].tracer == NO_TRACER
    case Interrupt(w) => w < NR_PROCS && s.procs[w].inUse && !s.procs[w].exiting
    case NewGroup(w) => MayCall(s, w)
    case StopTracee(c) => c < NR_PROCS && s.procs[c].inUse && !s.procs[c].exiting && s.procs[c].tracer != NO_TRACER
  }

  function Step(s: State, a: Action): (t: State)
    requires Shape(s) && s.next < NR_PROCS && Enabled(s, a)
    ensures Shape(t)
  {
    match a
    case DoFork(w, pid, vmOk) => Fork(s, w, pid, vmOk).0
    case DoExit(c, dump, byTracer) => ExitProc(s, c, dump, byTracer)
    case DoReply(c) => VfsReply(s, c)
    case DoWait(w, pidarg, nohang) => WaitPid(s, w, pidarg, nohang).0
    case Attach(t, c) => Put(s, c, s.procs[c].(tracer := t))
    case Interrupt(w) => Unwait(s, w)
    case NewGroup(w) => Put(s, w, s.procs[w].(procgrp := s.procs[w].pid))
    case StopTracee(c) => Put(s, c, s.procs[c].(traceStopped := true, stopSignals := s.procs[c].stopSignals + 1))
  }

  lemma LocalKeeps(s: State, c: nat, p: Proc)
    requires Inv(s) && c < NR_PROCS && s.procs[c].inUse && !s.procs[c].exiting
    requires Replaces(s, c, p) && SlotOk(p) && p.parent == s.procs[c].parent && p.vfs == s.procs[c].vfs
    requires p.tracer < NR_PROCS && p.tracer != c && (p.traceExit ==> p.tracer != NO_TRACER)
    requires p.tracer != NO_TRACER ==> s.procs[p.tracer].inUse && !s.procs[p.tracer].exiting
    ensures Inv(Put(s, c, p))
  {
    hide InvBut;
    LinksAt(s, NR_PROCS, NR_PROCS, NR_PROCS, c);
    SettledAt(s, NR_PROCS, NR_PROCS, NR_PROCS, c);
    Unsettle(s, NR_PROCS, NR_PROCS, c);
    PutKeeps(s, NR_PROCS, NR_PROCS, c, p);
    Settle(Put(s, c, p), NR_PROCS, NR_PROCS, c);
  }

  /** Every step of the process manager keeps the invariant. */
  lemma StepKeeps(s: State, a: Action)
    requires Inv(s) && Enabled(s, a)
    ensures Inv(Step(s, a))
  {
    hide ExitProc, VfsReply, Fork;
    match a
    case DoFork(w, pid, vmOk) => ForkKeeps(s, w, pid, vmOk);
    case DoExit(c, dump, byTracer) => ExitKeeps(s, c, dump, byTracer);
    case DoReply(c) => VfsReplyKeeps(s, c);
    case DoWait(w, pidarg, nohang) => ScanKeeps(s, w, PidArg(s.procs[w], pidarg), nohang, 0, 0);
    case Interrupt(w) => UnwaitKeeps(s, NR_PROCS, NR_PROCS, NR_PROCS, w);
    case _ => OutsideKeeps(s, a);
  }

  lemma OutsideKeeps(s: State, a: Action)
    requires Inv(s) && Enabled(s, a) && (a.Attach? || a.NewGroup? || a.StopTracee?)
    ensures Inv(Step(s, a))
  {
    hide InvBut;
    var c := if a.NewGroup? then a.w else a.c;
    LinksAt(s, NR_PROCS, NR_PROCS, NR_PROCS, c);
    SettledAt(s, NR_PROCS, NR_PROCS, NR_PROCS, c);
    InitAlive(s, NR_PROCS, NR_PROCS, NR_PROCS);
    LocalKeeps(s, c, Step(s, a).procs[c]);
  }

  /** `acts` can be taken one after the other from `s`. */
  ghost predicate Possible(s: State, acts: seq<Action>)
    requires Inv(s)
    decreases |acts|
  {
    acts == [] ||
    (Enabled(s, acts[0]) && (StepKeeps(s, acts[0]); Possible(Step(s, acts[0]), acts[1..])))
  }

  /** The state a run ends in, with the invariant that every step has kept. */
  ghost function Run(s: State, acts: seq<Action>): (t: State)
    requires Inv(s) && Possible(s, acts)
    ensures Inv(t)
    decreases |acts|
  {
    if acts == [] then s
    else
      StepKeeps(s, acts[0]);
      Run(Step(s, acts[0]), acts[1..])
  }

  /** In every run no panic is reached, procs_in_use is the number of slots in use, and every slot
      lives a proper life: freed exactly once for each exit, after its parent was told once and VFS
      replied once, and never left occupied once both have happened. ZOMBIE, TRACE_ZOMBIE and
      TOLD_PARENT exclude each other. */
  lemma RunIsSafe(s: State, acts: seq<Action>, i: nat)
    requires Inv(s) && Possible(s, acts) && i < NR_PROCS
    ensures var t := Run(s, acts);
            && !t.panicked && t.used == Count(t.procs)
            && LifeOf(t.log, i) != Broken && LifeOf(t.log, i) != Dying(true, true)
            && (LifeOf(t.log, i) == Vacant <==> !t.procs[i].inUse)
            && (LifeOf(t.log, i) == Alive <==> t.procs[i].inUse && !t.procs[i].exiting)
            && !(t.procs[i].zombie && t.procs[i].traceZombie)
            && !(t.procs[i].toldParent && (t.procs[i].zombie || t.procs[i].traceZombie))
  {
    SettledAt(Run(s, acts), NR_PROCS, NR_PROCS, NR_PROCS, i);
  }

  /** In every run the parent of an occupied slot is there and not exiting, and so is its tracer. */
  lemma RunKeepsKin(s: State, acts: seq<Action>, i: nat)
    requires Inv(s) && Possible(s, acts) && i < NR_PROCS
    ensures var t := Run(s, acts);
            t.procs[i].inUse ==>
              && t.procs[t.procs[i].parent].inUse && !t.procs[t.procs[i].parent].exiting
              && (t.procs[i].tracer == NO_TRACER ||
                  (t.procs[t.procs[i].tracer].inUse && !t.procs[t.procs[i].tracer].exiting))
  {
    LinksAt(Run(s, acts), NR_PROCS, NR_PROCS, NR_PROCS, i);
  }

  const NOBODY := Proc(false, false, false, false, false, false, false, false, false, false, 0, NoCall, 0, 0, 0, 0, 0, 0, 0)

  /** A table that holds the process manager itself and INIT. */
  function Boot(): State {
    State(seq(NR_PROCS, i => if i == INIT then NOBODY.(inUse := true, pid := 1, procgrp := 1, parent := INIT)
                             else if i == PM then NOBODY.(inUse := true, privProc := true, pid := 2, parent := INIT)
                             else NOBODY),
          2, 0, false, [Created(PM), Created(INIT)])
  }

  lemma BootInv()
    ensures Inv(Boot())
  {
    var s := Boot();
    BootCount(s.procs, NR_PROCS);
    assert s.procs[..NR_PROCS] == s.procs;
    forall i: nat | i < NR_PROCS ensures LinksOk(s, i, NR_PROCS, NR_PROCS) && Settled(s, i) {
      BootLife(i);
    }
  }

  lemma BootLife(i: nat)
    ensures LifeOf([Created(PM), Created(INIT)], i) == if i == PM || i == INIT then Alive else Vacant
  {
    var s := Boot().(log := []);
    EmitLife(s, Created(PM), i);
    EmitLife(Emit(s, Created(PM)), Created(INIT), i);
    assert [] + [Created(PM)] + [Created(INIT)] == [Created(PM), Created(INIT)];
  }

  lemma {:induction false} BootCount(procs: seq<Proc>, n: nat)
    requires n <= |procs| == NR_PROCS && forall i :: 0 <= i < NR_PROCS ==> (procs[i].inUse <==> i == INIT || i == PM)
    ensures Count(procs[..n]) == (if n > INIT then 1 else 0) + (if n > PM then 1 else 0)
  {
    if n > 0 {
      BootCount(procs, n - 1);
      assert procs[..n][..n - 1] == procs[..n - 1];
    }
  }
}
