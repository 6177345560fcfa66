/** Lost wake-ups: when a process can sleep in waitpid beside a child it could collect. */
module ProcWakeups {
  import opened ProcTable
  import opened ProcSafety
  import opened ProcRuns

  /** Process `w` sleeps in waitpid while `c`, which do_waitpid would take for it, is there to be
      collected. */
  predicate Lost(t: State, w: nat, c: nat)
    requires Shape(t) && w < NR_PROCS && c < NR_PROCS
  {
    && t.procs[w].inUse && t.procs[w].waiting && t.procs[c].inUse && Qualifies(t.procs[w].wpid, t.procs[c])
    && ((t.procs[c].parent == w && t.procs[c].zombie) || (t.procs[c].tracer == w && t.procs[c].traceZombie))
  }

  /** In every run a wake-up is lost only on a caller that waits with pid argument zero, and only for
      a child that has a process group. */
  lemma RunLosesNoWakeup(s: State, acts: seq<Action>, w: nat, c: nat)
    requires Inv(s) && Possible(s, acts) && w < NR_PROCS && c < NR_PROCS
    ensures var t := Run(s, acts); Lost(t, w, c) ==> t.procs[w].wpid == 0 && t.procs[c].procgrp != 0
  {
    hide InvBut, LifeOf, View;
    var t := Run(s, acts);
    SettledAt(t, NR_PROCS, NR_PROCS, NR_PROCS, c);
    if t.procs[w].waiting && t.procs[c].inUse {
      FiltersAgree(t.procs[w], t.procs[c]);
    }
  }

  // ---------- groups along a run ----------

  lemma InvShape(s: State)
    requires Inv(s)
    ensures Shape(s) && s.next < NR_PROCS
  {
  }

  /** Every process that makes calls has a group, and nobody waits with pid argument zero. */
  ghost predicate Grouped(s: State)
    requires Shape(s)
  {
    && (forall i :: 0 < i < NR_PROCS && s.procs[i].inUse ==> s.procs[i].procgrp > 0)
    && (forall i :: 0 <= i < NR_PROCS && s.procs[i].waiting ==> s.procs[i].wpid != 0)
  }

  /** Groups and pid arguments stay, and nobody new appears or starts to wait. */
  ghost predicate KeepsGroups(s: State, t: State) {
    && Shape(s) && Shape(t)
    && forall i :: 0 <= i < NR_PROCS ==>
         && t.procs[i].procgrp == s.procs[i].procgrp && t.procs[i].wpid == s.procs[i].wpid
         && (t.procs[i].waiting ==> s.procs[i].waiting) && (t.procs[i].inUse ==> s.procs[i].inUse)
  }

  lemma GroupsTrans(s: State, t: State, u: State)
    requires KeepsGroups(s, t) && KeepsGroups(t, u)
    ensures KeepsGroups(s, u)
  {
  }

  /** A new record for slot `c` that keeps what KeepsGroups is about. */
  predicate SameGroup(o: Proc, p: Proc) {
    && p.procgrp == o.procgrp && p.wpid == o.wpid && (p.waiting ==> o.waiting) && (p.inUse ==> o.inUse)
    && p.parent < NR_PROCS && p.tracer < NR_PROCS
  }

  lemma PutGroups(s: State, t: State, c: nat)
    requires Shape(s) && c < NR_PROCS && |t.procs| == NR_PROCS
    requires t.procs == s.procs[c := t.procs[c]] && SameGroup(s.procs[c], t.procs[c])
    ensures KeepsGroups(s, t)
  {
  }

  lemma TellGroups(s: State, c: nat)
    requires Shape(s) && c < NR_PROCS
    ensures KeepsGroups(s, TellParent(s, c)) && KeepsGroups(s, TellTracer(s, c))
  {
    hide KeepsGroups;
    PutGroups(s, Panic(s), c);
    var q := s.procs[c];
    UnwaitThenPut(s, q.parent, c, TellParent(s, c).procs[c], TellParent(s, c));
    UnwaitThenPut(s, q.tracer, c, TellTracer(s, c).procs[c], TellTracer(s, c));
  }

  lemma UnwaitThenPut(s: State, w: nat, c: nat, p: Proc, t: State)
    requires Shape(s) && c < NR_PROCS && w < NR_PROCS && |t.procs| == NR_PROCS && t.procs[c] == p
    requires t.procs == s.procs || (t.procs == Unwait(s, w).procs[c := p] && SameGroup(s.procs[c], p))
    ensures KeepsGroups(s, t)
  {
  }

  lemma CheckParentGroups(s: State, c: nat, tryCleanup: bool)
    requires Shape(s) && c < NR_PROCS
    ensures KeepsGroups(s, CheckParent(s, c, tryCleanup))
  {
    PutGroups(s, s, c);
    TellGroups(s, c);
    var s1 := TellParent(s, c);
    hide TellParent, TellTracer, KeepsGroups;
    PutGroups(s1, Cleanup(s1, c), c);
    GroupsTrans(s, s1, Cleanup(s1, c));
  }

  lemma ZombifyGroups(s: State, c: nat)
    requires Shape(s) && c < NR_PROCS
    ensures KeepsGroups(s, Zombify(s, c))
  {
    hide TellParent, TellTracer, KeepsGroups, CheckParent;
    PutGroups(s, Panic(s), c);
    var p := s.procs[c];
    var t, u := Put(s, c, p.(traceZombie := true)), Put(s, c, p.(zombie := true));
    PutGroups(s, t, c);
    TellGroups(t, c);
    var t1 := TellTracer(t, c);
    GroupsTrans(s, t, t1);
    CheckParentGroups(t1, c, false);
    GroupsTrans(s, t1, CheckParent(t1, c, false));
    PutGroups(s, u, c);
    CheckParentGroups(u, c, false);
    GroupsTrans(s, u, CheckParent(u, c, false));
  }

  lemma TracerDiedGroups(s: State, c: nat)
    requires Shape(s) && c < NR_PROCS
    ensures KeepsGroups(s, TracerDied(s, c))
  {
    hide KeepsGroups, CheckParent;
    var p := s.procs[c].(tracer := NO_TRACER, traceExit := false);
    var t, u := Put(s, c, p), Put(s, c, p.(traceZombie := false, zombie := true));
    PutGroups(s, t, c);
    PutGroups(s, u, c);
    CheckParentGroups(u, c, true);
    GroupsTrans(s, u, CheckParent(u, c, true));
  }

  lemma DisinheritOneGroups(s: State, x: nat, i: nat)
    requires Shape(s) && i < NR_PROCS
    ensures KeepsGroups(s, DisinheritOne(s, x, i))
  {
    hide KeepsGroups, CheckParent, TracerDied;
    PutGroups(s, s, i);
    TracerDiedGroups(s, i);
    var s1 := if s.procs[i].tracer == x then TracerDied(s, i) else s;
    var s2 := Put(s1, i, s1.procs[i].(parent := INIT));
    PutGroups(s1, s2, i);
    GroupsTrans(s, s1, s2);
    CheckParentGroups(s2, i, true);
    GroupsTrans(s, s2, CheckParent(s2, i, true));
  }

  lemma {:induction false} DisinheritGroups(s: State, x: nat, i: nat)
    requires Shape(s) && i <= NR_PROCS
    ensures KeepsGroups(s, Disinherit(s, x, i))
    decreases NR_PROCS - i
  {
    hide DisinheritOne, KeepsGroups;
    if i < NR_PROCS {
      var t := DisinheritOne(s, x, i);
      DisinheritOneGroups(s, x, i);
      DisinheritGroups(t, x, i + 1);
      GroupsTrans(s, t, Disinherit(t, x, i + 1));
    } else {
      PutGroups(s, s, 0);
    }
  }

  lemma ExitGroups(s: State, c: nat, dump: bool, byTracer: bool)
    requires Shape(s) && c < NR_PROCS
    ensures KeepsGroups(s, ExitProc(s, c, dump, byTracer))
  {
    hide Zombify, Disinherit, KeepsGroups;
    PutGroups(s, s, c);
    var s1 := Emit(Put(s, c, Leaving(s.procs[c], dump, byTracer)), Exited(c));
    PutGroups(s, s1, c);
    ZombifyGroups(s1, c);
    GroupsTrans(s, s1, Zombify(s1, c));
    var s2 := if DumpsCore(s.procs[c], dump) then s1 else Zombify(s1, c);
    DisinheritGroups(s2, c, 0);
    GroupsTrans(s, s2, Disinherit(s2, c, 0));
  }

  lemma ReplyGroups(s: State, c: nat)
    requires Shape(s) && c < NR_PROCS
    ensures KeepsGroups(s, VfsReply(s, c))
  {
    hide Zombify, KeepsGroups;
    var t := Put(s, c, s.procs[c].(vfs := NoCall));
    var s1 := Emit(t, Replied(c));
    PutGroups(s, t, c);
    PutGroups(s, s1, c);
    ZombifyGroups(s1, c);
    GroupsTrans(s, s1, Zombify(s1, c));
    PutGroups(s1, Cleanup(s1, c), c);
    GroupsTrans(s, s1, Cleanup(s1, c));
    var s2 := Zombify(s1, c);
    PutGroups(s2, Cleanup(s2, c), c);
    GroupsTrans(s, s2, Cleanup(s2, c));
  }

  lemma WaitOnGroups(s: State, c: nat, a: WaitAction)
    requires Shape(s) && c < NR_PROCS
    ensures KeepsGroups(s, WaitOn(s, c, a))
  {
    hide CheckParent, TellParent, TellTracer, KeepsGroups;
    TellGroups(s, c);
    match a
    case Traced =>
      CheckParentGroups(TellTracer(s, c), c, true);
      GroupsTrans(s, TellTracer(s, c), CheckParent(TellTracer(s, c), c, true));
    case Collect =>
      var s1 := TellParent(s, c);
      PutGroups(s1, Cleanup(s1, c), c);
      GroupsTrans(s, s1, Cleanup(s1, c));
    case _ => PutGroups(s, WaitOn(s, c, a), c);
  }

  lemma WaitGrouped(s: State, w: nat, pidarg: int, nohang: bool)
    requires Shape(s) && 0 < w < NR_PROCS && s.procs[w].inUse && Grouped(s)
    ensures Grouped(WaitPid(s, w, pidarg, nohang).0)
  {
    hide WaitOn, Scan, ActionOn, Acceptable;
    var hit := ScanMeaning(s, w, PidArg(s.procs[w], pidarg), nohang, 0, 0);
    if hit < NR_PROCS {
      WaitOnGroups(s, hit, ActionOn(s.procs[hit], w));
    }
  }

  /** Every step keeps groups positive and pid arguments nonzero. */
  lemma StepGrouped(s: State, a: Action)
    requires Inv(s) && Enabled(s, a) && Grouped(s)
    ensures Grouped(Step(s, a))
  {
    hide InvBut, ExitProc, VfsReply, WaitPid, Search;
    InvShape(s);
    match a
    case DoExit(c, dump, byTracer) => ExitGroups(s, c, dump, byTracer);
    case DoReply(c) => ReplyGroups(s, c);
    case DoWait(w, pidarg, nohang) => WaitGrouped(s, w, pidarg, nohang);
    case NewGroup(w) => SettledAt(s, NR_PROCS, NR_PROCS, NR_PROCS, w);
    case _ =>
  }

  lemma {:induction false} RunGrouped(s: State, acts: seq<Action>)
    requires Inv(s) && Possible(s, acts) && Grouped(s)
    ensures Grouped(Run(s, acts))
    decreases |acts|
  {
    hide InvBut, Grouped;
    if acts != [] {
      InvShape(s);
      StepKeeps(s, acts[0]);
      StepGrouped(s, acts[0]);
      RunGrouped(Step(s, acts[0]), acts[1..]);
    }
  }

  /** From a table where every process has a group no wake-up is ever lost, whatever pid argument is
      given to waitpid. */
  lemma GroupedLosesNoWakeup(s: State, acts: seq<Action>, w: nat, c: nat)
    requires Inv(s) && Grouped(s) && Possible(s, acts) && w < NR_PROCS && c < NR_PROCS
    ensures !Lost(Run(s, acts), w, c)
  {
    hide InvBut;
    RunGrouped(s, acts);
    RunLosesNoWakeup(s, acts, w, c);
  }

  // ---------- a run that loses one ----------

  lemma {:induction false} DisinheritNothing(s: State, x: nat, i: nat)
    requires Shape(s) && i <= NR_PROCS
    requires forall k :: 0 <= k < NR_PROCS && s.procs[k].inUse ==> s.procs[k].parent != x && s.procs[k].tracer != x
    ensures Disinherit(s, x, i) == s
    decreases NR_PROCS - i
  {
    if i < NR_PROCS {
      DisinheritNothing(s, x, i + 1);
    }
  }

  /** Whoever waits with a zero pid argument sleeps on when a child that has a group exits. */
  lemma ZeroArgumentLosesWakeup(s: State, w: nat, c: nat)
    requires Inv(s) && MayExit(s, c, false) && c != INIT && w < NR_PROCS && s.procs[w].waiting && s.procs[w].wpid == 0
    requires s.procs[c].parent == w && s.procs[c].tracer == NO_TRACER && s.procs[c].procgrp != 0
    requires forall k :: 0 <= k < NR_PROCS && s.procs[k].inUse ==> s.procs[k].parent != c && s.procs[k].tracer != c
    ensures Lost(Step(s, DoExit(c, false, false)), w, c)
  {
    hide InvBut, LifeOf, Disinherit;
    SettledAt(s, NR_PROCS, NR_PROCS, NR_PROCS, c);
    SettledAt(s, NR_PROCS, NR_PROCS, NR_PROCS, w);
    LinksAt(s, NR_PROCS, NR_PROCS, NR_PROCS, c);
    var s1 := Emit(Put(s, c, Leaving(s.procs[c], false, false)), Exited(c));
    var s2 := Zombify(s1, c);
    assert s2 == Put(s1, c, s1.procs[c].(zombie := true));
    DisinheritNothing(s2, c, 0);
  }

  /** Nobody is on the way out, waiting, traced or in a call, and there is room for one more child. */
  ghost predicate Calm(s: State) {
    && Inv(s)
    && (forall i :: 0 <= i < NR_PROCS && s.procs[i].inUse ==>
          !s.procs[i].exiting && !s.procs[i].waiting && s.procs[i].vfs == NoCall && s.procs[i].tracer == NO_TRACER)
    && (forall i :: 0 < i < NR_PROCS && s.procs[i].inUse ==> !TableFull(s, i))
  }

  /** Process `w`, of no group, has a child `k` of some group, and nobody has anything to collect. */
  ghost predicate AboutToLose(s: State, w: nat, k: nat) {
    && Inv(s) && MayCall(s, w) && s.procs[w].procgrp == 0
    && MayExit(s, k, false) && k != INIT && k != w && s.procs[k].parent == w && s.procs[k].procgrp != 0
    && forall i :: 0 <= i < NR_PROCS && s.procs[i].inUse ==>
         !s.procs[i].exiting && s.procs[i].tracer == NO_TRACER && s.procs[i].parent != k
  }

  /** It waits for its own group and is still asleep when the child is a zombie. */
  lemma WaitAndExit(s: State, w: nat, k: nat)
    requires AboutToLose(s, w, k)
    ensures Enabled(s, DoWait(w, 0, false))
    ensures var t := Step(s, DoWait(w, 0, false));
            Inv(t) && Enabled(t, DoExit(k, false, false)) && Lost(Step(t, DoExit(k, false, false)), w, k)
  {
    hide InvBut, Scan, LifeOf;
    InvShape(s);
    var a := DoWait(w, 0, false);
    StepKeeps(s, a);
    NothingToCollect(s, w, k);
    var hit := ScanMeaning(s, w, 0, false, 0, 0);
    var t := Step(s, a);
    assert t == Put(s, w, s.procs[w].(waiting := true, wpid := 0));
    hide Step;
    ZeroArgumentLosesWakeup(t, w, k);
  }

  lemma NothingToCollect(s: State, w: nat, k: nat)
    requires AboutToLose(s, w, k)
    ensures forall c :: 0 <= c < NR_PROCS ==> PassedOver(s, w, 0, c)
    ensures Acceptable(s.procs[k], w, 0)
  {
    hide InvBut, LifeOf;
    forall c | 0 <= c < NR_PROCS ensures PassedOver(s, w, 0, c) {
      SettledAt(s, NR_PROCS, NR_PROCS, NR_PROCS, c);
    }
    SettledAt(s, NR_PROCS, NR_PROCS, NR_PROCS, k);
  }

  /** Child `k` of `w` has just been forked into a calm table. */
  ghost predicate JustForked(s: State, w: nat, k: nat) {
    && Inv(s) && MayCall(s, w) && s.procs[w].procgrp == 0
    && 0 < k < NR_PROCS && k != INIT && k != w && s.procs[k].inUse && s.procs[k].parent == w
    && s.procs[k].vfs == OtherCall && !s.procs[k].waiting
    && forall i :: 0 <= i < NR_PROCS && s.procs[i].inUse ==>
         !s.procs[i].exiting && s.procs[i].tracer == NO_TRACER && s.procs[i].parent != k
  }

  lemma ForkIntoCalm(s: State, w: nat, pid: int) returns (k: nat)
    requires Calm(s) && 0 < w < NR_PROCS && s.procs[w].inUse && s.procs[w].procgrp == 0 && pid > 0
    ensures Enabled(s, DoFork(w, pid, true)) && JustForked(Step(s, DoFork(w, pid, true)), w, k)
  {
    ForkMakesChild(s, w, pid);
    k := Fork(s, w, pid, true).1.slot;
    ForkKeeps(s, w, pid, true);
    forall i | 0 <= i < NR_PROCS && s.procs[i].inUse ensures s.procs[i].parent != k {
      FreeSlotHasNoKin(s, k, i);
    }
    hide Fork, InvBut, Search;
  }

  /** A process without a group forks a child that starts a group of its own. */
  lemma ForkAndLead(s: State, w: nat, pid: int) returns (k: nat)
    requires Calm(s) && 0 < w < NR_PROCS && s.procs[w].inUse && s.procs[w].procgrp == 0 && pid > 0
    ensures Enabled(s, DoFork(w, pid, true))
    ensures var s1 := Step(s, DoFork(w, pid, true));
            Inv(s1) && Enabled(s1, DoReply(k)) &&
            var s2 := Step(s1, DoReply(k));
            Inv(s2) && Enabled(s2, NewGroup(k)) && AboutToLose(Step(s2, NewGroup(k)), w, k)
  {
    k := ForkIntoCalm(s, w, pid);
    Lead(Step(s, DoFork(w, pid, true)), w, k);
    hide Step, Enabled, InvBut, AboutToLose;
  }

  lemma Lead(s: State, w: nat, k: nat)
    requires JustForked(s, w, k)
    ensures Enabled(s, DoReply(k))
    ensures var t := Step(s, DoReply(k)); Inv(t) && Enabled(t, NewGroup(k)) && AboutToLose(Step(t, NewGroup(k)), w, k)
  {
    hide InvBut, LifeOf;
    InvShape(s);
    StepKeeps(s, DoReply(k));
    var t := Put(s, k, s.procs[k].(vfs := NoCall));
    assert Step(s, DoReply(k)) == t;
    StepKeeps(t, NewGroup(k));
    SettledAt(t, NR_PROCS, NR_PROCS, NR_PROCS, k);
    assert Step(t, NewGroup(k)) == Put(t, k, t.procs[k].(procgrp := t.procs[k].pid));
  }

  lemma RunCons(s: State, a: Action, acts: seq<Action>)
    requires Inv(s) && Enabled(s, a) && Inv(Step(s, a)) && Possible(Step(s, a), acts)
    ensures Possible(s, [a] + acts) && Run(s, [a] + acts) == Run(Step(s, a), acts)
  {
    assert ([a] + acts)[1..] == acts;
  }

  /** Fork, group of its own for the child, wait for the caller's group, exit of the child: the caller
      sleeps on beside its zombie. */
  lemma LosingRun(s: State, w: nat, pid: int) returns (acts: seq<Action>, k: nat)
    requires Calm(s) && 0 < w < NR_PROCS && s.procs[w].inUse && s.procs[w].procgrp == 0 && pid > 0
    ensures k < NR_PROCS && acts == [DoFork(w, pid, true), DoReply(k), NewGroup(k), DoWait(w, 0, false), DoExit(k, false, false)]
    ensures Possible(s, acts) && Lost(Run(s, acts), w, k)
  {
    hide Step, Enabled, InvBut, Lost;
    k := ForkAndLead(s, w, pid);
    InvShape(s);
    var s1 := Step(s, DoFork(w, pid, true));
    InvShape(s1);
    var s2 := Step(s1, DoReply(k));
    InvShape(s2);
    var s3 := Step(s2, NewGroup(k));
    InvShape(s3);
    WaitAndExit(s3, w, k);
    var s4 := Step(s3, DoWait(w, 0, false));
    InvShape(s4);
    StepKeeps(s4, DoExit(k, false, false));
    var s5 := Step(s4, DoExit(k, false, false));
    assert Possible(s5, []) && Run(s5, []) == s5;
    RunCons(s4, DoExit(k, false, false), []);
    RunCons(s3, DoWait(w, 0, false), [DoExit(k, false, false)]);
    RunCons(s2, NewGroup(k), [DoWait(w, 0, false), DoExit(k, false, false)]);
    RunCons(s1, DoReply(k), [NewGroup(k), DoWait(w, 0, false), DoExit(k, false, false)]);
    acts := [DoReply(k), NewGroup(k), DoWait(w, 0, false), DoExit(k, false, false)];
    RunCons(s, DoFork(w, pid, true), acts);
    acts := [DoFork(w, pid, true)] + acts;
  }

  ghost predicate NeverLoses(s: State)
    requires Inv(s)
  {
    forall acts, w: nat, c: nat :: Possible(s, acts) && w < NR_PROCS && c < NR_PROCS ==> !Lost(Run(s, acts), w, c)
  }

  /** From a calm table no run ever loses a wake-up, whatever is passed to waitpid, if and only if
      every process that makes calls has a group. */
  lemma WakeupsExactly(s: State)
    requires Calm(s)
    ensures NeverLoses(s) <==> forall i :: 0 < i < NR_PROCS && s.procs[i].inUse ==> s.procs[i].procgrp > 0
  {
    hide Step, Enabled, Lost, Run, Possible;
    if i :| 0 < i < NR_PROCS && s.procs[i].inUse && s.procs[i].procgrp <= 0 {
      SettledAt(s, NR_PROCS, NR_PROCS, NR_PROCS, i);
      var acts, k := LosingRun(s, i, 1);
      assert Lost(Run(s, acts), i, k);
    } else {
      CalmGrouped(s);
      forall acts, w: nat, c: nat | Possible(s, acts) && w < NR_PROCS && c < NR_PROCS ensures !Lost(Run(s, acts), w, c) {
        GroupedLosesNoWakeup(s, acts, w, c);
      }
    }
  }

  lemma CalmGrouped(s: State)
    requires Calm(s) && forall i :: 0 < i < NR_PROCS && s.procs[i].inUse ==> s.procs[i].procgrp > 0
    ensures Grouped(s)
  {
    forall i | 0 <= i < NR_PROCS ensures !s.procs[i].waiting {
      SettledAt(s, NR_PROCS, NR_PROCS, NR_PROCS, i);
    }
  }

  // ---------- two tables to start from ----------

  /** With INIT alone at the start, no wake-up is ever lost. */
  lemma BootLosesNothing()
    ensures Inv(Boot()) && NeverLoses(Boot())
  {
    hide InvBut, Possible, Run, Lost;
    BootInv();
    assert Calm(Boot());
    WakeupsExactly(Boot());
  }

  const SYSTEM: nat := if INIT == 1 then 2 else 1

  /** INIT and a system process that has no process group. */
  function BootWithSystem(): State {
    var s := Emit(Boot(), Created(SYSTEM));
    s.(procs := s.procs[SYSTEM := NOBODY.(inUse := true, privProc := true, pid := 3, parent := INIT)], used := 3)
  }

  lemma BootWithSystemInv()
    ensures Inv(BootWithSystem())
  {
    BootInv();
    var b, s := Boot(), BootWithSystem();
    CountUpdate(b.procs, SYSTEM, s.procs[SYSTEM]);
    forall i: nat | i < NR_PROCS ensures LinksOk(s, i, NR_PROCS, NR_PROCS) && Settled(s, i) {
      BootWithSystemAt(i);
    }
    hide Settled, LinksOk;
  }

  lemma BootWithSystemAt(i: nat)
    requires i < NR_PROCS
    ensures var s := BootWithSystem(); Shape(s) && LinksOk(s, i, NR_PROCS, NR_PROCS) && Settled(s, i)
  {
    BootInv();
    SettledAt(Boot(), NR_PROCS, NR_PROCS, NR_PROCS, i);
    EmitLife(Boot(), Created(SYSTEM), i);
    hide InvBut, LifeOf;
  }

  /** With such a process beside it, one can be. */
  lemma BootWithSystemLoses() returns (acts: seq<Action>, k: nat)
    ensures Inv(BootWithSystem()) && k < NR_PROCS && Possible(BootWithSystem(), acts)
    ensures Lost(Run(BootWithSystem(), acts), SYSTEM, k)
  {
    hide *;
    BootWithSystemInv();
    BootWithSystemCalm();
    acts, k := LosingRun(BootWithSystem(), SYSTEM, 4);
  }

  lemma BootWithSystemCalm()
    ensures var s := BootWithSystem();
            Calm(s) && 0 < SYSTEM < NR_PROCS && s.procs[SYSTEM].inUse && s.procs[SYSTEM].procgrp == 0
  {
    hide InvBut;
    BootWithSystemInv();
  }
}
