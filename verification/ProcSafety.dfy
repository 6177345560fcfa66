/** What every handler of the process manager keeps. */
module ProcSafety {
  import opened ProcTable

  // ---------- the life of a slot, as the outside world sees it ----------

  /** A slot is vacant, alive, or on its way out; an exited process is freed once its parent has
      been told and VFS has replied, each exactly once. Any other order breaks the life. */
  datatype Life = Vacant | Alive | Dying(told: bool, replied: bool) | Broken

  function Next(l: Life, e: Event): Life {
    match (l, e)
    case (Vacant, Created(_)) => Alive
    case (Alive, Exited(_)) => Dying(false, false)
    case (Dying(false, r), Told(_, _)) => Dying(true, r)
    case (_, TracerTold(_, _)) => l
    case (Dying(t, false), Replied(_)) => Dying(t, true)
    case (Dying(true, true), Freed(_)) => Vacant
    case _ => Broken
  }

  function LifeOf(log: seq<Event>, i: nat): Life {
    if log == [] then Vacant
    else
      var l := LifeOf(log[..|log| - 1], i);
      if log[|log| - 1].i == i then Next(l, log[|log| - 1]) else l
  }

  lemma EmitLife(s: State, e: Event, i: nat)
    ensures LifeOf(Emit(s, e).log, i) == if e.i == i then Next(LifeOf(s.log, i), e) else LifeOf(s.log, i)
  {
    assert (s.log + [e])[..|s.log|] == s.log;
  }

  /** The life a slot's flags stand for. */
  function View(p: Proc): Life {
    if !p.inUse then Vacant
    else if !p.exiting then Alive
    else Dying(p.toldParent, p.vfs == NoCall)
  }

  // ---------- counting ----------

  function Count(procs: seq<Proc>): nat {
    if procs == [] then 0
    else Count(procs[..|procs| - 1]) + if procs[|procs| - 1].inUse then 1 else 0
  }

  lemma {:induction false} CountUpdate(procs: seq<Proc>, i: nat, p: Proc)
    requires i < |procs|
    ensures Count(procs[i := p]) ==
            Count(procs) - (if procs[i].inUse then 1 else 0) + (if p.inUse then 1 else 0)
  {
    var n := |procs| - 1;
    if i < n {
      CountUpdate(procs[..n], i, p);
      assert procs[i := p][..n] == procs[..n][i := p];
    } else {
      assert procs[i := p][..n] == procs[..n];
    }
  }

  lemma {:induction false} CountAll(procs: seq<Proc>)
    ensures Count(procs) <= |procs|
    ensures Count(procs) == |procs| <==> forall i :: 0 <= i < |procs| ==> procs[i].inUse
  {
    if procs != [] {
      CountAll(procs[..|procs| - 1]);
    }
  }

  lemma {:induction false} CountPositive(procs: seq<Proc>, i: nat)
    requires i < |procs| && procs[i].inUse
    ensures Count(procs) > 0
  {
    if i < |procs| - 1 {
      CountPositive(procs[..|procs| - 1], i);
    }
  }

  // ---------- the invariant ----------

  function Bit(b: bool): nat {
    if b then 1 else 0
  }

  /** Flags of one slot that may stand together between handlers. */
  predicate SlotOk(p: Proc) {
    && (!p.inUse ==> !p.exiting && !p.zombie && !p.traceZombie && !p.toldParent && !p.waiting && p.vfs == NoCall)
    && (p.inUse ==> p.pid > 0 && p.procgrp >= 0)
    && (p.inUse && !p.exiting ==>
          !p.zombie && !p.traceZombie && !p.toldParent && p.vfs != ExitCall && p.vfs != CoreCall)
    && (p.exiting ==> DyingOk(p))
  }

  /** An exiting process waits for its core dump, or is a zombie to its tracer or to its parent, or
      its parent has been told and only VFS is still to reply. */
  predicate DyingOk(p: Proc) {
    && !p.waiting && p.vfs != OtherCall
    && Bit(p.zombie) + Bit(p.traceZombie) + Bit(p.toldParent) == (if p.vfs == CoreCall then 0 else 1)
    && (p.toldParent ==> p.vfs == ExitCall)
  }

  /** Slot `j` may serve as parent or tracer of slot `i`. While `x` is being disinherited, slots
      from `k` on may still hang on `x`. */
  predicate MayServe(s: State, j: nat, i: nat, x: nat, k: nat)
    requires |s.procs| == NR_PROCS
  {
    0 < j < NR_PROCS && s.procs[j].inUse && (s.procs[j].exiting ==> j == x && i >= k)
  }

  predicate LinksOk(s: State, i: nat, x: nat, k: nat)
    requires |s.procs| == NR_PROCS && i < NR_PROCS
  {
    var p := s.procs[i];
    p.inUse ==>
      && MayServe(s, p.parent, i, x, k) && (i != INIT ==> p.parent != i)
      && (p.tracer != NO_TRACER ==> MayServe(s, p.tracer, i, x, k) && p.tracer != i)
      && (p.traceZombie || p.traceExit ==> p.tracer != NO_TRACER)
  }

  /** Neither the parent of zombie `i` nor the tracer of trace zombie `i` is waiting for it. */
  predicate WakeOk(s: State, i: nat)
    requires Shape(s) && i < NR_PROCS
  {
    var p := s.procs[i];
    p.inUse ==>
      && (p.zombie ==> !WaitTest(s.procs[p.parent], p))
      && (p.traceZombie ==> !WaitTest(s.procs[p.tracer], p))
  }

  /** Slot `i` is as it should be between handlers. */
  ghost predicate Settled(s: State, i: nat)
    requires Shape(s) && i < NR_PROCS
  {
    SlotOk(s.procs[i]) && WakeOk(s, i) && LifeOf(s.log, i) == View(s.procs[i])
  }

  /** The invariant, with the links of slots from `k` on to `x` excused, and with the flags of slot
      `c` left open. */
  ghost predicate InvBut(s: State, x: nat, k: nat, c: nat) {
    && Shape(s) && !s.panicked && s.next < NR_PROCS && s.used == Count(s.procs)
    && s.procs[INIT].inUse && !s.procs[INIT].exiting && s.procs[PM].inUse && !s.procs[PM].exiting
    && (forall i :: 0 <= i < NR_PROCS ==> LinksOk(s, i, x, k))
    && (forall i :: 0 <= i < NR_PROCS && i != c ==> Settled(s, i))
  }

  ghost predicate Inv(s: State) {
    InvBut(s, NR_PROCS, NR_PROCS, NR_PROCS)
  }

  ghost predicate InvFrom(s: State, x: nat, k: nat) {
    InvBut(s, x, k, NR_PROCS)
  }

  lemma LinksAt(s: State, x: nat, k: nat, c: nat, i: nat)
    requires InvBut(s, x, k, c) && i < NR_PROCS
    ensures Shape(s) && LinksOk(s, i, x, k)
  {
  }

  lemma SettledAt(s: State, x: nat, k: nat, c: nat, i: nat)
    requires InvBut(s, x, k, c) && i < NR_PROCS && i != c
    ensures Shape(s) && Settled(s, i)
  {
  }

  // ---------- moves that keep the invariant away from slot c ----------

  /** Replacing the record of `c` by one just as occupied, just as dead and no more waiting. */
  predicate Replaces(s: State, c: nat, p: Proc)
    requires InTable(s, c)
  {
    var o := s.procs[c];
    && p.inUse == o.inUse && p.exiting == o.exiting && p.wpid == o.wpid
    && (p.waiting ==> o.waiting)
  }

  lemma PutKeeps(s: State, x: nat, k: nat, c: nat, p: Proc)
    requires InvBut(s, x, k, c) && c < NR_PROCS && Replaces(s, c, p)
    requires p.parent < NR_PROCS && p.tracer < NR_PROCS && LinksOk(Put(s, c, p), c, x, k)
    ensures InvBut(Put(s, c, p), x, k, c)
  {
    var t := Put(s, c, p);
    CountUpdate(s.procs, c, p);
    forall i: nat | i < NR_PROCS ensures LinksOk(t, i, x, k) {
      PutLinks(s, x, k, c, p, i);
    }
    forall i: nat | i < NR_PROCS && i != c ensures Settled(t, i) {
      PutSettled(s, x, k, c, p, i);
    }
    hide LinksOk, Settled;
  }

  lemma PutLinks(s: State, x: nat, k: nat, c: nat, p: Proc, i: nat)
    requires InvBut(s, x, k, c) && c < NR_PROCS && i < NR_PROCS && Replaces(s, c, p) && LinksOk(Put(s, c, p), c, x, k)
    ensures LinksOk(Put(s, c, p), i, x, k)
  {
    hide InvBut;
    LinksAt(s, x, k, c, i);
  }

  lemma PutSettled(s: State, x: nat, k: nat, c: nat, p: Proc, i: nat)
    requires InvBut(s, x, k, c) && c < NR_PROCS && i < NR_PROCS && i != c && Replaces(s, c, p)
    requires p.parent < NR_PROCS && p.tracer < NR_PROCS
    ensures Shape(Put(s, c, p)) && Settled(Put(s, c, p), i)
  {
    hide InvBut, LifeOf;
    SettledAt(s, x, k, c, i);
  }

  lemma UnwaitKeeps(s: State, x: nat, k: nat, c: nat, w: nat)
    requires InvBut(s, x, k, c) && w < NR_PROCS
    ensures InvBut(Unwait(s, w), x, k, c)
  {
    var t := Unwait(s, w);
    CountUpdate(s.procs, w, s.procs[w].(waiting := false));
    forall i: nat | i < NR_PROCS ensures LinksOk(t, i, x, k) {
      UnwaitLinks(s, x, k, c, w, i);
    }
    forall i: nat | i < NR_PROCS && i != c ensures Settled(t, i) {
      UnwaitSettled(s, x, k, c, w, i);
    }
  }

  lemma UnwaitLinks(s: State, x: nat, k: nat, c: nat, w: nat, i: nat)
    requires InvBut(s, x, k, c) && w < NR_PROCS && i < NR_PROCS
    ensures LinksOk(Unwait(s, w), i, x, k)
  {
    hide InvBut;
    LinksAt(s, x, k, c, i);
  }

  lemma UnwaitSettled(s: State, x: nat, k: nat, c: nat, w: nat, i: nat)
    requires InvBut(s, x, k, c) && w < NR_PROCS && i < NR_PROCS && i != c
    ensures Shape(Unwait(s, w)) && Settled(Unwait(s, w), i)
  {
    hide InvBut, LifeOf;
    SettledAt(s, x, k, c, i);
  }

  lemma EmitKeeps(s: State, x: nat, k: nat, c: nat, e: Event)
    requires InvBut(s, x, k, c) && e.i == c
    ensures InvBut(Emit(s, e), x, k, c)
  {
    var t := Emit(s, e);
    forall i: nat | i < NR_PROCS ensures LinksOk(t, i, x, k) {
      assert LinksOk(s, i, x, k);
    }
    forall i: nat | i < NR_PROCS && i != c ensures Settled(t, i) {
      assert Settled(s, i);
      EmitLife(s, e, i);
    }
  }

  lemma Settle(s: State, x: nat, k: nat, c: nat)
    requires InvBut(s, x, k, c) && c < NR_PROCS && Settled(s, c)
    ensures InvFrom(s, x, k)
  {
  }

  lemma Unsettle(s: State, x: nat, k: nat, c: nat)
    requires InvFrom(s, x, k) && c < NR_PROCS
    ensures InvBut(s, x, k, c) && Settled(s, c)
  {
  }

  // ---------- the handlers ----------

  /** The record of an exiting process whose notification is under way, and its life so far. */
  ghost predicate Leaves(s: State, c: nat) {
    && Shape(s) && c < NR_PROCS
    && var p := s.procs[c];
       && p.inUse && p.exiting && !p.waiting && (p.vfs == NoCall || p.vfs == ExitCall)
       && p.pid > 0 && p.procgrp >= 0 && LifeOf(s.log, c) == View(p)
  }

  lemma CleanupKeeps(s: State, x: nat, k: nat, c: nat)
    requires InvBut(s, x, k, c) && Leaves(s, c) && c != x
    requires s.procs[c].toldParent && s.procs[c].vfs == NoCall
    ensures InvFrom(Cleanup(s, c), x, k)
  {
    var p := ClearFlags(s.procs[c]).(pid := 0);
    var u := Put(s, c, p);
    var t := Cleanup(s, c);
    CountUpdate(s.procs, c, p);
    CountPositive(s.procs, c);
    forall i: nat | i < NR_PROCS ensures LinksOk(t, i, x, k) {
      CleanupLinks(s, x, k, c, i);
    }
    forall i: nat | i < NR_PROCS ensures Settled(t, i) {
      EmitLife(u.(used := t.used), Freed(c), i);
      if i != c {
        CleanupSettled(s, x, k, c, i);
      }
      hide WakeOk, LifeOf;
    }
    hide LinksOk, Settled;
  }

  lemma CleanupLinks(s: State, x: nat, k: nat, c: nat, i: nat)
    requires InvBut(s, x, k, c) && Leaves(s, c) && c != x && i < NR_PROCS
    ensures LinksOk(Cleanup(s, c), i, x, k)
  {
    hide InvBut, LifeOf, View;
    LinksAt(s, x, k, c, i);
  }

  lemma CleanupSettled(s: State, x: nat, k: nat, c: nat, i: nat)
    requires InvBut(s, x, k, c) && Leaves(s, c) && c != x && i < NR_PROCS && i != c
    ensures SlotOk(Cleanup(s, c).procs[i]) && WakeOk(Cleanup(s, c), i) && LifeOf(s.log, i) == View(s.procs[i])
  {
    hide InvBut, LifeOf, View;
    LinksAt(s, x, k, c, i);
    SettledAt(s, x, k, c, i);
  }

  lemma TellParentKeeps(s: State, x: nat, k: nat, c: nat)
    requires InvBut(s, x, k, c) && Leaves(s, c) && c != INIT
    requires s.procs[c].zombie && !s.procs[c].toldParent
    ensures InvBut(TellParent(s, c), x, k, c) && Leaves(TellParent(s, c), c)
    ensures TellParent(s, c).procs[c] == s.procs[c].(zombie := false, toldParent := true)
    ensures var w := s.procs[c].parent; !TellParent(s, c).procs[w].waiting && TellParent(s, c).log == s.log + [Told(c, w)]
  {
    hide InvBut;
    LinksAt(s, x, k, c, c);
    var w := s.procs[c].parent;
    var s1 := Unwait(s, w);
    UnwaitKeeps(s, x, k, c, w);
    LinksAt(s1, x, k, c, c);
    var p := s1.procs[c].(zombie := false, toldParent := true);
    PutKeeps(s1, x, k, c, p);
    EmitKeeps(Put(s1, c, p), x, k, c, Told(c, w));
    EmitLife(Put(s1, c, p), Told(c, w), c);
  }

  lemma TellTracerKeeps(s: State, x: nat, k: nat, c: nat)
    requires InvBut(s, x, k, c) && Leaves(s, c) && s.procs[c].traceZombie
    ensures InvBut(TellTracer(s, c), x, k, c) && Leaves(TellTracer(s, c), c)
    ensures TellTracer(s, c).procs[c] == s.procs[c].(traceZombie := false, zombie := true)
    ensures var w := s.procs[c].tracer; !TellTracer(s, c).procs[w].waiting && TellTracer(s, c).log == s.log + [TracerTold(c, w)]
  {
    hide InvBut;
    LinksAt(s, x, k, c, c);
    var w := s.procs[c].tracer;
    var s1 := Unwait(s, w);
    UnwaitKeeps(s, x, k, c, w);
    LinksAt(s1, x, k, c, c);
    var p := s1.procs[c].(traceZombie := false, zombie := true);
    PutKeeps(s1, x, k, c, p);
    EmitKeeps(Put(s1, c, p), x, k, c, TracerTold(c, w));
    EmitLife(Put(s1, c, p), TracerTold(c, w), c);
  }

  /** Slot `c` is finished with, or the parent has been told and nothing but freeing it is left. */
  ghost predicate Done(s: State, x: nat, k: nat, c: nat) {
    InvFrom(s, x, k) ||
    (InvBut(s, x, k, c) && Leaves(s, c) && s.procs[c].vfs == NoCall && s.procs[c].toldParent)
  }

  lemma CheckParentKeeps(s: State, x: nat, k: nat, c: nat, tryCleanup: bool)
    requires InvBut(s, x, k, c) && Leaves(s, c) && c != INIT && (tryCleanup ==> c != x)
    requires s.procs[c].zombie && !s.procs[c].traceZombie && !s.procs[c].toldParent
    ensures Done(CheckParent(s, c, tryCleanup), x, k, c)
    ensures tryCleanup || s.procs[c].vfs == ExitCall ==> InvFrom(CheckParent(s, c, tryCleanup), x, k)
  {
    hide InvBut, TellParent, Cleanup;
    LinksAt(s, x, k, c, c);
    var w := s.procs[c].parent;
    if !s.procs[w].exiting && WaitTest(s.procs[w], s.procs[c]) {
      var s1 := TellParent(s, c);
      TellParentKeeps(s, x, k, c);
      if s1.procs[c].vfs == NoCall {
        if tryCleanup {
          CleanupKeeps(s1, x, k, c);
        }
      } else {
        Settle(s1, x, k, c);
      }
    } else {
      SettledAt(s, x, k, c, w);
      Settle(s, x, k, c);
    }
  }

  lemma ZombifyKeeps(s: State, x: nat, k: nat, c: nat)
    requires InvBut(s, x, k, c) && Leaves(s, c) && c != INIT
    requires !s.procs[c].zombie && !s.procs[c].traceZombie && !s.procs[c].toldParent
    ensures Done(Zombify(s, c), x, k, c)
    ensures s.procs[c].vfs == ExitCall ==> InvFrom(Zombify(s, c), x, k)
  {
    hide InvBut;
    LinksAt(s, x, k, c, c);
    var p := s.procs[c];
    if p.tracer != NO_TRACER && p.tracer != p.parent {
      var s1 := Put(s, c, p.(traceZombie := true));
      PutKeeps(s, x, k, c, p.(traceZombie := true));
      if WaitTest(s1.procs[p.tracer], s1.procs[c]) {
        TellTracerKeeps(s1, x, k, c);
        CheckParentKeeps(TellTracer(s1, c), x, k, c, false);
      } else {
        Settle(s1, x, k, c);
      }
    } else {
      PutKeeps(s, x, k, c, p.(zombie := true));
      CheckParentKeeps(Put(s, c, p.(zombie := true)), x, k, c, false);
    }
  }

  // None of the notifications changes whether a slot is occupied, dead or in a VFS call; only
  // check_parent with try_cleanup frees the very slot it is about.
  predicate SameLife(s: State, t: State, i: nat)
    requires InTable(s, i) && InTable(t, i)
  {
    s.procs[i].inUse == t.procs[i].inUse && s.procs[i].exiting == t.procs[i].exiting &&
    s.procs[i].vfs == t.procs[i].vfs
  }

  lemma TellParentAt(s: State, c: nat, i: nat)
    requires Shape(s) && c < NR_PROCS && i < NR_PROCS
    ensures SameLife(s, TellParent(s, c), i)
  {
  }

  lemma TellTracerAt(s: State, c: nat, i: nat)
    requires Shape(s) && c < NR_PROCS && i < NR_PROCS
    ensures SameLife(s, TellTracer(s, c), i)
  {
  }

  lemma CheckParentAt(s: State, c: nat, tryCleanup: bool, i: nat)
    requires Shape(s) && c < NR_PROCS && i < NR_PROCS && (tryCleanup ==> i != c)
    ensures SameLife(s, CheckParent(s, c, tryCleanup), i)
  {
    TellParentAt(s, c, i);
    hide TellParent;
  }

  lemma ZombifyAt(s: State, c: nat, i: nat)
    requires Shape(s) && c < NR_PROCS && i < NR_PROCS
    ensures SameLife(s, Zombify(s, c), i)
  {
    hide CheckParent, TellTracer, WaitTest;
    var p := s.procs[c];
    var s1, s2 := Put(s, c, p.(traceZombie := true)), Put(s, c, p.(zombie := true));
    TellTracerAt(s1, c, i);
    CheckParentAt(TellTracer(s1, c), c, false, i);
    CheckParentAt(s2, c, false, i);
  }

  lemma TracerDiedAt(s: State, c: nat, i: nat)
    requires Shape(s) && c < NR_PROCS && i < NR_PROCS && i != c
    ensures SameLife(s, TracerDied(s, c), i)
  {
    hide CheckParent;
    var p := s.procs[c].(tracer := NO_TRACER, traceExit := false);
    CheckParentAt(Put(s, c, p.(traceZombie := false, zombie := true)), c, true, i);
  }

  /** check_parent leaves the links of every slot alone. */
  lemma CheckParentLinks(s: State, c: nat, tryCleanup: bool, i: nat)
    requires Shape(s) && c < NR_PROCS && i < NR_PROCS
    ensures CheckParent(s, c, tryCleanup).procs[i].parent == s.procs[i].parent
    ensures CheckParent(s, c, tryCleanup).procs[i].tracer == s.procs[i].tracer
  {
  }

  lemma TracerDiedKeeps(s: State, x: nat, k: nat, c: nat)
    requires InvFrom(s, x, k) && c < NR_PROCS && c != x && s.procs[c].inUse && s.procs[c].tracer == x != NO_TRACER
    ensures InvFrom(TracerDied(s, c), x, k)
    ensures TracerDied(s, c).procs[c].tracer == NO_TRACER
    ensures TracerDied(s, c).procs[c].parent == s.procs[c].parent
  {
    hide InvBut, CheckParent;
    LinksAt(s, x, k, NR_PROCS, c);
    Unsettle(s, x, k, c);
    var o := s.procs[c];
    var p := o.(tracer := NO_TRACER, traceExit := false);
    if p.exiting && p.traceZombie {
      PutKeeps(s, x, k, c, p.(traceZombie := false, zombie := true));
      InitAlive(s, x, k, c);
      CheckParentKeeps(Put(s, c, p.(traceZombie := false, zombie := true)), x, k, c, true);
      CheckParentLinks(Put(s, c, p.(traceZombie := false, zombie := true)), c, true, c);
    } else {
      PutKeeps(s, x, k, c, p);
      Settle(Put(s, c, p), x, k, c);
    }
  }

  lemma InitAlive(s: State, x: nat, k: nat, c: nat)
    requires InvBut(s, x, k, c)
    ensures Shape(s) && s.procs[INIT].inUse && !s.procs[INIT].exiting && s.next < NR_PROCS
  {
  }

  /** Exiting process `x` stays as it is while its children and tracees are taken from it. */
  ghost predicate StillLeaving(s: State, x: nat) {
    Shape(s) && 0 < x < NR_PROCS && x != INIT && s.procs[x].inUse && s.procs[x].exiting
  }

  lemma DisinheritOneKeeps(s: State, x: nat, k: nat)
    requires InvFrom(s, x, k) && StillLeaving(s, x) && k < NR_PROCS
    ensures InvFrom(DisinheritOne(s, x, k), x, k)
    ensures StillLeaving(DisinheritOne(s, x, k), x)
    ensures var p := DisinheritOne(s, x, k).procs[k]; p.inUse ==> p.parent != x && p.tracer != x
  {
    hide InvBut, TracerDied, CheckParent;
    LinksAt(s, x, k, NR_PROCS, k);
    if s.procs[k].inUse && k != x {
      var s1 := if s.procs[k].tracer == x then TracerDied(s, k) else s;
      if s.procs[k].tracer == x {
        TracerDiedKeeps(s, x, k, k);
        TracerDiedAt(s, k, x);
      }
      if s1.procs[k].parent == x {
        var s2 := Put(s1, k, s1.procs[k].(parent := INIT));
        ReparentKeeps(s1, x, k);
        CheckParentAt(s2, k, true, x);
        CheckParentLinks(s2, k, true, k);
      }
    }
  }

  lemma ReparentKeeps(s: State, x: nat, k: nat)
    requires InvFrom(s, x, k) && StillLeaving(s, x) && k < NR_PROCS && k != x && s.procs[k].parent == x
    requires s.procs[k].tracer != x
    ensures var t := Put(s, k, s.procs[k].(parent := INIT));
            InvFrom(if t.procs[k].zombie then CheckParent(t, k, true) else t, x, k)
  {
    hide InvBut, CheckParent;
    LinksAt(s, x, k, NR_PROCS, k);
    InitAlive(s, x, k, NR_PROCS);
    Unsettle(s, x, k, k);
    var t := Put(s, k, s.procs[k].(parent := INIT));
    PutKeeps(s, x, k, k, s.procs[k].(parent := INIT));
    if t.procs[k].zombie {
      CheckParentKeeps(t, x, k, k, true);
    } else {
      Settle(t, x, k, k);
    }
  }

  lemma Advance(s: State, x: nat, k: nat)
    requires InvFrom(s, x, k) && k < NR_PROCS
    requires s.procs[k].inUse ==> s.procs[k].parent != x && s.procs[k].tracer != x
    ensures InvFrom(s, x, k + 1)
  {
    var k' := k + 1;
    forall i: nat | i < NR_PROCS ensures LinksOk(s, i, x, k') {
      assert LinksOk(s, i, x, k);
    }
  }

  lemma {:induction false} DisinheritKeeps(s: State, x: nat, k: nat)
    requires InvFrom(s, x, k) && StillLeaving(s, x) && k <= NR_PROCS
    ensures InvFrom(Disinherit(s, x, k), x, NR_PROCS)
    decreases NR_PROCS - k
  {
    if k < NR_PROCS {
      DisinheritOneKeeps(s, x, k);
      Advance(DisinheritOne(s, x, k), x, k);
      DisinheritKeeps(DisinheritOne(s, x, k), x, k + 1);
    }
  }

  lemma NothingExcused(s: State, x: nat)
    requires InvFrom(s, x, NR_PROCS)
    ensures Inv(s)
  {
    forall i: nat | i < NR_PROCS ensures LinksOk(s, i, NR_PROCS, NR_PROCS) {
      assert LinksOk(s, i, x, NR_PROCS);
    }
  }

  /** What the callers of exit_proc see to: the process is there, alive, and not in a VFS call. */
  predicate MayExit(s: State, c: nat, byTracer: bool) {
    && Shape(s) && 0 < c < NR_PROCS
    && s.procs[c].inUse && !s.procs[c].exiting && s.procs[c].vfs == NoCall
    && (byTracer ==> s.procs[c].tracer != NO_TRACER)
  }

  lemma LeavingKeeps(s: State, c: nat, dump: bool, byTracer: bool)
    requires Inv(s) && MayExit(s, c, byTracer) && c != INIT
    ensures InvBut(Put(s, c, Leaving(s.procs[c], dump, byTracer)), c, 0, c)
  {
    var p := Leaving(s.procs[c], dump, byTracer);
    var t := Put(s, c, p);
    CountUpdate(s.procs, c, p);
    forall i: nat | i < NR_PROCS ensures LinksOk(t, i, c, 0) {
      assert LinksOk(s, i, NR_PROCS, NR_PROCS);
    }
    forall i: nat | i < NR_PROCS && i != c ensures Settled(t, i) {
      assert Settled(s, i);
    }
  }

  lemma ExitKeeps(s: State, c: nat, dump: bool, byTracer: bool)
    requires Inv(s) && MayExit(s, c, byTracer)
    ensures Inv(ExitProc(s, c, dump, byTracer))
  {
    if c != INIT {
      SettledAt(s, NR_PROCS, NR_PROCS, NR_PROCS, c);
      LeavingKeeps(s, c, dump, byTracer);
      hide InvBut, Zombify;
      var t := Put(s, c, Leaving(s.procs[c], dump, byTracer));
      var s1 := Emit(t, Exited(c));
      EmitKeeps(t, c, 0, c, Exited(c));
      EmitLife(t, Exited(c), c);
      if DumpsCore(s.procs[c], dump) {
        Settle(s1, c, 0, c);
        DisinheritKeeps(s1, c, 0);
        NothingExcused(Disinherit(s1, c, 0), c);
      } else {
        ZombifyKeeps(s1, c, 0, c);
        ZombifyAt(s1, c, c);
        DisinheritKeeps(Zombify(s1, c), c, 0);
        NothingExcused(Disinherit(Zombify(s1, c), c, 0), c);
      }
    }
  }

  lemma ExitRestartKeeps(s: State, c: nat)
    requires Inv(s) && c < NR_PROCS && s.procs[c].inUse && s.procs[c].vfs in {ExitCall, CoreCall}
    ensures Inv(VfsReply(s, c))
  {
    hide InvBut, Zombify, Cleanup;
    SettledAt(s, NR_PROCS, NR_PROCS, NR_PROCS, c);
    var dump := s.procs[c].vfs == CoreCall;
    LinksAt(s, NR_PROCS, NR_PROCS, NR_PROCS, c);
    InitAlive(s, NR_PROCS, NR_PROCS, NR_PROCS);
    Unsettle(s, NR_PROCS, NR_PROCS, c);
    var t := Put(s, c, s.procs[c].(vfs := NoCall));
    PutKeeps(s, NR_PROCS, NR_PROCS, c, s.procs[c].(vfs := NoCall));
    var s1 := Emit(t, Replied(c));
    EmitKeeps(t, NR_PROCS, NR_PROCS, c, Replied(c));
    EmitLife(t, Replied(c), c);
    if dump {
      ZombifyKeeps(s1, NR_PROCS, NR_PROCS, c);
      ZombifyAt(s1, c, c);
      FreeIfTold(Zombify(s1, c), c);
    } else if s1.procs[c].toldParent {
      CleanupKeeps(s1, NR_PROCS, NR_PROCS, c);
    } else {
      Settle(s1, NR_PROCS, NR_PROCS, c);
    }
  }

  lemma FreeIfTold(s: State, c: nat)
    requires Shape(s) && c < NR_PROCS && Done(s, NR_PROCS, NR_PROCS, c) && s.procs[c].vfs == NoCall
    ensures Inv(if s.procs[c].toldParent then Cleanup(s, c) else s)
  {
    if s.procs[c].toldParent {
      if Inv(s) {
        SettledAt(s, NR_PROCS, NR_PROCS, NR_PROCS, c);
        assert false;
      } else {
        CleanupKeeps(s, NR_PROCS, NR_PROCS, c);
      }
    }
  }

  lemma VfsReplyKeeps(s: State, c: nat)
    requires Inv(s) && c < NR_PROCS && s.procs[c].inUse && s.procs[c].vfs != NoCall
    ensures Inv(VfsReply(s, c))
    ensures s.procs[c].vfs == ExitCall ==> (VfsReply(s, c).procs[c].inUse <==> !s.procs[c].toldParent)
  {
    if s.procs[c].vfs == OtherCall {
      var p := s.procs[c].(vfs := NoCall);
      SettledAt(s, NR_PROCS, NR_PROCS, NR_PROCS, c);
      LinksAt(s, NR_PROCS, NR_PROCS, NR_PROCS, c);
      Unsettle(s, NR_PROCS, NR_PROCS, c);
      hide InvBut;
      PutKeeps(s, NR_PROCS, NR_PROCS, c, p);
      Settle(Put(s, c, p), NR_PROCS, NR_PROCS, c);
    } else {
      ExitRestartKeeps(s, c);
    }
  }

  // ---------- what an exiting process asks of VFS ----------

  /** Slot `x` is neither its own parent nor its own tracer. */
  predicate OwnKin(s: State, x: nat)
    requires InTable(s, x)
  {
    s.procs[x].parent != x && s.procs[x].tracer != x
  }

  lemma TracerDiedLinks(s: State, c: nat, i: nat)
    requires Shape(s) && c < NR_PROCS && i < NR_PROCS && i != c
    ensures TracerDied(s, c).procs[i].parent == s.procs[i].parent
    ensures TracerDied(s, c).procs[i].tracer == s.procs[i].tracer
  {
    hide CheckParent;
    var p := s.procs[c].(tracer := NO_TRACER, traceExit := false);
    CheckParentLinks(Put(s, c, p.(traceZombie := false, zombie := true)), c, true, i);
  }

  lemma DisinheritOneSelf(s: State, x: nat, k: nat)
    requires Shape(s) && x < NR_PROCS && k < NR_PROCS && OwnKin(s, x)
    ensures SameLife(s, DisinheritOne(s, x, k), x) && OwnKin(DisinheritOne(s, x, k), x)
  {
    hide CheckParent, TracerDied;
    if k != x {
      var s1 := if s.procs[k].tracer == x then TracerDied(s, k) else s;
      TracerDiedAt(s, k, x);
      TracerDiedLinks(s, k, x);
      var s2 := Put(s1, k, s1.procs[k].(parent := INIT));
      CheckParentAt(s2, k, true, x);
      CheckParentLinks(s2, k, true, x);
    }
  }

  lemma {:induction false} DisinheritSelf(s: State, x: nat, k: nat)
    requires Shape(s) && x < NR_PROCS && k <= NR_PROCS && OwnKin(s, x)
    ensures SameLife(s, Disinherit(s, x, k), x)
    decreases NR_PROCS - k
  {
    hide DisinheritOne;
    if k < NR_PROCS {
      DisinheritOneSelf(s, x, k);
      DisinheritSelf(DisinheritOne(s, x, k), x, k + 1);
    }
  }

  lemma ZombifyLinks(s: State, c: nat)
    requires Shape(s) && c < NR_PROCS
    ensures Zombify(s, c).procs[c].parent == s.procs[c].parent && Zombify(s, c).procs[c].tracer == s.procs[c].tracer
  {
    hide CheckParent, WaitTest;
    var p := s.procs[c];
    var s1, s2 := Put(s, c, p.(traceZombie := true)), Put(s, c, p.(zombie := true));
    CheckParentLinks(TellTracer(s1, c), c, false, c);
    CheckParentLinks(s2, c, false, c);
  }

  /** An exit leaves the process occupied and exiting with one request to VFS outstanding: a core
      dump exactly if one was asked for, the process is not set-uid and not a system process. */
  lemma ExitAsksVfs(s: State, c: nat, dump: bool, byTracer: bool)
    requires Inv(s) && MayExit(s, c, byTracer) && c != INIT
    ensures var p, q := s.procs[c], ExitProc(s, c, dump, byTracer).procs[c];
            q.inUse && q.exiting &&
            q.vfs == if dump && p.realuid == p.effuid && !p.privProc then CoreCall else ExitCall
  {
    hide InvBut, Zombify, Disinherit;
    LinksAt(s, NR_PROCS, NR_PROCS, NR_PROCS, c);
    var s1 := Emit(Put(s, c, Leaving(s.procs[c], dump, byTracer)), Exited(c));
    ZombifyAt(s1, c, c);
    ZombifyLinks(s1, c);
    DisinheritSelf(if DumpsCore(s.procs[c], dump) then s1 else Zombify(s1, c), c, 0);
  }
}
