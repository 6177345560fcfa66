/** Who is told of an exit, who stops waiting, and who inherits the children. */
module ProcNotices {
  import opened ProcTable
  import opened ProcSafety
  import opened ProcRuns

  predicate Notice(e: Event) {
    e.Told? || e.TracerTold?
  }

  /** The notices sent to process `w` so far. */
  function Notices(log: seq<Event>, w: nat): nat {
    if log == [] then 0
    else
      var e := log[|log| - 1];
      Notices(log[..|log| - 1], w) + Bit(Notice(e) && e.to == w)
  }

  lemma EmitNotices(s: State, e: Event, w: nat)
    ensures Notices(Emit(s, e).log, w) == Notices(s.log, w) + Bit(Notice(e) && e.to == w)
  {
    assert (s.log + [e])[..|s.log|] == s.log;
  }

  predicate Dead(p: Proc) {
    p.exiting || p.zombie || p.traceZombie
  }

  /** Slot `i` stops waiting exactly if it is sent a notice, one, and nothing makes it wait; if its own
      parent is told of it, the parent no longer waits. */
  ghost predicate Noted(s: State, t: State, i: nat)
    requires Shape(s) && Shape(t) && i < NR_PROCS
  {
    var o, p := s.procs[i], t.procs[i];
    && (p.waiting ==> o.waiting) && Notices(t.log, i) == Notices(s.log, i) + Bit(o.waiting && !p.waiting)
    && (p.toldParent && !o.toldParent ==> !t.procs[p.parent].waiting)
    && (Dead(p) ==> Dead(o) || !p.waiting)
  }

  ghost predicate Notes(s: State, t: State) {
    && Shape(s) && Shape(t)
    && forall i :: 0 <= i < NR_PROCS ==> Noted(s, t, i) && t.procs[i].parent == s.procs[i].parent
  }

  /** Nobody on the way out is waiting. */
  ghost predicate DeadAwake(s: State)
    requires Shape(s)
  {
    forall i :: 0 <= i < NR_PROCS && Dead(s.procs[i]) ==> !s.procs[i].waiting
  }

  lemma NotesTrans(s: State, t: State, u: State)
    requires Notes(s, t) && Notes(t, u)
    ensures Notes(s, u)
  {
    forall i | 0 <= i < NR_PROCS ensures Noted(s, u, i) && u.procs[i].parent == s.procs[i].parent {
      assert Noted(s, t, i) && Noted(t, u, i) && Noted(t, u, t.procs[i].parent);
    }
  }

  /** A new record for slot `c` that Notes does not mind. */
  lemma PutNotes(s: State, t: State, c: nat)
    requires Shape(s) && c < NR_PROCS && |t.procs| == NR_PROCS && t.procs == s.procs[c := t.procs[c]]
    requires t.log == s.log || (|t.log| > |s.log| && t.log == s.log + [t.log[|s.log|]] && !Notice(t.log[|s.log|]))
    requires var o, p := s.procs[c], t.procs[c];
             && p.parent == o.parent && p.tracer < NR_PROCS && p.waiting == o.waiting && (p.toldParent ==> o.toldParent)
             && (Dead(p) ==> Dead(o) || !p.waiting)
    ensures Notes(s, t)
  {
    forall i: nat | i < NR_PROCS ensures Noted(s, t, i) && t.procs[i].parent == s.procs[i].parent {
      if t.log != s.log {
        EmitNotices(s, t.log[|s.log|], i);
      }
    }
  }

  /** A notice about slot `c` goes to `w`, who was waiting, and to nobody else. */
  lemma TellNotes(s: State, t: State, w: nat, c: nat, e: Event)
    requires Shape(s) && w < NR_PROCS && c < NR_PROCS && s.procs[w].waiting && !s.procs[c].waiting
    requires Notice(e) && e.to == w
    requires |t.procs| == NR_PROCS && t.log == s.log + [e]
    requires t.procs == Unwait(s, w).procs[c := t.procs[c]]
    requires var o, p := s.procs[c], t.procs[c];
             && p.parent == o.parent && p.tracer < NR_PROCS && !p.waiting
             && (p.toldParent && !o.toldParent ==> p.parent == w)
    ensures Notes(s, t)
  {
    forall i: nat | i < NR_PROCS ensures Noted(s, t, i) && t.procs[i].parent == s.procs[i].parent {
      EmitNotices(s, e, i);
    }
  }

  /** check_parent tells the parent exactly if it waits for the child and is not exiting. */
  lemma CheckParentNotes(s: State, c: nat, tryCleanup: bool)
    requires Shape(s) && c < NR_PROCS && !s.procs[c].waiting
    ensures Notes(s, CheckParent(s, c, tryCleanup))
    ensures s.procs[s.procs[c].parent].exiting ==> CheckParent(s, c, tryCleanup) == s
  {
    hide Notes;
    var w, t := s.procs[c].parent, TellParent(s, c);
    PutNotes(s, s, c);
    if !s.procs[w].exiting && WaitTest(s.procs[w], s.procs[c]) {
      if t == Panic(s) {
        PutNotes(s, t, c);
      } else {
        TellNotes(s, t, w, c, Told(c, w));
      }
      PutNotes(t, Cleanup(t, c), c);
      NotesTrans(s, t, Cleanup(t, c));
    }
  }

  lemma ZombifyNotes(s: State, c: nat)
    requires Shape(s) && c < NR_PROCS && !s.procs[c].waiting
    ensures Notes(s, Zombify(s, c))
  {
    hide Notes, CheckParent, TellTracer, Notices;
    var p := s.procs[c];
    if p.traceZombie || p.zombie {
      PutNotes(s, Panic(s), c);
    } else if p.tracer != NO_TRACER && p.tracer != p.parent {
      ZombifyTraced(s, c);
    } else {
      var u := Put(s, c, p.(zombie := true));
      PutNotes(s, u, c);
      CheckParentNotes(u, c, false);
      NotesTrans(s, u, CheckParent(u, c, false));
    }
  }

  lemma ZombifyTraced(s: State, c: nat)
    requires Shape(s) && c < NR_PROCS && !s.procs[c].waiting && s.procs[c].tracer != NO_TRACER
    ensures var t := Put(s, c, s.procs[c].(traceZombie := true));
            Notes(s, if !WaitTest(t.procs[s.procs[c].tracer], t.procs[c]) then t else CheckParent(TellTracer(t, c), c, false))
  {
    hide Notes, CheckParent, Notices;
    var w, t := s.procs[c].tracer, Put(s, c, s.procs[c].(traceZombie := true));
    PutNotes(s, t, c);
    if WaitTest(t.procs[w], t.procs[c]) {
      var t1 := TellTracer(t, c);
      TellNotes(t, t1, w, c, TracerTold(c, w));
      NotesTrans(s, t, t1);
      CheckParentNotes(t1, c, false);
      NotesTrans(s, t1, CheckParent(t1, c, false));
    }
  }

  lemma TracerDiedNotes(s: State, c: nat)
    requires Shape(s) && c < NR_PROCS && (Dead(s.procs[c]) ==> !s.procs[c].waiting)
    ensures Notes(s, TracerDied(s, c))
    ensures s.procs[s.procs[c].parent].exiting && s.procs[c].parent != c ==>
              TracerDied(s, c).procs[c].toldParent == s.procs[c].toldParent
  {
    hide Notes, CheckParent;
    var p := s.procs[c].(tracer := NO_TRACER, traceExit := false);
    PutNotes(s, Put(s, c, p), c);
    if p.exiting && p.traceZombie {
      var t := Put(s, c, p.(traceZombie := false, zombie := true));
      PutNotes(s, t, c);
      CheckParentNotes(t, c, true);
      NotesTrans(s, t, CheckParent(t, c, true));
    }
  }

  // ---------- disinheriting ----------

  lemma CheckParentTold(s: State, c: nat, tryCleanup: bool, i: nat)
    requires Shape(s) && c < NR_PROCS && i < NR_PROCS && i != c
    ensures CheckParent(s, c, tryCleanup).procs[i].toldParent == s.procs[i].toldParent
  {
  }

  lemma TracerDiedTold(s: State, c: nat, i: nat)
    requires Shape(s) && c < NR_PROCS && i < NR_PROCS && i != c
    ensures TracerDied(s, c).procs[i].toldParent == s.procs[i].toldParent
  {
    hide CheckParent;
    var p := s.procs[c].(tracer := NO_TRACER, traceExit := false);
    CheckParentTold(Put(s, c, p.(traceZombie := false, zombie := true)), c, true, i);
  }

  /** What one turn of the loop for exiting process `x` does to slot `i`: only slot `k` can be told or
      change parent, and its parent becomes INIT exactly if it was `x`. */
  ghost predicate Turned(s: State, t: State, x: nat, k: nat, i: nat)
    requires Shape(s) && Shape(t) && i < NR_PROCS
  {
    && Noted(s, t, i)
    && (i != k ==> t.procs[i].toldParent == s.procs[i].toldParent)
    && t.procs[i].parent == if i == k && s.procs[i].inUse && s.procs[i].parent == x then INIT else s.procs[i].parent
  }

  lemma DisinheritOneTurns(s: State, x: nat, k: nat, i: nat)
    requires Shape(s) && x < NR_PROCS && k < NR_PROCS && i < NR_PROCS && s.procs[x].exiting && OwnKin(s, x)
    requires Dead(s.procs[k]) ==> !s.procs[k].waiting
    ensures Turned(s, DisinheritOne(s, x, k), x, k, i)
  {
    hide CheckParent, TracerDied, Notices;
    PutNotes(s, s, k);
    TracerDiedNotes(s, k);
    var s1 := if s.procs[k].tracer == x then TracerDied(s, k) else s;
    if i != k {
      TracerDiedTold(s, k, i);
    }
    if s.procs[k].inUse && s1.procs[k].parent == x {
      Reparented(s, s1, x, k, i);
    }
  }

  lemma Reparented(s: State, s1: State, x: nat, k: nat, i: nat)
    requires Notes(s, s1) && k < NR_PROCS && i < NR_PROCS && s1.procs[k].parent == x && s.procs[k].inUse
    requires (Dead(s.procs[k]) ==> !s.procs[k].waiting) && s1.procs[k].toldParent == s.procs[k].toldParent
    requires i != k ==> s1.procs[i].toldParent == s.procs[i].toldParent
    ensures var s2 := Put(s1, k, s1.procs[k].(parent := INIT));
            Turned(s, if s2.procs[k].zombie then CheckParent(s2, k, true) else s2, x, k, i)
  {
    hide CheckParent, Notices;
    var s2 := Put(s1, k, s1.procs[k].(parent := INIT));
    assert Noted(s, s1, k) && Noted(s, s1, i);
    if s2.procs[k].zombie {
      CheckParentNotes(s2, k, true);
      assert Noted(s2, CheckParent(s2, k, true), i);
      if i != k {
        CheckParentTold(s2, k, true, i);
      }
    }
  }

  /** What the whole loop from slot `k` on does to slot `i`. */
  ghost predicate Disinherited(s: State, t: State, x: nat, k: nat, i: nat)
    requires Shape(s) && Shape(t) && i < NR_PROCS
  {
    && Noted(s, t, i)
    && (i < k ==> t.procs[i].toldParent == s.procs[i].toldParent)
    && t.procs[i].parent == if i >= k && s.procs[i].inUse && s.procs[i].parent == x then INIT else s.procs[i].parent
  }

  lemma TurnThenRest(s: State, t: State, u: State, x: nat, k: nat, k': nat, i: nat)
    requires k' == k + 1 && Shape(s) && Shape(t) && Shape(u) && k < NR_PROCS && i < NR_PROCS
    requires forall j :: 0 <= j < NR_PROCS ==> Turned(s, t, x, k, j)
    requires forall j :: 0 <= j < NR_PROCS ==> Disinherited(t, u, x, k', j)
    requires t.procs[i].inUse == s.procs[i].inUse || i <= k
    ensures Disinherited(s, u, x, k, i)
  {
    hide Notices;
    assert Turned(s, t, x, k, i) && Disinherited(t, u, x, k', i);
    var w := t.procs[i].parent;
    assert w < NR_PROCS && Disinherited(t, u, x, k', w);
  }

  lemma {:induction false} DisinheritNotes(s: State, x: nat, k: nat, i: nat)
    requires Shape(s) && x < NR_PROCS && k <= NR_PROCS && i < NR_PROCS && s.procs[x].exiting && OwnKin(s, x) && DeadAwake(s)
    ensures Disinherited(s, Disinherit(s, x, k), x, k, i)
    decreases NR_PROCS - k
  {
    hide DisinheritOne, Turned, Disinherited, DeadAwake;
    if k < NR_PROCS {
      var t, k' := DisinheritOne(s, x, k), k + 1;
      DisinheritOneAwake(s, x, k);
      DisinheritOneSelf(s, x, k);
      forall j: nat | j < NR_PROCS
        ensures Turned(s, t, x, k, j) && Disinherited(t, Disinherit(t, x, k'), x, k', j)
      {
        SlotAwake(s, k);
        DisinheritOneTurns(s, x, k, j);
        DisinheritNotes(t, x, k', j);
      }
      if i > k {
        DisinheritOneAt(s, x, k, i);
      }
      TurnThenRest(s, t, Disinherit(t, x, k'), x, k, k', i);
    } else {
      PutNotes(s, s, i);
      NothingDisinherited(s, x, i);
    }
  }

  lemma NothingDisinherited(s: State, x: nat, i: nat)
    requires Notes(s, s) && i < NR_PROCS
    ensures Disinherited(s, s, x, NR_PROCS, i)
  {
  }

  lemma SlotAwake(s: State, k: nat)
    requires Shape(s) && DeadAwake(s) && k < NR_PROCS
    ensures Dead(s.procs[k]) ==> !s.procs[k].waiting
  {
  }

  lemma DisinheritOneAwake(s: State, x: nat, k: nat)
    requires Shape(s) && x < NR_PROCS && k < NR_PROCS && s.procs[x].exiting && OwnKin(s, x) && DeadAwake(s)
    ensures DeadAwake(DisinheritOne(s, x, k))
  {
    hide DisinheritOne, Notices;
    forall i | 0 <= i < NR_PROCS && Dead(DisinheritOne(s, x, k).procs[i]) ensures !DisinheritOne(s, x, k).procs[i].waiting {
      DisinheritOneTurns(s, x, k, i);
    }
  }

  lemma DisinheritOneAt(s: State, x: nat, k: nat, i: nat)
    requires Shape(s) && k < NR_PROCS && i < NR_PROCS && i != k
    ensures DisinheritOne(s, x, k).procs[i].inUse == s.procs[i].inUse
  {
    hide CheckParent, TracerDied;
    var s1 := if s.procs[k].tracer == x then TracerDied(s, k) else s;
    TracerDiedAt(s, k, i);
    CheckParentAt(Put(s1, k, s1.procs[k].(parent := INIT)), k, true, i);
  }

  lemma {:induction false} DisinheritTracers(s: State, x: nat, k: nat, i: nat)
    requires Shape(s) && k <= NR_PROCS && i < NR_PROCS
    ensures Disinherit(s, x, k).procs[i].tracer ==
            if i >= k && s.procs[i].inUse && s.procs[i].tracer == x then NO_TRACER else s.procs[i].tracer
    decreases NR_PROCS - k
  {
    hide DisinheritOne;
    if k < NR_PROCS {
      DisinheritOneTracers(s, x, k, i);
      if i > k {
        DisinheritOneAt(s, x, k, i);
      }
      DisinheritTracers(DisinheritOne(s, x, k), x, k + 1, i);
    }
  }

  lemma DisinheritOneTracers(s: State, x: nat, k: nat, i: nat)
    requires Shape(s) && k < NR_PROCS && i < NR_PROCS
    ensures DisinheritOne(s, x, k).procs[i].tracer ==
            if i == k && s.procs[i].inUse && s.procs[i].tracer == x then NO_TRACER else s.procs[i].tracer
  {
    hide CheckParent;
    var p := s.procs[k].(tracer := NO_TRACER, traceExit := false);
    CheckParentLinks(Put(s, k, p.(traceZombie := false, zombie := true)), k, true, i);
    var s1 := if s.procs[k].tracer == x then TracerDied(s, k) else s;
    CheckParentLinks(Put(s1, k, s1.procs[k].(parent := INIT)), k, true, i);
  }

  // ---------- the entry points ----------

  lemma InvAwake(s: State)
    requires Inv(s)
    ensures Shape(s) && s.next < NR_PROCS && DeadAwake(s) && !s.procs[PM].exiting
  {
    forall i | 0 <= i < NR_PROCS && Dead(s.procs[i]) ensures !s.procs[i].waiting {
      SettledAt(s, NR_PROCS, NR_PROCS, NR_PROCS, i);
    }
  }

  /** An exit hands the children of `c` to INIT and takes its tracees from it; every other link stays.
      Whoever stops waiting has been sent one notice, and `c` itself is past waiting. */
  lemma ExitMeaning(s: State, c: nat, dump: bool, byTracer: bool, i: nat)
    requires Inv(s) && MayExit(s, c, byTracer) && c != INIT && i < NR_PROCS
    ensures var t := ExitProc(s, c, dump, byTracer);
            && (s.procs[i].inUse ==>
                  && t.procs[i].parent == (if s.procs[i].parent == c then INIT else s.procs[i].parent)
                  && t.procs[i].tracer == (if s.procs[i].tracer == c then NO_TRACER else s.procs[i].tracer))
            && (if i == c then !t.procs[i].waiting && Notices(t.log, i) == Notices(s.log, i) else Noted(s, t, i))
            && (t.procs[i].toldParent && !s.procs[i].toldParent ==> !t.procs[t.procs[i].parent].waiting)
  {
    hide InvBut, Zombify, Disinherit, Disinherited, Notices, DeadAwake, Notes;
    InvAwake(s);
    LinksAt(s, NR_PROCS, NR_PROCS, NR_PROCS, c);
    SettledAt(s, NR_PROCS, NR_PROCS, NR_PROCS, c);
    var s1 := Emit(Put(s, c, Leaving(s.procs[c], dump, byTracer)), Exited(c));
    var s2 := if DumpsCore(s.procs[c], dump) then s1 else Zombify(s1, c);
    LeavingNotes(s, s1, c, i);
    PutNotes(s1, s1, c);
    ZombifyNotes(s1, c);
    ZombifyAt(s1, c, c);
    ZombifyAt(s1, c, i);
    ZombifyTracer(s1, c, i);
    ZombifyTracer(s1, c, c);
    NotesAwake(s1, s2);
    forall j: nat | j < NR_PROCS ensures Disinherited(s2, Disinherit(s2, c, 0), c, 0, j) {
      DisinheritNotes(s2, c, 0, j);
    }
    DisinheritTracers(s2, c, 0, i);
    ExitTogether(s1, s2, Disinherit(s2, c, 0), c, i);
    DisinheritedParent(s2, Disinherit(s2, c, 0), c, i);
  }

  lemma DisinheritedParent(s: State, t: State, x: nat, i: nat)
    requires Shape(s) && Shape(t) && i < NR_PROCS && Disinherited(s, t, x, 0, i)
    ensures t.procs[i].parent == if s.procs[i].inUse && s.procs[i].parent == x then INIT else s.procs[i].parent
  {
  }

  lemma LeavingNotes(s: State, s1: State, c: nat, i: nat)
    requires Shape(s) && DeadAwake(s) && c < NR_PROCS && i < NR_PROCS
    requires |s1.procs| == NR_PROCS && s1.procs == s.procs[c := s1.procs[c]] && s1.log == s.log + [Exited(c)]
    requires !s1.procs[c].waiting && s1.procs[c].parent < NR_PROCS && s1.procs[c].tracer < NR_PROCS
    ensures Shape(s1) && DeadAwake(s1) && Notices(s1.log, i) == Notices(s.log, i)
  {
    EmitNotices(s, Exited(c), i);
  }

  lemma NotesAwake(s: State, t: State)
    requires Notes(s, t) && DeadAwake(s)
    ensures DeadAwake(t)
  {
    hide Notices;
    forall i | 0 <= i < NR_PROCS && Dead(t.procs[i]) ensures !t.procs[i].waiting {
      assert Noted(s, t, i);
    }
  }

  lemma ZombifyTracer(s: State, c: nat, i: nat)
    requires Shape(s) && c < NR_PROCS && i < NR_PROCS
    ensures Zombify(s, c).procs[i].tracer == s.procs[i].tracer && Zombify(s, c).procs[i].parent == s.procs[i].parent
    ensures i != c ==> Zombify(s, c).procs[i].toldParent == s.procs[i].toldParent
  {
    hide CheckParent, WaitTest;
    var p := s.procs[c];
    var s1, s2 := Put(s, c, p.(traceZombie := true)), Put(s, c, p.(zombie := true));
    CheckParentLinks(TellTracer(s1, c), c, false, i);
    CheckParentLinks(s2, c, false, i);
    if i != c {
      CheckParentTold(TellTracer(s1, c), c, false, i);
      CheckParentTold(s2, c, false, i);
    }
  }

  lemma ExitTogether(s: State, t: State, u: State, x: nat, i: nat)
    requires Notes(s, t) && Shape(u) && x < NR_PROCS && i < NR_PROCS && t.procs[x].parent != x
    requires i != x ==> t.procs[i].toldParent == s.procs[i].toldParent
    requires forall j :: 0 <= j < NR_PROCS ==> Disinherited(t, u, x, 0, j)
    ensures Noted(s, u, i)
  {
    hide Notices;
    var w := t.procs[i].parent;
    assert Noted(s, t, i) && Disinherited(t, u, x, 0, i) && w < NR_PROCS && Disinherited(t, u, x, 0, w);
  }

  lemma ReplyNotes(s: State, c: nat)
    requires Inv(s) && c < NR_PROCS && s.procs[c].inUse
    ensures Notes(s, VfsReply(s, c))
  {
    hide InvBut, Zombify, Notes;
    SettledAt(s, NR_PROCS, NR_PROCS, NR_PROCS, c);
    var t := Put(s, c, s.procs[c].(vfs := NoCall));
    var s1 := Emit(t, Replied(c));
    PutNotes(s, t, c);
    PutNotes(s, s1, c);
    if s.procs[c].exiting {
      ZombifyNotes(s1, c);
      NotesTrans(s, s1, Zombify(s1, c));
      var s2 := if s.procs[c].vfs == CoreCall then Zombify(s1, c) else s1;
      StillAsleep(s1, s2, c);
      PutNotes(s2, Cleanup(s2, c), c);
      NotesTrans(s, s2, Cleanup(s2, c));
    }
  }

  lemma StillAsleep(s: State, t: State, c: nat)
    requires (s == t || Notes(s, t)) && c < |s.procs| == NR_PROCS && !s.procs[c].waiting
    ensures c < |t.procs| && !t.procs[c].waiting
  {
    assert s == t || Noted(s, t, c);
  }

  /** Collecting slot `c` tells the caller, as if it had been waiting, and nobody but it and a parent
      that was: the caller gets exactly one notice. */
  lemma CollectNotes(s: State, w: nat, c: nat, pidarg: int)
    requires Inv(s) && MayCall(s, w) && c < NR_PROCS && Acceptable(s.procs[c], w, pidarg)
    requires ActionOn(s.procs[c], w) in {Traced, Collect}
    ensures var t := WaitOn(s, c, ActionOn(s.procs[c], w));
            Notes(Put(s, w, s.procs[w].(waiting := true)), t) && !t.procs[w].waiting
  {
    hide InvBut, Notes, CheckParent, TellParent, TellTracer, Cleanup;
    LinksAt(s, NR_PROCS, NR_PROCS, NR_PROCS, c);
    SettledAt(s, NR_PROCS, NR_PROCS, NR_PROCS, c);
    var u := Put(s, w, s.procs[w].(waiting := true));
    if ActionOn(s.procs[c], w) == Traced {
      var t := TellTracer(s, c);
      TracerNotes(s, w, c);
      CheckParentNotes(t, c, true);
      StillAsleep(t, CheckParent(t, c, true), w);
      NotesTrans(u, t, CheckParent(t, c, true));
    } else {
      var t := TellParent(s, c);
      ParentNotes(s, w, c);
      CleanupNotes(t, c);
      StillAsleep(t, Cleanup(t, c), w);
      NotesTrans(u, t, Cleanup(t, c));
    }
  }

  lemma CleanupNotes(s: State, c: nat)
    requires Shape(s) && c < NR_PROCS && !s.procs[c].waiting
    ensures Notes(s, Cleanup(s, c))
  {
    PutNotes(s, Cleanup(s, c), c);
  }

  lemma SetAndClear(p: Proc)
    requires !p.waiting
    ensures p.(waiting := true).(waiting := false) == p && p.(waiting := false) == p
  {
  }

  lemma SetTwice(procs: seq<Proc>, i: nat, p: Proc)
    requires i < |procs|
    ensures procs[i := p][i := procs[i]] == procs && procs[i := procs[i]] == procs
  {
  }

  lemma CallerFlag(s: State, w: nat)
    requires Shape(s) && w < NR_PROCS && !s.procs[w].waiting
    ensures var u := Put(s, w, s.procs[w].(waiting := true));
            Shape(u) && Unwait(u, w).procs == s.procs && Unwait(s, w).procs == s.procs
  {
    SetAndClear(s.procs[w]);
    SetTwice(s.procs, w, s.procs[w].(waiting := true));
  }

  lemma TracerNotes(s: State, w: nat, c: nat)
    requires Shape(s) && 0 < w < NR_PROCS && c < NR_PROCS && c != w && !s.procs[w].waiting && !s.procs[c].waiting
    requires s.procs[c].tracer == w && s.procs[c].traceZombie
    ensures var t := TellTracer(s, c);
            Notes(Put(s, w, s.procs[w].(waiting := true)), t) && !t.procs[w].waiting && !t.procs[c].waiting
  {
    CallerFlag(s, w);
    var u := Put(s, w, s.procs[w].(waiting := true));
    hide Notes, Notices;
    TellNotes(u, TellTracer(s, c), w, c, TracerTold(c, w));
  }

  lemma ParentNotes(s: State, w: nat, c: nat)
    requires Shape(s) && 0 < w < NR_PROCS && c < NR_PROCS && c != w && !s.procs[w].waiting && !s.procs[c].waiting
    requires s.procs[c].parent == w && s.procs[c].zombie && !s.procs[c].toldParent
    ensures var t := TellParent(s, c);
            Notes(Put(s, w, s.procs[w].(waiting := true)), t) && !t.procs[w].waiting && !t.procs[c].waiting
  {
    CallerFlag(s, w);
    var u := Put(s, w, s.procs[w].(waiting := true));
    hide Notes, Notices;
    TellNotes(u, TellParent(s, c), w, c, Told(c, w));
  }

  /** What the caller of waitpid leaves behind: it sleeps and has had no notice, or it does not sleep
      and has had at most one; everyone else stops waiting exactly on one notice. */
  ghost predicate WaitLeaves(s: State, t: State, w: nat, i: nat)
    requires Shape(s) && Shape(t) && w < NR_PROCS && i < NR_PROCS
  {
    && (i != w ==> Noted(s, t, i))
    && Notices(s.log, w) <= Notices(t.log, w) <= Notices(s.log, w) + Bit(!t.procs[w].waiting)
    && (t.procs[i].toldParent && !s.procs[i].toldParent ==> !t.procs[t.procs[i].parent].waiting)
  }

  lemma WaitNotes(s: State, w: nat, pidarg: int, nohang: bool, i: nat)
    requires Inv(s) && MayCall(s, w) && i < NR_PROCS
    ensures WaitLeaves(s, WaitPid(s, w, pidarg, nohang).0, w, i)
  {
    hide InvBut, Scan, WaitOn, Acceptable, ActionOn;
    var arg := PidArg(s.procs[w], pidarg);
    var hit := ScanMeaning(s, w, arg, nohang, 0, 0);
    if hit < NR_PROCS {
      ActionNotes(s, w, hit, arg, i);
    } else {
      PutNotes(s, s, w);
      assert Noted(s, s, i);
    }
  }

  lemma ActionNotes(s: State, w: nat, c: nat, pidarg: int, i: nat)
    requires Inv(s) && MayCall(s, w) && c < NR_PROCS && i < NR_PROCS && !PassedOver(s, w, pidarg, c)
    ensures WaitLeaves(s, WaitOn(s, c, ActionOn(s.procs[c], w)), w, i)
  {
    hide InvBut, Notices, CheckParent, TellParent, TellTracer;
    var t := WaitOn(s, c, ActionOn(s.procs[c], w));
    if ActionOn(s.procs[c], w) == Stopped {
      PutNotes(s, t, c);
      assert Noted(s, t, i) && Noted(s, t, w);
    } else {
      CollectNotes(s, w, c, pidarg);
      var u := Put(s, w, s.procs[w].(waiting := true));
      assert Noted(u, t, i) && Noted(u, t, w);
    }
  }

  // ---------- every step, every run ----------

  /** The process a step is about: it waits, stops waiting or leaves of its own accord. */
  predicate Subject(a: Action, i: nat) {
    (a.DoWait? && a.w == i) || (a.DoExit? && a.c == i) || (a.Interrupt? && a.w == i)
  }

  /** What a step does to slot `i`. */
  ghost predicate StepTells(s: State, t: State, a: Action, i: nat)
    requires Shape(s) && Shape(t) && i < NR_PROCS
  {
    && (!Subject(a, i) ==> Noted(s, t, i))
    && (t.procs[i].waiting ==> Notices(t.log, i) == Notices(s.log, i))
    && (t.procs[i].toldParent && !s.procs[i].toldParent ==> !t.procs[t.procs[i].parent].waiting)
  }

  /** In every step, whoever it is not about stops waiting exactly if it is sent a notice, and is sent
      one only if it was waiting; nobody is left waiting who was sent one; and the parent of a slot
      that has been told of it does not wait. */
  lemma StepNotes(s: State, a: Action, i: nat)
    requires Inv(s) && Enabled(s, a) && i < NR_PROCS
    ensures StepTells(s, Step(s, a), a, i)
  {
    InvAwake(s);
    hide InvBut, StepTells, ExitProc, VfsReply, WaitPid, Fork;
    match a
    case DoFork(w, pid, vmOk) =>
      ForkNotes(s, w, pid, vmOk, i);
      NotedTells(s, Fork(s, w, pid, vmOk).0, a, i);
    case DoExit(c, dump, byTracer) => ExitNotes(s, c, dump, byTracer, i);
    case DoReply(c) =>
      ReplyNotes(s, c);
      NotesTell(s, VfsReply(s, c), a, i);
    case DoWait(w, pidarg, nohang) =>
      WaitNotes(s, w, pidarg, nohang, i);
      WaitTells(s, WaitPid(s, w, pidarg, nohang).0, a, w, i);
    case Interrupt(w) => InterruptTells(s, w, i);
    case Attach(_, c) =>
      PutNotes(s, Step(s, a), c);
      NotesTell(s, Step(s, a), a, i);
    case NewGroup(w) =>
      PutNotes(s, Step(s, a), w);
      NotesTell(s, Step(s, a), a, i);
    case StopTracee(c) =>
      PutNotes(s, Step(s, a), c);
      NotesTell(s, Step(s, a), a, i);
  }

  lemma NotedTells(s: State, t: State, a: Action, i: nat)
    requires Shape(s) && Shape(t) && i < NR_PROCS && Noted(s, t, i)
    ensures StepTells(s, t, a, i)
  {
    hide Notices;
  }

  lemma NotesTell(s: State, t: State, a: Action, i: nat)
    requires Notes(s, t) && i < NR_PROCS
    ensures StepTells(s, t, a, i)
  {
    hide Notices;
    assert Noted(s, t, i);
  }

  lemma WaitTells(s: State, t: State, a: Action, w: nat, i: nat)
    requires Shape(s) && Shape(t) && i < NR_PROCS && w < NR_PROCS && a.DoWait? && a.w == w && WaitLeaves(s, t, w, i)
    ensures StepTells(s, t, a, i)
  {
    hide Notices;
  }

  lemma InterruptTells(s: State, w: nat, i: nat)
    requires Shape(s) && w < NR_PROCS && i < NR_PROCS
    ensures StepTells(s, Unwait(s, w), Interrupt(w), i)
  {
    hide Notices;
  }

  lemma ExitNotes(s: State, c: nat, dump: bool, byTracer: bool, i: nat)
    requires Inv(s) && MayExit(s, c, byTracer) && i < NR_PROCS
    ensures StepTells(s, ExitProc(s, c, dump, byTracer), DoExit(c, dump, byTracer), i)
  {
    hide InvBut, Notices;
    if c == INIT {
      InitExit(s, dump, byTracer);
      PutNotes(s, s, c);
      assert Noted(s, s, i);
    } else {
      hide ExitProc;
      ExitMeaning(s, c, dump, byTracer, i);
    }
  }

  lemma InitExit(s: State, dump: bool, byTracer: bool)
    requires Shape(s)
    ensures ExitProc(s, INIT, dump, byTracer) == s
  {
  }

  lemma ForkNotes(s: State, w: nat, pid: int, vmOk: bool, i: nat)
    requires Inv(s) && MayCall(s, w) && pid > 0 && i < NR_PROCS
    ensures var t := Fork(s, w, pid, vmOk).0; Noted(s, t, i) && Notices(t.log, i) == Notices(s.log, i)
  {
    hide InvBut, Search, Notices, LifeOf;
    InvAwake(s);
    PutNotes(s, s, w);
    assert Noted(s, s, i);
    if !TableFull(s, w) {
      ForkFinds(s, w);
      var k := Search(s.procs, s.next, 0).0;
      SettledAt(s, NR_PROCS, NR_PROCS, NR_PROCS, k);
      EmitNotices(s, Created(k), i);
    }
  }

  /** In every run a process that goes on waiting is sent no notice. */
  lemma {:induction false} AsleepUnnoticed(s: State, acts: seq<Action>, w: nat)
    requires Inv(s) && Possible(s, acts) && w < NR_PROCS
    requires s.procs[w].waiting && Sleeps(s, acts, w)
    ensures Notices(Run(s, acts).log, w) == Notices(s.log, w)
    decreases |acts|
  {
    hide InvBut, Step, Enabled;
    if acts != [] {
      InvAwake(s);
      StepKeeps(s, acts[0]);
      StepNotes(s, acts[0], w);
      AsleepUnnoticed(Step(s, acts[0]), acts[1..], w);
    }
  }

  /** Process `w` is waiting after each of the steps. */
  ghost predicate Sleeps(s: State, acts: seq<Action>, w: nat)
    requires Inv(s) && Possible(s, acts) && w < NR_PROCS
    decreases |acts|
  {
    acts == [] ||
    (StepKeeps(s, acts[0]);
     Step(s, acts[0]).procs[w].waiting && Sleeps(Step(s, acts[0]), acts[1..], w))
  }

  // ---------- what waitpid means ----------

  /** The children that waitpid(pidarg) is about, as its manual entry has it. */
  predicate Wanted(caller: Proc, pidarg: int, p: Proc) {
    if pidarg > 0 then p.pid == pidarg
    else if pidarg == 0 then p.procgrp == caller.procgrp
    else pidarg == -1 || p.procgrp == -pidarg
  }

  /** The code agrees for every argument but 0, and for 0 exactly if the caller's group is above 1:
      below that, any child will do. */
  lemma WantedExactly(caller: Proc, pidarg: int)
    requires caller.procgrp >= 0
    ensures (forall p: Proc :: Qualifies(PidArg(caller, pidarg), p) <==> Wanted(caller, pidarg, p))
            <==> pidarg != 0 || caller.procgrp > 1
  {
    if pidarg == 0 && caller.procgrp <= 1 {
      AnyoneQualifies(caller);
    } else {
      forall p: Proc ensures Qualifies(PidArg(caller, pidarg), p) <==> Wanted(caller, pidarg, p) {
        WantedQualifies(caller, pidarg, p);
      }
      hide Qualifies, Wanted, PidArg;
    }
  }

  lemma WantedQualifies(caller: Proc, pidarg: int, p: Proc)
    requires pidarg != 0 || caller.procgrp > 1
    ensures Qualifies(PidArg(caller, pidarg), p) <==> Wanted(caller, pidarg, p)
  {
  }

  lemma AnyoneQualifies(caller: Proc)
    requires 0 <= caller.procgrp <= 1
    ensures exists p: Proc :: Qualifies(PidArg(caller, 0), p) && !Wanted(caller, 0, p)
  {
    var p := caller.(procgrp := 2);
    assert Qualifies(PidArg(caller, 0), p) && !Wanted(caller, 0, p);
  }

  /** Process `w` can wait for `p`: a child it has not been told of, or a tracee that has not been
      passed on to its parent as a zombie, and one it asks for. */
  predicate Awaited(caller: Proc, w: nat, pidarg: int, p: Proc) {
    && p.inUse && !p.toldParent && (p.parent == w || (p.tracer == w && !p.zombie))
    && (Wanted(caller, pidarg, p) || (pidarg == 0 && caller.procgrp <= 1))
  }

  /** waitpid fails with ECHILD exactly if there is nobody to wait for; in particular a child that is
      already told counts for nothing. */
  lemma EchildExactly(s: State, w: nat, pidarg: int, nohang: bool)
    requires Inv(s) && MayCall(s, w)
    ensures WaitPid(s, w, pidarg, nohang).1 == ECHILD <==>
            forall c :: 0 <= c < NR_PROCS ==> !Awaited(s.procs[w], w, pidarg, s.procs[c])
  {
    hide InvBut, Scan, WaitOn, ActionOn, LifeOf;
    var arg := PidArg(s.procs[w], pidarg);
    SettledAt(s, NR_PROCS, NR_PROCS, NR_PROCS, w);
    var hit := ScanMeaning(s, w, arg, nohang, 0, 0);
    assert forall c :: 0 <= c < NR_PROCS ==> (Acceptable(s.procs[c], w, arg) <==> Awaited(s.procs[w], w, pidarg, s.procs[c]));
  }

  /** A slot gives the caller nothing to act on exactly if it is not a zombie to it as its child, nor a
      zombie or a stopped process with a signal to report to it as its tracee. */
  lemma PassMeans(p: Proc, w: nat)
    ensures ActionOn(p, w) == Pass <==>
            !(p.parent == w && p.zombie) && !(p.tracer == w && (p.traceZombie || (p.traceStopped && p.stopSignals > 0)))
  {
  }

  /** The record of a process whose parent has just been told: freed if VFS is done with it. */
  function Collected(o: Proc): Proc {
    if o.vfs == NoCall then ClearFlags(o).(pid := 0)
    else o.(zombie := false, traceZombie := false, toldParent := true)
  }

  lemma TellParentAbout(s: State, c: nat)
    requires Shape(s) && c < NR_PROCS && s.procs[c].zombie && !s.procs[c].traceZombie && !s.procs[c].toldParent
    requires s.procs[c].parent != 0 && s.procs[c].parent != c
    ensures var t := TellParent(s, c);
            (if t.procs[c].vfs == NoCall then Cleanup(t, c) else t).procs[c] == Collected(s.procs[c])
  {
  }

  lemma TellTracerAbout(s: State, c: nat)
    requires Shape(s) && c < NR_PROCS && s.procs[c].traceZombie && s.procs[c].tracer != 0 && s.procs[c].tracer != c
    ensures var t := TellTracer(s, c);
            && t.procs[c] == s.procs[c].(traceZombie := false, zombie := true)
            && forall j :: 0 <= j < NR_PROCS && j != c ==>
                 t.procs[j] == if j == s.procs[c].tracer then s.procs[j].(waiting := false) else s.procs[j]
  {
  }

  /** What acting on a slot leaves of it. A stopped tracee has one signal less; a collected child is
      freed if VFS is done with it and marked as told otherwise; a collected tracee is a zombie to its
      parent, or goes the way of a collected child if that waits for it. */
  lemma WaitOnMeaning(s: State, w: nat, c: nat, pidarg: int)
    requires Inv(s) && MayCall(s, w) && c < NR_PROCS && !PassedOver(s, w, pidarg, c)
    ensures var o, t := s.procs[c], WaitOn(s, c, ActionOn(s.procs[c], w));
            match ActionOn(o, w)
            case Stopped => o.stopSignals > 0 && t == Put(s, c, o.(stopSignals := o.stopSignals - 1))
            case Collect => t.procs[c] == Collected(o)
            case Pass => true
            case Traced =>
              t.procs[c] == if !s.procs[o.parent].exiting && WaitTest(s.procs[o.parent], o) then Collected(o)
                            else o.(traceZombie := false, zombie := true)
  {
    hide InvBut, LifeOf, TellParent, TellTracer, Cleanup, Collected, View;
    SettledAt(s, NR_PROCS, NR_PROCS, NR_PROCS, c);
    LinksAt(s, NR_PROCS, NR_PROCS, NR_PROCS, c);
    InitAlive(s, NR_PROCS, NR_PROCS, NR_PROCS);
    match ActionOn(s.procs[c], w)
    case Stopped =>
    case Collect => TellParentAbout(s, c);
    case Traced =>
      TellTracerAbout(s, c);
      TracedMeaning(s, TellTracer(s, c), w, c);
  }

  lemma TracedMeaning(s: State, t: State, w: nat, c: nat)
    requires Shape(s) && Shape(t) && w < NR_PROCS && c < NR_PROCS && !s.procs[w].waiting
    requires s.procs[c].parent != 0 && s.procs[c].parent != c && !s.procs[c].toldParent && s.procs[c].tracer == w
    requires t.procs[c] == s.procs[c].(traceZombie := false, zombie := true)
    requires forall j :: 0 <= j < NR_PROCS && j != c ==>
               t.procs[j] == if j == w then s.procs[j].(waiting := false) else s.procs[j]
    ensures var o := s.procs[c];
            CheckParent(t, c, true).procs[c] ==
              if !s.procs[o.parent].exiting && WaitTest(s.procs[o.parent], o) then Collected(o)
              else o.(traceZombie := false, zombie := true)
  {
    TellParentAbout(t, c);
    hide TellParent, Cleanup;
    SameCollected(s.procs[c], t.procs[c]);
  }

  lemma SameCollected(o: Proc, p: Proc)
    requires p == o.(traceZombie := false, zombie := true)
    ensures Collected(p) == Collected(o)
  {
  }
}
