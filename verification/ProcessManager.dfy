/** The handlers of forkexit.c as they run, on a table changed in place. Each one is tied to the
    function of ProcTable that specifies it; the entry points also keep the invariant. */
module ProcessManager {
  import T = ProcTable
  import opened ProcSafety
  import opened ProcRuns

  class Manager {
    var mproc: seq<T.Proc>
    var procsInUse: nat
    var nextChild: nat
    var panicked: bool
    var log: seq<T.Event>

    function S(): T.State reads this {
      T.State(mproc, procsInUse, nextChild, panicked, log)
    }

    constructor ()
      ensures S() == Boot() && Inv(S())
    {
      var b := Boot();
      mproc, procsInUse, nextChild, panicked, log := b.procs, b.used, b.next, b.panicked, b.log;
      BootInv();
    }

    method Cleanup(c: nat)
      requires T.InTable(S(), c)
      modifies this
      ensures S() == T.Cleanup(old(S()), c)
    {
      mproc := mproc[c := T.ClearFlags(mproc[c]).(pid := 0)];
      procsInUse := if procsInUse > 0 then procsInUse - 1 else 0;
      log := log + [T.Freed(c)];
    }

    method TellParent(c: nat)
      requires T.Shape(S()) && T.InTable(S(), c)
      modifies this
      ensures S() == T.TellParent(old(S()), c)
    {
      var p := mproc[c].parent;
      if p == 0 || !mproc[c].zombie || mproc[c].toldParent {
        panicked := true;
        return;
      }
      mproc := mproc[p := mproc[p].(waiting := false)];
      mproc := mproc[c := mproc[c].(zombie := false)];
      mproc := mproc[c := mproc[c].(toldParent := true)];
      log := log + [T.Told(c, p)];
    }

    method TellTracer(c: nat)
      requires T.Shape(S()) && T.InTable(S(), c)
      modifies this
      ensures S() == T.TellTracer(old(S()), c)
    {
      var t := mproc[c].tracer;
      if t == 0 || !mproc[c].traceZombie {
        panicked := true;
        return;
      }
      mproc := mproc[t := mproc[t].(waiting := false)];
      mproc := mproc[c := mproc[c].(traceZombie := false)];
      mproc := mproc[c := mproc[c].(zombie := true)];
      log := log + [T.TracerTold(c, t)];
    }

    method CheckParent(c: nat, tryCleanup: bool)
      requires T.Shape(S()) && T.InTable(S(), c)
      modifies this
      ensures S() == T.CheckParent(old(S()), c, tryCleanup)
    {
      var p := mproc[c].parent;
      if mproc[p].exiting {
      } else if T.WaitTest(mproc[p], mproc[c]) {
        TellParent(c);
        if tryCleanup && mproc[c].vfs == T.NoCall {
          Cleanup(c);
        }
      }
    }

    method Zombify(c: nat)
      requires T.Shape(S()) && T.InTable(S(), c)
      modifies this
      ensures S() == T.Zombify(old(S()), c)
    {
      hide T.CheckParent, T.TellTracer;
      if mproc[c].traceZombie || mproc[c].zombie {
        panicked := true;
        return;
      }
      if mproc[c].tracer != T.NO_TRACER && mproc[c].tracer != mproc[c].parent {
        mproc := mproc[c := mproc[c].(traceZombie := true)];
        if !T.WaitTest(mproc[mproc[c].tracer], mproc[c]) {
          return;
        }
        TellTracer(c);
      } else {
        mproc := mproc[c := mproc[c].(zombie := true)];
      }
      CheckParent(c, false);
    }

    method TracerDied(c: nat)
      requires T.Shape(S()) && T.InTable(S(), c)
      modifies this
      ensures S() == T.TracerDied(old(S()), c)
    {
      hide T.CheckParent;
      mproc := mproc[c := mproc[c].(tracer := T.NO_TRACER, traceExit := false)];
      if !mproc[c].exiting {
        return;
      }
      if mproc[c].traceZombie {
        mproc := mproc[c := mproc[c].(traceZombie := false, zombie := true)];
        assert mproc == old(mproc)[c := mproc[c]];
        CheckParent(c, true);
      }
    }

    method DisinheritOne(x: nat, i: nat)
      requires T.Shape(S()) && T.InTable(S(), i)
      modifies this
      ensures S() == T.DisinheritOne(old(S()), x, i)
    {
      hide T.CheckParent, T.TracerDied;
      if mproc[i].inUse {
        if mproc[i].tracer == x {
          TracerDied(i);
        }
        if mproc[i].parent == x {
          mproc := mproc[i := mproc[i].(parent := T.INIT)];
          if mproc[i].zombie {
            CheckParent(i, true);
          }
        }
      }
    }

    /** The children and tracees of exiting process `x` lose it. */
    method Disinherit(x: nat)
      requires T.Shape(S())
      modifies this
      ensures S() == T.Disinherit(old(S()), x, 0)
    {
      hide T.DisinheritOne;
      var i := 0;
      while i < T.NR_PROCS
        invariant 0 <= i <= T.NR_PROCS && T.Shape(S())
        invariant T.Disinherit(S(), x, i) == T.Disinherit(old(S()), x, 0)
      {
        DisinheritOne(x, i);
        i := i + 1;
      }
    }

    method ExitProc(c: nat, dump: bool, byTracer: bool)
      requires T.Shape(S()) && T.InTable(S(), c)
      modifies this
      ensures S() == T.ExitProc(old(S()), c, dump, byTracer)
      ensures old(Inv(S()) && MayExit(S(), c, byTracer)) ==> Inv(S())
    {
      if Inv(S()) && MayExit(S(), c, byTracer) {
        ExitKeeps(S(), c, dump, byTracer);
      }
      hide Inv, MayExit, T.Zombify, T.Disinherit;
      if c == T.INIT {
        return;
      }
      var dumpCore := T.DumpsCore(mproc[c], dump);
      mproc := mproc[c := T.Leaving(mproc[c], dump, byTracer)];
      log := log + [T.Exited(c)];
      if !dumpCore {
        Zombify(c);
      }
      Disinherit(c);
    }

    method ExitRestart(c: nat, dump: bool)
      requires T.Shape(S()) && T.InTable(S(), c)
      modifies this
      ensures S() == T.ExitRestart(old(S()), c, dump)
    {
      hide T.Zombify, T.Cleanup;
      mproc := mproc[c := mproc[c].(vfs := T.NoCall)];
      log := log + [T.Replied(c)];
      if dump {
        Zombify(c);
      }
      if mproc[c].toldParent {
        Cleanup(c);
      }
    }

    method VfsReply(c: nat)
      requires Inv(S()) && c < T.NR_PROCS && mproc[c].inUse && mproc[c].vfs != T.NoCall
      modifies this
      ensures S() == T.VfsReply(old(S()), c) && Inv(S())
    {
      VfsReplyKeeps(S(), c);
      hide InvBut;
      match mproc[c].vfs
      case ExitCall => ExitRestart(c, false);
      case CoreCall => ExitRestart(c, true);
      case OtherCall => mproc := mproc[c := mproc[c].(vfs := T.NoCall)];
    }

    method DoWaitpid(w: nat, pid: int, nohang: bool) returns (r: T.WaitResult)
      requires Inv(S()) && MayCall(S(), w)
      modifies this
      ensures (S(), r) == T.WaitPid(old(S()), w, pid, nohang) && Inv(S())
    {
      hide InvBut, T.CheckParent, T.TellTracer, T.TellParent, T.Cleanup;
      ScanKeeps(S(), w, T.PidArg(mproc[w], pid), nohang, 0, 0);
      var pidarg := T.PidArg(mproc[w], pid);
      var children := 0;
      var i := 0;
      while i < T.NR_PROCS
        invariant 0 <= i <= T.NR_PROCS && 0 <= children && S() == old(S()) && T.Shape(S())
        invariant T.Scan(S(), w, pidarg, nohang, i, children) == T.WaitPid(old(S()), w, pid, nohang)
      {
        if T.Acceptable(mproc[i], w, pidarg) {
          match T.ActionOn(mproc[i], w)
          case Traced =>
            TellTracer(i);
            CheckParent(i, true);
            return T.Suspend;
          case Stopped =>
            mproc := mproc[i := mproc[i].(stopSignals := mproc[i].stopSignals - 1)];
            return T.Reply(mproc[i].pid);
          case Collect =>
            TellParent(i);
            if mproc[i].vfs == T.NoCall {
              Cleanup(i);
            }
            return T.Suspend;
          case Pass =>
            children := children + 1;
        }
        i := i + 1;
      }
      if children == 0 {
        return T.ECHILD;
      }
      if nohang {
        return T.NoHang;
      }
      mproc := mproc[w := mproc[w].(waiting := true, wpid := pidarg)];
      return T.Suspend;
    }

    /** The do-while search for a child slot. */
    method FindSlot() returns (n: nat)
      requires |mproc| == T.NR_PROCS && nextChild < T.NR_PROCS
      modifies this`nextChild
      ensures (nextChild, n) == T.Search(mproc, old(nextChild), 0)
    {
      nextChild := (nextChild + 1) % T.NR_PROCS;
      n := 1;
      while mproc[nextChild].inUse && n <= T.NR_PROCS
        invariant nextChild < T.NR_PROCS && 1 <= n <= T.NR_PROCS + 1
        invariant T.Search(mproc, old(nextChild), 0) ==
                  if mproc[nextChild].inUse && n <= T.NR_PROCS then T.Search(mproc, nextChild, n) else (nextChild, n)
        decreases T.NR_PROCS + 1 - n
      {
        nextChild := T.Wrap(nextChild);
        n := n + 1;
      }
    }

    method DoFork(w: nat, pid: int, vmOk: bool) returns (r: T.ForkResult)
      requires T.Shape(S()) && w < T.NR_PROCS && nextChild < T.NR_PROCS
      modifies this
      ensures (S(), r) == T.Fork(old(S()), w, pid, vmOk)
      ensures old(Inv(S()) && MayCall(S(), w)) && pid > 0 ==> Inv(S()) && r != T.ForkPanic
    {
      if Inv(S()) && MayCall(S(), w) && pid > 0 {
        ForkKeeps(S(), w, pid, vmOk);
      }
      hide InvBut;
      if T.TableFull(S(), w) {
        return T.EAGAIN;
      }
      var n := FindSlot();
      if n > T.NR_PROCS || mproc[nextChild].inUse {
        panicked := true;
        return T.ForkPanic;
      }
      if !vmOk {
        return T.VmError;
      }
      procsInUse := procsInUse + 1;
      mproc := mproc[nextChild := T.ChildOf(mproc[w], w, pid)];
      log := log + [T.Created(nextChild)];
      return T.Forked(nextChild);
    }
  }
}
