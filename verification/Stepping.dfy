/** The debugger's execution control: run states, call stack and breakpoints (src/server/debugger.cc). */
module Stepping {
  import opened Common

  datatype State = NotStarted | Stopped | RunToFinish | RunBkp | RunStep | RunStepOver | RunStepOut | Error | Exit

  datatype UpdateKind = UpdError | UpdExit | CallSub | RetSub | UpdOk

  /** What the VM reports after an instruction; `addr` is the next instruction to execute. */
  datatype UpdateInfos = UpdateInfos(kind: UpdateKind, addr: U64)

  /** `callAddr` is None as long as the frame's field is uninitialised. */
  datatype CallInfos = CallInfos(startAddr: U64, callAddr: Option<U64>)

  datatype ResumeType = ToFinish | Continue | Step | StepOver | StepOut

  datatype Db = Db(
    state: State,
    stack: seq<CallInfos>,
    insAddr: U64,
    breakpts: set<U64>,
    stepOverDepth: nat,
    memorySize: U64)

  predicate Running(s: State) {
    s in {RunToFinish, RunBkp, RunStep, RunStepOver, RunStepOut}
  }

  predicate Finished(s: State) {
    s == Error || s == Exit
  }

  predicate DbStopped(s: State) {
    s == Stopped || s == Error || s == Exit
  }

  predicate Normal(u: UpdateInfos) {
    u.kind != UpdError && u.kind != UpdExit
  }

  // Specification functions.

  /** The stack after one normal update made while `oldAddr` was the execution point. An empty stack is
      never popped or extended by the program; it stays empty here. */
  function NextStack(stack: seq<CallInfos>, oldAddr: U64, u: UpdateInfos): seq<CallInfos> {
    if stack == [] || (u.kind != CallSub && u.kind != RetSub) then stack
    else
      var last := |stack| - 1;
      if u.kind == RetSub then stack[..last]
      else stack[last := stack[last].(callAddr := Some(oldAddr))] + [CallInfos(u.addr, None)]
  }

  /** Whether a normal update that leaves `depth` frames and arrives at `u.addr` ends the run. */
  predicate Halts(mode: State, stepOverDepth: nat, breakpts: set<U64>, u: UpdateInfos, depth: nat) {
    match mode
    case RunToFinish => false
    case RunStep => true
    case RunStepOver => depth <= stepOverDepth || u.addr in breakpts
    case RunStepOut => u.kind == RetSub || u.addr in breakpts
    case _ => u.addr in breakpts
  }

  function Update(db: Db, u: UpdateInfos): Db {
    if u.kind == UpdError then db.(state := Error)
    else if u.kind == UpdExit then db.(state := Exit)
    else
      var stack := NextStack(db.stack, db.insAddr, u);
      var state := if Halts(db.state, db.stepOverDepth, db.breakpts, u, |stack|) then Stopped else db.state;
      db.(stack := stack, insAddr := u.addr, state := state)
  }

  function ModeOf(t: ResumeType): State {
    match t
    case ToFinish => RunToFinish
    case Continue => RunBkp
    case Step => RunStep
    case StepOver => RunStepOver
    case StepOut => RunStepOut
  }

  /** An unfinished debugger after a resume. */
  function Resumed(db: Db, t: ResumeType): Db {
    db.(state := ModeOf(t), stepOverDepth := if t == StepOver then |db.stack| else db.stepOverDepth)
  }

  function Resume(db: Db, t: ResumeType): Result<Db> {
    if Finished(db.state) then Err("cannot resume execution: " + "program already finished") else Ok(Resumed(db, t))
  }

  function Stop(db: Db): Result<Db> {
    if Finished(db.state) then Err("cannot stop execution: " + "program already finished")
    else if db.state == Stopped then Err("cannot stop execution: " + "program already stopped")
    else Ok(db.(state := Stopped))
  }

  function AddBreakpoint(db: Db, addr: U64): Result<Db> {
    if addr >= db.memorySize then Err("cannot add breakpoint: " + "address outside of memory range")
    else if addr in db.breakpts then Err("cannot add breakpoint: " + "There is already one at this address")
    else Ok(db.(breakpts := db.breakpts + {addr}))
  }

  function DelBreakpoint(db: Db, addr: U64): Result<Db> {
    if addr >= db.memorySize then Err("cannot delete breakpoint: " + "address outside of memory range")
    else if addr !in db.breakpts then Err("cannot delete breakpoint: " + "there is none at this address")
    else Ok(db.(breakpts := db.breakpts - {addr}))
  }

  class Debugger {
    var state: State
    var callStack: seq<CallInfos>
    var insAddr: U64
    var breakpts: set<U64>
    var stepOverDepth: nat
    var memorySize: U64

    ghost function Abs(): Db
      reads this
    {
      Db(state, callStack, insAddr, breakpts, stepOverDepth, memorySize)
    }

    constructor ()
      ensures state == NotStarted && callStack == [] && breakpts == {}
    {
      state, callStack, insAddr, breakpts, stepOverDepth, memorySize := NotStarted, [], 0, {}, 0, 0;
    }

    /** Called once, with the memory size and the first update the VM reports. */
    method OnInit(size: U64, u: UpdateInfos)
      requires state == NotStarted && u.kind == UpdOk
      modifies this
      ensures Abs() == old(Abs()).(state := RunToFinish, insAddr := u.addr, memorySize := size,
                                   stack := old(callStack) + [CallInfos(u.addr, None)])
    {
      state := RunToFinish;
      memorySize := size;
      insAddr := u.addr;
      callStack := callStack + [CallInfos(insAddr, None)];
    }

    method OnUpdate(u: UpdateInfos)
      requires state != NotStarted && state != Stopped && state != Error && state != Exit
      requires u.kind == CallSub || u.kind == RetSub ==> callStack != []
      modifies this
      ensures Abs() == Update(old(Abs()), u)
    {
      if u.kind == UpdError {
        state := Error;
        return;
      }
      if u.kind == UpdExit {
        state := Exit;
        return;
      }
      var oldAddr := insAddr;
      insAddr := u.addr;
      if u.kind == CallSub {
        var back := |callStack| - 1;
        callStack := callStack[back := callStack[back].(callAddr := Some(oldAddr))];
        callStack := callStack + [CallInfos(insAddr, None)];
      } else if u.kind == RetSub {
        callStack := callStack[..|callStack| - 1];
      }
      if state == RunToFinish {
        return;
      }
      if state == RunStep {
        state := Stopped;
        return;
      }
      if state == RunStepOver && stepOverDepth >= |callStack| {
        state := Stopped;
        return;
      }
      if state == RunStepOut && u.kind == RetSub {
        state := Stopped;
        return;
      }
      if insAddr in breakpts {
        state := Stopped;
      }
    }

    method DoResume(t: ResumeType) returns (r: Result<()>)
      modifies this
      ensures match Resume(old(Abs()), t)
              case Err(m) => r == Err(m) && Abs() == old(Abs())
              case Ok(db) => r == Ok(()) && Abs() == db
    {
      if state == Exit || state == Error {
        return Err("cannot resume execution: " + "program already finished");
      }
      if t == ToFinish {
        state := RunToFinish;
      } else if t == Continue {
        state := RunBkp;
      } else if t == Step {
        state := RunStep;
      } else if t == StepOver {
        state := RunStepOver;
        stepOverDepth := |callStack|;
      } else if t == StepOut {
        state := RunStepOut;
      }
      r := Ok(());
    }

    method DoStop() returns (r: Result<()>)
      requires state != NotStarted
      modifies this
      ensures match Stop(old(Abs()))
              case Err(m) => r == Err(m) && Abs() == old(Abs())
              case Ok(db) => r == Ok(()) && Abs() == db
    {
      if state == Exit || state == Error {
        return Err("cannot stop execution: " + "program already finished");
      }
      if state == Stopped {
        return Err("cannot stop execution: " + "program already stopped");
      }
      state := Stopped;
      r := Ok(());
    }

    method DoAddBreakpoint(addr: U64) returns (r: Result<()>)
      modifies this
      ensures match AddBreakpoint(old(Abs()), addr)
              case Err(m) => r == Err(m) && Abs() == old(Abs())
              case Ok(db) => r == Ok(()) && Abs() == db
    {
      if addr >= memorySize {
        return Err("cannot add breakpoint: " + "address outside of memory range");
      }
      if addr in breakpts {
        return Err("cannot add breakpoint: " + "There is already one at this address");
      }
      breakpts := breakpts + {addr};
      r := Ok(());
    }

    method DoDelBreakpoint(addr: U64) returns (r: Result<()>)
      modifies this
      ensures match DelBreakpoint(old(Abs()), addr)
              case Err(m) => r == Err(m) && Abs() == old(Abs())
              case Ok(db) => r == Ok(()) && Abs() == db
    {
      if addr >= memorySize {
        return Err("cannot delete breakpoint: " + "address outside of memory range");
      }
      if addr !in breakpts {
        return Err("cannot delete breakpoint: " + "there is none at this address");
      }
      breakpts := breakpts - {addr};
      r := Ok(());
    }
  }

  // Call stack and depth after the first `n` updates of a trace.

  function Addr(addr0: U64, us: seq<UpdateInfos>, n: nat): U64
    requires n <= |us|
  {
    if n == 0 then addr0 else us[n - 1].addr
  }

  function Frames(stack0: seq<CallInfos>, addr0: U64, us: seq<UpdateInfos>, n: nat): seq<CallInfos>
    requires n <= |us|
  {
    if n == 0 then stack0
    else NextStack(Frames(stack0, addr0, us, n - 1), Addr(addr0, us, n - 1), us[n - 1])
  }

  /** Calls minus returns, counted from `d0`. */
  function Depth(d0: int, us: seq<UpdateInfos>, n: nat): int
    requires n <= |us|
  {
    if n == 0 then d0
    else Depth(d0, us, n - 1) + match us[n - 1].kind { case CallSub => 1 case RetSub => -1 case _ => 0 }
  }

  /** The first `n` updates never return from the outermost frame. */
  ghost predicate StaysInside(d0: int, us: seq<UpdateInfos>, n: nat)
    requires n <= |us|
  {
    forall k :: 0 <= k <= n ==> Depth(d0, us, k) >= 1
  }

  lemma {:induction false} DepthIsStackSize(stack0: seq<CallInfos>, addr0: U64, us: seq<UpdateInfos>, n: nat)
    requires n <= |us| && StaysInside(|stack0|, us, n)
    ensures |Frames(stack0, addr0, us, n)| == Depth(|stack0|, us, n)
  {
    if n > 0 {
      assert StaysInside(|stack0|, us, n - 1);
      DepthIsStackSize(stack0, addr0, us, n - 1);
    }
  }

  /** Update `c` is a call whose return is not among the first `n` updates: the depth stays above the
      depth the call was made at. */
  ghost predicate Unmatched(us: seq<UpdateInfos>, n: nat, c: int)
    requires n <= |us|
  {
    0 <= c < n && us[c].kind == CallSub && forall k :: c < k <= n ==> Depth(1, us, k) > Depth(1, us, c)
  }

  /** Call `c`, made at depth l, owns frame l and left its address in frame l - 1. */
  ghost predicate OwnsFrame(st: seq<CallInfos>, addr0: U64, us: seq<UpdateInfos>, c: nat)
    requires c < |us|
  {
    var l := Depth(1, us, c);
    1 <= l < |st| && st[l].startAddr == us[c].addr && st[l - 1].callAddr == Some(Addr(addr0, us, c))
  }

  /** The call stack of a program started at `addr0` is its list of unmatched calls on top of a frame for
      the entry point. */
  lemma StackIsUnmatchedCalls(addr0: U64, us: seq<UpdateInfos>, n: nat)
    requires n <= |us| && StaysInside(1, us, n)
    ensures var st := Frames([CallInfos(addr0, None)], addr0, us, n);
            && |st| == Depth(1, us, n)
            && st[0].startAddr == addr0
            && forall c :: Unmatched(us, n, c) ==> OwnsFrame(st, addr0, us, c)
  {
    var s0 := [CallInfos(addr0, None)];
    OuterFramesKept(s0, addr0, us, n, 1);
    forall c | Unmatched(us, n, c)
      ensures OwnsFrame(Frames(s0, addr0, us, n), addr0, us, c)
    {
      CallOwnsFrame(addr0, us, n, c);
    }
  }

  lemma {:induction false} CallOwnsFrame(addr0: U64, us: seq<UpdateInfos>, n: nat, c: nat)
    requires n <= |us| && StaysInside(1, us, n) && Unmatched(us, n, c)
    ensures OwnsFrame(Frames([CallInfos(addr0, None)], addr0, us, n), addr0, us, c)
  {
    var s0 := [CallInfos(addr0, None)];
    assert StaysInside(1, us, n - 1);
    DepthIsStackSize(s0, addr0, us, n - 1);
    DepthIsStackSize(s0, addr0, us, n);
    assert Depth(1, us, n) > Depth(1, us, c) >= 1;
    if c < n - 1 {
      CallOwnsFrame(addr0, us, n - 1, c);
    }
  }

  /** Every frame above the outermost one belongs to exactly one unmatched call. */
  lemma {:induction false} FrameHasCall(us: seq<UpdateInfos>, n: nat, l: nat) returns (c: nat)
    requires n <= |us| && StaysInside(1, us, n) && 1 <= l < Depth(1, us, n)
    ensures Unmatched(us, n, c) && Depth(1, us, c) == l
    ensures forall d :: Unmatched(us, n, d) && Depth(1, us, d) == l ==> d == c
  {
    assert StaysInside(1, us, n - 1);
    if Depth(1, us, n - 1) > l {
      c := FrameHasCall(us, n - 1, l);
      assert forall d :: Unmatched(us, n, d) && Depth(1, us, d) == l && d < n - 1 ==> Unmatched(us, n - 1, d);
    } else {
      c := n - 1;
      assert forall d :: Unmatched(us, n, d) && d < c ==> Depth(1, us, c) > Depth(1, us, d);
    }
  }

  // Runs: the debugger is updated until it stops.

  /** The debugger after the first `n` updates, of which those after a stop are not delivered. */
  function After(db: Db, us: seq<UpdateInfos>, n: nat): Db
    requires n <= |us|
  {
    if n == 0 then db
    else
      var before := After(db, us, n - 1);
      if Running(before.state) then Update(before, us[n - 1]) else before
  }

  predicate StoppedBy(db: Db, us: seq<UpdateInfos>, n: nat)
    requires n <= |us|
  {
    !Running(After(db, us, n).state)
  }

  /** Update `k`, the first not to leave the debugger running, would end a run started in `db`. */
  predicate Ends(db: Db, us: seq<UpdateInfos>, k: nat)
    requires k < |us|
  {
    !Normal(us[k]) || Halts(db.state, db.stepOverDepth, db.breakpts, us[k], |Frames(db.stack, db.insAddr, us, k + 1)|)
  }

  /** The debugger, still running, as the first `n` updates have moved it. */
  function Moved(db: Db, us: seq<UpdateInfos>, n: nat): Db
    requires n <= |us|
  {
    db.(stack := Frames(db.stack, db.insAddr, us, n), insAddr := Addr(db.insAddr, us, n))
  }

  lemma NextUpdate(db: Db, us: seq<UpdateInfos>, n: nat)
    requires n < |us| && Running(db.state) && After(db, us, n) == Moved(db, us, n)
    ensures StoppedBy(db, us, n + 1) <==> Ends(db, us, n)
    ensures !Ends(db, us, n) ==> After(db, us, n + 1) == Moved(db, us, n + 1)
  {
    hide NextStack, Halts;
  }

  lemma StaysStopped(db: Db, us: seq<UpdateInfos>, n: nat)
    requires n < |us| && StoppedBy(db, us, n)
    ensures StoppedBy(db, us, n + 1)
  {
    hide Update;
  }

  /** One of the first `n` updates would end the run. */
  ghost predicate EndedBy(db: Db, us: seq<UpdateInfos>, n: nat)
    requires n <= |us|
  {
    exists k :: 0 <= k < n && Ends(db, us, k)
  }

  lemma EndedByNext(db: Db, us: seq<UpdateInfos>, n: nat)
    requires n < |us|
    ensures EndedBy(db, us, n + 1) <==> EndedBy(db, us, n) || Ends(db, us, n)
  {
    hide Ends;
    if k :| 0 <= k < n + 1 && Ends(db, us, k) {
      assert k < n || k == n;
    }
  }

  lemma RunBegins(db: Db, us: seq<UpdateInfos>)
    requires Running(db.state)
    ensures !StoppedBy(db, us, 0) && !EndedBy(db, us, 0) && After(db, us, 0) == Moved(db, us, 0)
  {
  }

  /** A run ends at the first update that ends it, and until then only the stack and the execution point move. */
  lemma {:induction false} RunEndsAtFirst(db: Db, us: seq<UpdateInfos>, n: nat)
    requires n <= |us| && Running(db.state)
    ensures StoppedBy(db, us, n) <==> EndedBy(db, us, n)
    ensures !StoppedBy(db, us, n) ==> After(db, us, n) == Moved(db, us, n)
  {
    hide After, Update, Ends, Moved, StoppedBy, EndedBy, Halts, NextStack, Running;
    if n == 0 {
      RunBegins(db, us);
    } else {
      RunEndsAtFirst(db, us, n - 1);
      EndedByNext(db, us, n - 1);
      if StoppedBy(db, us, n - 1) {
        StaysStopped(db, us, n - 1);
      } else {
        NextUpdate(db, us, n - 1);
      }
    }
  }

  lemma EndsWithStop(db: Db, us: seq<UpdateInfos>, n: nat)
    requires n < |us| && Running(db.state) && !StoppedBy(db, us, n) && StoppedBy(db, us, n + 1) && Normal(us[n])
    ensures After(db, us, n + 1) == db.(state := Stopped, stack := Frames(db.stack, db.insAddr, us, n + 1),
                                        insAddr := us[n].addr)
    ensures Halts(db.state, db.stepOverDepth, db.breakpts, us[n], |Frames(db.stack, db.insAddr, us, n + 1)|)
  {
    RunEndsAtFirst(db, us, n);
  }

  /** On the same trace, stack and breakpoints, a finer way of resuming stops no later than a coarser one. */
  lemma ModesOrdered(db: Db, us: seq<UpdateInfos>, n: nat)
    requires n <= |us| && !Finished(db.state)
    ensures StoppedBy(Resumed(db, ToFinish), us, n) ==> StoppedBy(Resumed(db, Continue), us, n)
    ensures StoppedBy(Resumed(db, Continue), us, n) ==> StoppedBy(Resumed(db, StepOver), us, n)
    ensures StoppedBy(Resumed(db, Continue), us, n) ==> StoppedBy(Resumed(db, StepOut), us, n)
    ensures StoppedBy(Resumed(db, StepOver), us, n) ==> StoppedBy(Resumed(db, Step), us, n)
    ensures StoppedBy(Resumed(db, StepOut), us, n) ==> StoppedBy(Resumed(db, Step), us, n)
  {
    Finer(Resumed(db, ToFinish), Resumed(db, Continue), us, n);
    Finer(Resumed(db, Continue), Resumed(db, StepOver), us, n);
    Finer(Resumed(db, Continue), Resumed(db, StepOut), us, n);
    Finer(Resumed(db, StepOver), Resumed(db, Step), us, n);
    Finer(Resumed(db, StepOut), Resumed(db, Step), us, n);
  }

  /** If mode `b` halts wherever mode `a` does, a run in `b` stops no later than one in `a`. */
  lemma Finer(a: Db, b: Db, us: seq<UpdateInfos>, n: nat)
    requires n <= |us| && Running(a.state) && Running(b.state)
    requires a.stack == b.stack && a.insAddr == b.insAddr && a.breakpts == b.breakpts
    requires forall u, d :: Halts(a.state, a.stepOverDepth, a.breakpts, u, d) ==>
             Halts(b.state, b.stepOverDepth, b.breakpts, u, d)
    ensures StoppedBy(a, us, n) ==> StoppedBy(b, us, n)
  {
    RunEndsAtFirst(a, us, n);
    RunEndsAtFirst(b, us, n);
    if StoppedBy(a, us, n) {
      var k :| 0 <= k < n && Ends(a, us, k);
      assert Ends(b, us, k);
    }
  }

  /** Outside run-to-finish, arriving on a breakpoint always stops. */
  lemma BreakpointStops(db: Db, u: UpdateInfos)
    requires Running(db.state) && Normal(u) && u.addr in db.breakpts
    ensures Update(db, u).state == Stopped <==> db.state != RunToFinish
  {
  }

  /** The frames below depth `d` keep their start addresses while the depth does not go below `d`. */
  lemma {:induction false} OuterFramesKept(stack0: seq<CallInfos>, addr0: U64, us: seq<UpdateInfos>, n: nat, d: nat)
    requires n <= |us| && 1 <= d <= |stack0| && forall k :: 0 <= k <= n ==> Depth(|stack0|, us, k) >= d
    ensures |Frames(stack0, addr0, us, n)| == Depth(|stack0|, us, n)
    ensures forall i :: 0 <= i < d ==> Frames(stack0, addr0, us, n)[i].startAddr == stack0[i].startAddr
  {
    if n > 0 {
      OuterFramesKept(stack0, addr0, us, n - 1, d);
    }
  }

  /** Update `k` leaves the program deeper than it was in `db`, and off any breakpoint. */
  ghost predicate Deeper(db: Db, us: seq<UpdateInfos>, k: nat)
    requires k < |us|
  {
    Depth(|db.stack|, us, k + 1) > |db.stack| && us[k].addr !in db.breakpts
  }

  /** Step-over from depth D stops at the first update back at depth D or less, or on a breakpoint. */
  lemma StepOverStops(db: Db, us: seq<UpdateInfos>, n: nat)
    requires n < |us| && !Finished(db.state) && db.stack != [] && StaysInside(|db.stack|, us, n + 1)
    requires forall k :: 0 <= k <= n ==> Normal(us[k])
    requires !StoppedBy(Resumed(db, StepOver), us, n)
    ensures forall k :: 0 <= k < n ==> Deeper(db, us, k)
    ensures StoppedBy(Resumed(db, StepOver), us, n + 1) <==> !Deeper(db, us, n)
  {
    hide After, Frames, NextStack, Update, Halts, Ends, Depth, Deeper, Normal;
    var r := Resumed(db, StepOver);
    RunEndsAtFirst(r, us, n);
    RunEndsAtFirst(r, us, n + 1);
    forall k | 0 <= k <= n
      ensures Ends(r, us, k) <==> !Deeper(db, us, k)
    {
      StepOverEnds(db, us, k);
    }
  }

  lemma StepOverEnds(db: Db, us: seq<UpdateInfos>, k: nat)
    requires k < |us| && !Finished(db.state) && StaysInside(|db.stack|, us, k + 1) && Normal(us[k])
    ensures Ends(Resumed(db, StepOver), us, k) <==> !Deeper(db, us, k)
  {
    DepthIsStackSize(db.stack, db.insAddr, us, k + 1);
  }

  /** A step-over that stops at the depth it started from is in the frame it started from, with all outer
      frames in place, and a stop off any breakpoint is at that depth or in the caller. */
  lemma StepOverReturns(db: Db, us: seq<UpdateInfos>, n: nat)
    requires n < |us| && !Finished(db.state) && db.stack != [] && StaysInside(|db.stack|, us, n + 1)
    requires forall k :: 0 <= k <= n ==> Normal(us[k])
    requires !StoppedBy(Resumed(db, StepOver), us, n) && StoppedBy(Resumed(db, StepOver), us, n + 1)
    ensures var end := After(Resumed(db, StepOver), us, n + 1);
            && end.state == Stopped && end.insAddr == us[n].addr && |end.stack| == Depth(|db.stack|, us, n + 1)
            && (|end.stack| == |db.stack| ==> forall i :: 0 <= i < |db.stack| ==>
                end.stack[i].startAddr == db.stack[i].startAddr)
            && (us[n].addr !in db.breakpts ==> |end.stack| == |db.stack| || |end.stack| == |db.stack| - 1)
  {
    hide After, Frames, NextStack, Update, Halts, Normal;
    StepOverStops(db, us, n);
    assert !Deeper(db, us, n) && (n > 0 ==> Deeper(db, us, n - 1));
    assert forall k :: 0 <= k < n ==> Deeper(db, us, k);
    EndsWithStop(Resumed(db, StepOver), us, n);
    DepthIsStackSize(db.stack, db.insAddr, us, n + 1);
    if Depth(|db.stack|, us, n + 1) == |db.stack| {
      forall k | 0 < k <= n
        ensures Depth(|db.stack|, us, k) >= |db.stack|
      {
        assert Deeper(db, us, k - 1);
      }
      OuterFramesKept(db.stack, db.insAddr, us, n + 1, |db.stack|);
    }
  }

  /** Step-out stops at the first return or breakpoint, whichever subroutine returns. Off any breakpoint
      it is back in the caller exactly when no call was made on the way. */
  lemma StepOutReturns(db: Db, us: seq<UpdateInfos>, n: nat)
    requires n < |us| && !Finished(db.state) && db.stack != [] && StaysInside(|db.stack|, us, n + 1)
    requires forall k :: 0 <= k <= n ==> Normal(us[k])
    requires var r := Resumed(db, StepOut); !StoppedBy(r, us, n) && StoppedBy(r, us, n + 1)
    requires us[n].addr !in db.breakpts
    ensures var r := Resumed(db, StepOut);
            && us[n].kind == RetSub
            && (|After(r, us, n + 1).stack| == |db.stack| - 1 <==> forall k :: 0 <= k < n ==> us[k].kind != CallSub)
  {
    hide After, Update, Depth, Frames;
    var r := Resumed(db, StepOut);
    RunEndsAtFirst(r, us, n);
    EndsWithStop(r, us, n);
    forall k | 0 <= k < n
      ensures us[k].kind != RetSub
    {
      assert !Ends(r, us, k);
    }
    DepthIsStackSize(db.stack, db.insAddr, us, n + 1);
    DepthWithoutReturns(|db.stack|, us, n);
    DepthOfReturn(|db.stack|, us, n);
  }

  lemma DepthOfReturn(d0: int, us: seq<UpdateInfos>, n: nat)
    requires n < |us| && us[n].kind == RetSub
    ensures Depth(d0, us, n + 1) == Depth(d0, us, n) - 1
  {
  }

  lemma {:induction false} DepthWithoutReturns(d0: int, us: seq<UpdateInfos>, n: nat)
    requires n <= |us| && forall k :: 0 <= k < n ==> us[k].kind != RetSub
    ensures Depth(d0, us, n) >= d0
    ensures Depth(d0, us, n) == d0 <==> forall k :: 0 <= k < n ==> us[k].kind != CallSub
  {
    if n > 0 {
      DepthWithoutReturns(d0, us, n - 1);
    }
  }

  /** Stepping out of a subroutine that first calls another one stops inside it, not in its caller. */
  lemma StepOutStopsEarly(db: Db, callee: U64, back: U64)
    requires !Finished(db.state) && db.stack != [] && callee !in db.breakpts && back !in db.breakpts
    ensures var us := [UpdateInfos(CallSub, callee), UpdateInfos(RetSub, back)];
            var end := After(Resumed(db, StepOut), us, 2);
            end.state == Stopped && |end.stack| == |db.stack|
  {
    var us := [UpdateInfos(CallSub, callee), UpdateInfos(RetSub, back)];
    var r := Resumed(db, StepOut);
    assert After(r, us, 0) == r;
    assert After(r, us, 1) == Update(r, us[0]);
    assert After(r, us, 2) == Update(Update(r, us[0]), us[1]);
  }

  // What each way of resuming comes to.

  /** A program that can be resumed has not finished, and only the mode of the debugger changes. */
  lemma ResumeKeeps(db: Db, t: ResumeType)
    ensures Resume(db, t).Ok? <==> db.state != Error && db.state != Exit
    ensures Resume(db, t).Ok? ==>
              var d := Resume(db, t).value;
              && d.stack == db.stack && d.insAddr == db.insAddr
              && d.breakpts == db.breakpts && d.memorySize == db.memorySize
  {
  }

  /** As long as the program neither fails nor exits, a run can only end stopped. */
  lemma {:induction false} EndsStopped(db: Db, us: seq<UpdateInfos>, n: nat)
    requires n <= |us| && Running(db.state) && forall k :: 0 <= k < n ==> Normal(us[k])
    ensures StoppedBy(db, us, n) <==> After(db, us, n).state == Stopped
  {
    if n > 0 {
      hide NextStack, Halts;
      EndsStopped(db, us, n - 1);
    }
  }

  /** What ends a run of each kind, over any updates of a program that neither fails nor exits: nothing,
      a breakpoint, the first update, a return or a breakpoint. */
  lemma StopsWhen(db: Db, t: ResumeType, us: seq<UpdateInfos>, n: nat)
    requires n <= |us| && forall k :: 0 <= k < n ==> us[k].kind != UpdError && us[k].kind != UpdExit
    requires Resume(db, t).Ok?
    ensures var stops := After(Resume(db, t).value, us, n).state == Stopped;
            match t
            case ToFinish => !stops
            case Continue => stops <==> exists k :: 0 <= k < n && us[k].addr in db.breakpts
            case Step => stops <==> n > 0
            case StepOut => stops <==> exists k :: 0 <= k < n && (us[k].kind == RetSub || us[k].addr in db.breakpts)
            case StepOver => true
  {
    hide After, Frames, Update, StoppedBy, Depth;
    var d := Resume(db, t).value;
    EndsStopped(d, us, n);
    RunEndsAtFirst(d, us, n);
    if t == Step && n > 0 {
      assert Ends(d, us, 0);
    }
    assert d.breakpts == db.breakpts;
    match t {
      case Continue => BreakpointEnds(d, us, n);
      case StepOut => ReturnEnds(d, us, n);
      case _ =>
    }
  }

  /** A step-over ends as soon as an update leaves no more frames than there were, or is on a breakpoint. */
  lemma StepOverWhen(db: Db, us: seq<UpdateInfos>, n: nat) returns (at: nat)
    requires n <= |us| && forall k :: 0 <= k < n ==> us[k].kind != UpdError && us[k].kind != UpdExit
    requires Resume(db, StepOver).Ok? && db.stack != [] && StaysInside(|db.stack|, us, n)
    ensures var stops := After(Resume(db, StepOver).value, us, n).state == Stopped;
            && (stops ==> 0 < at <= n && (Depth(|db.stack|, us, at) <= |db.stack| || us[at - 1].addr in db.breakpts))
            && forall k :: 0 < k <= n && (Depth(|db.stack|, us, k) <= |db.stack| || us[k - 1].addr in db.breakpts) ==>
                 stops
  {
    hide After, Update, StoppedBy, Depth, Frames;
    var d := Resume(db, StepOver).value;
    EndsStopped(d, us, n);
    RunEndsAtFirst(d, us, n);
    forall k | 0 < k <= n
      ensures Ends(d, us, k - 1) <==> Depth(|db.stack|, us, k) <= |db.stack| || us[k - 1].addr in db.breakpts
    {
      DepthIsStackSize(db.stack, db.insAddr, us, k);
    }
    at := 0;
    if StoppedBy(d, us, n) {
      var j :| 0 <= j < n && Ends(d, us, j);
      at := j + 1;
    }
  }

  lemma BreakpointEnds(db: Db, us: seq<UpdateInfos>, n: nat)
    requires n <= |us| && db.state == RunBkp && forall k :: 0 <= k < n ==> Normal(us[k])
    ensures EndedBy(db, us, n) <==> exists k :: 0 <= k < n && us[k].addr in db.breakpts
  {
    if k :| 0 <= k < n && us[k].addr in db.breakpts {
      assert Ends(db, us, k);
    }
  }

  lemma ReturnEnds(db: Db, us: seq<UpdateInfos>, n: nat)
    requires n <= |us| && db.state == RunStepOut && forall k :: 0 <= k < n ==> Normal(us[k])
    ensures EndedBy(db, us, n) <==> exists k :: 0 <= k < n && (us[k].kind == RetSub || us[k].addr in db.breakpts)
  {
    if k :| 0 <= k < n && (us[k].kind == RetSub || us[k].addr in db.breakpts) {
      assert Ends(db, us, k);
    }
  }

  /** An error or the exit of the program ends any run, at the place where it was. */
  lemma FinishEnds(db: Db, us: seq<UpdateInfos>, n: nat)
    requires n < |us| && Running(After(db, us, n).state)
    ensures us[n].kind == UpdError ==> After(db, us, n + 1) == After(db, us, n).(state := State.Error)
    ensures us[n].kind == UpdExit ==> After(db, us, n + 1) == After(db, us, n).(state := State.Exit)
  {
  }

  /** The call address of a frame is where the last call was made from it. */
  lemma {:induction false} CallAddrIsLast(addr0: U64, us: seq<UpdateInfos>, n: nat, c: nat)
    requires c < n <= |us| && StaysInside(1, us, n) && us[c].kind == CallSub
    requires forall k :: c < k <= n ==> Depth(1, us, k) >= Depth(1, us, c)
    requires forall k :: c < k < n && us[k].kind == CallSub ==> Depth(1, us, k) != Depth(1, us, c)
    ensures var st, l := Frames([CallInfos(addr0, None)], addr0, us, n), Depth(1, us, c);
            0 < l <= |st| && st[l - 1].callAddr == Some(if c == 0 then addr0 else us[c - 1].addr)
  {
    hide NextStack, Depth;
    var s0 := [CallInfos(addr0, None)];
    assert StaysInside(1, us, n - 1);
    DepthIsStackSize(s0, addr0, us, n - 1);
    DepthIsStackSize(s0, addr0, us, n);
    var before, at := Frames(s0, addr0, us, n - 1), Addr(addr0, us, n - 1);
    if c < n - 1 {
      CallAddrIsLast(addr0, us, n - 1, c);
      KeepsCallAddr(before, at, us[n - 1], Depth(1, us, c));
    } else {
      LeavesCallAddr(before, at, us[n - 1]);
    }
  }

  lemma LeavesCallAddr(st: seq<CallInfos>, at: U64, u: UpdateInfos)
    requires st != [] && u.kind == CallSub
    ensures var next := NextStack(st, at, u); |next| > |st| && next[|st| - 1].callAddr == Some(at)
  {
  }

  /** Only a call made from a frame changes its call address. */
  lemma KeepsCallAddr(st: seq<CallInfos>, at: U64, u: UpdateInfos, l: nat)
    requires 0 < l <= |st| && l <= |NextStack(st, at, u)| && (u.kind == CallSub ==> |st| != l)
    ensures NextStack(st, at, u)[l - 1].callAddr == st[l - 1].callAddr
  {
  }

  // Whole sessions, with commands between the updates.

  datatype Event = Upd(u: UpdateInfos) | Res(t: ResumeType) | Halt | AddBkp(addr: U64) | DelBkp(addr: U64)

  function Kept(r: Result<Db>, db: Db): Db {
    if r.Ok? then r.value else db
  }

  /** A session; an update is only delivered to a running debugger. */
  function Play(db: Db, es: seq<Event>): Db {
    if es == [] then db
    else Do(Play(db, es[..|es| - 1]), es[|es| - 1])
  }

  /** The normal updates a session delivered. */
  function Delivered(db: Db, es: seq<Event>): seq<UpdateInfos> {
    if es == [] then []
    else
      var front := es[..|es| - 1];
      var e := es[|es| - 1];
      Delivered(db, front) + if e.Upd? && Running(Play(db, front).state) && Normal(e.u) then [e.u] else []
  }

  function Do(before: Db, e: Event): Db {
    match e
    case Upd(u) => if Running(before.state) then Update(before, u) else before
    case Res(t) => Kept(Resume(before, t), before)
    case Halt => Kept(Stop(before), before)
    case AddBkp(a) => Kept(AddBreakpoint(before, a), before)
    case DelBkp(a) => Kept(DelBreakpoint(before, a), before)
  }

  lemma EventStep(db: Db, e: Event)
    ensures var moves := e.Upd? && Running(db.state) && Normal(e.u);
            && Do(db, e).stack == (if moves then NextStack(db.stack, db.insAddr, e.u) else db.stack)
            && Do(db, e).insAddr == if moves then e.u.addr else db.insAddr
  {
  }

  /** Commands never touch the stack or the execution point: over any session they are those of the
      delivered updates alone. */
  lemma {:induction false} CommandsKeepStack(db: Db, es: seq<Event>)
    ensures var us := Delivered(db, es);
            && Play(db, es).stack == Frames(db.stack, db.insAddr, us, |us|)
            && Play(db, es).insAddr == Addr(db.insAddr, us, |us|)
  {
    if es != [] {
      hide Do, NextStack, Running, Normal, Frames, Addr;
      var n := |es| - 1;
      var front := es[..n];
      CommandsKeepStack(db, front);
      EventStep(Play(db, front), es[n]);
      if es[n].Upd? && Running(Play(db, front).state) && Normal(es[n].u) {
        MovesOn(db.stack, db.insAddr, Delivered(db, front), es[n].u);
      } else {
        assert Delivered(db, es) == Delivered(db, front);
      }
    } else {
      NoMoves(db.stack, db.insAddr);
    }
  }

  lemma NoMoves(stack0: seq<CallInfos>, addr0: U64)
    ensures Frames(stack0, addr0, [], 0) == stack0 && Addr(addr0, [], 0) == addr0
  {
  }

  lemma MovesOn(stack0: seq<CallInfos>, addr0: U64, us: seq<UpdateInfos>, u: UpdateInfos)
    ensures Frames(stack0, addr0, us + [u], |us| + 1) ==
            NextStack(Frames(stack0, addr0, us, |us|), Addr(addr0, us, |us|), u)
    ensures Addr(addr0, us + [u], |us| + 1) == u.addr
  {
    FramesOfPrefix(stack0, addr0, us, us + [u], |us|);
  }

  lemma {:induction false} FramesOfPrefix(stack0: seq<CallInfos>, addr0: U64, us: seq<UpdateInfos>,
                                          vs: seq<UpdateInfos>, n: nat)
    requires n <= |us| && us <= vs
    ensures Frames(stack0, addr0, us, n) == Frames(stack0, addr0, vs, n) && Addr(addr0, us, n) == Addr(addr0, vs, n)
  {
    if n > 0 {
      FramesOfPrefix(stack0, addr0, us, vs, n - 1);
    }
  }

  /** When starting and stopping the program is refused, and with which text. */
  lemma RunRefused(db: Db, t: ResumeType)
    ensures Resume(db, t).Err? <==> db.state == State.Error || db.state == Exit
    ensures Resume(db, t).Err? ==> Resume(db, t).msg == "cannot resume execution: " + "program already finished"
    ensures Stop(db).Err? <==> db.state == State.Error || db.state == Exit || db.state == Stopped
    ensures Stop(db).Err? ==>
              Stop(db).msg == if db.state == Stopped then "cannot stop execution: " + "program already stopped"
                              else "cannot stop execution: " + "program already finished"
    ensures Stop(db).Ok? ==> Stop(db).value == db.(state := Stopped)
  {
  }

  /** When a breakpoint is refused, and with which text. */
  lemma AddRefused(db: Db, addr: U64)
    ensures AddBreakpoint(db, addr).Err? <==> addr >= db.memorySize || addr in db.breakpts
    ensures AddBreakpoint(db, addr).Err? ==>
              AddBreakpoint(db, addr).msg ==
                if addr >= db.memorySize then "cannot add breakpoint: " + "address outside of memory range"
                else "cannot add breakpoint: " + "There is already one at this address"
  {
  }

  lemma DelRefused(db: Db, addr: U64)
    ensures DelBreakpoint(db, addr).Err? <==> addr >= db.memorySize || addr !in db.breakpts
    ensures DelBreakpoint(db, addr).Err? ==>
              DelBreakpoint(db, addr).msg ==
                if addr >= db.memorySize then "cannot delete breakpoint: " + "address outside of memory range"
                else "cannot delete breakpoint: " + "there is none at this address"
  {
  }

  /** The breakpoints of a session are those it added and did not delete later, and those of the start that it
      did not delete. Addresses outside memory cannot be added nor deleted. */
  lemma {:induction false} BreakpointsOfSession(db: Db, es: seq<Event>, a: U64)
    ensures Play(db, es).memorySize == db.memorySize
    ensures a >= db.memorySize ==> (a in Play(db, es).breakpts <==> a in db.breakpts)
    ensures a < db.memorySize ==>
              (a in Play(db, es).breakpts <==>
                (exists i :: 0 <= i < |es| && es[i] == AddBkp(a) && forall j :: i < j < |es| ==> es[j] != DelBkp(a)) ||
                (a in db.breakpts && DelBkp(a) !in es))
  {
    if es != [] {
      hide NextStack, Halts, Running;
      var n := |es| - 1;
      var front := es[..n];
      BreakpointsOfSession(db, front, a);
      BreakpointsNext(Play(db, front), es[n]);
      assert es == front + [es[n]];
      if i :| 0 <= i < n && front[i] == AddBkp(a) && forall j :: i < j < n ==> front[j] != DelBkp(a) {
        assert es[i] == AddBkp(a);
      }
      if i :| 0 <= i < |es| && es[i] == AddBkp(a) && forall j :: i < j < |es| ==> es[j] != DelBkp(a) {
        assert i < n ==> front[i] == AddBkp(a);
        assert forall j :: 0 <= j < n ==> front[j] == es[j];
      }
    }
  }

  lemma BreakpointsNext(db: Db, e: Event)
    ensures Do(db, e).memorySize == db.memorySize
    ensures forall a: U64 :: a in Do(db, e).breakpts <==>
              (a in db.breakpts && !(e == DelBkp(a) && a < db.memorySize)) || (e == AddBkp(a) && a < db.memorySize)
  {
    hide NextStack, Halts, Running;
  }

  /** A session of commands ends as the last one that starts or stops the program leaves it: as if just resumed
      that way, or stopped. */
  lemma {:induction false} LastCommandRules(db: Db, es: seq<Event>, i: nat)
    requires db.state != State.Error && db.state != Exit && i < |es| && forall e <- es :: !e.Upd?
    requires es[i].Res? || es[i].Halt?
    requires forall j :: i < j < |es| ==> !es[j].Res? && !es[j].Halt?
    ensures es[i].Halt? ==> Play(db, es).state == Stopped
    ensures es[i].Res? ==> Resume(Play(db, es), es[i].t) == Ok(Play(db, es))
  {
    hide Do, StillThere, Resume;
    var n := |es| - 1;
    var front := es[..n];
    CommandsOnly(db, front);
    assert es[n] in es && es[i] in es;
    if i < n {
      LastCommandRules(db, front, i);
      BreakpointKeepsMode(Play(db, front), es[n], if es[i].Res? then es[i].t else ToFinish);
    } else {
      RunsAsTold(db, Play(db, front), es[n]);
    }
  }

  lemma RunsAsTold(start: Db, db: Db, e: Event)
    requires StillThere(start, db)
    ensures e.Halt? ==> Do(db, e).state == Stopped
    ensures e.Res? ==> Resume(Do(db, e), e.t) == Ok(Do(db, e))
  {
  }

  lemma BreakpointKeepsMode(db: Db, e: Event, t: ResumeType)
    requires e.AddBkp? || e.DelBkp?
    ensures Do(db, e).state == db.state
    ensures Resume(db, t) == Ok(db) ==> Resume(Do(db, e), t) == Ok(Do(db, e))
  {
  }

  /** Commands neither finish the program nor move it, and those on breakpoints leave its state alone. */
  lemma {:induction false} CommandsOnly(db: Db, es: seq<Event>)
    requires db.state != State.Error && db.state != Exit && forall e <- es :: !e.Upd?
    ensures StillThere(db, Play(db, es))
    ensures (forall e <- es :: !e.Res? && !e.Halt?) ==> Play(db, es).state == db.state
  {
    hide StillThere, Do;
    if es != [] {
      var n := |es| - 1;
      assert es[n] in es && forall e <- es[..n] :: e in es;
      CommandsOnly(db, es[..n]);
      CommandOnly(db, Play(db, es[..n]), es[n]);
    } else {
      assert StillThere(db, db) by {
        AlwaysThere(db);
      }
    }
  }

  ghost predicate StillThere(db: Db, r: Db) {
    && r.state != State.Error && r.state != Exit && (db.state != NotStarted ==> r.state != NotStarted)
    && r.stack == db.stack && r.insAddr == db.insAddr && r.memorySize == db.memorySize
  }

  lemma AlwaysThere(db: Db)
    requires db.state != State.Error && db.state != Exit
    ensures StillThere(db, db)
  {
  }

  lemma CommandOnly(start: Db, db: Db, e: Event)
    requires StillThere(start, db) && !e.Upd?
    ensures StillThere(start, Do(db, e)) && (!e.Res? && !e.Halt? ==> Do(db, e).state == db.state)
  {
  }
}
