/** The handshake between the network thread and the VM thread of the data server: two unlocked buffers
    handed over through one atomic state (src/server/data-client-handler.cc). Every atomic load, every
    atomic store and every access to a buffer is a step of its own, and steps interleave freely. */
module Handshake {
  import opened Common

  datatype RunnerState = Connecting | NoReq | SendingRes | HasReq | Failed

  /** Where the network thread stands in DataClientServerRunner::loop. */
  datatype NetPc =
    | Connect      // in connect()
    | Connected    // about to store NO_REQ
    | LoopTest     // about to load _stop
    | Receive      // in recv_data(_in)
    | Received     // about to store HAS_REQ
    | WaitStop     // about to load _stop in the waiting loop
    | WaitState    // about to load _state in the waiting loop
    | AfterWait    // about to load _stop behind the waiting loop
    | AssertSend   // about to check that the state is SENDING_RES
    | Send         // in send_data(_out)
    | Sent         // about to store NO_REQ
    | StopStop     // in stop(), about to store _stop
    | StopState    // in stop(), about to store ERROR
    | NetDone

  datatype Origin = RunCommand | CheckStopped

  /** Where the VM thread stands in setup_connection, run_command or check_stopped. */
  datatype VmPc =
    | Idle
    | SetupTest1 | SetupTest2          // loads of setup_connection
    | RunTest1 | RunTest2 | RunTest3   // loads of run_command
    | CheckTest1 | CheckTest2          // loads of check_stopped
    | GetReq(o: Origin)                // about to check HAS_REQ in get_req
    | GetRes(o: Origin)                // about to check HAS_REQ in get_res
    | Reset(o: Origin)                 // about to clear _out
    | Work(o: Origin)                  // reading _in, writing _out
    | Signal(o: Origin)                // about to check HAS_REQ in signal_res
    | SignalStore(o: Origin)           // about to store SENDING_RES

  datatype Peer = NotConnected | PeerConnected | Disconnected

  datatype Handling = Handling(o: Origin, req: seq<Byte>, res: seq<Byte>)

  /** `todo` are the pieces the handler still has to append to _out, `sending` the part of _out that has
      left, and the three last fields record what was received, handled and sent so far. */
  datatype Sys = Sys(
    net: NetPc, vm: VmPc, state: RunnerState, stop: bool, peer: Peer,
    inBuf: seq<Byte>, outBuf: seq<Byte>, todo: seq<seq<Byte>>, sending: seq<Byte>,
    received: seq<seq<Byte>>, handled: seq<Handling>, sent: seq<seq<Byte>>)

  /** The pieces written in answer to the k-th request, by whichever of the two functions handles it. */
  type Handler = (Origin, seq<Byte>, nat) -> seq<seq<Byte>>

  function Concat(pieces: seq<seq<Byte>>): seq<Byte> {
    if pieces == [] then [] else pieces[0] + Concat(pieces[1..])
  }

  const START := Sys(Connect, Idle, Connecting, false, NotConnected, [], [], [], [], [], [], [])

  datatype Step =
    | NetOk | NetFail                       // connect() returns
    | NetTest                               // a load of the network thread
    | NetStore                              // a store of the network thread
    | NetFill(bytes: seq<Byte>)             // recv_data has written part of _in
    | NetReceived(msg: seq<Byte>)           // recv_data returns a message
    | NetChunk(n: nat)                      // send_data has written part of _out
    | NetSent
    | VmCall(pc: VmPc)                      // the server loop calls the handler
    | VmTest                                // a load of the VM thread
    | VmReset
    | VmPiece
    | VmStore

  /** An assertion on _state that the thread is about to check fails. */
  predicate AssertFails(s: Sys) {
    || (s.net == AssertSend && s.state != SendingRes)
    || ((s.vm.GetReq? || s.vm.GetRes? || s.vm.Signal?) && s.state != HasReq)
  }

  predicate NetUsesIn(s: Sys) { s.net == Receive }
  predicate NetUsesOut(s: Sys) { s.net == Send }
  predicate VmUsesBuffers(s: Sys) { s.vm.Reset? || s.vm.Work? }

  predicate NetStep(s: Sys, t: Sys, step: Step) {
    match step
    case NetOk => s.net == Connect && t == s.(net := Connected)
    case NetFail => s.net in {Connect, Receive, Send} && t == s.(net := StopStop)
    case NetTest =>
      (match s.net
       case LoopTest => t == s.(net := if s.stop then NetDone else Receive)
       case WaitStop => t == s.(net := if s.stop then AfterWait else WaitState)
       case WaitState => t == s.(net := if s.state == HasReq then WaitStop else AfterWait)
       case AfterWait => t == s.(net := if s.stop then NetDone else AssertSend)
       case AssertSend => s.state == SendingRes && t == s.(net := Send, sending := [])
       case _ => false)
    case NetStore =>
      (match s.net
       case Connected => t == s.(net := LoopTest, state := NoReq)
       case Received => t == s.(net := WaitStop, state := HasReq)
       case Sent => t == s.(net := LoopTest, state := NoReq)
       case StopStop => t == s.(net := StopState, stop := true)
       case StopState => t == s.(net := NetDone, state := Failed)
       case _ => false)
    case NetFill(bytes) => s.net == Receive && t == s.(inBuf := bytes)
    case NetReceived(msg) => s.net == Receive && t == s.(net := Received, inBuf := msg, received := s.received + [msg])
    case NetChunk(n) =>
      && s.net == Send && |s.sending| + n <= |s.outBuf|
      && t == s.(sending := s.sending + s.outBuf[|s.sending|..|s.sending| + n])
    case NetSent => s.net == Send && |s.sending| >= |s.outBuf| && t == s.(net := Sent, sent := s.sent + [s.sending])
    case _ => false
  }

  predicate VmStep(h: Handler, s: Sys, t: Sys, step: Step) {
    match step
    case VmCall(pc) =>
      && s.vm == Idle && t == s.(vm := pc)
      && ((pc == SetupTest1 && s.peer == NotConnected) || (pc in {RunTest1, CheckTest1} && s.peer == PeerConnected))
    case VmTest =>
      (match s.vm
       case SetupTest1 => t == s.(vm := if s.state == Connecting then Idle else SetupTest2)
       case SetupTest2 => t == s.(vm := Idle, peer := if s.state == Failed then Disconnected else PeerConnected)
       case RunTest1 => t == s.(vm := if s.state == HasReq then RunTest3 else RunTest2)
       case RunTest2 => t == s.(vm := if s.state == Failed then RunTest3 else RunTest1)
       case RunTest3 => t == if s.state == Failed then s.(vm := Idle, peer := Disconnected)
           else s.(vm := GetReq(RunCommand))
       case CheckTest1 => t == s.(vm := if s.state != HasReq then Idle else CheckTest2)
       case CheckTest2 => t == if s.state == Failed then s.(vm := Idle, peer := Disconnected)
           else s.(vm := GetReq(CheckStopped))
       case GetReq(o) => s.state == HasReq && t == s.(vm := GetRes(o))
       case GetRes(o) => s.state == HasReq && t == s.(vm := Reset(o))
       case Signal(o) => s.state == HasReq && t == s.(vm := SignalStore(o))
       case _ => false)
    case VmReset =>
      s.vm.Reset? && t == s.(vm := Work(s.vm.o), outBuf := [], todo := h(s.vm.o, s.inBuf, |s.handled|))
    case VmPiece =>
      && s.vm.Work?
      && t == if s.todo == [] then s.(vm := Signal(s.vm.o))
              else s.(outBuf := s.outBuf + s.todo[0], todo := s.todo[1..])
    case VmStore =>
      s.vm.SignalStore? && t == s.(vm := Idle, state := SendingRes,
                                   handled := s.handled + [Handling(s.vm.o, s.inBuf, s.outBuf)])
    case _ => false
  }

  predicate Next(h: Handler, s: Sys, t: Sys, step: Step) {
    NetStep(s, t, step) || VmStep(h, s, t, step)
  }

  /** A run: any interleaving of the two threads, with any behaviour of the network. */
  ghost predicate IsRun(h: Handler, run: seq<Sys>, steps: seq<Step>) {
    && |run| == |steps| + 1 && run[0] == START
    && forall i :: 0 <= i < |steps| ==> Next(h, run[i], run[i + 1], steps[i])
  }

  // The invariant.

  /** Which states the runner can be in while the network thread stands at each point. */
  predicate NetControl(s: Sys) {
    && (s.stop <==> s.net in {StopState, NetDone})
    && match s.net
       case Connect | Connected => s.state == Connecting
       case LoopTest | Receive | Received => s.state == NoReq
       case WaitStop | WaitState => s.state == HasReq || s.state == SendingRes
       case AfterWait | AssertSend | Send | Sent => s.state == SendingRes
       case StopStop | StopState => s.state in {Connecting, NoReq, SendingRes}
       case NetDone => s.state == Failed
  }

  predicate VmControl(s: Sys) {
    match s.vm
    case RunTest3 => s.state == HasReq || s.state == Failed
    case CheckTest2 => s.state == HasReq
    case GetReq(_) | GetRes(_) | Reset(_) | Work(_) | Signal(_) | SignalStore(_) => s.state == HasReq
    case _ => true
  }

  predicate Counts(s: Sys) {
    var r, n, k := |s.received|, |s.handled|, |s.sent|;
    match s.net
    case Connect | Connected => r == n == k == 0
    case LoopTest | Receive => r == n == k
    case Received => r == n + 1 && n == k
    case WaitStop | WaitState => n == (if s.state == HasReq then r - 1 else r) && k == r - 1
    case AfterWait | AssertSend | Send => r == n == k + 1
    case Sent => r == n == k
    case StopStop | StopState | NetDone => r == n && k <= n <= k + 1
  }

  /** The request being answered is the one received last, and the response prepared or on its way is the
      one the handler writes for it. */
  ghost predicate Buffers(h: Handler, s: Sys)
    requires Counts(s)
  {
    && (s.net == Received || s.state == HasReq ==> s.received != [] && s.inBuf == s.received[|s.received| - 1])
    && (s.vm.Work? ==> s.outBuf + Concat(s.todo) == Concat(h(s.vm.o, s.inBuf, |s.handled|)))
    && (s.vm.Signal? || s.vm.SignalStore? ==> s.outBuf == Concat(h(s.vm.o, s.inBuf, |s.handled|)))
    && (s.state == SendingRes ==> s.handled != [] && s.outBuf == s.handled[|s.handled| - 1].res)
    && (s.net == Send ==> s.sending <= s.outBuf)
  }

  /** What was handled and sent, message by message. */
  ghost predicate Served(h: Handler, s: Sys) {
    && |s.sent| <= |s.handled| <= |s.received|
    && (forall k :: 0 <= k < |s.handled| ==>
          s.handled[k].req == s.received[k] && s.handled[k].res == Concat(h(s.handled[k].o, s.received[k], k)))
    && (forall k :: 0 <= k < |s.sent| ==> s.sent[k] == s.handled[k].res)
  }

  ghost predicate Inv(h: Handler, s: Sys) {
    NetControl(s) && VmControl(s) && Counts(s) && Buffers(h, s) && Served(h, s)
  }

  ghost predicate Control(s: Sys) {
    NetControl(s) && VmControl(s) && Counts(s)
  }

  lemma NetTestKeepsControl(s: Sys, t: Sys)
    requires Control(s) && NetStep(s, t, NetTest)
    ensures Control(t)
  {
  }

  lemma NetStoreKeepsControl(s: Sys, t: Sys)
    requires Control(s) && NetStep(s, t, NetStore)
    ensures Control(t)
  {
  }

  lemma NetMovesKeepControl(s: Sys, t: Sys, step: Step)
    requires Control(s) && NetStep(s, t, step) && step != NetTest && step != NetStore
    ensures Control(t)
  {
  }

  lemma NetKeepsControl(s: Sys, t: Sys, step: Step)
    requires Control(s) && NetStep(s, t, step)
    ensures Control(t)
  {
    hide Control, NetStep;
    match step
    case NetTest => NetTestKeepsControl(s, t);
    case NetStore => NetStoreKeepsControl(s, t);
    case _ => NetMovesKeepControl(s, t, step);
  }

  lemma VmLooksKeepsControl(h: Handler, s: Sys, t: Sys)
    requires Control(s) && VmStep(h, s, t, VmTest) && !s.vm.GetReq? && !s.vm.GetRes? && !s.vm.Signal?
    ensures Control(t)
  {
    assert t.net == s.net && t.state == s.state && t.stop == s.stop;
    assert NetControl(t) && Counts(t);
    assert VmControl(t);
  }

  lemma VmAssertsKeepsControl(h: Handler, s: Sys, t: Sys)
    requires Control(s) && VmStep(h, s, t, VmTest) && (s.vm.GetReq? || s.vm.GetRes? || s.vm.Signal?)
    ensures Control(t)
  {
  }

  lemma VmWorksKeepsControl(h: Handler, s: Sys, t: Sys, step: Step)
    requires Control(s) && VmStep(h, s, t, step) && step != VmTest && step != VmStore
    ensures Control(t)
  {
  }

  lemma VmStoreKeepsControl(h: Handler, s: Sys, t: Sys)
    requires Control(s) && VmStep(h, s, t, VmStore)
    ensures Control(t)
  {
  }

  lemma VmKeepsControl(h: Handler, s: Sys, t: Sys, step: Step)
    requires Control(s) && VmStep(h, s, t, step)
    ensures Control(t)
  {
    hide Control, VmStep;
    match step
    case VmTest =>
      if s.vm.GetReq? || s.vm.GetRes? || s.vm.Signal? {
        VmAssertsKeepsControl(h, s, t);
      } else {
        VmLooksKeepsControl(h, s, t);
      }
    case VmStore => VmStoreKeepsControl(h, s, t);
    case _ => VmWorksKeepsControl(h, s, t, step);
  }

  lemma NetTestKeepsBuffers(h: Handler, s: Sys, t: Sys)
    requires Inv(h, s) && NetStep(s, t, NetTest) && Control(t)
    ensures Buffers(h, t)
  {
    hide Served, VmControl;
    assert t == s.(net := t.net, sending := t.sending);
  }

  lemma NetStoreKeepsBuffers(h: Handler, s: Sys, t: Sys)
    requires Inv(h, s) && NetStep(s, t, NetStore) && Control(t)
    ensures Buffers(h, t)
  {
    hide Served;
    assert t == s.(net := t.net, state := t.state, stop := t.stop);
  }

  lemma NetMovesKeepBuffers(h: Handler, s: Sys, t: Sys, step: Step)
    requires Inv(h, s) && NetStep(s, t, step) && Control(t) && step != NetTest && step != NetStore
    ensures Buffers(h, t)
  {
    hide Served;
    match step
    case NetReceived(msg) => assert t.vm == s.vm && t.state == NoReq;
    case NetFill(bytes) => assert t.state == NoReq;
    case _ =>
  }

  lemma NetKeepsBuffers(h: Handler, s: Sys, t: Sys, step: Step)
    requires Inv(h, s) && NetStep(s, t, step) && Control(t)
    ensures Buffers(h, t)
  {
    hide Inv, NetStep, Control, Buffers;
    match step
    case NetTest => NetTestKeepsBuffers(h, s, t);
    case NetStore => NetStoreKeepsBuffers(h, s, t);
    case _ => NetMovesKeepBuffers(h, s, t, step);
  }

  lemma NetKeepsServed(h: Handler, s: Sys, t: Sys, step: Step)
    requires Inv(h, s) && NetStep(s, t, step) && Control(t)
    ensures Served(h, t)
  {
    if step.NetSent? {
      assert s.sending == s.outBuf;
    }
  }

  lemma NetKeeps(h: Handler, s: Sys, t: Sys, step: Step)
    requires Inv(h, s) && NetStep(s, t, step)
    ensures Inv(h, t)
  {
    NetKeepsControl(s, t, step);
    NetKeepsBuffers(h, s, t, step);
    NetKeepsServed(h, s, t, step);
  }

  lemma AppendPiece(out: seq<Byte>, todo: seq<seq<Byte>>)
    requires todo != []
    ensures (out + todo[0]) + Concat(todo[1..]) == out + Concat(todo)
  {
    assert (out + todo[0]) + Concat(todo[1..]) == out + (todo[0] + Concat(todo[1..]));
  }

  lemma PieceKeepsBuffers(h: Handler, s: Sys, t: Sys)
    requires Inv(h, s) && VmStep(h, s, t, VmPiece)
    ensures Counts(t) && Buffers(h, t)
  {
    if s.todo == [] {
      assert s.outBuf + [] == s.outBuf;
    } else {
      AppendPiece(s.outBuf, s.todo);
    }
  }

  lemma VmTestKeepsBuffers(h: Handler, s: Sys, t: Sys, step: Step)
    requires Inv(h, s) && VmStep(h, s, t, step) && Counts(t) && (step.VmTest? || step.VmCall?)
    ensures Buffers(h, t)
  {
    hide Served, Counts;
    assert t == s.(vm := t.vm, peer := t.peer);
    assert t.vm.Work? ==> s.vm.Work?;
    assert t.vm.Signal? || t.vm.SignalStore? ==> s.vm.Signal? || s.vm.SignalStore?;
  }

  lemma VmKeepsBuffers(h: Handler, s: Sys, t: Sys, step: Step)
    requires Inv(h, s) && VmStep(h, s, t, step) && Counts(t)
    ensures Buffers(h, t)
  {
    match step
    case VmPiece => PieceKeepsBuffers(h, s, t);
    case VmReset =>
      hide Served;
      assert [] + Concat(t.todo) == Concat(t.todo);
    case VmStore =>
      hide Served;
    case _ => VmTestKeepsBuffers(h, s, t, step);
  }

  lemma VmKeepsServed(h: Handler, s: Sys, t: Sys, step: Step)
    requires Inv(h, s) && VmStep(h, s, t, step) && Control(t)
    ensures Served(h, t)
  {
    if !step.VmStore? {
      assert t.handled == s.handled && t.received == s.received && t.sent == s.sent;
    }
  }

  lemma VmKeeps(h: Handler, s: Sys, t: Sys, step: Step)
    requires Inv(h, s) && VmStep(h, s, t, step)
    ensures Inv(h, t)
  {
    VmKeepsControl(h, s, t, step);
    VmKeepsBuffers(h, s, t, step);
    VmKeepsServed(h, s, t, step);
  }

  lemma {:induction false} RunKeeps(h: Handler, run: seq<Sys>, steps: seq<Step>, i: nat)
    requires IsRun(h, run, steps) && i < |run|
    ensures Inv(h, run[i])
  {
    if i > 0 {
      RunKeeps(h, run, steps, i - 1);
      if NetStep(run[i - 1], run[i], steps[i - 1]) {
        NetKeeps(h, run[i - 1], run[i], steps[i - 1]);
      } else {
        VmKeeps(h, run[i - 1], run[i], steps[i - 1]);
      }
    }
  }

  // The theorems.

  /** In every interleaving no assertion on the state fails and no buffer is used by both threads at once. */
  lemma Safety(h: Handler, run: seq<Sys>, steps: seq<Step>, i: nat)
    requires IsRun(h, run, steps) && i < |run|
    ensures !AssertFails(run[i])
    ensures !(VmUsesBuffers(run[i]) && (NetUsesIn(run[i]) || NetUsesOut(run[i])))
  {
    RunKeeps(h, run, steps, i);
  }

  /** HAS_REQ is left only by the VM thread, which always moves it to SENDING_RES, and ERROR is never left. */
  lemma Transitions(h: Handler, run: seq<Sys>, steps: seq<Step>, i: nat)
    requires IsRun(h, run, steps) && i < |steps|
    ensures run[i].state == HasReq && run[i + 1].state != HasReq ==>
            steps[i] == VmStore && run[i + 1].state == SendingRes
    ensures run[i].state == Failed ==> run[i + 1].state == Failed
  {
    RunKeeps(h, run, steps, i);
  }

  /** The k-th response sent is the complete handling of the k-th request received, by one of the two
      functions; no request is skipped, handled twice or answered with bytes of another response. */
  lemma ExactlyOnceInOrder(h: Handler, run: seq<Sys>, steps: seq<Step>, i: nat)
    requires IsRun(h, run, steps) && i < |run|
    ensures var s := run[i];
            && |s.sent| <= |s.handled| <= |s.received| <= |s.sent| + 1
            && forall k :: 0 <= k < |s.sent| ==> s.sent[k] == Concat(h(s.handled[k].o, s.received[k], k))
  {
    RunKeeps(h, run, steps, i);
  }

  /** What was received, handled and sent is never rewritten. */
  lemma {:induction false} HistoryGrows(h: Handler, run: seq<Sys>, steps: seq<Step>, i: nat, j: nat)
    requires IsRun(h, run, steps) && i <= j < |run|
    ensures run[i].received <= run[j].received && run[i].handled <= run[j].handled && run[i].sent <= run[j].sent
  {
    if i < j {
      HistoryGrows(h, run, steps, i, j - 1);
      StepGrows(h, run[j - 1], run[j], steps[j - 1]);
    }
  }

  lemma StepGrows(h: Handler, s: Sys, t: Sys, step: Step)
    requires Next(h, s, t, step)
    ensures s.received <= t.received && s.handled <= t.handled && s.sent <= t.sent
  {
  }

  /** The branch of check_stopped that notices a lost connection is never taken: behind its first test the
      state cannot be ERROR. */
  lemma CheckStoppedNeverDisconnects(h: Handler, run: seq<Sys>, steps: seq<Step>, i: nat)
    requires IsRun(h, run, steps) && i < |steps| && run[i].vm in {CheckTest1, CheckTest2}
    ensures run[i + 1].peer == run[i].peer
  {
    hide Counts, Buffers, Served, NetControl;
    RunKeeps(h, run, steps, i);
  }

  // Who the VM thread takes its client to be.

  ghost predicate PeerTrue(s: Sys) {
    && (s.peer == Disconnected ==> s.state == Failed)
    && (s.peer == PeerConnected || s.vm == SetupTest2 ==> s.state != Connecting)
  }

  lemma StepKeepsPeer(h: Handler, s: Sys, t: Sys, step: Step)
    requires Next(h, s, t, step) && PeerTrue(s) && Control(s)
    ensures PeerTrue(t)
  {
    hide Counts;
  }

  /** A client taken to be lost is lost, and one taken to be connected has been accepted. */
  lemma {:induction false} PeerIsTrue(h: Handler, run: seq<Sys>, steps: seq<Step>, i: nat)
    requires IsRun(h, run, steps) && i < |run|
    ensures PeerTrue(run[i])
    ensures run[i].peer == Disconnected ==> run[i].state == Failed
    ensures run[i].peer == PeerConnected ==> run[i].state != Connecting
  {
    if i > 0 {
      PeerIsTrue(h, run, steps, i - 1);
      RunKeeps(h, run, steps, i - 1);
      assert Next(h, run[i - 1], run[i], steps[i - 1]);
      StepKeepsPeer(h, run[i - 1], run[i], steps[i - 1]);
    }
  }

  // What can happen: requests are served, and a lost client is noticed.

  ghost predicate Path(h: Handler, run: seq<Sys>, steps: seq<Step>) {
    |run| == |steps| + 1 && forall i :: 0 <= i < |steps| ==> Next(h, run[i], run[i + 1], steps[i])
  }

  /** Some steps lead from `s` to `t`. */
  ghost predicate Reaches(h: Handler, s: Sys, t: Sys) {
    exists run, steps :: Path(h, run, steps) && run[0] == s && run[|run| - 1] == t
  }

  lemma Stays(h: Handler, s: Sys)
    ensures Reaches(h, s, s)
  {
    assert Path(h, [s], []);
  }

  lemma Then(h: Handler, s: Sys, t: Sys, u: Sys, step: Step)
    requires Reaches(h, s, t) && Next(h, t, u, step)
    ensures Reaches(h, s, u)
  {
    hide Next;
    var run, steps :| Path(h, run, steps) && run[0] == s && run[|run| - 1] == t;
    assert Path(h, run + [u], steps + [step]);
  }

  /** A request has come in and the VM thread is about to look at it. */
  ghost predicate Asked(s: Sys, msg: seq<Byte>) {
    s.net == WaitStop && s.state == HasReq && s.inBuf == msg && !s.stop && s.vm == Idle && s.peer == PeerConnected
  }

  /** Neither thread has anything to do. */
  ghost predicate Rests(s: Sys) {
    s.net == LoopTest && s.state == NoReq && !s.stop && s.vm == Idle && s.peer == PeerConnected
  }

  lemma MessageComes(h: Handler, s0: Sys, s: Sys, msg: seq<Byte>) returns (t: Sys)
    requires Reaches(h, s0, s) && Rests(s)
    ensures Reaches(h, s0, t) && Asked(t, msg)
    ensures t.received == s.received + [msg] && t.handled == s.handled && t.sent == s.sent
  {
    hide Reaches;
    var a := s.(net := Receive);
    Then(h, s0, s, a, NetTest);
    var b := a.(net := Received, inBuf := msg, received := a.received + [msg]);
    Then(h, s0, a, b, NetReceived(msg));
    t := b.(net := WaitStop, state := HasReq);
    Then(h, s0, b, t, NetStore);
  }

  lemma VmLooks(h: Handler, s0: Sys, s: Sys, o: Origin) returns (t: Sys)
    requires Reaches(h, s0, s) && Asked(s, s.inBuf)
    ensures Reaches(h, s0, t) && t == s.(vm := Reset(o))
  {
    hide Reaches;
    var first := if o == RunCommand then RunTest1 else CheckTest1;
    var second := if o == RunCommand then RunTest3 else CheckTest2;
    var a := s.(vm := first);
    Then(h, s0, s, a, VmCall(first));
    var b := s.(vm := second);
    Then(h, s0, a, b, VmTest);
    var c := s.(vm := GetReq(o));
    Then(h, s0, b, c, VmTest);
    var d := s.(vm := GetRes(o));
    Then(h, s0, c, d, VmTest);
    t := s.(vm := Reset(o));
    Then(h, s0, d, t, VmTest);
  }

  lemma {:induction false} VmWrites(h: Handler, s0: Sys, s: Sys) returns (t: Sys)
    requires Reaches(h, s0, s) && s.vm.Work?
    ensures Reaches(h, s0, t) && t == s.(vm := Signal(s.vm.o), outBuf := s.outBuf + Concat(s.todo), todo := [])
    decreases |s.todo|
  {
    hide Reaches;
    if s.todo == [] {
      assert s.outBuf + [] == s.outBuf;
      t := s.(vm := Signal(s.vm.o));
      Then(h, s0, s, t, VmPiece);
    } else {
      var next := s.(outBuf := s.outBuf + s.todo[0], todo := s.todo[1..]);
      Then(h, s0, s, next, VmPiece);
      AppendPiece(s.outBuf, s.todo);
      t := VmWrites(h, s0, next);
    }
  }

  lemma VmAnswers(h: Handler, s0: Sys, s: Sys, o: Origin) returns (t: Sys)
    requires Reaches(h, s0, s) && Asked(s, s.inBuf)
    ensures Reaches(h, s0, t)
    ensures var res := Concat(h(o, s.inBuf, |s.handled|));
            t == s.(state := SendingRes, outBuf := res, todo := [], handled := s.handled + [Handling(o, s.inBuf, res)])
  {
    hide Reaches;
    var a := VmLooks(h, s0, s, o);
    var b := a.(vm := Work(o), outBuf := [], todo := h(o, s.inBuf, |s.handled|));
    Then(h, s0, a, b, VmReset);
    var c := VmWrites(h, s0, b);
    assert [] + Concat(b.todo) == Concat(b.todo);
    var d := c.(vm := SignalStore(o));
    Then(h, s0, c, d, VmTest);
    t := d.(vm := Idle, state := SendingRes, handled := d.handled + [Handling(o, d.inBuf, d.outBuf)]);
    Then(h, s0, d, t, VmStore);
  }

  lemma AnswerGoes(h: Handler, s0: Sys, s: Sys) returns (t: Sys)
    requires Reaches(h, s0, s) && s.net == WaitStop && s.state == SendingRes && !s.stop && s.vm == Idle
    requires s.peer == PeerConnected
    ensures Reaches(h, s0, t) && Rests(t) && t.received == s.received && t.handled == s.handled
    ensures t.sent == s.sent + [s.outBuf]
  {
    hide Reaches;
    var a := s.(net := WaitState);
    Then(h, s0, s, a, NetTest);
    var b := s.(net := AfterWait);
    Then(h, s0, a, b, NetTest);
    var c := s.(net := AssertSend);
    Then(h, s0, b, c, NetTest);
    var d := s.(net := Send, sending := []);
    Then(h, s0, c, d, NetTest);
    var e := d.(sending := d.sending + d.outBuf[|d.sending|..|d.sending| + |d.outBuf|]);
    Then(h, s0, d, e, NetChunk(|d.outBuf|));
    assert e.sending == s.outBuf;
    var f := e.(net := Sent, sent := e.sent + [e.sending]);
    Then(h, s0, e, f, NetSent);
    t := f.(net := LoopTest, state := NoReq);
    Then(h, s0, f, t, NetStore);
  }

  /** Any series of requests can be served to the end, each by either of the two functions. */
  lemma {:induction false} AllServed(h: Handler, msgs: seq<seq<Byte>>, os: seq<Origin>) returns (t: Sys)
    requires |os| == |msgs|
    ensures Reaches(h, START, t) && Rests(t) && t.received == msgs && |t.sent| == |t.handled| == |msgs|
    ensures forall k :: 0 <= k < |msgs| ==>
              && t.handled[k] == Handling(os[k], msgs[k], Concat(h(os[k], msgs[k], k)))
              && t.sent[k] == Concat(h(os[k], msgs[k], k))
  {
    hide Reaches, Concat;
    if msgs == [] {
      t := ClientAccepted(h);
    } else {
      var n := |msgs| - 1;
      var s := AllServed(h, msgs[..n], os[..n]);
      var a := MessageComes(h, START, s, msgs[n]);
      var b := VmAnswers(h, START, a, os[n]);
      t := AnswerGoes(h, START, b);
      assert msgs[..n] + [msgs[n]] == msgs;
    }
  }

  lemma ClientAccepted(h: Handler) returns (t: Sys)
    ensures Reaches(h, START, t) && Rests(t) && t.received == [] && t.handled == [] && t.sent == []
  {
    Stays(h, START);
    hide Reaches;
    var a := START.(net := Connected);
    Then(h, START, START, a, NetOk);
    var b := a.(net := LoopTest, state := NoReq);
    Then(h, START, a, b, NetStore);
    var c := b.(vm := SetupTest1);
    Then(h, START, b, c, VmCall(SetupTest1));
    var d := b.(vm := SetupTest2);
    Then(h, START, c, d, VmTest);
    t := b.(peer := PeerConnected);
    Then(h, START, d, t, VmTest);
  }

  /** A connection that fails, wherever the network thread is at work, ends in ERROR. */
  lemma FailureStops(h: Handler, s: Sys) returns (t: Sys)
    requires s.net in {Connect, Receive, Send}
    ensures Reaches(h, s, t) && t == s.(net := NetDone, stop := true, state := Failed)
  {
    Stays(h, s);
    hide Reaches;
    Then(h, s, s, s.(net := StopStop), NetFail);
    Then(h, s, s.(net := StopStop), s.(net := StopState, stop := true), NetStore);
    t := s.(net := NetDone, stop := true, state := Failed);
    Then(h, s, s.(net := StopState, stop := true), t, NetStore);
  }

  /** A failed connection is noticed by the next call that waits for a command, or by the one that would accept the
      client. */
  lemma LossNoticed(h: Handler, s: Sys)
    requires s.state == Failed && s.vm == Idle && s.peer != Disconnected
    ensures Reaches(h, s, s.(peer := Disconnected))
  {
    Stays(h, s);
    hide Reaches;
    var gone := s.(peer := Disconnected);
    if s.peer == PeerConnected {
      Then(h, s, s, s.(vm := RunTest1), VmCall(RunTest1));
      Then(h, s, s.(vm := RunTest1), s.(vm := RunTest2), VmTest);
      Then(h, s, s.(vm := RunTest2), s.(vm := RunTest3), VmTest);
      Then(h, s, s.(vm := RunTest3), gone, VmTest);
    } else {
      Then(h, s, s, s.(vm := SetupTest1), VmCall(SetupTest1));
      Then(h, s, s.(vm := SetupTest1), s.(vm := SetupTest2), VmTest);
      Then(h, s, s.(vm := SetupTest2), gone, VmTest);
    }
  }
}
