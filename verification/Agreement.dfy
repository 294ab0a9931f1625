/** What a remote client believes about the VM, against what the debugger is doing: the client's calls
    (src/mess/db-client.cc), the server's answers (src/server/data-client-handler.cc,
    src/server/db-client-impl-vmside.cc), the program's progress and the loss of the connection interleave. */
module Agreement {
  import opened Common
  import opened Stepping

  datatype StoppedState = Ready | Exited | Errored

  /** The update a server sends; `addr` and `stack` are only filled in when the VM is stopped. */
  datatype ClientUpdate = ClientUpdate(vmState: StoppedState, stopped: bool, addr: U64, stack: seq<CallInfos>)

  datatype ClientState = NotConnected | VmStopped | VmRunning

  datatype Request = ConnectReq | StopReq | CheckReq | ResumeReq(t: ResumeType) | BreakpointReq | QueryReq

  datatype Reply = Updated(u: ClientUpdate) | Done | Threw

  /** The call the client is blocked in. DBClient::stop makes two requests, one after the other. */
  datatype Call = Connecting | Stopping | Confirming | Checking | Resuming(t: ResumeType) | Using

  /** The link as the two ends share it, and the server's own view of its client. */
  datatype Link = Unused | Up | Down
  datatype Peer = Awaited | Joined | Gone

  datatype Sys = Sys(
    client: ClientState, udp: ClientUpdate, call: Option<Call>,
    link: Link, pending: Option<Request>, reply: Option<Reply>,
    peer: Peer, db: Db)

  /** DBClientImplVMSide::check_stopped on a stopped debugger. */
  function UpdateOf(db: Db): ClientUpdate {
    ClientUpdate(
      if db.state == State.Error then Errored else if db.state == State.Exit then Exited else Ready,
      true, db.insAddr, db.stack)
  }

  /** `u` is what check_stopped fills in; on a running debugger only `stopped` is. */
  predicate Reports(db: Db, u: ClientUpdate) {
    if DbStopped(db.state) then u == UpdateOf(db) else !u.stopped
  }

  /** The server answers a request: run_command when the debugger is stopped, check_stopped otherwise. */
  predicate Answers(db: Db, req: Request, db': Db, res: Reply) {
    if DbStopped(db.state) then
      match req
      case ConnectReq | CheckReq => db' == db && res.Updated? && Reports(db, res.u)
      case StopReq => db' == db && res == Threw
      case ResumeReq(t) =>
        (match Resume(db, t)
         case Ok(d) => db' == d && res == Done
         case Err(_) => db' == db && res == Threw)
      case BreakpointReq => db' == db.(breakpts := db'.breakpts) && (res == Done || res == Threw)
      case QueryReq => db' == db && (res == Done || res == Threw)
    else
      match req
      case StopReq => Stop(db) == Ok(db') && res == Done
      case CheckReq => db' == db && res.Updated? && Reports(db, res.u)
      case _ => db' == db && res == Threw
  }

  datatype Step =
    | ClientCalls(c: Call)
    | ServerAccepts
    | ServerAnswers
    | ClientReceives
    | VmExecutes(u: UpdateInfos)
    | LinkBreaks
    | CallFails          // a send or a receive fails on a broken link, and the client throws
    | ServerNotices      // the server finds the link broken, and lets the program run to its end

  function RequestOf(c: Call): Request {
    match c
    case Connecting => ConnectReq
    case Stopping => StopReq
    case Confirming | Checking => CheckReq
    case Resuming(t) => ResumeReq(t)
    case Using => QueryReq
  }

  predicate MayCall(s: Sys, c: Call) {
    match c
    case Connecting => s.client == NotConnected && s.link == Unused
    case Stopping | Checking => s.client == VmRunning
    case Resuming(_) | Using => s.client == VmStopped
    case Confirming => false
  }

  predicate Receives(s: Sys, t: Sys) {
    s.call.Some? && s.reply.Some? &&
    var idle := s.(call := None, reply := None);
    match (s.call.value, s.reply.value)
    case (Connecting, Updated(u)) => t == idle.(udp := u, client := if u.stopped then VmStopped else VmRunning)
    case (Checking, Updated(u)) => t == idle.(udp := u, client := if u.stopped then VmStopped else VmRunning)
    case (Stopping, Done) => t == idle.(client := VmStopped, call := Some(Confirming), pending := Some(CheckReq))
    case (Confirming, Updated(u)) => t == idle.(udp := u)
    case (Resuming(_), Done) => t == idle.(client := VmRunning)
    case _ => t == idle
  }

  /** Without a client a stopped program runs on to its end. */
  function LetRun(db: Db): Db {
    if db.state == State.Stopped then Resumed(db, ToFinish) else db
  }

  predicate Next(s: Sys, t: Sys, step: Step) {
    match step
    case ClientCalls(c) =>
      && s.call == None && MayCall(s, c)
      && (s.link == Up || c == Connecting)
      && t == s.(call := Some(c), link := Up, pending := t.pending)
      && (t.pending == Some(RequestOf(c)) || (c == Using && t.pending == Some(BreakpointReq)))
    case ServerAccepts =>
      && s.peer == Awaited && s.link == Up
      && t == s.(peer := Joined, db := if DbStopped(s.db.state) then s.db else s.db.(state := State.Stopped))
    case ServerAnswers =>
      && s.peer == Joined && s.link == Up && s.pending.Some?
      && t.reply.Some? && Answers(s.db, s.pending.value, t.db, t.reply.value)
      && t == s.(pending := None, reply := t.reply, db := t.db)
    case ClientReceives => s.link == Up && Receives(s, t)
    case VmExecutes(u) =>
      && Running(s.db.state) && (u.kind == CallSub || u.kind == RetSub ==> s.db.stack != [])
      && t == s.(db := if s.peer == Gone then LetRun(Update(s.db, u)) else Update(s.db, u))
    case LinkBreaks => s.link == Up && t == s.(link := Down, pending := None, reply := None)
    case CallFails => s.link == Down && s.call.Some? && t == s.(call := None)
    case ServerNotices =>
      && s.link == Down && s.peer == Joined
      && t == s.(peer := Gone, db := LetRun(s.db))
  }

  /** The server has gone through on_init, whatever the program did before anyone connected. */
  predicate Starts(s: Sys) {
    && s.client == NotConnected && s.call == None && s.link == Unused && s.pending == None && s.reply == None
    && s.peer == Awaited && s.db.state != State.NotStarted
  }

  ghost predicate IsRun(run: seq<Sys>, steps: seq<Step>) {
    && |run| == |steps| + 1 && Starts(run[0])
    && forall i :: 0 <= i < |steps| ==> Next(run[i], run[i + 1], steps[i])
  }

  /** The client's picture of a stopped VM is exact. */
  predicate Agrees(s: Sys) {
    DbStopped(s.db.state) && s.udp == UpdateOf(s.db)
  }

  /** What holds of the call in progress on a live link. */
  predicate InProgress(s: Sys)
    requires s.call.Some?
  {
    match s.call.value
    case Connecting =>
      s.client == NotConnected && (s.reply.Some? ==>
                                   s.peer == Joined && s.reply.value.Updated? && s.reply.value.u == UpdateOf(s.db))
    case Stopping => s.client == VmRunning && (s.reply == Some(Done) ==> DbStopped(s.db.state))
    case Confirming =>
      s.client == VmStopped && DbStopped(s.db.state) &&
          (s.reply.Some? ==> s.reply.value.Updated? && s.reply.value.u == UpdateOf(s.db))
    case Checking =>
      s.client == VmRunning && (s.reply.Some? && s.reply.value.Updated? && s.reply.value.u.stopped ==>
        DbStopped(s.db.state) && s.reply.value.u == UpdateOf(s.db))
    case Resuming(_) => s.client == VmStopped && (s.reply != Some(Done) ==> Agrees(s))
    case Using => s.client == VmStopped && Agrees(s)
  }

  predicate Inv(s: Sys) {
    && s.db.state != State.NotStarted
    && (s.link == Unused ==> s.client == NotConnected && s.call == None && s.peer == Awaited)
    && (s.link != Up ==> s.pending == None && s.reply == None)
    && (s.peer == Awaited ==> s.client == NotConnected)
    && (s.peer == Gone ==> s.db.state != State.Stopped)
    && (s.link == Up ==>
          && s.peer != Gone
          && (s.peer == Joined && s.client == NotConnected ==> DbStopped(s.db.state))
          && (s.call == None ==> s.pending == None && s.reply == None && (s.client == VmStopped ==> Agrees(s)))
          && (s.call.Some? ==>
                && (s.pending.Some? <==> s.reply.None?)
                && (s.pending.Some? ==> s.pending.value == RequestOf(s.call.value) ||
                                        (s.call.value == Using && s.pending.value == BreakpointReq))
                && InProgress(s)))
  }

  lemma StepKeeps(s: Sys, t: Sys, step: Step)
    requires Inv(s) && Next(s, t, step)
    ensures Inv(t)
  {
  }

  lemma {:induction false} RunKeeps(run: seq<Sys>, steps: seq<Step>, i: nat)
    requires IsRun(run, steps) && i < |run|
    ensures Inv(run[i])
  {
    if i > 0 {
      RunKeeps(run, steps, i - 1);
      StepKeeps(run[i - 1], run[i], steps[i - 1]);
    }
  }

  /** In every reachable state with no call in progress on a live link, a client that believes the VM is
      stopped is right, and holds the debugger's execution point, stop reason and call stack. */
  lemma ClientAgrees(run: seq<Sys>, steps: seq<Step>, i: nat)
    requires IsRun(run, steps) && i < |run|
    requires run[i].link == Up && run[i].call == None && run[i].client == VmStopped
    ensures DbStopped(run[i].db.state)
    ensures run[i].udp.stopped && run[i].udp.addr == run[i].db.insAddr && run[i].udp.stack == run[i].db.stack
    ensures run[i].udp.vmState == Ready <==> run[i].db.state == State.Stopped
    ensures run[i].udp.vmState == Errored <==> run[i].db.state == State.Error
    ensures run[i].udp.vmState == Exited <==> run[i].db.state == State.Exit
  {
    RunKeeps(run, steps, i);
  }

  /** The second request of DBClient::stop always finds the VM stopped: the assertion behind it holds. */
  lemma StopAssertionHolds(run: seq<Sys>, steps: seq<Step>, i: nat)
    requires IsRun(run, steps) && i < |steps|
    requires run[i].link == Up && run[i].call == Some(Confirming) && steps[i] == ClientReceives
    ensures run[i].reply.Some? && run[i].reply.value.Updated? && run[i + 1].udp.stopped &&
            run[i + 1].client == VmStopped
  {
    RunKeeps(run, steps, i);
    assert Next(run[i], run[i + 1], steps[i]);
  }

  /** Connecting always finds the program stopped, so a client never starts out in VM_RUNNING. */
  lemma ConnectFindsStopped(run: seq<Sys>, steps: seq<Step>, i: nat)
    requires IsRun(run, steps) && i < |steps|
    requires run[i].link == Up && run[i].call == Some(Connecting) && steps[i] == ClientReceives
    ensures run[i + 1].client == VmStopped && Agrees(run[i + 1])
  {
    RunKeeps(run, steps, i);
    assert Next(run[i], run[i + 1], steps[i]);
  }

  /** While a client that has joined believes the VM is stopped and makes no call, the program cannot move. */
  lemma VmWaits(run: seq<Sys>, steps: seq<Step>, i: nat)
    requires IsRun(run, steps) && i < |steps|
    requires run[i].link == Up && run[i].call == None && run[i].client == VmStopped
    ensures !steps[i].VmExecutes?
  {
    RunKeeps(run, steps, i);
    assert Next(run[i], run[i + 1], steps[i]);
  }

  /** Once the server has noticed that its client is gone, the program is never left stopped. */
  lemma GoneIsNotStopped(run: seq<Sys>, steps: seq<Step>, i: nat)
    requires IsRun(run, steps) && i < |run| && run[i].peer == Gone
    ensures run[i].db.state != State.Stopped
  {
    RunKeeps(run, steps, i);
  }

  // What a whole call comes to, when nothing else happens in between.

  /** The three steps of one exchange. */
  ghost predicate Exchange(s: Sys, asked: Sys, answered: Sys, t: Sys, c: Call) {
    Next(s, asked, ClientCalls(c)) && Next(asked, answered, ServerAnswers) && Next(answered, t, ClientReceives)
  }

  /** A joined client is always answered. */
  lemma CallAnswered(run: seq<Sys>, steps: seq<Step>, i: nat, c: Call) returns (asked: Sys, answered: Sys, t: Sys)
    requires IsRun(run, steps) && i < |run| && run[i].link == Up && run[i].peer == Joined && run[i].call == None
    requires if c == Stopping || c == Checking then run[i].client == VmRunning
             else (c.Resuming? || c == Using) && run[i].client == VmStopped
    ensures Exchange(run[i], asked, answered, t, c)
  {
    var s := run[i];
    RunKeeps(run, steps, i);
    var req := RequestOf(c);
    asked := s.(call := Some(c), pending := Some(req));
    var done: (Db, Reply) :=
      match req {
        case ConnectReq => (s.db, Threw)
        case CheckReq =>
          (s.db, Updated(if DbStopped(s.db.state) then UpdateOf(s.db) else UpdateOf(s.db).(stopped := false)))
        case StopReq => if DbStopped(s.db.state) then (s.db, Threw) else (s.db.(state := State.Stopped), Done)
        case ResumeReq(t) => if Resume(s.db, t).Ok? then (Resume(s.db, t).value, Done) else (s.db, Threw)
        case BreakpointReq => (s.db, Done)
        case QueryReq => (s.db, Done)
      };
    answered := asked.(pending := None, reply := Some(done.1), db := done.0);
    assert Answers(asked.db, req, answered.db, done.1);
    assert Next(asked, answered, ServerAnswers);
    var idle := answered.(call := None, reply := None);
    t := match (c, done.1) {
      case (Checking, Updated(u)) => idle.(udp := u, client := if u.stopped then VmStopped else VmRunning)
      case (Stopping, Done) => idle.(client := VmStopped, call := Some(Confirming), pending := Some(CheckReq))
      case (Resuming(_), Done) => idle.(client := VmRunning)
      case _ => idle
    };
    assert Receives(answered, t);
  }

  /** Asking whether the program has stopped finds out, and if so where and why. */
  lemma CheckFindsOut(run: seq<Sys>, steps: seq<Step>, i: nat, asked: Sys, answered: Sys, t: Sys)
    requires IsRun(run, steps) && i < |run| && run[i].link == Up && Exchange(run[i], asked, answered, t, Checking)
    ensures t.call == None && t.db == run[i].db
    ensures t.client == VmStopped <==>
              t.db.state == State.Stopped || t.db.state == State.Error || t.db.state == State.Exit
    ensures t.client == VmStopped || t.client == VmRunning
    ensures t.client == VmStopped ==> t.udp.addr == t.db.insAddr && t.udp.stack == t.db.stack
  {
  }

  /** Resuming lets the program run in the mode asked for, unless it has finished. */
  lemma ResumeRuns(run: seq<Sys>, steps: seq<Step>, i: nat, asked: Sys, answered: Sys, t: Sys, mode: ResumeType)
    requires IsRun(run, steps) && i < |run| && run[i].link == Up
    requires Exchange(run[i], asked, answered, t, Resuming(mode))
    ensures t.call == None
    ensures if run[i].db.state == State.Stopped then t.client == VmRunning && Resume(run[i].db, mode) == Ok(t.db)
            else t.client == VmStopped && t.db == run[i].db
  {
    RunKeeps(run, steps, i);
  }

  /** A stop of a running program, with the question that follows it, leaves both sides stopped and agreed; one that
      comes too late throws and changes nothing. */
  lemma StopStops(run: seq<Sys>, steps: seq<Step>, i: nat, asked: Sys, answered: Sys, t: Sys, again: Sys, end: Sys)
    requires IsRun(run, steps) && i < |run| && run[i].link == Up && Exchange(run[i], asked, answered, t, Stopping)
    ensures DbStopped(run[i].db.state) ==> t.call == None && t.client == VmRunning && t.db == run[i].db
    ensures !DbStopped(run[i].db.state) ==>
              && t.call == Some(Confirming) && t.db == run[i].db.(state := State.Stopped)
              && (Next(t, again, ServerAnswers) && Next(again, end, ClientReceives) ==>
                    && end.call == None && end.client == VmStopped && end.db == t.db
                    && end.udp.stopped && end.udp.addr == end.db.insAddr && end.udp.stack == end.db.stack)
  {
  }

  /** Any other call leaves the program and what the client knows of it as they are, but for the breakpoints. */
  lemma UseKeeps(run: seq<Sys>, steps: seq<Step>, i: nat, asked: Sys, answered: Sys, t: Sys)
    requires IsRun(run, steps) && i < |run| && run[i].link == Up && Exchange(run[i], asked, answered, t, Using)
    ensures t.call == None && t.client == VmStopped && t.udp == run[i].udp
    ensures t.db == run[i].db.(breakpts := t.db.breakpts)
  {
    RunKeeps(run, steps, i);
  }

  /** A client that connects is accepted, which stops the program, and is answered. */
  lemma ConnectStops(s: Sys, asked: Sys, accepted: Sys, answered: Sys, t: Sys)
    requires Starts(s)
    requires Next(s, asked, ClientCalls(Connecting)) && Next(asked, accepted, ServerAccepts)
    requires Next(accepted, answered, ServerAnswers) && Next(answered, t, ClientReceives)
    ensures t.peer == Joined && t.call == None && t.client == VmStopped
    ensures t.db == if s.db.state == State.Error || s.db.state == State.Exit then s.db
                    else s.db.(state := State.Stopped)
    ensures t.udp.stopped && t.udp.addr == t.db.insAddr && t.udp.stack == t.db.stack
  {
  }

  lemma ConnectAnswered(s: Sys) returns (asked: Sys, accepted: Sys, answered: Sys, t: Sys)
    requires Starts(s)
    ensures Next(s, asked, ClientCalls(Connecting)) && Next(asked, accepted, ServerAccepts)
    ensures Next(accepted, answered, ServerAnswers) && Next(answered, t, ClientReceives)
  {
    asked := s.(call := Some(Connecting), link := Up, pending := Some(ConnectReq));
    accepted := asked.(peer := Joined, db := if DbStopped(s.db.state) then s.db else s.db.(state := State.Stopped));
    var u := UpdateOf(accepted.db);
    answered := accepted.(pending := None, reply := Some(Updated(u)));
    t := answered.(call := None, reply := None, udp := u, client := VmStopped);
  }
}
