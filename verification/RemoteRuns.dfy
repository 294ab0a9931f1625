/** The two ends of a call as they run: the loops of src/server/db-client-impl-vmside.cc, the dispatch of
    src/server/data-client-handler.cc and the exchange of src/client/db-client-impl-data.cc. */
module RemoteRuns {
  import opened Common
  import opened Wire
  import opened Schema
  import opened Handlers
  import opened Messages
  import opened Remote
  import opened Transparency
  import S = Stepping
  import A = Agreement

  /** The results so far, then those of the remaining items. */
  function Prefixed<X, Q>(qs: seq<Q>, r: (X, Outcome<seq<Q>>)): (X, Outcome<seq<Q>>) {
    match r
    case (x, Thrown(m)) => (x, Thrown(m))
    case (x, Done(ws)) => (x, Done(qs + ws))
  }

  lemma BatchStep<X, P, Q>(f: (X, P) -> (X, Outcome<Q>), x: X, items: seq<P>, i: nat, qs: seq<Q>)
    requires i < |items|
    ensures match f(x, items[i])
            case (y, Thrown(m)) => Prefixed(qs, Batch(f, x, items[i..])) == (y, Thrown(m))
            case (y, Done(q)) =>
              Prefixed(qs, Batch(f, x, items[i..])) == Prefixed(qs + [q], Batch(f, y, items[i + 1..]))
  {
    assert items[i..][1..] == items[i + 1..];
    match f(x, items[i])
    case (y, Thrown(m)) =>
    case (y, Done(q)) =>
      var rest := Batch(f, y, items[i + 1..]);
      if rest.1.Done? {
        Assoc(qs, [q], rest.1.value);
      }
  }

  /** A batch of calls on one state, in order, until one throws. */
  method ForEach<X, P, Q>(f: (X, P) -> (X, Outcome<Q>), start: X, items: seq<P>) returns (x: X, r: Outcome<seq<Q>>)
    ensures (x, r) == Batch(f, start, items)
  {
    x := start;
    var qs: seq<Q> := [];
    var i := 0;
    ghost var whole := Batch(f, start, items);
    assert items[0..] == items && (whole.1.Done? ==> [] + whole.1.value == whole.1.value);
    while i < |items|
      invariant 0 <= i <= |items|
      invariant whole == Prefixed(qs, Batch(f, x, items[i..]))
    {
      BatchStep(f, x, items, i, qs);
      var (y, q) := f(x, items[i]);
      x := y;
      if q.Thrown? {
        return x, Thrown(q.msg);
      }
      qs := qs + [q.value];
      i := i + 1;
    }
    assert qs + [] == qs;
    r := Done(qs);
  }

  function PrefixedCode<X>(texts: seq<Text>, dists: seq<U64>, r: (X, Outcome<(seq<Text>, seq<U64>)>))
    : (X, Outcome<(seq<Text>, seq<U64>)>)
  {
    match r
    case (x, Thrown(m)) => (x, Thrown(m))
    case (x, Done((ts, ds))) => (x, Done((texts + ts, dists + ds)))
  }

  lemma CodeStep<X>(api: Api<X>, x: X, addr: U64, n: nat, texts: seq<Text>, dists: seq<U64>)
    requires n > 0
    ensures var whole := PrefixedCode(texts, dists, CodeFrom(api, x, addr, n));
            match api.codeText(x, addr)
            case (y, Thrown(m)) => whole == (y, Thrown(m))
            case (y, Done((text, dist))) =>
              whole == PrefixedCode(texts + [text], dists + [dist], CodeFrom(api, y, (addr + dist) % TWO_64, n - 1))
  {
    match api.codeText(x, addr)
    case (y, Thrown(m)) =>
    case (y, Done((text, dist))) =>
      var rest := CodeFrom(api, y, (addr + dist) % TWO_64, n - 1);
      if rest.1.Done? {
        Assoc(texts, [text], rest.1.value.0);
        Assoc(dists, [dist], rest.1.value.1);
      }
  }

  method CodeText<X>(api: Api<X>, start: X, from: U64, nins: nat) returns (x: X, r: Outcome<(seq<Text>, seq<U64>)>)
    ensures (x, r) == CodeFrom(api, start, from, nins)
  {
    x := start;
    var addr: U64 := from;
    var outText: seq<Text>, outSizes: seq<U64> := [], [];
    ghost var whole := CodeFrom(api, start, from, nins);
    assert whole.1.Done? ==> [] + whole.1.value.0 == whole.1.value.0 && [] + whole.1.value.1 == whole.1.value.1;
    for i := 0 to nins
      invariant whole == PrefixedCode(outText, outSizes, CodeFrom(api, x, addr, nins - i))
    {
      CodeStep(api, x, addr, nins - i, outText, outSizes);
      var (y, t) := api.codeText(x, addr);
      x := y;
      if t.Thrown? {
        return x, Thrown(t.msg);
      }
      outText := outText + [t.value.0];
      outSizes := outSizes + [t.value.1];
      addr := (addr + t.value.1) % TWO_64;
    }
    assert outText + [] == outText && outSizes + [] == outSizes;
    r := Done((outText, outSizes));
  }

  /** DBClientImplVMSide over the debugger it refers to. */
  class VmSide<X> {
    const api: Api<X>
    var srv: Server<X>

    constructor (api: Api<X>, srv: Server<X>)
      ensures this.api == api && this.srv == srv
    {
      this.api, this.srv := api, srv;
    }

    /** Fills in an update; on a running program only the mark that it has not stopped. */
    method CheckStopped(was: A.ClientUpdate) returns (udp: A.ClientUpdate)
      ensures udp == Checked(srv.db, was)
    {
      udp := was;
      if S.Running(srv.db.state) {
        udp := udp.(stopped := false);
        return;
      }
      match srv.db.state {
        case Error => udp := udp.(vmState := A.Errored);
        case Exit => udp := udp.(vmState := A.Exited);
        case _ => udp := udp.(vmState := A.Ready);
      }
      udp := udp.(stopped := true);
      udp := udp.(addr := srv.db.insAddr);
      udp := udp.(stack := srv.db.stack);
    }

    /** The calls on registers. */
    method RegCall(call: Call) returns (r: Outcome<Reply>)
      requires call.ReadRegs? || call.WriteRegs? || call.RegsInfos? || call.RegsByName?
      modifies this
      ensures (srv, r) == Direct(api, old(srv), call)
    {
      hide Batch;
      match call
      case ReadRegs(ids, _) =>
        var x, bs := ForEach(api.getReg, srv.vm, ids);
        r := VmCall(x, bs, bs => RBufs(bs));
      case WriteRegs(ids, _, bufs) =>
        var x, us := ForEach(api.setReg, srv.vm, Zip(ids, bufs));
        r := VmCall(x, us, _ => RDone);
      case RegsInfos(ids) =>
        var x, rs := ForEach(api.regInfos, srv.vm, ids);
        r := VmCall(x, rs, rs => RRegs(rs));
      case RegsByName(names) =>
        var x, ids := ForEach(api.findReg, srv.vm, names);
        r := VmCall(x, ids, ids => RIds(ids));
    }

    /** The calls on memory and code. */
    method MemCall(call: Call) returns (r: Outcome<Reply>)
      requires call.ReadMemory? || call.WriteMemory? || call.Code?
      modifies this
      ensures (srv, r) == Direct(api, old(srv), call)
    {
      hide Batch, CodeFrom;
      match call
      case ReadMemory(addrs, sizes) =>
        var x, bs := ForEach(api.readMem, srv.vm, Zip(addrs, sizes));
        r := VmCall(x, bs, bs => RBufs(bs));
      case WriteMemory(addrs, _, bufs) =>
        var x, us := ForEach(api.writeMem, srv.vm, Zip(addrs, bufs));
        r := VmCall(x, us, _ => RDone);
      case Code(addr, nins) =>
        var x, c := CodeText(api, srv.vm, addr, nins);
        r := VmCall(x, c, (c: (seq<Text>, seq<U64>)) => RCode(c.0, c.1));
    }

    /** The calls on symbols. */
    method SymCall(call: Call) returns (r: Outcome<Reply>)
      requires call.SymsById? || call.SymsIn? || call.SymsByName?
      modifies this
      ensures (srv, r) == Direct(api, old(srv), call)
    {
      hide Batch;
      match call
      case SymsById(ids) =>
        var x, ss := ForEach(api.symInfos, srv.vm, ids);
        r := VmCall(x, ss, ss => RSyms(ss));
      case SymsIn(addr, size) =>
        var (x, ids) := api.symbols(srv.vm, addr, size);
        if ids.Thrown? {
          srv := srv.(vm := x);
          return Thrown(ids.msg);
        }
        var y, ss := ForEach(api.symInfos, x, ids.value);
        r := VmCall(y, ss, ss => RSyms(ss));
      case SymsByName(names) =>
        var x, ss := ForEach(SymNamed(api), srv.vm, names);
        r := VmCall(x, ss, ss => RSyms(ss));
    }

    /** The calls on the debugger itself. */
    method DbgCall(call: Call) returns (r: Outcome<Reply>)
      requires call.Hello? || call.Halt? || call.Check? || call.SetBkps? || call.UnsetBkps? || call.Go?
      modifies this
      ensures (srv, r) == Direct(api, old(srv), call)
    {
      hide Batch;
      match call
      case Hello(was) =>
        var udp := CheckStopped(was);
        r := Done(RHello(srv.infos, udp));
      case Halt => r := DbCall(OrThrown(srv.db, S.Stop(srv.db)));
      case Check(was) =>
        var udp := CheckStopped(was);
        r := Done(RUpdate(udp));
      case SetBkps(addrs) =>
        var db, us := ForEach(AddBkp, srv.db, addrs);
        r := DbCall((db, us));
      case UnsetBkps(addrs) =>
        var db, us := ForEach(DelBkp, srv.db, addrs);
        r := DbCall((db, us));
      case Go(mode) => r := DbCall(OrThrown(srv.db, S.Resume(srv.db, mode)));
    }

    /** Any of its calls. */
    method Perform(call: Call) returns (r: Outcome<Reply>)
      modifies this
      ensures (srv, r) == Direct(api, old(srv), call)
    {
      hide Direct;
      match call
      case ReadRegs(_, _) | WriteRegs(_, _, _) | RegsInfos(_) | RegsByName(_) => r := RegCall(call);
      case ReadMemory(_, _) | WriteMemory(_, _, _) | Code(_, _) => r := MemCall(call);
      case SymsById(_) | SymsIn(_, _) | SymsByName(_) => r := SymCall(call);
      case _ => r := DbgCall(call);
    }

    method VmCall<T>(x: X, t: Outcome<T>, wrap: T -> Reply) returns (r: Outcome<Reply>)
      modifies this
      ensures (srv, r) == OnVm(old(srv), (x, t), wrap)
    {
      srv := srv.(vm := x);
      r := Answer(t, wrap);
    }

    method DbCall<T>(d: (S.Db, Outcome<T>)) returns (r: Outcome<Reply>)
      modifies this
      ensures (srv, r) == OnDb(old(srv), d)
    {
      srv := srv.(db := d.0);
      r := Answer(d.1, (_: T) => RDone);
    }
  }

  /** The message is read whole, and what the call writes fits the structure it was made from. */
  ghost predicate Servable<X>(api: Api<X>, srv: Server<X>, msg: Bytes) {
    && msg != []
    && match KindOfCode(msg[0])
       case None => true
       case Some(t) =>
         if S.Running(srv.db.state) then t == Stop || t == CheckStopped ==> Fitted(api, srv, t, msg[1..])
         else t == Error || t == Stop || (Served(t) && Fitted(api, srv, t, msg[1..]))
  }

  ghost predicate Fitted<X>(api: Api<X>, srv: Server<X>, t: ReqType, body: Bytes) {
    match ServRecv(SchemaOf(t), map[], body)
    case None => false
    case Some((rec, _)) =>
      var r := Direct(api, srv, OnFresh(srv, CallOf(t, rec))).1;
      r.Done? ==> AllWritable(SchemaOf(t), Out, WithReply(t, rec, r.value, srv.junk))
  }

  /** The requests that have rows to fill in. */
  predicate FillsRows(t: ReqType) {
    t == GetRegs || t == GetRegsVar || t == ReadMem || t == ReadMemVar
  }

  lemma RowsKinds<X>(api: Api<X>, srv: Server<X>, t: ReqType, rec: Record)
    ensures var r := Direct(api, srv, OnFresh(srv, CallOf(t, rec))).1;
            r.Done? && r.value.RBufs? ==> FillsRows(t)
  {
    hide Batch, CodeFrom, SymsAt;
  }

  lemma FittingRows(bufs: seq<Bytes>, lens: seq<nat>)
    requires RowsFit(BYTE, lens, Rows(Padded(bufs, lens)).items)
    ensures forall i :: 0 <= i < |bufs| ==> i < |lens| && |bufs[i]| <= lens[i]
  {
    hide AllHaveType;
    assert forall i :: 0 <= i < |bufs| ==> |Rows(Padded(bufs, lens)).items[i].items| == |Padded(bufs, lens)[i]|;
  }

  lemma RowsField(t: ReqType, rec: Record, v: Val)
    requires FillsRows(t)
    ensures |SchemaOf(t)| == 4
    ensures var f := SchemaOf(t)[3];
            f.slot == Bufs && f.dir == Out && f.ty == BYTE && (f.shape.Grid? || f.shape.GridVar?) &&
            RowLens(f.shape, rec[Bufs := v]) == RowLens(f.shape, rec)
  {
  }

  lemma RowsWritten(t: ReqType, rec: Record, bufs: seq<Bytes>, junk: U64)
    requires FillsRows(t) && AllWritable(SchemaOf(t), Out, WithReply(t, rec, RBufs(bufs), junk))
    ensures RowsFit(BYTE, BufLens(t, rec), Rows(Padded(bufs, BufLens(t, rec))).items)
  {
    hide RowsFit, Padded, Rows, SchemaOf, FillsRows, RowLens;
    RowsField(t, rec, Rows(Padded(bufs, BufLens(t, rec))));
    var f, out := SchemaOf(t)[3], WithReply(t, rec, RBufs(bufs), junk);
    assert f in SchemaOf(t) && Writable(f, out);
  }

  /** Rows that can be written have not overrun their buffers. */
  lemma WritableFits(t: ReqType, rec: Record, reply: Reply, junk: U64)
    requires AllWritable(SchemaOf(t), Out, WithReply(t, rec, reply, junk))
    requires reply.RBufs? ==> FillsRows(t)
    ensures !Overruns(t, rec, Done(reply))
  {
    hide WithReply, AllWritable, BufLens, RowsFit, FillsRows;
    if reply.RBufs? {
      RowsWritten(t, rec, reply.bufs, junk);
      FittingRows(reply.bufs, BufLens(t, rec));
    }
  }

  /** DataClientHandler with the buffers its runner handed over. */
  class DataClientHandler<X> {
    const vm: VmSide<X>
    const rh: RequestHandler

    constructor (vm: VmSide<X>)
      ensures this.vm == vm && rh.server
    {
      this.vm := vm;
      this.rh := new RequestHandler(true);
    }

    /** Reads the request of a known kind, performs its call and writes the response. */
    method Serve(src: SerialInBuff, dst: SerialOutBuff, t: ReqType)
      requires rh.server && src.Valid() && dst.data == [] && Fitted(vm.api, vm.srv, t, src.Rest())
      modifies vm, src, dst
      ensures match ServRecv(SchemaOf(t), map[], old(src.Rest()))
              case None => false
              case Some((rec, _)) =>
                var (after, r) := Direct(vm.api, old(vm.srv), OnFresh(old(vm.srv), CallOf(t, rec)));
                vm.srv == after && dst.data == Response(t, rec, r, old(vm.srv).junk) && !Overruns(t, rec, r)
    {
      hide Direct, CallOf, OnFresh, WithReply, AllWritable, SchemaOf, Messages.Code, Overruns, FillsRows;
      var req := rh.ServerReadRequest(src, SchemaOf(t));
      var junk := vm.srv.junk;
      RowsKinds(vm.api, vm.srv, t, req.value);
      var reply := vm.Perform(OnFresh(vm.srv, CallOf(t, req.value)));
      match reply
      case Thrown(m) =>
        ThrownArrives(t, req.value, m, junk);
        WriteError(dst, m);
      case Done(v) =>
        WritableFits(t, req.value, v, junk);
        dst.Write([Messages.Code(t)]);
        assert dst.data == [Messages.Code(t)];
        rh.ServerWriteResponse(dst, SchemaOf(t), WithReply(t, req.value, v, junk));
    }

    /** While the program is stopped. */
    method RunCommand(src: SerialInBuff, dst: SerialOutBuff)
      requires rh.server && src.Valid() && !S.Running(vm.srv.db.state) && Servable(vm.api, vm.srv, src.Rest())
      modifies vm, src, dst
      ensures Remote.RunCommand(vm.api, old(vm.srv), old(src.Rest())) == Some((vm.srv, dst.data))
    {
      hide Direct, CallOf, OnFresh, Response, SchemaOf, Served, Fitted, Overruns;
      dst.Reset();
      var code := src.ReadInt(1);
      CodeOf(old(src.Rest()));
      match KindOfCode(code.value)
      case None => WriteError(dst, Ascii(BAD_REQUEST));
      case Some(t) =>
        if t == Error {
          WriteError(dst, Ascii(BAD_REQUEST));
        } else if t == Stop {
          WriteError(dst, Ascii(STOP_REFUSED));
        } else {
          Serve(src, dst, t);
        }
    }

    /** While the program runs. */
    method CheckStopped(src: SerialInBuff, dst: SerialOutBuff)
      requires rh.server && src.Valid() && S.Running(vm.srv.db.state) && Servable(vm.api, vm.srv, src.Rest())
      modifies vm, src, dst
      ensures PollCommand(vm.api, old(vm.srv), old(src.Rest())) == Some((vm.srv, dst.data))
    {
      hide Direct, CallOf, OnFresh, Response, SchemaOf, Fitted, Overruns, ErrorMessage, Ascii, Served;
      dst.Reset();
      var code := src.ReadInt(1);
      CodeOf(old(src.Rest()));
      match KindOfCode(code.value)
      case Some(Stop) => Serve(src, dst, Stop);
      case Some(CheckStopped) => Serve(src, dst, ReqType.CheckStopped);
      case _ => WriteError(dst, Ascii(ONLY_STOP));
    }

    method WriteError(dst: SerialOutBuff, msg: Text)
      requires rh.server && dst.data == []
      modifies dst
      ensures dst.data == ErrorMessage(msg)
    {
      dst.Write([ERR_CODE]);
      MessageFits(map[OutMsg := VStr(CStr(msg))]);
      rh.ServerWriteResponse(dst, SchemaOf(Error), map[OutMsg := VStr(CStr(msg))]);
    }
  }

  /** One byte is its own integer. */
  lemma CodeOf(msg: Bytes)
    requires msg != []
    ensures TakeInt(1, msg) == Some((msg[0], msg[1..]))
  {
    assert FromLe(msg[..1]) == msg[0] + 256 * FromLe(msg[..1][1..]);
  }

  /** A proper call makes a request the server can serve. */
  lemma ProperIsServable<X(!new)>(api: Api<X>, srv: Server<X>, call: Call)
    requires !S.Running(srv.db.state) && |srv.db.stack| < TWO_64 && Proper(api, call) && !NoRequest(call)
    ensures Servable(api, srv, MessageOf(RequestOf(call).0, RequestOf(call).1))
  {
    hide Proper, NoRequest, Sound, SchemaOf, WithReply, ReplyOf, Seen, ServRecv, SameWork, Truncated, Direct, CallOf,
         OnFresh, RequestOf, SameInputs, AllFit, AllWritable;
    var (t, rec) := RequestOf(call);
    CallAsks(api, call);
    var serv := ServerSees(call);
    FreshSameWork(srv, CallOf(t, serv), Truncated(call));
    SameWorkSameResult(api, srv, OnFresh(srv, CallOf(t, serv)), Truncated(call));
    CodesDiffer(t);
    var r := Direct(api, srv, Truncated(call)).1;
    if r.Done? {
      DirectSound(api, srv, call);
      SoundOnInputs(t, rec, serv, r.value);
      ReplyReturns(t, serv, r.value, srv.junk);
      FittingIsWritable(SchemaOf(t), Out, WithReply(t, serv, r.value, srv.junk));
    }
  }

  /** DBClientImplData, connected to a handler on the other side. */
  class DBClientImplData<X(!new)> {
    const peer: DataClientHandler<X>
    const rh: RequestHandler
    const src: SerialInBuff
    const dst: SerialOutBuff

    ghost predicate Valid() {
      !rh.server && peer.rh.server
    }

    constructor (peer: DataClientHandler<X>)
      requires peer.rh.server
      ensures Valid() && this.peer == peer && fresh(src) && fresh(dst)
    {
      this.peer := peer;
      this.rh := new RequestHandler(false);
      this.src := new SerialInBuff([]);
      this.dst := new SerialOutBuff();
    }

    /** One request and its response. None stands for a failed assertion on the kind of the response, or a
        panic while it is read. */
    method SendReq(t: ReqType, rec: Record) returns (r: Option<Outcome<Reply>>)
      requires Valid() && AllWritable(SchemaOf(t), In, rec) && Servable(peer.vm.api, peer.vm.srv, MessageOf(t, rec))
      modifies peer.vm, src, dst
      ensures match Handle(peer.vm.api, old(peer.vm.srv), MessageOf(t, rec))
              case None => false
              case Some((after, resp)) => peer.vm.srv == after && r == Receive(t, rec, resp)
    {
      hide AllWritable, SchemaOf, Servable, Remote.RunCommand, PollCommand, CliRecv, Messages.Code, ReplyOf, CStr, Send;
      dst.Reset();
      dst.Write([Messages.Code(t)]);
      rh.ClientWriteRequest(dst, SchemaOf(t), rec);
      assert dst.data == MessageOf(t, rec);
      var there := new SerialInBuff(dst.data);
      var back := new SerialOutBuff();
      if S.Running(peer.vm.srv.db.state) {
        peer.CheckStopped(there, back);
      } else {
        peer.RunCommand(there, back);
      }
      src.Reset(back.data);
      r := ReadResponse(t, rec);
    }

    method ReadResponse(t: ReqType, rec: Record) returns (r: Option<Outcome<Reply>>)
      requires Valid() && src.Valid()
      modifies src
      ensures r == Receive(t, rec, old(src.Rest()))
    {
      hide Served, AllFit, SchemaOf, Messages.Code, CliRecv, ReplyOf, CStr;
      ghost var resp := src.Rest();
      var code := src.ReadInt(1);
      if code == None {
        return None;
      }
      CodeOf(resp);
      if code.value == ERR_CODE {
        AllWf(Error);
        var err := rh.ClientReadResponse(src, SchemaOf(Error), map[]);
        return if err == None then None else Some(Thrown(CStr(ToText(At(err.value, OutMsg)))));
      }
      if code.value != Messages.Code(t) {
        return None;
      }
      AllWf(t);
      var req := rh.ClientReadResponse(src, SchemaOf(t), rec);
      r := if req == None then None else Some(Done(ReplyOf(t, req.value)));
    }

    /** Every call of DBClientImpl, but a stop, as the direct one. */
    method Perform(call: Call) returns (r: Outcome<Reply>)
      requires Valid() && !S.Running(peer.vm.srv.db.state) && |peer.vm.srv.db.stack| < TWO_64 &&
               Proper(peer.vm.api, call)
      modifies peer.vm, src, dst
      ensures var (after, d) := Direct(peer.vm.api, old(peer.vm.srv), Truncated(call));
              peer.vm.srv == after && r == Observed(d, old(peer.vm.srv).junk)
    {
      hide Proper, Servable, Truncated, Direct, Observed, Handle, Receive, MessageOf, RequestOf, NoRequest, AllFit,
           AllWritable, Served, SameWork;
      WireIsDirect(peer.vm.api, peer.vm.srv, call);
      if NoRequest(call) {
        return if call.ReadRegs? || call.ReadMemory? then Done(RBufs([])) else Done(RDone);
      }
      var (t, rec) := RequestOf(call);
      CallAsks(peer.vm.api, call);
      ProperIsServable(peer.vm.api, peer.vm.srv, call);
      FittingIsWritable(SchemaOf(t), In, rec);
      var back := SendReq(t, rec);
      r := back.value;
    }
  }
}
