/** Calls on the debugger, made directly (src/server/db-client-impl-vmside.cc) or through requests
    (src/client/db-client-impl-data.cc on one end, src/server/data-client-handler.cc on the other). */
module Remote {
  import opened Common
  import opened Wire
  import opened Schema
  import opened Messages
  import S = Stepping
  import A = Agreement

  /** What a call gives: a result, or a thrown VMApi::Error. */
  datatype Outcome<+T> = Done(value: T) | Thrown(msg: Text)

  /** The debugger's functions that end in the VM. `X` is the VM together with the debugger's caches. */
  datatype Api<!X> = Api(
    getReg: (X, U32) -> (X, Outcome<Bytes>),
    setReg: (X, (U32, Bytes)) -> (X, Outcome<()>),
    regInfos: (X, U32) -> (X, Outcome<RegInfos>),
    findReg: (X, Bytes) -> (X, Outcome<U32>),
    readMem: (X, (U64, U64)) -> (X, Outcome<Bytes>),
    writeMem: (X, (U64, Bytes)) -> (X, Outcome<()>),
    symbols: (X, U64, U64) -> (X, Outcome<List<U32>>),
    symInfos: (X, U32) -> (X, Outcome<SymbolInfos>),
    findSym: (X, Bytes) -> (X, Outcome<U32>),
    codeText: (X, U64) -> (X, Outcome<(Text, U64)>))

  /** The debugger: its execution control, what it knows of the VM, and `X`. Uninitialised call addresses
      read as `junk`, and the uninitialised members of an update that has just been made as those of `raw`. */
  datatype Server<X> = Server(db: S.Db, infos: VmInfos, junk: U64, raw: A.ClientUpdate, vm: X)

  /** The calls of DBClientImpl, with the contents of the buffers they are given. */
  datatype Call =
    | Hello(was: A.ClientUpdate) | Halt | Check(was: A.ClientUpdate)   // the update as it was before
    | ReadRegs(ids: seq<U32>, sizes: seq<U64>)
    | WriteRegs(ids: seq<U32>, sizes: seq<U64>, bufs: seq<Bytes>)
    | RegsInfos(ids: seq<U32>)
    | RegsByName(names: seq<Bytes>)
    | ReadMemory(addrs: seq<U64>, sizes: seq<U64>)
    | WriteMemory(addrs: seq<U64>, sizes: seq<U64>, bufs: seq<Bytes>)
    | SymsById(ids: seq<U32>)
    | SymsIn(addr: U64, size: U64)
    | SymsByName(names: seq<Bytes>)
    | Code(addr: U64, nins: U64)
    | SetBkps(addrs: seq<U64>)
    | UnsetBkps(addrs: seq<U64>)
    | Go(mode: S.ResumeType)

  datatype Reply =
    | RHello(infos: VmInfos, udp: A.ClientUpdate)
    | RUpdate(udp: A.ClientUpdate)
    | RBufs(bufs: seq<Bytes>)
    | RRegs(regs: seq<RegInfos>)
    | RIds(ids: seq<U32>)
    | RSyms(syms: seq<SymbolInfos>)
    | RCode(text: seq<Text>, sizes: seq<U64>)
    | RDone

  /** A message of the source as bytes. */
  function Ascii(m: string): (r: Text)
    ensures |m| < TWO_64 && (forall i :: 0 <= i < |m| ==> 0 < m[i] as int < TWO_8) ==>
              |r| == |m| && forall i :: 0 <= i < |m| ==> r[i] == m[i] as int && r[i] != 0
  {
    Fitting(seq(|m|, i requires 0 <= i < |m| => m[i] as int % TWO_8))
  }

  /** The text that e.what() points to: everything up to the first zero. */
  function CStr(m: Bytes): (r: Bytes)
    ensures r <= m && (forall i :: 0 <= i < |r| ==> r[i] != 0) && (|r| < |m| ==> m[|r|] == 0)
  {
    if m == [] || m[0] == 0 then [] else [m[0]] + CStr(m[1..])
  }

  /** A text without zeros is passed on whole. */
  lemma WholeText(m: Bytes)
    requires NulFree(m)
    ensures CStr(m) == m
  {
    assert |CStr(m)| == |m|;
  }

  lemma CStrOnce(m: Bytes)
    ensures CStr(CStr(m)) == CStr(m)
  {
    WholeText(CStr(m));
  }

  // Direct calls.

  /** One item after the other, until one throws. */
  function Batch<X, P, Q>(f: (X, P) -> (X, Outcome<Q>), x: X, items: seq<P>): (X, Outcome<seq<Q>>) {
    if items == [] then (x, Done([]))
    else
      match f(x, items[0])
      case (y, Thrown(m)) => (y, Thrown(m))
      case (y, Done(q)) =>
        match Batch(f, y, items[1..])
        case (z, Thrown(m)) => (z, Thrown(m))
        case (z, Done(qs)) => (z, Done([q] + qs))
  }

  function Zip<P, Q>(a: seq<P>, b: seq<Q>): (r: seq<(P, Q)>)
    ensures |r| == Min(|a|, |b|)
  {
    seq(Min(|a|, |b|), i requires 0 <= i < Min(|a|, |b|) => (a[i], b[i]))
  }

  /** A symbol by its name: the id first, then what is known of it. */
  function SymNamed<X>(api: Api<X>): (X, Bytes) -> (X, Outcome<SymbolInfos>) {
    (x: X, name: Bytes) =>
      match api.findSym(x, name)
      case (y, Thrown(m)) => (y, Thrown(m))
      case (y, Done(id)) => api.symInfos(y, id)
  }

  /** The code at `addr` and after it; addresses wrap around. */
  function CodeFrom<X>(api: Api<X>, x: X, addr: U64, n: nat): (r: (X, Outcome<(seq<Text>, seq<U64>)>))
    ensures r.1.Done? ==> |r.1.value.0| == n && |r.1.value.1| == n
    decreases n
  {
    if n == 0 then (x, Done(([], [])))
    else
      match api.codeText(x, addr)
      case (y, Thrown(m)) => (y, Thrown(m))
      case (y, Done((text, dist))) =>
        match CodeFrom(api, y, (addr + dist) % TWO_64, n - 1)
        case (z, Thrown(m)) => (z, Thrown(m))
        case (z, Done((texts, dists))) => (z, Done(([text] + texts, [dist] + dists)))
  }

  function OrThrown(db: S.Db, r: Result<S.Db>): (S.Db, Outcome<()>) {
    match r
    case Err(m) => (db, Thrown(Ascii(m)))
    case Ok(d) => (d, Done(()))
  }

  function AddBkp(db: S.Db, addr: U64): (S.Db, Outcome<()>) {
    OrThrown(db, S.AddBreakpoint(db, addr))
  }

  function DelBkp(db: S.Db, addr: U64): (S.Db, Outcome<()>) {
    OrThrown(db, S.DelBreakpoint(db, addr))
  }

  function Answer<T>(r: Outcome<T>, wrap: T -> Reply): Outcome<Reply> {
    match r
    case Thrown(m) => Thrown(m)
    case Done(v) => Done(wrap(v))
  }

  function OnVm<X, T>(srv: Server<X>, r: (X, Outcome<T>), wrap: T -> Reply): (Server<X>, Outcome<Reply>) {
    (srv.(vm := r.0), Answer(r.1, wrap))
  }

  function OnDb<X, T>(srv: Server<X>, r: (S.Db, Outcome<T>)): (Server<X>, Outcome<Reply>) {
    (srv.(db := r.0), Answer(r.1, (_: T) => RDone))
  }

  function SymsAt<X>(api: Api<X>, x: X, addr: U64, size: U64): (X, Outcome<seq<SymbolInfos>>) {
    match api.symbols(x, addr, size)
    case (y, Thrown(m)) => (y, Thrown(m))
    case (y, Done(ids)) => Batch(api.symInfos, y, ids)
  }

  /** check_stopped: on a running program only the mark that it has not stopped is set. */
  function Checked(db: S.Db, was: A.ClientUpdate): A.ClientUpdate {
    if S.Running(db.state) then was.(stopped := false) else A.UpdateOf(db)
  }

  /** DBClientImplVMSide. */
  function Direct<X>(api: Api<X>, srv: Server<X>, call: Call): (Server<X>, Outcome<Reply>) {
    match call
    case Hello(was) => (srv, Done(RHello(srv.infos, Checked(srv.db, was))))
    case Halt => OnDb(srv, OrThrown(srv.db, S.Stop(srv.db)))
    case Check(was) => (srv, Done(RUpdate(Checked(srv.db, was))))
    case ReadRegs(ids, _) => OnVm(srv, Batch(api.getReg, srv.vm, ids), bs => RBufs(bs))
    case WriteRegs(ids, _, bufs) => OnVm(srv, Batch(api.setReg, srv.vm, Zip(ids, bufs)), _ => RDone)
    case RegsInfos(ids) => OnVm(srv, Batch(api.regInfos, srv.vm, ids), rs => RRegs(rs))
    case RegsByName(names) => OnVm(srv, Batch(api.findReg, srv.vm, names), ids => RIds(ids))
    case ReadMemory(addrs, sizes) => OnVm(srv, Batch(api.readMem, srv.vm, Zip(addrs, sizes)), bs => RBufs(bs))
    case WriteMemory(addrs, _, bufs) => OnVm(srv, Batch(api.writeMem, srv.vm, Zip(addrs, bufs)), _ => RDone)
    case SymsById(ids) => OnVm(srv, Batch(api.symInfos, srv.vm, ids), ss => RSyms(ss))
    case SymsIn(addr, size) => OnVm(srv, SymsAt(api, srv.vm, addr, size), ss => RSyms(ss))
    case SymsByName(names) => OnVm(srv, Batch(SymNamed(api), srv.vm, names), ss => RSyms(ss))
    case Code(addr, nins) =>
      OnVm(srv, CodeFrom(api, srv.vm, addr, nins), (c: (seq<Text>, seq<U64>)) => RCode(c.0, c.1))
    case SetBkps(addrs) => OnDb(srv, Batch(AddBkp, srv.db, addrs))
    case UnsetBkps(addrs) => OnDb(srv, Batch(DelBkp, srv.db, addrs))
    case Go(mode) => OnDb(srv, OrThrown(srv.db, S.Resume(srv.db, mode)))
  }

  // The client's request for a call.

  /** What a 16-bit count leaves of a list. */
  function First<T>(s: seq<T>): (r: seq<T>)
    ensures r <= s && |r| == |s| % 0x1_0000
  {
    s[..|s| % TWO_16]
  }

  function Rows(bufs: seq<Bytes>): Val {
    VSeq(Each((b: Bytes) => OfNums(b), bufs))
  }

  function Strs(names: seq<Bytes>): seq<Val> {
    Each((s: Bytes) => VStr(s), names)
  }

  function Counted<T>(s: seq<T>): Val {
    VInt(|s| % TWO_16)
  }

  /** The structure that is filled in. A buffer member stands for the elements its count covers. */
  function RequestOf(call: Call): (ReqType, Record) {
    match call
    case Hello(_) => (Connect, map[])
    case Halt => (Stop, map[])
    case Check(_) => (CheckStopped, map[])
    case ReadRegs(ids, sizes) =>
      if Uniform(|ids|, sizes) then
        (GetRegs, map[Count := Counted(ids), Size := VInt(SizeAt(|ids|, sizes, 0)), Ids := OfNums(First(ids))])
      else
        (GetRegsVar, map[Count := Counted(ids), Ids := OfNums(First(ids)), Sizes := OfNums(First(sizes))])
    case WriteRegs(ids, sizes, bufs) =>
      if Uniform(|ids|, sizes) then
        (SetRegs, map[Count := Counted(ids), Size := VInt(SizeAt(|ids|, sizes, 0)), Ids := OfNums(First(ids)),
                      Bufs := Rows(First(bufs))])
      else
        (SetRegsVar, map[Count := Counted(ids), Ids := OfNums(First(ids)), Sizes := OfNums(First(sizes)),
                         Bufs := Rows(First(bufs))])
    case RegsInfos(ids) => (GetRegsInfos, map[Count := Counted(ids), Ids := OfNums(First(ids))])
    case RegsByName(names) => (FindRegsIds, map[Count := Counted(names), Names := VSeq(Strs(First(names)))])
    case ReadMemory(addrs, sizes) =>
      (ReadMemVar, map[Count := Counted(addrs), Addrs := OfNums(First(addrs)), Sizes := OfNums(First(sizes))])
    case WriteMemory(addrs, sizes, bufs) =>
      (WriteMemVar, map[Count := Counted(addrs), Addrs := OfNums(First(addrs)), Sizes := OfNums(First(sizes)),
                        Bufs := Rows(First(bufs))])
    case SymsById(ids) => (GetSymsByIds, map[Count := Counted(ids), Ids := OfNums(First(ids))])
    case SymsIn(addr, size) => (GetSymsByAddr, map[Start := VInt(addr), Size := VInt(size)])
    case SymsByName(names) => (GetSymsByNames, map[Count := Counted(names), Names := VSeq(Strs(First(names)))])
    case Code(addr, nins) => (GetCodeText, map[Start := VInt(addr), Nins := VInt(nins)])
    case SetBkps(addrs) => (AddBkps, map[Count := Counted(addrs), Addrs := OfNums(First(addrs))])
    case UnsetBkps(addrs) => (DelBkps, map[Count := Counted(addrs), Addrs := OfNums(First(addrs))])
    case Go(mode) => (Resume, map[Mode := VInt(ModeCode(mode))])
  }

  /** Calls on no register and on no memory block make no request. */
  predicate NoRequest(call: Call) {
    match call
    case ReadRegs(ids, _) => ids == []
    case WriteRegs(ids, _, _) => ids == []
    case ReadMemory(addrs, _) => addrs == []
    case WriteMemory(addrs, _, _) => addrs == []
    case _ => false
  }

  function MessageOf(t: ReqType, rec: Record): Bytes {
    [Messages.Code(t)] + Send(SchemaOf(t), In, rec)
  }

  // The server's side of a request.

  function At(rec: Record, s: Slot): Val {
    if s in rec then rec[s] else VInt(0)
  }

  function RowsOf(v: Val): seq<Bytes> {
    Each((r: Val) => ToU8s(r), RowItems(v))
  }

  function NamesOf(v: Val): seq<Bytes> {
    Each((s: Val) => Str(s), RowItems(v))
  }

  /** An update that has just been made: its stack is empty, nothing else is set. */
  function Fresh<X>(srv: Server<X>): A.ClientUpdate {
    srv.raw.(stack := [])
  }

  /** The call as it is made on a new structure. */
  function OnFresh<X>(srv: Server<X>, call: Call): Call {
    match call
    case Hello(_) => Hello(Fresh(srv))
    case Check(_) => Check(Fresh(srv))
    case _ => call
  }

  const NO_UPDATE := A.ClientUpdate(A.Ready, false, 0, [])

  /** The direct call a received structure asks for, but for the update it is made on. Structures with one size
      for all pass it on as a size followed by 0. */
  function CallOf(t: ReqType, rec: Record): Call {
    var ids, addrs := ToU32s(At(rec, Ids)), ToU64s(At(rec, Addrs));
    var size, sizes := ToU64(At(rec, Size)), ToU64s(At(rec, Sizes));
    match t
    case Connect => Hello(NO_UPDATE)
    case CheckStopped => Check(NO_UPDATE)
    case GetRegs => ReadRegs(ids, [size, 0])
    case GetRegsVar => ReadRegs(ids, sizes)
    case SetRegs => WriteRegs(ids, [size, 0], RowsOf(At(rec, Bufs)))
    case SetRegsVar => WriteRegs(ids, sizes, RowsOf(At(rec, Bufs)))
    case GetRegsInfos => RegsInfos(ids)
    case FindRegsIds => RegsByName(NamesOf(At(rec, Names)))
    case ReadMem => ReadMemory(addrs, [size, 0])
    case ReadMemVar => ReadMemory(addrs, sizes)
    case WriteMem => WriteMemory(addrs, [size, 0], RowsOf(At(rec, Bufs)))
    case WriteMemVar => WriteMemory(addrs, sizes, RowsOf(At(rec, Bufs)))
    case GetSymsByIds => SymsById(ids)
    case GetSymsByAddr => SymsIn(ToU64(At(rec, Start)), size)
    case GetSymsByNames => SymsByName(NamesOf(At(rec, Names)))
    case GetCodeText => Code(ToU64(At(rec, Start)), ToU64(At(rec, Nins)))
    case AddBkps => SetBkps(addrs)
    case DelBkps => UnsetBkps(addrs)
    case Resume => Go(ModeOf(ToU8(At(rec, Mode))))
    case _ => Halt
  }

  /** The lengths of the buffers that a structure has for its output rows. */
  function BufLens(t: ReqType, rec: Record): seq<nat> {
    if |SchemaOf(t)| == 4 then RowLens(SchemaOf(t)[3].shape, rec) else []
  }

  /** Rows written into zeroed buffers of these lengths. */
  function Padded(bufs: seq<Bytes>, lens: seq<nat>): (r: seq<Bytes>)
    ensures |r| == |bufs|
    ensures forall i :: 0 <= i < |bufs| ==>
              r[i] == if i < |lens| && |bufs[i]| < lens[i] then bufs[i] + Repeat(lens[i] - |bufs[i]|, 0) else bufs[i]
  {
    seq(|bufs|, i requires 0 <= i < |bufs| =>
      if i < |lens| && |bufs[i]| < lens[i] then bufs[i] + Repeat(lens[i] - |bufs[i]|, 0) else bufs[i])
  }

  /** The structure after the call has written its outputs. */
  function WithReply(t: ReqType, rec: Record, reply: Reply, junk: U64): Record {
    match reply
    case RHello(infos, u) => rec[OutInfos := OfInfos(infos)][OutUpdate := OfUpdate(u, junk)]
    case RUpdate(u) => rec[OutUpdate := OfUpdate(u, junk)]
    case RBufs(bufs) => rec[Bufs := Rows(Padded(bufs, BufLens(t, rec)))]
    case RRegs(regs) => rec[OutInfos := VSeq(Each(OfReg, regs))]
    case RIds(ids) => rec[OutIds := OfNums(ids)]
    case RSyms(syms) => rec[OutInfos := VSeq(Each(OfSym, syms))]
    case RCode(text, sizes) => rec[OutText := VSeq(Each(OfText, text))][OutSizes := OfNums(sizes)]
    case RDone => rec
  }

  function ErrorMessage(msg: Text): Bytes {
    [ERR_CODE] + Send(SchemaOf(Error), Out, map[OutMsg := VStr(CStr(msg))])
  }

  const STOP_REFUSED := "Cannot stop already stopped program\n"
  const BAD_REQUEST := "Bad API request"

  /** The uniform memory requests index past their two sizes; the client makes none. */
  predicate Served(t: ReqType) {
    t != Stop && t != Error && t != ReadMem && t != WriteMem
  }

  function Response(t: ReqType, rec: Record, r: Outcome<Reply>, junk: U64): Bytes {
    match r
    case Thrown(m) => ErrorMessage(m)
    case Done(reply) => [Messages.Code(t)] + Send(SchemaOf(t), Out, WithReply(t, rec, reply, junk))
  }

  /** The VM writes more bytes for a register than the buffer made for it holds. */
  predicate Overruns(t: ReqType, rec: Record, r: Outcome<Reply>) {
    r.Done? && r.value.RBufs? && var bufs, lens := r.value.bufs, BufLens(t, rec);
    exists i :: 0 <= i < |bufs| && i < |lens| && |bufs[i]| > lens[i]
  }

  /** DataClientHandler::run_command on one message; None when reading the message panics, or a buffer is
      overrun. */
  function RunCommand<X>(api: Api<X>, srv: Server<X>, msg: Bytes): Option<(Server<X>, Bytes)> {
    if msg == [] then None
    else
      match KindOfCode(msg[0])
      case None => Some((srv, ErrorMessage(Ascii(BAD_REQUEST))))
      case Some(t) =>
        if t == Error then Some((srv, ErrorMessage(Ascii(BAD_REQUEST))))
        else if t == Stop then Some((srv, ErrorMessage(Ascii(STOP_REFUSED))))
        else if !Served(t) then None
        else
          match ServRecv(SchemaOf(t), map[], msg[1..])
          case None => None
          case Some((rec, _)) =>
            var (after, r) := Direct(api, srv, OnFresh(srv, CallOf(t, rec)));
            if Overruns(t, rec, r) then None else Some((after, Response(t, rec, r, srv.junk)))
  }

  const ONLY_STOP := "Only stop and check stopped request " + "can be sent while VM running"

  /** DataClientHandler::check_stopped on one message, while the program runs. */
  function PollCommand<X>(api: Api<X>, srv: Server<X>, msg: Bytes): Option<(Server<X>, Bytes)> {
    if msg == [] then None
    else if KindOfCode(msg[0]) == Some(Stop) || KindOfCode(msg[0]) == Some(CheckStopped) then
      var t := KindOfCode(msg[0]).value;
      match ServRecv(SchemaOf(t), map[], msg[1..])
      case None => None
      case Some((rec, _)) =>
        var (after, r) := Direct(api, srv, OnFresh(srv, CallOf(t, rec)));
        Some((after, Response(t, rec, r, srv.junk)))
    else Some((srv, ErrorMessage(Ascii(ONLY_STOP))))
  }

  /** The handler function that sees the message: run_command if the program is stopped, check_stopped while
      it runs. */
  function Handle<X>(api: Api<X>, srv: Server<X>, msg: Bytes): Option<(Server<X>, Bytes)> {
    if S.Running(srv.db.state) then PollCommand(api, srv, msg) else RunCommand(api, srv, msg)
  }

  // The client's side of a response.

  function ReplyOf(t: ReqType, rec: Record): Reply {
    match t
    case Connect => RHello(ToInfos(At(rec, OutInfos)), ToUpdate(At(rec, OutUpdate)))
    case CheckStopped => RUpdate(ToUpdate(At(rec, OutUpdate)))
    case GetRegs | GetRegsVar | ReadMem | ReadMemVar => RBufs(RowsOf(At(rec, Bufs)))
    case GetRegsInfos => RRegs(Each(ToReg, RowItems(At(rec, OutInfos))))
    case FindRegsIds => RIds(ToU32s(At(rec, OutIds)))
    case GetSymsByIds | GetSymsByAddr | GetSymsByNames => RSyms(Each(ToSym, RowItems(At(rec, OutInfos))))
    case GetCodeText => RCode(Each(ToText, RowItems(At(rec, OutText))), ToU64s(At(rec, OutSizes)))
    case _ => RDone
  }

  /** What send_req does with the response to a request of kind `t` made with `rec`. */
  function Receive(t: ReqType, rec: Record, resp: Bytes): Option<Outcome<Reply>> {
    if resp == [] then None
    else if resp[0] == ERR_CODE then
      match CliRecv(SchemaOf(Error), map[], resp[1..])
      case None => None
      case Some((e, _)) => Some(Thrown(CStr(ToText(At(e, OutMsg)))))
    else if resp[0] != Messages.Code(t) then None
    else
      match CliRecv(SchemaOf(t), rec, resp[1..])
      case None => None
      case Some((r, _)) => Some(Done(ReplyOf(t, r)))
  }

  /** DBClientImplData: the request, the server's work, the response. */
  function Remotely<X>(api: Api<X>, srv: Server<X>, call: Call): Option<(Server<X>, Outcome<Reply>)> {
    if NoRequest(call) then Some((srv, Done(if call.ReadRegs? || call.ReadMemory? then RBufs([]) else RDone)))
    else
      var (t, rec) := RequestOf(call);
      match Handle(api, srv, MessageOf(t, rec))
      case None => None
      case Some((after, resp)) =>
        match Receive(t, rec, resp)
        case None => None
        case Some(r) => Some((after, r))
  }

  // What a caller can tell of an outcome.

  /** Register values are not sent, and uninitialised fields arrive as some value. */
  function Seen(reply: Reply, junk: U64): Reply {
    match reply
    case RHello(infos, u) => RHello(infos, Filled(u, junk))
    case RUpdate(u) => RUpdate(Filled(u, junk))
    case RRegs(regs) => RRegs(Each((r: RegInfos) => r.(val := []), regs))
    case _ => reply
  }

  function Observed(r: Outcome<Reply>, junk: U64): Outcome<Reply> {
    match r
    case Thrown(m) => Thrown(CStr(m))
    case Done(reply) => Done(Seen(reply, junk))
  }

  /** The part of a call that its 16-bit count covers. */
  function Truncated(call: Call): Call {
    match call
    case ReadRegs(ids, sizes) => ReadRegs(First(ids), sizes)
    case WriteRegs(ids, sizes, bufs) => WriteRegs(First(ids), sizes, First(bufs))
    case RegsInfos(ids) => RegsInfos(First(ids))
    case RegsByName(names) => RegsByName(First(names))
    case ReadMemory(addrs, sizes) => ReadMemory(First(addrs), First(sizes))
    case WriteMemory(addrs, sizes, bufs) => WriteMemory(First(addrs), First(sizes), First(bufs))
    case SymsById(ids) => SymsById(First(ids))
    case SymsByName(names) => SymsByName(First(names))
    case SetBkps(addrs) => SetBkps(First(addrs))
    case UnsetBkps(addrs) => UnsetBkps(First(addrs))
    case _ => call
  }

  // What the source asks of a caller.

  ghost predicate Lengths8(bufs: seq<Bytes>, n: nat, sizes: seq<U64>) {
    |bufs| == n && forall i :: 0 <= i < n ==> |bufs[i]| == SizeAt(n, sizes, i)
  }

  /** Names must be zero-free and, terminators included, fill less than 2^16 bytes. */
  ghost predicate NamesFit(names: seq<Bytes>) {
    (forall i :: 0 <= i < |names| ==> NulFree(names[i])) && |Block(Strs(First(names)))| < TWO_16
  }

  /** Buffers are as long as their sizes say, names as above, and registers as large as the caller says. */
  ghost predicate Proper<X(!new)>(api: Api<X>, call: Call) {
    match call
    case Halt => false
    case ReadRegs(ids, sizes) =>
      SizesGiven(|ids|, sizes) && forall x: X, i :: 0 <= i < |ids| ==>
        api.getReg(x, ids[i]).1.Done? ==> |api.getReg(x, ids[i]).1.value| == SizeAt(|ids|, sizes, i)
    case WriteRegs(ids, sizes, bufs) => SizesGiven(|ids|, sizes) && Lengths8(bufs, |ids|, sizes)
    case RegsByName(names) => NamesFit(names)
    case ReadMemory(addrs, sizes) =>
      |sizes| == |addrs| && forall x: X, a: U64, n: U64 :: api.readMem(x, (a, n)).1.Done? ==>
          |api.readMem(x, (a, n)).1.value| == n
    case WriteMemory(addrs, sizes, bufs) =>
      |sizes| == |addrs| == |bufs| && forall i :: 0 <= i < |bufs| ==> |bufs[i]| == sizes[i]
    case SymsByName(names) => NamesFit(names)
    case _ => true
  }

  // What batches do, item by item.

  /** `xs` are the states a batch goes through with the results `qs`. */
  ghost predicate Chain<X, P, Q>(f: (X, P) -> (X, Outcome<Q>), items: seq<P>, xs: seq<X>, qs: seq<Q>) {
    |xs| == |qs| + 1 && |qs| <= |items| && forall i :: 0 <= i < |qs| ==> f(xs[i], items[i]) == (xs[i + 1], Done(qs[i]))
  }

  /** A batch hands the state from item to item, one result for each; it throws with the first item that does,
      and keeps what that item and those before it did. */
  lemma {:induction false} BatchChain<X, P, Q>(f: (X, P) -> (X, Outcome<Q>), x: X, items: seq<P>)
      returns (xs: seq<X>, qs: seq<Q>)
    ensures Chain(f, items, xs, qs) && xs[0] == x
    ensures match Batch(f, x, items)
            case (y, Done(all)) => all == qs && |qs| == |items| && y == xs[|qs|]
            case (y, Thrown(m)) => |qs| < |items| && f(xs[|qs|], items[|qs|]) == (y, Thrown(m))
  {
    if items == [] || f(x, items[0]).1.Thrown? {
      xs, qs := [x], [];
    } else {
      var y, q := f(x, items[0]).0, f(x, items[0]).1.value;
      var ys, ps := BatchChain(f, y, items[1..]);
      xs, qs := [x] + ys, [q] + ps;
      forall i | 0 <= i < |qs|
        ensures f(xs[i], items[i]) == (xs[i + 1], Done(qs[i]))
      {
        assert i > 0 ==> f(ys[i - 1], items[1..][i - 1]) == (ys[i], Done(ps[i - 1]));
      }
    }
  }

  lemma {:induction false} CodeAddrShift(addr: U64, d: U64, dists: seq<U64>, i: nat)
    requires i <= |dists|
    ensures CodeAddr(addr, [d] + dists, i + 1) == CodeAddr((addr + d) % TWO_64, dists, i)
  {
    if i > 0 {
      CodeAddrShift(addr, d, dists, i - 1);
    }
  }

  /** In state `x` the instruction at `addr` reads as this text and size, which leads to state `y`. */
  ghost predicate ReadsAs<X>(api: Api<X>, x: X, addr: U64, y: X, text: Text, dist: U64) {
    api.codeText(x, addr) == (y, Done((text, dist)))
  }

  /** `xs` are the states in which the instructions are read, each behind the one before it. */
  ghost predicate CodeLinks<X>(api: Api<X>, xs: seq<X>, addr: U64, texts: seq<Text>, dists: seq<U64>) {
    |texts| == |dists| && |xs| == |texts| + 1 &&
    forall i :: 0 <= i < |texts| ==> ReadsAs(api, xs[i], CodeAddr(addr, dists, i), xs[i + 1], texts[i], dists[i])
  }

  lemma LinkFront<X>(api: Api<X>, x: X, addr: U64, text: Text, dist: U64, ys: seq<X>, texts: seq<Text>, dists: seq<U64>)
    requires CodeLinks(api, ys, (addr + dist) % TWO_64, texts, dists) && ReadsAs(api, x, addr, ys[0], text, dist)
    ensures CodeLinks(api, [x] + ys, addr, [text] + texts, [dist] + dists)
  {
    hide ReadsAs, CodeAddr;
    var xs, ts, ds := [x] + ys, [text] + texts, [dist] + dists;
    forall i | 0 <= i < |ts|
      ensures ReadsAs(api, xs[i], CodeAddr(addr, ds, i), xs[i + 1], ts[i], ds[i])
    {
      if i > 0 {
        CodeAddrShift(addr, dist, dists, i - 1);
        assert ReadsAs(api, ys[i - 1], CodeAddr((addr + dist) % TWO_64, dists, i - 1), ys[i], texts[i - 1],
                       dists[i - 1]);
      } else {
        CodeAddrFirst(addr, ds);
      }
    }
  }

  lemma CodeAddrFirst(addr: U64, dists: seq<U64>)
    ensures CodeAddr(addr, dists, 0) == addr
  {
  }

  /** The text and the size of each instruction are those at the address behind the one before it. */
  lemma {:induction false} CodeChain<X>(api: Api<X>, x: X, addr: U64, n: nat) returns (xs: seq<X>)
    requires CodeFrom(api, x, addr, n).1.Done?
    ensures var (y, r) := CodeFrom(api, x, addr, n);
            CodeLinks(api, xs, addr, r.value.0, r.value.1) && |xs| == n + 1 && xs[0] == x && xs[n] == y
    decreases n
  {
    hide CodeLinks, CodeAddr;
    if n == 0 {
      xs := [x];
      NoLinks(api, x, addr);
    } else {
      var (y, t) := api.codeText(x, addr);
      var next: U64 := (addr + t.value.1) % TWO_64;
      var ys := CodeChain(api, y, next, n - 1);
      var rest := CodeFrom(api, y, next, n - 1).1.value;
      LinkFront(api, x, addr, t.value.0, t.value.1, ys, rest.0, rest.1);
      xs := [x] + ys;
    }
  }

  lemma NoLinks<X>(api: Api<X>, x: X, addr: U64)
    ensures CodeLinks(api, [x], addr, [], [])
  {
  }

  /** All addresses are in memory, free, and given once. */
  ghost predicate Addable(db: S.Db, addrs: seq<U64>) {
    && (forall i :: 0 <= i < |addrs| ==> addrs[i] < db.memorySize && addrs[i] !in db.breakpts)
    && (forall i, j :: 0 <= i < j < |addrs| ==> addrs[i] != addrs[j])
  }

  function SetOf(addrs: seq<U64>): set<U64> {
    set a | a in addrs
  }

  /** A list of breakpoints is added whole if and only if it is addable. */
  lemma {:induction false} BkpsAdded(db: S.Db, addrs: seq<U64>)
    ensures var (after, r) := Batch(AddBkp, db, addrs);
            && (r.Done? <==> Addable(db, addrs))
            && (r.Done? ==> after == db.(breakpts := db.breakpts + SetOf(addrs)))
    decreases |addrs|
  {
    if addrs == [] {
      assert db.breakpts + SetOf(addrs) == db.breakpts;
    } else if AddBkp(db, addrs[0]).1.Done? {
      var next := db.(breakpts := db.breakpts + {addrs[0]});
      BkpsAdded(next, addrs[1..]);
      AddableTail(db, addrs);
      assert next.breakpts + SetOf(addrs[1..]) == db.breakpts + SetOf(addrs) by {
        assert forall a :: a in addrs <==> a == addrs[0] || a in addrs[1..];
      }
    }
  }

  lemma AddableTail(db: S.Db, addrs: seq<U64>)
    requires addrs != [] && addrs[0] < db.memorySize && addrs[0] !in db.breakpts
    ensures Addable(db, addrs) <==> Addable(db.(breakpts := db.breakpts + {addrs[0]}), addrs[1..])
  {
    var next := db.(breakpts := db.breakpts + {addrs[0]});
    if Addable(next, addrs[1..]) {
      assert forall i :: 0 < i < |addrs| ==> addrs[i] == addrs[1..][i - 1];
    }
  }

  /** Breakpoints that are all there, each given once, are all deleted. */
  lemma {:induction false} BkpsDeleted(db: S.Db, addrs: seq<U64>)
    requires forall i :: 0 <= i < |addrs| ==> addrs[i] < db.memorySize && addrs[i] in db.breakpts
    requires forall i, j :: 0 <= i < j < |addrs| ==> addrs[i] != addrs[j]
    ensures var (after, r) := Batch(DelBkp, db, addrs);
            r.Done? && after == db.(breakpts := db.breakpts - SetOf(addrs))
    decreases |addrs|
  {
    if addrs == [] {
      assert db.breakpts - SetOf(addrs) == db.breakpts;
    } else {
      var next := db.(breakpts := db.breakpts - {addrs[0]});
      assert DelBkp(db, addrs[0]) == (next, Done(()));
      BkpsDeleted(next, addrs[1..]);
      assert next.breakpts - SetOf(addrs[1..]) == db.breakpts - SetOf(addrs) by {
        assert forall a :: a in addrs <==> a == addrs[0] || a in addrs[1..];
      }
    }
  }

  /** Adding breakpoints and deleting them again leaves the debugger as it was. */
  lemma AddThenDelete(db: S.Db, addrs: seq<U64>)
    requires Addable(db, addrs)
    ensures var added := Batch(AddBkp, db, addrs);
            added.1.Done? && Batch(DelBkp, added.0, addrs).1.Done? && Batch(DelBkp, added.0, addrs).0 == db
  {
    BkpsAdded(db, addrs);
    var after := Batch(AddBkp, db, addrs).0;
    BkpsDeleted(after, addrs);
    assert after.breakpts - SetOf(addrs) == db.breakpts;
  }
}
