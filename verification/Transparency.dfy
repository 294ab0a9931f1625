/** A call through the wire is indistinguishable from the direct call. */
module Transparency {
  import opened Common
  import opened Wire
  import opened Schema
  import opened Messages
  import opened Remote
  import S = Stepping
  import A = Agreement

  // Contents of buffers survive the conversion to values and back.

  lemma RowsAreBufs(bufs: seq<Bytes>, lens: seq<nat>)
    requires |bufs| == |lens| && forall i :: 0 <= i < |bufs| ==> |bufs[i]| == lens[i]
    ensures RowsFit(BYTE, lens, Rows(bufs).items) && RowsOf(Rows(bufs)) == bufs
  {
    forall i | 0 <= i < |bufs|
      ensures AllHaveType(BYTE, Nums(bufs[i])) && ToU8s(OfNums(bufs[i])) == bufs[i]
    {
      ByteNumbers(bufs[i]);
    }
  }

  lemma StrsAreNames(names: seq<Bytes>)
    requires forall i :: 0 <= i < |names| ==> NulFree(names[i])
    ensures IsCstrs(Strs(names)) && NamesOf(VSeq(Strs(names))) == names
  {
  }

  lemma RegsTravel(regs: seq<RegInfos>)
    ensures AllHaveType(REG_TY, Each(OfReg, regs))
    ensures Each(ToReg, Each(OfReg, regs)) == Each((r: RegInfos) => r.(val := []), regs)
  {
    forall i | 0 <= i < |regs|
      ensures HasType(REG_TY, OfReg(regs[i])) && ToReg(OfReg(regs[i])) == regs[i].(val := [])
    {
      RegTravels(regs[i]);
    }
  }

  lemma SymsTravel(syms: seq<SymbolInfos>)
    ensures AllHaveType(SYM_TY, Each(OfSym, syms))
    ensures Each(ToSym, Each(OfSym, syms)) == syms
  {
    forall i | 0 <= i < |syms|
      ensures HasType(SYM_TY, OfSym(syms[i])) && ToSym(OfSym(syms[i])) == syms[i]
    {
      SymTravels(syms[i]);
    }
  }

  lemma TextsTravel(text: seq<Text>)
    ensures AllHaveType(TStr, Each(OfText, text)) && Each(ToText, Each(OfText, text)) == text
  {
    PowersInUse();
  }

  // The request.

  lemma FitAll(sch: seq<Field>, dir: Dir, rec: Record)
    requires forall i :: 0 <= i < |sch| && sch[i].dir == dir ==> Fits(sch[i], rec)
    ensures AllFit(sch, dir, rec)
  {
  }

  lemma CountFits(n: nat, rec: Record)
    requires Count in rec && rec[Count] == VInt(n % TWO_16)
    ensures Fits(COUNT, rec) && IntOf(rec, Count) == n % TWO_16
  {
    PowersInUse();
  }

  lemma IdsFit(ids: seq<U32>, rec: Record)
    requires Ids in rec && rec[Ids] == OfNums(ids) && |ids| == IntOf(rec, Count)
    ensures Fits(Field(Ids, ID, In, Buf(Count)), rec) && ToU32s(rec[Ids]) == ids
  {
    WordNumbers(ids);
  }

  lemma LongsFit(s: Slot, ns: seq<U64>, rec: Record)
    requires s in rec && rec[s] == OfNums(ns) && |ns| == IntOf(rec, Count)
    ensures Fits(Field(s, WORD, In, Buf(Count)), rec) && ToU64s(rec[s]) == ns && Ints(ItemsOf(rec, s)) == ns
  {
    LongNumbers(ns);
  }

  lemma ScalarFits(s: Slot, n: U64, rec: Record)
    requires s in rec && rec[s] == VInt(n)
    ensures Fits(Field(s, WORD, In, One), rec) && ToU64(rec[s]) == n && IntOf(rec, s) == n
  {
    PowersInUse();
  }

  lemma NamesFitRecord(names: seq<Bytes>, rec: Record)
    requires Names in rec && rec[Names] == VSeq(Strs(names)) && |names| == IntOf(rec, Count)
    requires (forall i :: 0 <= i < |names| ==> NulFree(names[i])) && |Block(Strs(names))| < TWO_16
    ensures Fits(Field(Names, BYTE, In, Cstrs(Count)), rec) && NamesOf(rec[Names]) == names
  {
    StrsAreNames(names);
  }

  /** The request a call makes, and the call the server reads from it. */
  ghost predicate Asks(call: Call) {
    var (t, rec) := RequestOf(call);
    Served(t) && AllFit(SchemaOf(t), In, rec) && SameWork(CallOf(t, rec), Truncated(call))
  }

  /** Equal calls, but for the sizes that the direct register calls do not look at, and for the update that
      is overwritten once the program is stopped. */
  predicate SameWork(a: Call, b: Call) {
    match (a, b)
    case (ReadRegs(ids, _), ReadRegs(jds, _)) => ids == jds
    case (WriteRegs(ids, _, bufs), WriteRegs(jds, _, cufs)) => ids == jds && bufs == cufs
    case (Hello(_), Hello(_)) => true
    case (Check(_), Check(_)) => true
    case _ => a == b
  }

  lemma UniformRegCallAsks(call: Call)
    requires (call.ReadRegs? || call.WriteRegs?) && call.ids != [] && Uniform(|call.ids|, call.sizes)
    requires SizesGiven(|call.ids|, call.sizes) && (call.WriteRegs? ==> Lengths8(call.bufs, |call.ids|, call.sizes))
    ensures Asks(call)
  {
    var (t, rec) := RequestOf(call);
    var n := |call.ids|;
    CountFits(n, rec);
    IdsFit(First(call.ids), rec);
    ScalarFits(Size, SizeAt(n, call.sizes, 0), rec);
    if call.WriteRegs? {
      RowsAreBufs(First(call.bufs), RowLens(Grid(Count, Size), rec));
    }
    FitAll(SchemaOf(t), In, rec);
  }

  lemma VariedReadAsks(call: Call)
    requires call.ReadRegs? && !Uniform(|call.ids|, call.sizes) && SizesGiven(|call.ids|, call.sizes)
    ensures Asks(call)
  {
    var (t, rec) := RequestOf(call);
    CountFits(|call.ids|, rec);
    IdsFit(First(call.ids), rec);
    LongsFit(Sizes, First(call.sizes), rec);
    FitAll(SchemaOf(t), In, rec);
  }

  lemma VariedRowsFit(call: Call, rec: Record)
    requires call.WriteRegs? && !Uniform(|call.ids|, call.sizes)
    requires SizesGiven(|call.ids|, call.sizes) && Lengths8(call.bufs, |call.ids|, call.sizes)
    requires Bufs in rec && rec[Bufs] == Rows(First(call.bufs))
    requires Ints(ItemsOf(rec, Sizes)) == First(call.sizes)
    ensures Fits(Field(Bufs, BYTE, In, GridVar(Count, Sizes)), rec) && RowsOf(rec[Bufs]) == First(call.bufs)
  {
    hide RowsOf;
    RowsAreBufs(First(call.bufs), First(call.sizes));
  }

  lemma VariedWriteFits(call: Call)
    requires call.WriteRegs? && !Uniform(|call.ids|, call.sizes)
    requires SizesGiven(|call.ids|, call.sizes) && Lengths8(call.bufs, |call.ids|, call.sizes)
    ensures var rec := RequestOf(call).1;
            AllFit(SchemaOf(SetRegsVar), In, rec) && ToU32s(rec[Ids]) == First(call.ids) &&
            RowsOf(rec[Bufs]) == First(call.bufs)
  {
    hide Fits, RowsOf, Lengths8, Rows, Ints, ItemsOf, IntOf;
    var rec := RequestOf(call).1;
    CountFits(|call.ids|, rec);
    IdsFit(First(call.ids), rec);
    LongsFit(Sizes, First(call.sizes), rec);
    VariedRowsFit(call, rec);
    FitAll(SchemaOf(SetRegsVar), In, rec);
  }

  lemma VariedWriteAsks(call: Call)
    requires call.WriteRegs? && !Uniform(|call.ids|, call.sizes)
    requires SizesGiven(|call.ids|, call.sizes) && Lengths8(call.bufs, |call.ids|, call.sizes)
    ensures Asks(call)
  {
    VariedWriteFits(call);
    hide SchemaOf, AllFit, First, RowsOf, ToU32s, Rows;
  }

  lemma ReadMemAsks(call: Call)
    requires call.ReadMemory? && |call.sizes| == |call.addrs|
    ensures Asks(call)
  {
    var (t, rec) := RequestOf(call);
    CountFits(|call.addrs|, rec);
    LongsFit(Addrs, First(call.addrs), rec);
    LongsFit(Sizes, First(call.sizes), rec);
    FitAll(SchemaOf(t), In, rec);
  }

  lemma WriteMemAsks(call: Call)
    requires call.WriteMemory? && |call.sizes| == |call.addrs| == |call.bufs|
    requires forall i :: 0 <= i < |call.bufs| ==> |call.bufs[i]| == call.sizes[i]
    ensures Asks(call)
  {
    var (t, rec) := RequestOf(call);
    CountFits(|call.addrs|, rec);
    LongsFit(Addrs, First(call.addrs), rec);
    LongsFit(Sizes, First(call.sizes), rec);
    RowsAreBufs(First(call.bufs), RowLens(GridVar(Count, Sizes), rec));
    FitAll(SchemaOf(t), In, rec);
  }

  lemma IdListAsks(call: Call)
    requires call.RegsInfos? || call.SymsById?
    ensures Asks(call)
  {
    var (t, rec) := RequestOf(call);
    CountFits(|call.ids|, rec);
    IdsFit(First(call.ids), rec);
    FitAll(SchemaOf(t), In, rec);
  }

  lemma AddrListAsks(call: Call)
    requires call.SetBkps? || call.UnsetBkps?
    ensures Asks(call)
  {
    var (t, rec) := RequestOf(call);
    CountFits(|call.addrs|, rec);
    LongsFit(Addrs, First(call.addrs), rec);
    FitAll(SchemaOf(t), In, rec);
  }

  lemma NameListAsks(call: Call)
    requires (call.RegsByName? || call.SymsByName?) && NamesFit(call.names)
    ensures Asks(call)
  {
    var (t, rec) := RequestOf(call);
    CountFits(|call.names|, rec);
    NamesFitRecord(First(call.names), rec);
    FitAll(SchemaOf(t), In, rec);
  }

  lemma ScalarCallAsks(call: Call)
    requires call.Hello? || call.Check? || call.SymsIn? || call.Code? || call.Go?
    ensures Asks(call)
  {
    var (t, rec) := RequestOf(call);
    PowersInUse();
    match call {
      case SymsIn(addr, size) => ScalarFits(Start, addr, rec); ScalarFits(Size, size, rec);
      case Code(addr, nins) => ScalarFits(Start, addr, rec); ScalarFits(Nins, nins, rec);
      case _ =>
    }
    FitAll(SchemaOf(t), In, rec);
  }

  lemma CallAsks<X(!new)>(api: Api<X>, call: Call)
    requires Proper(api, call) && !NoRequest(call)
    ensures Asks(call)
  {
    hide Asks, AllFit, SchemaOf;
    match call
    case Hello(_) | Check(_) | SymsIn(_, _) | Code(_, _) | Go(_) => ScalarCallAsks(call);
    case ReadRegs(_, _) | WriteRegs(_, _, _) =>
      if Uniform(|call.ids|, call.sizes) {
        UniformRegCallAsks(call);
      } else if call.ReadRegs? {
        VariedReadAsks(call);
      } else {
        VariedWriteAsks(call);
      }
    case ReadMemory(_, _) => ReadMemAsks(call);
    case WriteMemory(_, _, _) => WriteMemAsks(call);
    case RegsInfos(_) | SymsById(_) => IdListAsks(call);
    case SetBkps(_) | UnsetBkps(_) => AddrListAsks(call);
    case RegsByName(_) | SymsByName(_) => NameListAsks(call);
  }

  /** The server's call depends on the inputs alone. */
  lemma CallOfInputs(t: ReqType, a: Record, b: Record)
    requires Served(t) && SameInputs(SchemaOf(t), a, b)
    ensures CallOf(t, a) == CallOf(t, b)
  {
    var sch := SchemaOf(t);
    assert forall i :: 0 <= i < |sch| && sch[i].dir == In ==> At(a, sch[i].slot) == At(b, sch[i].slot) by {
      assert forall i :: 0 <= i < |sch| ==> sch[i] in sch;
    }
    if |sch| > 0 { assert sch[0].dir == In ==> At(a, sch[0].slot) == At(b, sch[0].slot); }
    if |sch| > 1 { assert sch[1].dir == In ==> At(a, sch[1].slot) == At(b, sch[1].slot); }
    if |sch| > 2 { assert sch[2].dir == In ==> At(a, sch[2].slot) == At(b, sch[2].slot); }
    if |sch| > 3 { assert sch[3].dir == In ==> At(a, sch[3].slot) == At(b, sch[3].slot); }
  }

  lemma FreshSameWork<X>(srv: Server<X>, a: Call, b: Call)
    requires SameWork(a, b)
    ensures SameWork(OnFresh(srv, a), b)
  {
  }

  lemma SameWorkSameResult<X>(api: Api<X>, srv: Server<X>, a: Call, b: Call)
    requires !S.Running(srv.db.state) && SameWork(a, b)
    ensures Direct(api, srv, a) == Direct(api, srv, b)
  {
  }

  // The response.

  lemma {:induction false} BatchLength<X, P, Q>(f: (X, P) -> (X, Outcome<Q>), x: X, items: seq<P>)
    ensures Batch(f, x, items).1.Done? ==> |Batch(f, x, items).1.value| == |items|
  {
    if items != [] {
      BatchLength(f, f(x, items[0]).0, items[1..]);
    }
  }

  /** If each item's result has a known length, so has each result of the batch. */
  lemma {:induction false} BatchSizes<X(!new), P>(f: (X, P) -> (X, Outcome<Bytes>), x: X, items: seq<P>, lens: seq<nat>)
    requires |items| == |lens|
    requires forall y: X, i :: 0 <= i < |items| && f(y, items[i]).1.Done? ==> |f(y, items[i]).1.value| == lens[i]
    ensures var r := Batch(f, x, items).1;
            r.Done? ==> |r.value| == |lens| && forall i :: 0 <= i < |lens| ==> |r.value[i]| == lens[i]
  {
    if items != [] && f(x, items[0]).1.Done? {
      assert forall y: X, i :: 0 <= i < |items[1..]| ==> f(y, items[1..][i]) == f(y, items[i + 1]);
      BatchSizes(f, f(x, items[0]).0, items[1..], lens[1..]);
    }
  }

  ghost predicate LensOf(bufs: seq<Bytes>, lens: seq<nat>) {
    |bufs| == |lens| && forall i :: 0 <= i < |bufs| ==> |bufs[i]| == lens[i]
  }

  /** The reply is of the kind and of the lengths that the request announced. */
  ghost predicate Sound(t: ReqType, rec: Record, reply: Reply) {
    match t
    case Connect => reply.RHello? && |reply.udp.stack| < TWO_64
    case CheckStopped => reply.RUpdate? && |reply.udp.stack| < TWO_64
    case GetRegs => reply.RBufs? && LensOf(reply.bufs, RowLens(Grid(Count, Size), rec))
    case GetRegsVar | ReadMemVar => reply.RBufs? && LensOf(reply.bufs, RowLens(GridVar(Count, Sizes), rec))
    case GetRegsInfos => reply.RRegs? && |reply.regs| == IntOf(rec, Count)
    case FindRegsIds => reply.RIds? && |reply.ids| == IntOf(rec, Count)
    case GetSymsByIds | GetSymsByNames => reply.RSyms? && |reply.syms| == IntOf(rec, Count)
    case GetSymsByAddr => reply.RSyms? && |reply.syms| < TWO_64
    case GetCodeText => reply.RCode? && |reply.text| < TWO_64 && |reply.sizes| < TWO_64
    case _ => reply.RDone?
  }

  /** The outputs fit the description, and read back as the caller would see them. */
  ghost predicate Returns(t: ReqType, rec: Record, reply: Reply, junk: U64) {
    var out := WithReply(t, rec, reply, junk);
    AllFit(SchemaOf(t), Out, out) && ReplyOf(t, out) == Seen(reply, junk)
  }

  lemma HelloReturns(t: ReqType, rec: Record, reply: Reply, junk: U64)
    requires Sound(t, rec, reply) && t == Connect
    ensures Returns(t, rec, reply, junk)
  {
    hide UPDATE_TY, INFOS_TY, OfUpdate, OfInfos, ToUpdate, ToInfos, BufLens;
    UpdateTravels(reply.udp, junk);
    InfosTravel(reply.infos);
    FitAll(SchemaOf(t), Out, WithReply(t, rec, reply, junk));
  }

  lemma CheckReturns(t: ReqType, rec: Record, reply: Reply, junk: U64)
    requires Sound(t, rec, reply) && t == CheckStopped
    ensures Returns(t, rec, reply, junk)
  {
    hide OfUpdate, ToUpdate, BufLens;
    UpdateTravels(reply.udp, junk);
    FitAll(SchemaOf(t), Out, WithReply(t, rec, reply, junk));
  }

  lemma RowsReturn(t: ReqType, rec: Record, reply: Reply, junk: U64)
    requires Sound(t, rec, reply) && (t == GetRegs || t == GetRegsVar || t == ReadMemVar)
    ensures Returns(t, rec, reply, junk)
  {
    var out := WithReply(t, rec, reply, junk);
    var lens := RowLens(SchemaOf(t)[3].shape, rec);
    assert RowLens(SchemaOf(t)[3].shape, out) == lens;
    assert Padded(reply.bufs, lens) == reply.bufs;
    RowsAreBufs(reply.bufs, lens);
    FitAll(SchemaOf(t), Out, out);
  }

  lemma ListReturns(t: ReqType, rec: Record, reply: Reply, junk: U64)
    requires Sound(t, rec, reply)
    requires t == GetRegsInfos || t == FindRegsIds || t == GetSymsByIds || t == GetSymsByNames || t == GetSymsByAddr
    ensures Returns(t, rec, reply, junk)
  {
    if t == GetRegsInfos {
      RegsTravel(reply.regs);
    } else if t == FindRegsIds {
      WordNumbers(reply.ids);
    } else {
      SymsTravel(reply.syms);
      PowersInUse();
    }
    FitAll(SchemaOf(t), Out, WithReply(t, rec, reply, junk));
  }

  lemma CodeReturns(t: ReqType, rec: Record, reply: Reply, junk: U64)
    requires Sound(t, rec, reply) && t == GetCodeText
    ensures Returns(t, rec, reply, junk)
  {
    TextsTravel(reply.text);
    LongNumbers(reply.sizes);
    PowersInUse();
    FitAll(SchemaOf(t), Out, WithReply(t, rec, reply, junk));
  }

  lemma ReplyReturns(t: ReqType, rec: Record, reply: Reply, junk: U64)
    requires Served(t) && Sound(t, rec, reply)
    ensures Returns(t, rec, reply, junk)
  {
    hide Returns, Sound;
    match t
    case Connect => HelloReturns(t, rec, reply, junk);
    case CheckStopped => CheckReturns(t, rec, reply, junk);
    case GetRegs | GetRegsVar | ReadMemVar => RowsReturn(t, rec, reply, junk);
    case GetRegsInfos | FindRegsIds | GetSymsByIds | GetSymsByNames | GetSymsByAddr => ListReturns(t, rec, reply, junk);
    case GetCodeText => CodeReturns(t, rec, reply, junk);
    case _ => DoneReturns(t, rec, reply, junk);
  }

  lemma DoneReturns(t: ReqType, rec: Record, reply: Reply, junk: U64)
    requires Sound(t, rec, reply)
    requires t == SetRegs || t == SetRegsVar || t == WriteMemVar || t == AddBkps || t == DelBkps || t == Resume
    ensures Returns(t, rec, reply, junk)
  {
    FitAll(SchemaOf(t), Out, rec);
  }

  ghost predicate HasInputs(t: ReqType, rec: Record) {
    forall f <- SchemaOf(t) :: f.dir == In ==> f.slot in rec
  }

  function OutSlots(reply: Reply): set<Slot> {
    match reply
    case RHello(_, _) => {OutInfos, OutUpdate}
    case RUpdate(_) => {OutUpdate}
    case RBufs(_) => {Bufs}
    case RRegs(_) | RSyms(_) => {OutInfos}
    case RIds(_) => {OutIds}
    case RCode(_, _) => {OutText, OutSizes}
    case RDone => {}
  }

  lemma OnlyOutputsChange(t: ReqType, rec: Record, reply: Reply, junk: U64)
    ensures forall s <- rec :: s !in OutSlots(reply) ==>
              s in WithReply(t, rec, reply, junk) && WithReply(t, rec, reply, junk)[s] == rec[s]
  {
  }

  lemma OutSlotsAreOutputs(t: ReqType, rec: Record, reply: Reply)
    requires Served(t) && Sound(t, rec, reply)
    ensures forall f <- SchemaOf(t) :: f.dir == In ==> f.slot !in OutSlots(reply)
  {
    var sch := SchemaOf(t);
    assert forall i :: 0 <= i < |sch| && sch[i].dir == In ==> sch[i].slot !in OutSlots(reply);
  }

  lemma OutputsKeepInputs(t: ReqType, rec: Record, reply: Reply, junk: U64)
    requires Served(t) && Sound(t, rec, reply) && HasInputs(t, rec)
    ensures SameInputs(SchemaOf(t), rec, WithReply(t, rec, reply, junk))
  {
    hide OutSlots, SchemaOf, WithReply;
    OnlyOutputsChange(t, rec, reply, junk);
    OutSlotsAreOutputs(t, rec, reply);
  }

  /** Replies are read from the outputs alone. */
  lemma ReplyOfOutputs(t: ReqType, a: Record, b: Record)
    requires Served(t)
    requires forall f <- SchemaOf(t) :: f.dir == Out ==> f.slot in a && f.slot in b && a[f.slot] == b[f.slot]
    ensures ReplyOf(t, a) == ReplyOf(t, b)
  {
    var sch := SchemaOf(t);
    assert forall i :: 0 <= i < |sch| && sch[i].dir == Out ==> At(a, sch[i].slot) == At(b, sch[i].slot) by {
      assert forall i :: 0 <= i < |sch| ==> sch[i] in sch;
    }
    if |sch| > 0 { assert sch[0].dir == Out ==> At(a, sch[0].slot) == At(b, sch[0].slot); }
    if |sch| > 1 { assert sch[1].dir == Out ==> At(a, sch[1].slot) == At(b, sch[1].slot); }
    if |sch| > 2 { assert sch[2].dir == Out ==> At(a, sch[2].slot) == At(b, sch[2].slot); }
    if |sch| > 3 { assert sch[3].dir == Out ==> At(a, sch[3].slot) == At(b, sch[3].slot); }
  }

  lemma SoundOnInputs(t: ReqType, a: Record, b: Record, reply: Reply)
    requires Served(t) && Sound(t, a, reply) && SameInputs(SchemaOf(t), a, b)
    ensures Sound(t, b, reply)
  {
    var sch := SchemaOf(t);
    assert forall i :: 0 <= i < |sch| ==> sch[i] in sch;
    if |sch| > 0 { assert sch[0].dir == In ==> sch[0].slot in a; }
    if |sch| > 1 { assert sch[1].dir == In ==> sch[1].slot in a; }
    if |sch| > 2 { assert sch[2].dir == In ==> sch[2].slot in a; }
  }

  // What a direct call returns is sound for the request made for it.

  /** The direct result of the part of a call that is served. */
  function Served16<X>(api: Api<X>, srv: Server<X>, call: Call): (Server<X>, Outcome<Reply>) {
    Direct(api, srv, Truncated(call))
  }

  lemma BufferReplySound<X(!new)>(api: Api<X>, srv: Server<X>, call: Call)
    requires !S.Running(srv.db.state) && Proper(api, call) && (call.ReadRegs? || call.ReadMemory?)
    ensures Served16(api, srv, call).1.Done? ==>
            Sound(RequestOf(call).0, RequestOf(call).1, Served16(api, srv, call).1.value)
  {
    var (t, rec) := RequestOf(call);
    if call.ReadRegs? {
      var n := |call.ids|;
      CountFits(n, rec);
      var lens := RowLens(SchemaOf(t)[3].shape, rec);
      if !Uniform(n, call.sizes) {
        LongsFit(Sizes, First(call.sizes), rec);
      }
      assert lens == seq(|First(call.ids)|, i requires 0 <= i < |First(call.ids)| => SizeAt(n, call.sizes, i));
      BatchSizes(api.getReg, srv.vm, First(call.ids), lens);
    } else {
      CountFits(|call.addrs|, rec);
      LongsFit(Sizes, First(call.sizes), rec);
      BatchSizes(api.readMem, srv.vm, Zip(First(call.addrs), First(call.sizes)), First(call.sizes));
    }
  }

  lemma ListReplySound<X(!new)>(api: Api<X>, srv: Server<X>, call: Call)
    requires !S.Running(srv.db.state)
    requires call.RegsInfos? || call.RegsByName? || call.SymsById? || call.SymsByName?
    ensures Served16(api, srv, call).1.Done? ==>
            Sound(RequestOf(call).0, RequestOf(call).1, Served16(api, srv, call).1.value)
  {
    var rec := RequestOf(call).1;
    match call
    case RegsInfos(ids) => CountFits(|ids|, rec); BatchLength(api.regInfos, srv.vm, First(ids));
    case RegsByName(names) => CountFits(|names|, rec); BatchLength(api.findReg, srv.vm, First(names));
    case SymsById(ids) => CountFits(|ids|, rec); BatchLength(api.symInfos, srv.vm, First(ids));
    case SymsByName(names) => CountFits(|names|, rec); BatchLength(SymNamed(api), srv.vm, First(names));
  }

  lemma PlainReplySound<X(!new)>(api: Api<X>, srv: Server<X>, call: Call)
    requires !S.Running(srv.db.state) && |srv.db.stack| < TWO_64
    requires call.Hello? || call.Check? || call.WriteRegs? || call.WriteMemory? || call.SymsIn? || call.Code?
             || call.SetBkps? || call.UnsetBkps? || call.Go?
    ensures Served16(api, srv, call).1.Done? ==>
            Sound(RequestOf(call).0, RequestOf(call).1, Served16(api, srv, call).1.value)
  {
    if call.SymsIn? {
      var found := api.symbols(srv.vm, call.addr, call.size);
      if found.1.Done? {
        BatchLength(api.symInfos, found.0, found.1.value);
      }
    }
  }

  lemma DirectSound<X(!new)>(api: Api<X>, srv: Server<X>, call: Call)
    requires !S.Running(srv.db.state) && Proper(api, call) && |srv.db.stack| < TWO_64
    ensures Served16(api, srv, call).1.Done? ==>
            Sound(RequestOf(call).0, RequestOf(call).1, Served16(api, srv, call).1.value)
  {
    hide Sound, Served16, RequestOf;
    if call.ReadRegs? || call.ReadMemory? {
      BufferReplySound(api, srv, call);
    } else if call.RegsInfos? || call.RegsByName? || call.SymsById? || call.SymsByName? {
      ListReplySound(api, srv, call);
    } else {
      PlainReplySound(api, srv, call);
    }
  }

  // The exchange.

  lemma CodesDiffer(t: ReqType)
    requires Served(t)
    ensures KindOfCode(Messages.Code(t)) == Some(t) && Messages.Code(t) != ERR_CODE
  {
  }

  lemma ErrorTravels(t: ReqType, rec: Record, msg: Text)
    ensures Receive(t, rec, ErrorMessage(msg)) == Some(Thrown(CStr(msg)))
  {
    hide CStr, Send, CliRecv, Returned, PutField, TakeField, Wf;
    CStrOnce(msg);
    var text: Record := map[OutMsg := VStr(CStr(msg))];
    var sch := SchemaOf(Error);
    AllWf(Error);
    MessageFits(text);
    ResponseArrives(sch, map[], text, []);
    var body := Send(sch, Out, text);
    assert body + [] == body && ErrorMessage(msg)[1..] == body;
    assert sch[0] in sch;
  }

  /** An error arrives as the text of its message, up to a zero if it holds one. */
  lemma ErrorArrives(t: ReqType, rec: Record, msg: Text)
    ensures Receive(t, rec, ErrorMessage(msg)) == Some(Thrown(CStr(msg)))
    ensures NulFree(msg) ==> Receive(t, rec, ErrorMessage(msg)) == Some(Thrown(msg))
  {
    hide Receive, ErrorMessage;
    ErrorTravels(t, rec, msg);
    if NulFree(msg) {
      WholeText(msg);
    }
  }

  lemma MessageFits(rec: Record)
    requires OutMsg in rec && rec[OutMsg].VStr? && |rec[OutMsg].s| < TWO_64
    ensures AllFit(SchemaOf(Error), Out, rec)
  {
    PowersInUse();
    FitAll(SchemaOf(Error), Out, rec);
  }

  /** The server sees the call that was asked for. */
  lemma ServerSees(call: Call) returns (serv: Record)
    requires Asks(call)
    ensures var (t, rec) := RequestOf(call);
            && ServRecv(SchemaOf(t), map[], MessageOf(t, rec)[1..]) == Some((serv, []))
            && SameInputs(SchemaOf(t), rec, serv)
            && SameWork(CallOf(t, serv), Truncated(call))
  {
    hide SameWork, CallOf, Truncated, RequestOf, SchemaOf;
    var (t, rec) := RequestOf(call);
    AllWf(t);
    serv := RequestArrives(SchemaOf(t), rec, []);
    var body := Send(SchemaOf(t), In, rec);
    assert body + [] == body && MessageOf(t, rec)[1..] == body;
    CallOfInputs(t, rec, serv);
  }

  /** The client sees the outputs. */
  lemma ClientSees(t: ReqType, rec: Record, serv: Record, reply: Reply, junk: U64)
    requires Served(t) && AllFit(SchemaOf(t), In, rec) && SameInputs(SchemaOf(t), rec, serv) && Sound(t, rec, reply)
    ensures Receive(t, rec, Response(t, serv, Done(reply), junk)) == Some(Done(Seen(reply, junk)))
  {
    hide Sound, SchemaOf, WithReply, Seen, ReplyOf, Served, Fits;
    var sch := SchemaOf(t);
    SoundOnInputs(t, rec, serv, reply);
    ReplyReturns(t, serv, reply, junk);
    OutputsKeepInputs(t, serv, reply, junk);
    var out := WithReply(t, serv, reply, junk);
    AllWf(t);
    assert SameInputs(sch, out, rec);
    ResponseArrives(sch, rec, out, []);
    var back := Returned(sch, rec, out);
    var body := Send(sch, Out, out);
    assert body + [] == body;
    assert ([Messages.Code(t)] + body)[1..] == body;
    CodesDiffer(t);
    assert forall f <- sch :: f.dir == Out ==> f.slot in out by {
      OutputsPresent(sch, out);
    }
    ReplyOfOutputs(t, back, out);
  }

  lemma OutputsPresent(sch: seq<Field>, rec: Record)
    requires AllFit(sch, Out, rec)
    ensures forall f <- sch :: f.dir == Out ==> f.slot in rec
  {
  }

  /** The server does what the part of the call within the count asks for, and answers with its result. */
  lemma ServerServes<X>(api: Api<X>, srv: Server<X>, call: Call) returns (serv: Record)
    requires !S.Running(srv.db.state) && Asks(call)
    ensures var (t, rec) := RequestOf(call);
            var (after, r) := Direct(api, srv, Truncated(call));
            && SameInputs(SchemaOf(t), rec, serv)
            && RunCommand(api, srv, MessageOf(t, rec)) ==
                 if Overruns(t, serv, r) then None else Some((after, Response(t, serv, r, srv.junk)))
  {
    hide SchemaOf, ServRecv, SameInputs, AllFit, Truncated, SameWork, Direct, CallOf, Response, OnFresh, Overruns;
    var (t, rec) := RequestOf(call);
    serv := ServerSees(call);
    FreshSameWork(srv, CallOf(t, serv), Truncated(call));
    SameWorkSameResult(api, srv, OnFresh(srv, CallOf(t, serv)), Truncated(call));
    CodesDiffer(t);
  }

  /** The client gets that result. */
  lemma ClientGets<X(!new)>(api: Api<X>, srv: Server<X>, call: Call, serv: Record)
    requires !S.Running(srv.db.state) && |srv.db.stack| < TWO_64 && Proper(api, call) && Asks(call)
    requires SameInputs(SchemaOf(RequestOf(call).0), RequestOf(call).1, serv)
    ensures var (t, rec) := RequestOf(call);
            var r := Direct(api, srv, Truncated(call)).1;
            Receive(t, rec, Response(t, serv, r, srv.junk)) == Some(Observed(r, srv.junk)) && !Overruns(t, serv, r)
  {
    hide Overruns, Response, Proper, Sound, SchemaOf, Seen, Receive, SameInputs, AllFit, Truncated, SameWork, Direct,
         CallOf, RequestOf;
    var (t, rec) := RequestOf(call);
    var r := Direct(api, srv, Truncated(call)).1;
    match r
    case Thrown(m) =>
      ErrorArrives(t, rec, m);
      ThrownArrives(t, serv, m, srv.junk);
    case Done(reply) =>
      DirectSound(api, srv, call);
      ClientSees(t, rec, serv, reply, srv.junk);
      SoundOnInputs(t, rec, serv, reply);
      SoundFits(t, serv, reply);
  }

  lemma ThrownArrives(t: ReqType, serv: Record, msg: Text, junk: U64)
    ensures Response(t, serv, Thrown(msg), junk) == ErrorMessage(msg) && !Overruns(t, serv, Thrown(msg))
  {
  }

  lemma SoundFits(t: ReqType, rec: Record, reply: Reply)
    requires Served(t) && Sound(t, rec, reply)
    ensures !Overruns(t, rec, Done(reply))
  {
  }


  /** The wire is transparent: for every call but a stop, on any debugger that is not running, the exchange
      ends in the state in which the direct call ends, with the outputs or the error the direct call gives,
      for the elements that a 16-bit count covers. */
  lemma WireIsDirect<X(!new)>(api: Api<X>, srv: Server<X>, call: Call)
    requires !S.Running(srv.db.state) && |srv.db.stack| < TWO_64 && Proper(api, call)
    ensures var (after, r) := Direct(api, srv, Truncated(call));
            Remotely(api, srv, call) == Some((after, Observed(r, srv.junk)))
  {
    hide Overruns, Proper, Receive, RunCommand, Response, Truncated, Direct, Asks, RequestOf, MessageOf, Observed,
         NoRequest;
    if NoRequest(call) {
      NothingAsked(api, srv, call);
    } else {
      CallAsks(api, call);
      var serv := ServerServes(api, srv, call);
      ClientGets(api, srv, call, serv);
    }
  }

  /** A call on nothing does nothing. */
  lemma NothingAsked<X>(api: Api<X>, srv: Server<X>, call: Call)
    requires !S.Running(srv.db.state) && NoRequest(call)
    ensures var (after, r) := Direct(api, srv, Truncated(call));
            Remotely(api, srv, call) == Some((after, Observed(r, srv.junk)))
  {
  }

  /** No list of a call is longer than a 16-bit count can say. */
  predicate Countable(call: Call) {
    match call
    case ReadRegs(ids, _) => |ids| < TWO_16
    case WriteRegs(ids, _, bufs) => |ids| < TWO_16
    case RegsInfos(ids) => |ids| < TWO_16
    case RegsByName(names) => |names| < TWO_16
    case ReadMemory(addrs, _) => |addrs| < TWO_16
    case WriteMemory(addrs, _, _) => |addrs| < TWO_16
    case SymsById(ids) => |ids| < TWO_16
    case SymsByName(names) => |names| < TWO_16
    case SetBkps(addrs) => |addrs| < TWO_16
    case UnsetBkps(addrs) => |addrs| < TWO_16
    case _ => true
  }

  /** Exactly the calls within the count are served whole; beyond it the last elements are dropped without
      an error. */
  lemma WholeIffCountable<X(!new)>(api: Api<X>, call: Call)
    requires Proper(api, call)
    ensures Truncated(call) == call <==> Countable(call)
  {
  }

  /** Within the limits that the wire format sets, a remote call cannot be told from a direct one: it has the same
      effect, the same outputs and the same error text. Of register infos the value is not sent; of an update,
      call addresses that were never set arrive as some value. */
  lemma Transparent<X(!new)>(api: Api<X>, srv: Server<X>, call: Call)
    requires !S.Running(srv.db.state) && |srv.db.stack| < TWO_64 && Proper(api, call) && Countable(call)
    ensures var (after, r) := Direct(api, srv, call);
            && Remotely(api, srv, call) == Some((after, Observed(r, srv.junk)))
            && (r.Thrown? && NulFree(r.msg) ==> Remotely(api, srv, call) == Some((after, r)))
            && (r.Done? && !r.value.RHello? && !r.value.RUpdate? && !r.value.RRegs? ==>
                  Remotely(api, srv, call) == Some((after, r)))
  {
    hide Direct, Remotely, Proper, Countable, CStr;
    WireIsDirect(api, srv, call);
    WholeIffCountable(api, call);
    var r := Direct(api, srv, call).1;
    if r.Thrown? && NulFree(r.msg) {
      WholeText(r.msg);
    }
  }

  /** What arrives of register infos and updates. */
  lemma SeenParts(reply: Reply, junk: U64)
    ensures reply.RRegs? ==>
              var back := Seen(reply, junk);
              && back.RRegs? && |back.regs| == |reply.regs|
              && forall i :: 0 <= i < |reply.regs| ==> back.regs[i] == reply.regs[i].(val := [])
    ensures reply.RHello? ==>
              Seen(reply, junk).RHello? && Seen(reply, junk).infos == reply.infos
    ensures reply.RUpdate? ==> Seen(reply, junk).RUpdate?
    ensures reply.RHello? || reply.RUpdate? ==>
              var u, back := reply.udp, Seen(reply, junk).udp;
              && back == u.(stack := back.stack) && |back.stack| == |u.stack|
              && forall i :: 0 <= i < |u.stack| ==>
                   && back.stack[i].startAddr == u.stack[i].startAddr
                   && back.stack[i].callAddr ==
                        Some(if u.stack[i].callAddr.Some? then u.stack[i].callAddr.value else junk)
  {
  }
}
