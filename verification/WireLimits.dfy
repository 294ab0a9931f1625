/** Where a call through the wire differs from the direct one, and what becomes of calls made while the program
    runs (src/client/db-client-impl-data.cc, src/server/data-client-handler.cc). */
module WireLimits {
  import opened Common
  import opened Wire
  import opened Schema
  import opened Messages
  import opened Remote
  import opened Transparency
  import opened DirectCalls
  import S = Stepping
  import A = Agreement

  // The texts of errors.

  /** Characters of one byte, and no zero. */
  predicate Letters(m: string) {
    forall i :: 0 <= i < |m| ==> 0 < m[i] as int < TWO_8
  }

  lemma JoinLetters(a: string, b: string)
    requires Letters(a) && Letters(b)
    ensures Letters(a + b)
  {
  }

  /** Such a text is sent letter by letter. */
  lemma Spelled(m: string)
    requires Letters(m) && |m| < TWO_64
    ensures NulFree(Ascii(m)) && |Ascii(m)| == |m| && forall i :: 0 <= i < |m| ==> Ascii(m)[i] == m[i] as int
  {
  }

  lemma SpelledOut(a: string, b: string)
    requires Letters(a) && Letters(b) && |a| + |b| < TWO_64
    ensures var m := a + b;
            NulFree(Ascii(m)) && |Ascii(m)| == |m| && forall i :: 0 <= i < |m| ==> Ascii(m)[i] == m[i] as int
  {
    JoinLetters(a, b);
    Spelled(a + b);
  }

  // None of the debugger's own texts holds a zero.

  lemma FinishedIsWhole()
    ensures NulFree(Ascii("cannot resume execution: " + "program already finished"))
  {
    hide Ascii, NulFree;
    SpelledOut("cannot resume execution: ", "program already finished");
  }

  lemma AddOutsideIsWhole()
    ensures NulFree(Ascii("cannot add breakpoint: " + "address outside of memory range"))
  {
    hide Ascii, NulFree;
    SpelledOut("cannot add breakpoint: ", "address outside of memory range");
  }

  lemma AddTwiceIsWhole()
    ensures NulFree(Ascii("cannot add breakpoint: " + "There is already one at this address"))
  {
    hide Ascii, NulFree;
    SpelledOut("cannot add breakpoint: ", "There is already one at this address");
  }

  lemma DeleteOutsideIsWhole()
    ensures NulFree(Ascii("cannot delete breakpoint: " + "address outside of memory range"))
  {
    hide Ascii, NulFree;
    SpelledOut("cannot delete breakpoint: ", "address outside of memory range");
  }

  lemma DeleteNoneIsWhole()
    ensures NulFree(Ascii("cannot delete breakpoint: " + "there is none at this address"))
  {
    hide Ascii, NulFree;
    SpelledOut("cannot delete breakpoint: ", "there is none at this address");
  }

  lemma OnlyStopIsWhole()
    ensures NulFree(Ascii("Only stop and check stopped request " + "can be sent while VM running"))
  {
    hide Ascii, NulFree;
    SpelledOut("Only stop and check stopped request ", "can be sent while VM running");
  }

  lemma StopRefusedIsWhole()
    ensures NulFree(Ascii("Cannot stop already stopped program\n"))
  {
    hide Ascii, NulFree;
    Spelled("Cannot stop already stopped program\n");
  }

  /** Setting breakpoints ends remotely just as it does directly, error texts included. */
  lemma SetBkpsArrives<X(!new)>(api: Api<X>, srv: Server<X>, addrs: seq<U64>)
    requires !S.Running(srv.db.state) && |srv.db.stack| < TWO_64 && |addrs| < TWO_16
    ensures var (after, r) := Direct(api, srv, SetBkps(addrs));
            Remotely(api, srv, SetBkps(addrs)) == Some((after, r))
  {
    AddOutsideIsWhole();
    AddTwiceIsWhole();
    var k := BkpsSet(api, srv, addrs);
    hide Remotely, Direct, NulFree, Ascii;
    Transparent(api, srv, SetBkps(addrs));
    var r := Direct(api, srv, SetBkps(addrs)).1;
    if r.Thrown? {
      if addrs[k] >= srv.db.memorySize {
        assert r.msg == Ascii("cannot add breakpoint: " + "address outside of memory range");
      } else {
        assert r.msg == Ascii("cannot add breakpoint: " + "There is already one at this address");
      }
    }
  }

  /** So does deleting them. */
  lemma UnsetBkpsArrives<X(!new)>(api: Api<X>, srv: Server<X>, addrs: seq<U64>)
    requires !S.Running(srv.db.state) && |srv.db.stack| < TWO_64 && |addrs| < TWO_16
    ensures var (after, r) := Direct(api, srv, UnsetBkps(addrs));
            Remotely(api, srv, UnsetBkps(addrs)) == Some((after, r))
  {
    DeleteOutsideIsWhole();
    DeleteNoneIsWhole();
    var k := BkpsUnset(api, srv, addrs);
    hide Remotely, Direct, NulFree, Ascii;
    Transparent(api, srv, UnsetBkps(addrs));
    var r := Direct(api, srv, UnsetBkps(addrs)).1;
    if r.Thrown? {
      if addrs[k] >= srv.db.memorySize {
        assert r.msg == Ascii("cannot delete breakpoint: " + "address outside of memory range");
      } else {
        assert r.msg == Ascii("cannot delete breakpoint: " + "there is none at this address");
      }
    }
  }

  /** So does resuming. */
  lemma GoArrives<X(!new)>(api: Api<X>, srv: Server<X>, mode: S.ResumeType)
    requires !S.Running(srv.db.state) && |srv.db.stack| < TWO_64
    ensures var (after, r) := Direct(api, srv, Go(mode));
            Remotely(api, srv, Go(mode)) == Some((after, r))
  {
    FinishedIsWhole();
    DirectCalls.Resumed(api, srv, mode);
    hide Remotely, Direct, NulFree, Ascii;
    Transparent(api, srv, Go(mode));
  }

  /** A stop is refused on a stopped program both ways, which changes nothing, but the server has a message of
      its own. */
  lemma StopDiffers<X>(api: Api<X>, srv: Server<X>)
    requires srv.db.state == S.State.Stopped
    ensures Direct(api, srv, Halt) == (srv, Thrown(Ascii("cannot stop execution: " + "program already stopped")))
    ensures Remotely(api, srv, Halt) == Some((srv, Thrown(Ascii("Cannot stop already stopped program\n"))))
  {
    hide CStr, Receive, ErrorMessage, Ascii, NulFree;
    StopRefusedIsWhole();
    var (t, rec) := RequestOf(Halt);
    ErrorArrives(t, rec, Ascii(STOP_REFUSED));
  }

  /** A message of no known kind is answered with an error, and changes nothing. */
  lemma UnknownRefused<X>(api: Api<X>, srv: Server<X>, msg: Bytes, t: ReqType, rec: Record)
    requires msg != [] && msg[0] >= 20 && !S.Running(srv.db.state)
    ensures Handle(api, srv, msg).Some? && Handle(api, srv, msg).value.0 == srv
    ensures Receive(t, rec, Handle(api, srv, msg).value.1) == Some(Thrown(Ascii("Bad API request")))
  {
    Spelled("Bad API request");
    hide CStr, Receive, ErrorMessage, Ascii, NulFree;
    ErrorArrives(t, rec, Ascii(BAD_REQUEST));
  }

  // Counts beyond 16 bits.

  lemma AddableFront(db: S.Db, addrs: seq<U64>)
    requires Addable(db, addrs)
    ensures Addable(db, First(addrs))
  {
  }

  /** A list of breakpoints longer than a 16-bit count can say is cut without an error: the remote call ends
      as the direct one does if and only if the list is not that long. */
  lemma BreakpointsArriveIff<X(!new)>(api: Api<X>, srv: Server<X>, addrs: seq<U64>)
    requires !S.Running(srv.db.state) && |srv.db.stack| < TWO_64 && Addable(srv.db, addrs)
    ensures Remotely(api, srv, SetBkps(addrs)) ==
            Some((srv.(db := srv.db.(breakpts := srv.db.breakpts + SetOf(First(addrs)))), Done(RDone)))
    ensures Direct(api, srv, SetBkps(addrs)) ==
            (srv.(db := srv.db.(breakpts := srv.db.breakpts + SetOf(addrs))), Done(RDone))
    ensures Remotely(api, srv, SetBkps(addrs)) == Some(Direct(api, srv, SetBkps(addrs))) <==> |addrs| < TWO_16
  {
    hide Remotely, Batch, Addable;
    WireIsDirect(api, srv, SetBkps(addrs));
    AddableFront(srv.db, addrs);
    BkpsAdded(srv.db, addrs);
    BkpsAdded(srv.db, First(addrs));
    if |addrs| < TWO_16 {
      assert First(addrs) == addrs;
    } else {
      LeftOut(srv.db, addrs);
    }
  }

  lemma LeftOut(db: S.Db, addrs: seq<U64>)
    requires Addable(db, addrs) && |addrs| >= TWO_16
    ensures db.breakpts + SetOf(First(addrs)) != db.breakpts + SetOf(addrs)
  {
    var k := |First(addrs)|;
    assert addrs[k] in SetOf(addrs) && addrs[k] !in db.breakpts;
    assert addrs[k] !in First(addrs);
  }

  /** 65536 breakpoints: the client is told they are set, and none is. */
  lemma AllBreakpointsLost<X(!new)>(api: Api<X>, srv: Server<X>) returns (addrs: seq<U64>)
    requires !S.Running(srv.db.state) && |srv.db.stack| < TWO_64 && srv.db.breakpts == {} && srv.db.memorySize >= TWO_16
    ensures |addrs| == TWO_16 && Remotely(api, srv, SetBkps(addrs)) == Some((srv, Done(RDone)))
    ensures Direct(api, srv, SetBkps(addrs)).0.db.breakpts == SetOf(addrs) != {}
  {
    addrs := seq(TWO_16, i requires 0 <= i < TWO_16 => i);
    BreakpointsArriveIff(api, srv, addrs);
    assert First(addrs) == [] && SetOf([]) == {} && addrs[0] in SetOf(addrs);
    assert srv.db.(breakpts := srv.db.breakpts + SetOf(First(addrs))) == srv.db;
  }

  // Lists that come back.

  predicate GivesList(call: Call) {
    call.ReadRegs? || call.RegsInfos? || call.RegsByName? || call.ReadMemory? || call.SymsById? || call.SymsByName?
  }

  /** How many items a call that gives a list is made on. */
  function ItemCount(call: Call): nat
    requires GivesList(call)
  {
    match call
    case ReadRegs(ids, _) => |ids|
    case RegsInfos(ids) => |ids|
    case RegsByName(names) => |names|
    case ReadMemory(addrs, _) => |addrs|
    case SymsById(ids) => |ids|
    case SymsByName(names) => |names|
  }

  function ReplyCount(reply: Reply): nat {
    match reply
    case RBufs(bufs) => |bufs|
    case RRegs(regs) => |regs|
    case RIds(ids) => |ids|
    case RSyms(syms) => |syms|
    case _ => 0
  }

  /** A direct call that succeeds gives one result for each item. */
  lemma OneEach<X>(api: Api<X>, srv: Server<X>, call: Call)
    requires GivesList(call) && (call.ReadMemory? ==> |call.sizes| == |call.addrs|)
    ensures var r := Direct(api, srv, call).1; r.Done? ==> ReplyCount(r.value) == ItemCount(call)
  {
    hide Batch;
    match call
    case ReadRegs(ids, _) => BatchLength(api.getReg, srv.vm, ids);
    case RegsInfos(ids) => BatchLength(api.regInfos, srv.vm, ids);
    case RegsByName(names) => BatchLength(api.findReg, srv.vm, names);
    case ReadMemory(addrs, sizes) => BatchLength(api.readMem, srv.vm, Zip(addrs, sizes));
    case SymsById(ids) => BatchLength(api.symInfos, srv.vm, ids);
    case SymsByName(names) => BatchLength(SymNamed(api), srv.vm, names);
  }

  lemma SeenCount(reply: Reply, junk: U64)
    ensures ReplyCount(Seen(reply, junk)) == ReplyCount(reply)
  {
  }

  lemma CountsCut(call: Call)
    requires GivesList(call)
    ensures GivesList(Truncated(call)) && (ItemCount(Truncated(call)) == ItemCount(call) <==> Countable(call))
    ensures call.ReadMemory? && |call.sizes| == |call.addrs| ==> |Truncated(call).sizes| == |Truncated(call).addrs|
  {
  }

  /** A call that gives a list, and succeeds directly, gives the same list remotely if and only if its count
      fits 16 bits. */
  lemma ListsArriveIff<X(!new)>(api: Api<X>, srv: Server<X>, call: Call)
    requires !S.Running(srv.db.state) && |srv.db.stack| < TWO_64 && GivesList(call) && Proper(api, call)
    requires Direct(api, srv, call).1.Done?
    ensures var (after, r) := Direct(api, srv, call);
            Remotely(api, srv, call) == Some((after, Observed(r, srv.junk))) <==> Countable(call)
  {
    assert call.ReadMemory? ==> |call.sizes| == |call.addrs|;
    hide Proper, Direct, Truncated, Countable, Remotely, GivesList, ItemCount, ReplyCount, Seen;
    WireIsDirect(api, srv, call);
    WholeIffCountable(api, call);
    CountsCut(call);
    OneEach(api, srv, call);
    OneEach(api, srv, Truncated(call));
    var r, cut := Direct(api, srv, call).1, Direct(api, srv, Truncated(call)).1;
    SeenCount(r.value, srv.junk);
    if cut.Done? {
      SeenCount(cut.value, srv.junk);
    }
  }

  // Names beyond 16 bits.

  /** What is written for a list of names. */
  lemma NamesMessage(call: Call)
    requires call.RegsByName? || call.SymsByName?
    ensures var (t, rec) := RequestOf(call);
            Send(SchemaOf(t), In, rec) == Le(|call.names| % TWO_16, 2) + PutCstrs(Strs(First(call.names)))
  {
    var (t, rec) := RequestOf(call);
    var sch := SchemaOf(t);
    var strs := Strs(First(call.names));
    assert sch[1..][1..] == [sch[2]] && [sch[2]][1..] == [];
    assert Send([sch[2]], In, rec) == [];
    assert Send(sch[1..], In, rec) == PutCstrs(strs) + [] == PutCstrs(strs);
  }

  lemma ReadsField(sch: seq<Field>, rec: Record, bs: Bytes)
    requires sch != [] && sch[0].dir == In
    ensures ServRecv(sch, rec, bs) == match TakeField(sch[0], rec, bs)
                                      case None => None
                                      case Some((v, r)) => ServRecv(sch[1..], rec[sch[0].slot := v], r)
  {
  }

  lemma ReadsCount(n: nat, rec: Record, rest: Bytes)
    requires n < TWO_16
    ensures TakeField(COUNT, rec, Le(n, 2) + rest) == Some((VInt(n), rest))
  {
    hide TakeInt, Le;
    PowersInUse();
    TakePutInt(n, 2, rest);
  }

  lemma NamesRead(t: ReqType, strs: seq<Val>)
    requires (t == FindRegsIds || t == GetSymsByNames) && |strs| < TWO_16 && TakeCstrs(|strs|, PutCstrs(strs)) == None
    ensures ServRecv(SchemaOf(t), map[], Le(|strs|, 2) + PutCstrs(strs)) == None
  {
    hide TakeCstrs, PutCstrs, Le, TakeInt, ServRecv;
    var sch := SchemaOf(t);
    var rec: Record := map[Count := VInt(|strs|)];
    ReadsCount(|strs|, map[], PutCstrs(strs));
    ReadsField(sch, map[], Le(|strs|, 2) + PutCstrs(strs));
    ReadsField(sch[1..], rec, PutCstrs(strs));
  }

  lemma Unanswered<X>(api: Api<X>, srv: Server<X>, call: Call)
    requires !S.Running(srv.db.state) && !NoRequest(call)
    requires RunCommand(api, srv, MessageOf(RequestOf(call).0, RequestOf(call).1)) == None
    ensures Remotely(api, srv, call) == None
  {
    hide Receive, RunCommand, RequestOf, MessageOf;
  }

  lemma Unread<X>(api: Api<X>, srv: Server<X>, t: ReqType, rec: Record)
    requires Served(t) && t != Stop && ServRecv(SchemaOf(t), map[], Send(SchemaOf(t), In, rec)) == None
    ensures RunCommand(api, srv, MessageOf(t, rec)) == None
  {
    hide ServRecv, SchemaOf, Send, Direct, Response, Overruns;
    CodesDiffer(t);
    assert MessageOf(t, rec)[1..] == Send(SchemaOf(t), In, rec);
  }

  lemma NamesOverrun<X(!new)>(api: Api<X>, srv: Server<X>, call: Call)
    requires !S.Running(srv.db.state) && (call.RegsByName? || call.SymsByName?)
    requires forall i :: 0 <= i < |call.names| ==> NulFree(call.names[i])
    requires |Block(Strs(First(call.names)))| >= TWO_16
    ensures Remotely(api, srv, call) == None
  {
    var (t, rec) := RequestOf(call);
    var strs := Strs(First(call.names));
    assert IsCstrs(strs);
    hide Block, PutCstrs, TakeCstrs, ServRecv, Send, SchemaOf, IsCstrs, NulFree, Le, Remotely, RunCommand, MessageOf;
    NamesMessage(call);
    CstrsArriveIff(strs, []);
    assert PutCstrs(strs) + [] == PutCstrs(strs);
    NamesRead(t, strs);
    Unread(api, srv, t, rec);
    Unanswered(api, srv, call);
  }

  /** Names whose block is 2^16 bytes or longer make the server search beyond its buffer, and the call does
      not come back; shorter blocks arrive. */
  lemma NamesArriveIff<X(!new)>(api: Api<X>, srv: Server<X>, call: Call)
    requires !S.Running(srv.db.state) && |srv.db.stack| < TWO_64 && (call.RegsByName? || call.SymsByName?)
    requires forall i :: 0 <= i < |call.names| ==> NulFree(call.names[i])
    ensures Remotely(api, srv, call) == None <==> |Block(Strs(First(call.names)))| >= TWO_16
  {
    hide Remotely, Block, Direct, Observed;
    if |Block(Strs(First(call.names)))| < TWO_16 {
      WireIsDirect(api, srv, call);
    } else {
      NamesOverrun(api, srv, call);
    }
  }

  /** One name of 65535 characters is too long already. */
  lemma LongNameLost<X(!new)>(api: Api<X>, srv: Server<X>) returns (name: Bytes)
    requires !S.Running(srv.db.state) && |srv.db.stack| < TWO_64
    ensures |name| == TWO_16 - 1 && NulFree(name) && Remotely(api, srv, RegsByName([name])) == None
  {
    name := Repeat(TWO_16 - 1, 97);
    assert First([name]) == [name];
    OneBlock(name);
    NamesArriveIff(api, srv, RegsByName([name]));
  }

  lemma OneBlock(name: Bytes)
    ensures |Block(Strs([name]))| == |name| + 1
  {
    var strs := Strs([name]);
    assert strs == [VStr(name)] && strs[1..] == [];
    assert Block(strs) == name + [0] + [];
  }

  // The mark of equal sizes.

  /** The sizes the client asks for, register by register. */
  function AskedSizes(sizes: seq<U64>): (r: seq<nat>)
    ensures |r| == |sizes| && forall i :: 0 <= i < |r| ==> r[i] == SizeAt(|sizes|, sizes, i)
  {
    seq(|sizes|, i requires 0 <= i < |sizes| => SizeAt(|sizes|, sizes, i))
  }

  /** The size a register is asked for is its own, if sizes are given one by one and the mark is not met. */
  predicate MarkFree(sizes: seq<U64>) {
    |sizes| < 2 || sizes[1] != 0 || forall i :: 0 <= i < |sizes| ==> sizes[i] == 0
  }

  lemma AskedIsGiven(sizes: seq<U64>)
    ensures (forall i :: 0 <= i < |sizes| ==> SizeAt(|sizes|, sizes, i) == sizes[i]) <==> MarkFree(sizes)
  {
    if |sizes| >= 2 && sizes[1] == 0 && forall i :: 0 <= i < |sizes| ==> SizeAt(|sizes|, sizes, i) == sizes[i] {
      assert SizeAt(|sizes|, sizes, 1) == sizes[1];
    }
  }

  /** Rows come back as long as the server was told, whatever the VM wrote. */
  lemma PaddedResponse(t: ReqType, serv: Record, bufs: seq<Bytes>, junk: U64)
    ensures Response(t, serv, Done(RBufs(bufs)), junk) ==
            Response(t, serv, Done(RBufs(Padded(bufs, BufLens(t, serv)))), junk)
  {
    var lens := BufLens(t, serv);
    assert Padded(Padded(bufs, lens), lens) == Padded(bufs, lens);
  }

  /** The request for these registers announces these lengths. */
  lemma AskedLengths(ids: seq<U32>, sizes: seq<U64>)
    requires 0 < |ids| == |sizes| < TWO_16
    ensures var (t, rec) := RequestOf(ReadRegs(ids, sizes));
            (t == GetRegs || t == GetRegsVar) && RowLens(SchemaOf(t)[3].shape, rec) == AskedSizes(sizes) &&
                |SchemaOf(t)| == 4
  {
    var (t, rec) := RequestOf(ReadRegs(ids, sizes));
    CountFits(|ids|, rec);
    if !Uniform(|ids|, sizes) {
      assert First(sizes) == sizes;
      LongsFit(Sizes, First(sizes), rec);
    }
  }

  lemma SameBufLens(t: ReqType, a: Record, b: Record)
    requires t == GetRegs || t == GetRegsVar
    requires SameInputs(SchemaOf(t), a, b)
    ensures BufLens(t, a) == BufLens(t, b)
  {
    var sch := SchemaOf(t);
    assert sch[0] in sch && sch[1] in sch && sch[2] in sch;
  }

  lemma PaddedLens(bufs: seq<Bytes>, sizes: seq<U64>, lens: seq<nat>)
    requires |bufs| == |sizes| == |lens| && forall i :: 0 <= i < |bufs| ==> |bufs[i]| == sizes[i] <= lens[i]
    ensures LensOf(Padded(bufs, lens), lens)
    ensures Padded(bufs, lens) == bufs <==> forall i :: 0 <= i < |bufs| ==> lens[i] == sizes[i]
  {
    if forall i :: 0 <= i < |bufs| ==> lens[i] == sizes[i] {
      assert Padded(bufs, lens) == bufs;
    }
    if Padded(bufs, lens) == bufs {
      forall i | 0 <= i < |bufs|
        ensures lens[i] == sizes[i]
      {
        assert |Padded(bufs, lens)[i]| == lens[i];
      }
    }
  }

  lemma RegistersAsked(ids: seq<U32>, sizes: seq<U64>)
    requires 0 < |ids| == |sizes| < TWO_16
    ensures Asks(ReadRegs(ids, sizes)) && Truncated(ReadRegs(ids, sizes)) == ReadRegs(ids, sizes)
  {
    hide Asks;
    if Uniform(|ids|, sizes) {
      UniformRegCallAsks(ReadRegs(ids, sizes));
    } else {
      VariedReadAsks(ReadRegs(ids, sizes));
    }
    assert First(ids) == ids;
  }

  /** The client's side of a response that holds register values. */
  lemma RegistersReceived(ids: seq<U32>, sizes: seq<U64>, serv: Record, bufs: seq<Bytes>, junk: U64)
    requires 0 < |ids| == |sizes| < TWO_16
    requires |bufs| == |ids| && forall i :: 0 <= i < |bufs| ==> |bufs[i]| == sizes[i] <= SizeAt(|sizes|, sizes, i)
    requires SameInputs(SchemaOf(RequestOf(ReadRegs(ids, sizes)).0), RequestOf(ReadRegs(ids, sizes)).1, serv)
    ensures var (t, rec) := RequestOf(ReadRegs(ids, sizes));
            Receive(t, rec, Response(t, serv, Done(RBufs(bufs)), junk)) ==
                Some(Done(RBufs(Padded(bufs, AskedSizes(sizes)))))
  {
    hide Receive, Response, Asks, RequestOf, SchemaOf, Padded, Sound;
    var (t, rec) := RequestOf(ReadRegs(ids, sizes));
    var lens := AskedSizes(sizes);
    RegistersAsked(ids, sizes);
    AskedLengths(ids, sizes);
    SameBufLens(t, rec, serv);
    PaddedResponse(t, serv, bufs, junk);
    PaddedLens(bufs, sizes, lens);
    PaddedSound(t, rec, Padded(bufs, lens), lens);
    AsksFits(ReadRegs(ids, sizes));
    ClientSees(t, rec, serv, RBufs(Padded(bufs, lens)), junk);
  }

  /** The direct read fills a buffer for each register, as large as the register. */
  lemma DirectRegisters<X(!new)>(api: Api<X>, srv: Server<X>, ids: seq<U32>, sizes: seq<U64>)
    requires |ids| == |sizes| && Direct(api, srv, ReadRegs(ids, sizes)).1.Done?
    requires forall x: X, i :: 0 <= i < |ids| && api.getReg(x, ids[i]).1.Done? ==>
             |api.getReg(x, ids[i]).1.value| == sizes[i]
    ensures var reply := Direct(api, srv, ReadRegs(ids, sizes)).1.value;
            reply.RBufs? && |reply.bufs| == |ids| && forall i :: 0 <= i < |ids| ==> |reply.bufs[i]| == sizes[i]
  {
    BatchSizes(api.getReg, srv.vm, ids, sizes);
  }

  /** A request and its response make a call. */
  lemma Exchanged<X>(api: Api<X>, srv: Server<X>, call: Call, after: Server<X>, resp: Bytes, r: Outcome<Reply>)
    requires !S.Running(srv.db.state) && !NoRequest(call)
    requires RunCommand(api, srv, MessageOf(RequestOf(call).0, RequestOf(call).1)) == Some((after, resp))
    requires Receive(RequestOf(call).0, RequestOf(call).1, resp) == Some(r)
    ensures Remotely(api, srv, call) == Some((after, r))
  {
    hide Receive, RunCommand, RequestOf, MessageOf;
  }

  /** Some register is larger than the buffer the server makes for it. */
  predicate TooLarge(sizes: seq<U64>) {
    exists i :: 0 <= i < |sizes| && sizes[i] > AskedSizes(sizes)[i]
  }

  lemma TooLargeOverruns(ids: seq<U32>, sizes: seq<U64>, serv: Record, bufs: seq<Bytes>)
    requires 0 < |ids| == |sizes| < TWO_16 && |bufs| == |ids| && forall i :: 0 <= i < |bufs| ==> |bufs[i]| == sizes[i]
    requires SameInputs(SchemaOf(RequestOf(ReadRegs(ids, sizes)).0), RequestOf(ReadRegs(ids, sizes)).1, serv)
    ensures Overruns(RequestOf(ReadRegs(ids, sizes)).0, serv, Done(RBufs(bufs))) <==> TooLarge(sizes)
    ensures !TooLarge(sizes) ==> forall i :: 0 <= i < |bufs| ==> |bufs[i]| == sizes[i] <= SizeAt(|sizes|, sizes, i)
    ensures TooLarge(sizes) ==> !MarkFree(sizes)
  {
    hide RequestOf, SchemaOf, MarkFree;
    var (t, rec) := RequestOf(ReadRegs(ids, sizes));
    AskedLengths(ids, sizes);
    SameBufLens(t, rec, serv);
    AskedIsGiven(sizes);
  }

  /** What comes back for registers given with their own sizes: each as long as it was asked for, filled up
      with zeros; or nothing, if one runs over the buffer made for it. The call is the direct one if and only if
      the sizes are free of the mark. */
  lemma RegistersArriveIff<X(!new)>(api: Api<X>, srv: Server<X>, ids: seq<U32>, sizes: seq<U64>)
    requires !S.Running(srv.db.state) && |srv.db.stack| < TWO_64 && 0 < |ids| == |sizes| < TWO_16
    requires forall x: X, i :: 0 <= i < |ids| && api.getReg(x, ids[i]).1.Done? ==>
               |api.getReg(x, ids[i]).1.value| == sizes[i]
    requires Direct(api, srv, ReadRegs(ids, sizes)).1.Done?
    ensures var (after, r) := Direct(api, srv, ReadRegs(ids, sizes));
            && r.value.RBufs?
            && Remotely(api, srv, ReadRegs(ids, sizes)) ==
                 if TooLarge(sizes) then None else Some((after, Done(RBufs(Padded(r.value.bufs, AskedSizes(sizes))))))
    ensures Remotely(api, srv, ReadRegs(ids, sizes)) == Some(Direct(api, srv, ReadRegs(ids, sizes))) <==>
            MarkFree(sizes)
  {
    hide Receive, RunCommand, Response, Asks, RequestOf, SchemaOf, Padded, MarkFree, Direct, MessageOf, SameInputs,
         Remotely, Overruns, TooLarge;
    var call := ReadRegs(ids, sizes);
    RegistersAsked(ids, sizes);
    var serv := ServerServes(api, srv, call);
    DirectRegisters(api, srv, ids, sizes);
    var (after, r) := Direct(api, srv, call);
    TooLargeOverruns(ids, sizes, serv, r.value.bufs);
    if TooLarge(sizes) {
      Unanswered(api, srv, call);
    } else {
      RegistersReceived(ids, sizes, serv, r.value.bufs, srv.junk);
      var t := RequestOf(call).0;
      Exchanged(api, srv, call, after, Response(t, serv, r, srv.junk),
                Done(RBufs(Padded(r.value.bufs, AskedSizes(sizes)))));
      PaddedLens(r.value.bufs, sizes, AskedSizes(sizes));
      AskedIsGiven(sizes);
    }
  }

  /** A VM with one register of four bytes and one of none. */
  function UnevenApi(): Api<()> {
    Api((x: (), id: U32) => (x, if id == 0 then Done([1, 2, 3, 4]) else Done([])),
        (x: (), w: (U32, Bytes)) => (x, Done(())),
        (x: (), id: U32) => (x, Thrown([])),
        (x: (), name: Bytes) => (x, Thrown([])),
        (x: (), at: (U64, U64)) => (x, Thrown([])),
        (x: (), w: (U64, Bytes)) => (x, Thrown([])),
        (x: (), addr: U64, size: U64) => (x, Done([])),
        (x: (), id: U32) => (x, Thrown([])),
        (x: (), name: Bytes) => (x, Thrown([])),
        (x: (), addr: U64) => (x, Thrown([])))
  }

  lemma UnevenRead()
    ensures Batch(UnevenApi().getReg, (), [0, 1]) == ((), Done([[1, 2, 3, 4], []]))
  {
    var f, one: seq<U32>, both: seq<U32> := UnevenApi().getReg, [1], [0, 1];
    var none: Bytes, four: Bytes := [], [1, 2, 3, 4];
    assert f((), 0) == ((), Done(four)) && f((), 1) == ((), Done(none));
    assert both[1..] == one && one[1..] == [];
    BatchNext(f, (), one, (), none, (), []);
    assert [none] + [] == [none] && [four] + [none] == [four, none];
    BatchNext(f, (), both, (), four, (), [none]);
  }

  lemma BatchNext<X, P, Q>(f: (X, P) -> (X, Outcome<Q>), x: X, items: seq<P>, y: X, q: Q, z: X, qs: seq<Q>)
    requires items != [] && f(x, items[0]) == (y, Done(q)) && Batch(f, y, items[1..]) == (z, Done(qs))
    ensures Batch(f, x, items) == (z, Done([q] + qs))
  {
  }

  lemma UnevenDirect(srv: Server<()>)
    ensures Direct(UnevenApi(), srv, ReadRegs([0, 1], [4, 0])) == (srv, Done(RBufs([[1, 2, 3, 4], []])))
  {
    UnevenRead();
    hide UnevenApi, Batch;
    assert srv.vm == ();
  }

  lemma UnevenPadded()
    ensures Padded([[1, 2, 3, 4], []], AskedSizes([4, 0])) == [[1, 2, 3, 4], [0, 0, 0, 0]]
    ensures !TooLarge([4, 0])
  {
    var bufs: seq<Bytes> := [[1, 2, 3, 4], []];
    assert AskedSizes([4, 0]) == [4, 4];
    assert bufs[1] + Repeat(4, 0 as Byte) == [0, 0, 0, 0];
    assert Padded(bufs, [4, 4]) == [bufs[0], bufs[1] + Repeat(4, 0 as Byte)];
  }

  /** Read together, the empty register comes back with four bytes. */
  lemma EmptyRegisterGrows(srv: Server<()>)
    requires !S.Running(srv.db.state) && |srv.db.stack| < TWO_64
    ensures Direct(UnevenApi(), srv, ReadRegs([0, 1], [4, 0])) == (srv, Done(RBufs([[1, 2, 3, 4], []])))
    ensures Remotely(UnevenApi(), srv, ReadRegs([0, 1], [4, 0])) ==
            Some((srv, Done(RBufs([[1, 2, 3, 4], [0, 0, 0, 0]]))))
  {
    hide Remotely, Batch, Direct, Padded, AskedSizes, TooLarge;
    UnevenDirect(srv);
    UnevenPadded();
    RegistersArriveIff(UnevenApi(), srv, [0, 1], [4, 0]);
  }

  lemma PaddedSound(t: ReqType, rec: Record, bufs: seq<Bytes>, lens: seq<nat>)
    requires (t == GetRegs || t == GetRegsVar) && |SchemaOf(t)| == 4 && RowLens(SchemaOf(t)[3].shape, rec) == lens &&
             LensOf(bufs, lens)
    ensures Served(t) && Sound(t, rec, RBufs(bufs)) && BufLens(t, rec) == lens
  {
  }

  lemma AsksFits(call: Call)
    requires Asks(call)
    ensures Served(RequestOf(call).0) && AllFit(SchemaOf(RequestOf(call).0), In, RequestOf(call).1)
  {
  }

  // While the program runs.

  /** A remote stop does what the direct one does: the program is stopped. */
  lemma StopWhileRunning<X>(api: Api<X>, srv: Server<X>)
    requires S.Running(srv.db.state)
    ensures Direct(api, srv, Halt) == (srv.(db := srv.db.(state := S.State.Stopped)), Done(RDone))
    ensures Remotely(api, srv, Halt) == Some(Direct(api, srv, Halt))
  {
    var msg := MessageOf(Stop, map[]);
    assert msg == [1] && msg[1..] == [];
    assert ServRecv(SchemaOf(Stop), map[], []) == Some((map[], []));
    var resp := Response(Stop, map[], Done(RDone), srv.junk);
    assert resp == [1] && resp[1..] == [];
    assert CliRecv(SchemaOf(Stop), map[], []) == Some((map[], []));
  }

  /** Asking whether it has stopped gets a no both ways. The other members of the update are left alone by the
      direct call; the remote one overwrites them with what the server's uninitialised structure holds, and an
      empty stack. */
  lemma CheckWhileRunning<X>(api: Api<X>, srv: Server<X>, was: A.ClientUpdate)
    requires S.Running(srv.db.state)
    ensures Direct(api, srv, Check(was)) == (srv, Done(RUpdate(was.(stopped := false))))
    ensures Remotely(api, srv, Check(was)) == Some((srv, Done(RUpdate(Fresh(srv).(stopped := false)))))
    ensures Remotely(api, srv, Check(was)) == Some(Direct(api, srv, Check(was))) <==>
            was.stack == [] && was.vmState == srv.raw.vmState && was.addr == srv.raw.addr
  {
    hide Receive, Response, Seen, Sound;
    ScalarCallAsks(Check(was));
    var (t, rec) := RequestOf(Check(was));
    AsksFits(Check(was));
    var serv := ServerSees(Check(was));
    var udp := Fresh(srv).(stopped := false);
    EmptyStackSound(rec, udp);
    ClientSees(t, rec, serv, RUpdate(udp), srv.junk);
    EmptyStackSeen(udp, srv.junk);
  }

  lemma EmptyStackSound(rec: Record, udp: A.ClientUpdate)
    requires udp.stack == []
    ensures Sound(CheckStopped, rec, RUpdate(udp))
  {
  }

  lemma EmptyStackSeen(udp: A.ClientUpdate, junk: U64)
    requires udp.stack == []
    ensures Seen(RUpdate(udp), junk) == RUpdate(udp)
  {
    assert Each(FillCall(junk), []) == [];
  }

  /** Every other call that makes a request is refused, and changes nothing. */
  lemma RefusedWhileRunning<X>(api: Api<X>, srv: Server<X>, call: Call)
    requires S.Running(srv.db.state) && !call.Halt? && !call.Check? && !NoRequest(call)
    ensures Remotely(api, srv, call) ==
            Some((srv, Thrown(Ascii("Only stop and check stopped request " + "can be sent while VM running"))))
  {
    OnlyStopIsWhole();
    hide Receive, ErrorMessage, CStr, Ascii, NulFree;
    var (t, rec) := RequestOf(call);
    OtherKinds(call);
    CodesDiffer(t);
    ErrorArrives(t, rec, Ascii(ONLY_STOP));
  }

  lemma OtherKinds(call: Call)
    requires !call.Halt? && !call.Check?
    ensures RequestOf(call).0 != Stop && RequestOf(call).0 != CheckStopped && Served(RequestOf(call).0)
  {
  }
}
