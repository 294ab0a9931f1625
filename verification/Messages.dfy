/** The request kinds, their descriptions, and the structures that travel in them (src/mess/request.cc,
    include/odb/mess/request.hh). */
module Messages {
  import opened Common
  import opened Wire
  import opened Schema
  import S = Stepping
  import A = Agreement

  // Values of the host language and their serialized form.

  /** Containers of at most as many elements as a 64-bit size counts. */
  type List<T> = s: seq<T> | |s| < TWO_64

  type Text = List<Byte>

  datatype RegKind = General | ProgramCounter | StackPointer | BasePointer | Flags

  datatype RegInfos = RegInfos(idx: U32, name: Text, size: U64, kind: RegKind, val: Text)

  datatype SymbolInfos = SymbolInfos(idx: U32, name: Text, addr: U64)

  datatype VmInfos = VmInfos(
    name: Text, regsCount: U32,
    general: List<U32>, programCounter: List<U32>, stackPointer: List<U32>, basePointer: List<U32>, flags: List<U32>,
    memorySize: U64, symbolsCount: U32, pointerSize: U64, integerSize: U64, useOpcode: bool)

  function Each<P, Q>(f: P -> Q, s: seq<P>): (r: seq<Q>)
    ensures |r| == |s| && forall i :: 0 <= i < |s| ==> r[i] == f(s[i])
  {
    seq(|s|, i requires 0 <= i < |s| => f(s[i]))
  }

  function OfNum(n: nat): Val { VInt(n) }
  function ToU8(v: Val): Byte { if v.VInt? && v.n < TWO_8 then v.n else 0 }
  function ToU32(v: Val): U32 { if v.VInt? && v.n < TWO_32 then v.n else 0 }
  function ToU64(v: Val): U64 { if v.VInt? && v.n < TWO_64 then v.n else 0 }

  function Nums(ns: seq<nat>): seq<Val> { Each(OfNum, ns) }
  function OfNums(ns: seq<nat>): Val { VSeq(Nums(ns)) }
  function ToU8s(v: Val): seq<Byte> { Each(ToU8, RowItems(v)) }
  function ToU32s(v: Val): seq<U32> { Each(ToU32, RowItems(v)) }
  function ToU64s(v: Val): seq<U64> { Each(ToU64, RowItems(v)) }

  function OfText(s: Text): Val { VStr(s) }
  function ToText(v: Val): Text { if v.VStr? && |v.s| < TWO_64 then v.s else [] }

  function Member(v: Val, i: nat): Val { if v.VSeq? && i < |v.items| then v.items[i] else VInt(0) }

  /** Longer lists do not occur. */
  function Fitting<T>(s: seq<T>): List<T> { if |s| < TWO_64 then s else [] }

  function KindCode(k: RegKind): Byte {
    match k case General => 0 case ProgramCounter => 1 case StackPointer => 2 case BasePointer => 3 case Flags => 4
  }

  function KindOf(b: Byte): RegKind {
    if b == 0 then General else if b == 1 then ProgramCounter else if b == 2 then StackPointer
    else if b == 3 then BasePointer else Flags
  }

  function StoppedCode(s: A.StoppedState): Byte {
    match s case Ready => 0 case Exited => 1 case Errored => 2
  }

  function StoppedOf(b: Byte): A.StoppedState {
    if b == 0 then A.Ready else if b == 1 then A.Exited else A.Errored
  }

  function ModeCode(t: S.ResumeType): Byte {
    match t case ToFinish => 0 case Continue => 1 case Step => 2 case StepOver => 3 case StepOut => 4
  }

  function ModeOf(b: Byte): S.ResumeType {
    if b == 0 then S.ToFinish else if b == 1 then S.Continue else if b == 2 then S.ResumeType.Step
    else if b == 3 then S.StepOver else S.StepOut
  }

  function Flag(b: bool): Byte { if b then 1 else 0 }

  // Structures, member by member in the order they are written.

  const REG_TY := TStruct([TInt(4), TStr, TInt(8), TInt(1)])
  const SYM_TY := TStruct([TInt(4), TStr, TInt(8)])
  const CALL_TY := TStruct([TInt(8), TInt(8)])
  const UPDATE_TY := TStruct([TInt(1), TInt(1), TInt(8), TVec(CALL_TY)])
  const IDS_TY := TVec(TInt(4))
  const INFOS_TY :=
    TStruct([TStr, TInt(4), IDS_TY, IDS_TY, IDS_TY, IDS_TY, IDS_TY, TInt(8), TInt(4), TInt(8), TInt(8), TInt(1)])

  function OfReg(r: RegInfos): Val {
    VSeq([VInt(r.idx), VStr(r.name), VInt(r.size), VInt(KindCode(r.kind))])
  }

  /** The value of a register is not part of the message. */
  function ToReg(v: Val): RegInfos {
    RegInfos(ToU32(Member(v, 0)), ToText(Member(v, 1)), ToU64(Member(v, 2)), KindOf(ToU8(Member(v, 3))), [])
  }

  function OfSym(s: SymbolInfos): Val {
    VSeq([VInt(s.idx), VStr(s.name), VInt(s.addr)])
  }

  function ToSym(v: Val): SymbolInfos {
    SymbolInfos(ToU32(Member(v, 0)), ToText(Member(v, 1)), ToU64(Member(v, 2)))
  }

  /** A frame whose call address is uninitialised is sent with whatever bytes are there. */
  function FillCall(junk: U64): S.CallInfos -> S.CallInfos {
    (c: S.CallInfos) => S.CallInfos(c.startAddr, Some(if c.callAddr.Some? then c.callAddr.value else junk))
  }

  function OfCall(junk: U64): S.CallInfos -> Val {
    (c: S.CallInfos) => VSeq([VInt(c.startAddr), VInt(if c.callAddr.Some? then c.callAddr.value else junk)])
  }

  function ToCall(v: Val): S.CallInfos {
    S.CallInfos(ToU64(Member(v, 0)), Some(ToU64(Member(v, 1))))
  }

  function Filled(u: A.ClientUpdate, junk: U64): A.ClientUpdate {
    u.(stack := Each(FillCall(junk), u.stack))
  }

  function OfUpdate(u: A.ClientUpdate, junk: U64): Val {
    VSeq([VInt(StoppedCode(u.vmState)), VInt(Flag(u.stopped)), VInt(u.addr), VSeq(Each(OfCall(junk), u.stack))])
  }

  function ToUpdate(v: Val): A.ClientUpdate {
    A.ClientUpdate(StoppedOf(ToU8(Member(v, 0))), ToU8(Member(v, 1)) != 0, ToU64(Member(v, 2)),
                   Each(ToCall, RowItems(Member(v, 3))))
  }

  function OfInfos(n: VmInfos): Val {
    VSeq([VStr(n.name), VInt(n.regsCount), OfNums(n.general), OfNums(n.programCounter), OfNums(n.stackPointer),
          OfNums(n.basePointer), OfNums(n.flags), VInt(n.memorySize), VInt(n.symbolsCount), VInt(n.pointerSize),
          VInt(n.integerSize), VInt(Flag(n.useOpcode))])
  }

  function ToIds(v: Val): List<U32> { Fitting(ToU32s(v)) }

  function ToInfos(v: Val): VmInfos {
    VmInfos(ToText(Member(v, 0)), ToU32(Member(v, 1)), ToIds(Member(v, 2)), ToIds(Member(v, 3)), ToIds(Member(v, 4)),
            ToIds(Member(v, 5)), ToIds(Member(v, 6)), ToU64(Member(v, 7)), ToU32(Member(v, 8)), ToU64(Member(v, 9)),
            ToU64(Member(v, 10)), ToU8(Member(v, 11)) != 0)
  }

  // Every structure has its type, and is recovered from its serialized form.

  lemma Numbers(w: nat, ns: seq<nat>)
    requires forall i :: 0 <= i < |ns| ==> ns[i] < Pow256(w)
    ensures AllHaveType(TInt(w), Nums(ns))
    ensures |ns| < TWO_64 ==> HasType(TVec(TInt(w)), OfNums(ns))
  {
    PowersInUse();
  }

  lemma ByteNumbers(ns: seq<Byte>)
    ensures AllHaveType(TInt(1), Nums(ns)) && ToU8s(OfNums(ns)) == ns
  {
    PowersInUse();
    Numbers(1, ns);
  }

  lemma WordNumbers(ns: seq<U32>)
    ensures AllHaveType(TInt(4), Nums(ns)) && ToU32s(OfNums(ns)) == ns
    ensures |ns| < TWO_64 ==> HasType(IDS_TY, OfNums(ns)) && ToIds(OfNums(ns)) == ns
  {
    PowersInUse();
    Numbers(4, ns);
  }

  lemma LongNumbers(ns: seq<U64>)
    ensures AllHaveType(TInt(8), Nums(ns)) && ToU64s(OfNums(ns)) == ns
    ensures |ns| < TWO_64 ==> HasType(TVec(TInt(8)), OfNums(ns))
  {
    PowersInUse();
    Numbers(8, ns);
  }

  lemma RegTravels(r: RegInfos)
    ensures HasType(REG_TY, OfReg(r)) && ToReg(OfReg(r)) == r.(val := [])
  {
    PowersInUse();
  }

  lemma SymTravels(s: SymbolInfos)
    ensures HasType(SYM_TY, OfSym(s)) && ToSym(OfSym(s)) == s
  {
    PowersInUse();
  }

  lemma CallTravels(c: S.CallInfos, junk: U64)
    ensures HasType(CALL_TY, OfCall(junk)(c)) && ToCall(OfCall(junk)(c)) == FillCall(junk)(c)
  {
    PowersInUse();
  }

  lemma UpdateTravels(u: A.ClientUpdate, junk: U64)
    requires |u.stack| < TWO_64
    ensures HasType(UPDATE_TY, OfUpdate(u, junk)) && ToUpdate(OfUpdate(u, junk)) == Filled(u, junk)
  {
    PowersInUse();
    forall c: S.CallInfos
      ensures HasType(CALL_TY, OfCall(junk)(c)) && ToCall(OfCall(junk)(c)) == FillCall(junk)(c)
    {
      CallTravels(c, junk);
    }
    var calls := Each(OfCall(junk), u.stack);
    assert HasType(TVec(CALL_TY), VSeq(calls));
    assert Each(ToCall, calls) == Each(FillCall(junk), u.stack);
  }

  lemma InfosTravel(n: VmInfos)
    ensures HasType(INFOS_TY, OfInfos(n)) && ToInfos(OfInfos(n)) == n
  {
    PowersInUse();
    WordNumbers(n.general);
    WordNumbers(n.programCounter);
    WordNumbers(n.stackPointer);
    WordNumbers(n.basePointer);
    WordNumbers(n.flags);
  }

  // Request kinds.

  datatype ReqType =
    | Connect | Stop | CheckStopped | GetRegs | GetRegsVar | SetRegs | SetRegsVar | GetRegsInfos | FindRegsIds
    | ReadMem | ReadMemVar | WriteMem | WriteMemVar | GetSymsByIds | GetSymsByAddr | GetSymsByNames | GetCodeText
    | AddBkps | DelBkps | Resume | Error

  const KINDS := [
    Connect, Stop, CheckStopped, GetRegs, GetRegsVar, SetRegs, SetRegsVar, GetRegsInfos, FindRegsIds, ReadMem,
    ReadMemVar, WriteMem, WriteMemVar, GetSymsByIds, GetSymsByAddr, GetSymsByNames, GetCodeText, AddBkps, DelBkps,
     Resume]

  const ERR_CODE: Byte := 100

  function Code(t: ReqType): Byte {
    match t
    case Connect => 0
    case Stop => 1
    case CheckStopped => 2
    case GetRegs => 3
    case GetRegsVar => 4
    case SetRegs => 5
    case SetRegsVar => 6
    case GetRegsInfos => 7
    case FindRegsIds => 8
    case ReadMem => 9
    case ReadMemVar => 10
    case WriteMem => 11
    case WriteMemVar => 12
    case GetSymsByIds => 13
    case GetSymsByAddr => 14
    case GetSymsByNames => 15
    case GetCodeText => 16
    case AddBkps => 17
    case DelBkps => 18
    case Resume => 19
    case Error => ERR_CODE
  }

  function KindOfCode(b: Byte): Option<ReqType> {
    if b < |KINDS| then Some(KINDS[b]) else if b == ERR_CODE then Some(Error) else None
  }

  /** The code of a kind is its place in the source's enumeration; an error has a code beyond all of them. */
  lemma CodesInOrder()
    ensures Code(Error) == 100
    ensures Code(Connect) == 0 && Code(Stop) == 1 && Code(CheckStopped) == 2
    ensures Code(GetRegs) == 3 && Code(GetRegsVar) == 4 && Code(SetRegs) == 5 && Code(SetRegsVar) == 6
    ensures Code(GetRegsInfos) == 7 && Code(FindRegsIds) == 8
    ensures Code(ReadMem) == 9 && Code(ReadMemVar) == 10 && Code(WriteMem) == 11 && Code(WriteMemVar) == 12
    ensures Code(GetSymsByIds) == 13 && Code(GetSymsByAddr) == 14 && Code(GetSymsByNames) == 15
    ensures Code(GetCodeText) == 16 && Code(AddBkps) == 17 && Code(DelBkps) == 18 && Code(Resume) == 19
  {
  }

  /** So are those of the smaller enumerations, and each is read back. */
  lemma SmallCodesInOrder(s: A.StoppedState, m: S.ResumeType, k: RegKind)
    ensures StoppedOf(StoppedCode(s)) == s && ModeOf(ModeCode(m)) == m && KindOf(KindCode(k)) == k
    ensures StoppedCode(A.Ready) == 0 && StoppedCode(A.Exited) == 1 && StoppedCode(A.Errored) == 2
    ensures ModeCode(S.ToFinish) == 0 && ModeCode(S.Continue) == 1 && ModeCode(S.ResumeType.Step) == 2
    ensures ModeCode(S.StepOver) == 3 && ModeCode(S.StepOut) == 4
    ensures KindCode(General) == 0 && KindCode(ProgramCounter) == 1 && KindCode(StackPointer) == 2
    ensures KindCode(BasePointer) == 3 && KindCode(Flags) == 4
  {
  }

  // Descriptions.

  const COUNT := Field(Count, TInt(2), In, One)
  const BYTE := TInt(1)
  const ID := TInt(4)
  const WORD := TInt(8)

  function SchemaOf(t: ReqType): seq<Field> {
    match t
    case Connect => [Field(OutInfos, INFOS_TY, Out, One), Field(OutUpdate, UPDATE_TY, Out, One)]
    case Stop => []
    case CheckStopped => [Field(OutUpdate, UPDATE_TY, Out, One)]
    case GetRegs =>
      [COUNT, Field(Size, WORD, In, One), Field(Ids, ID, In, Buf(Count)), Field(Bufs, BYTE, Out, Grid(Count, Size))]
    case GetRegsVar =>
      [COUNT, Field(Ids, ID, In, Buf(Count)), Field(Sizes, WORD, In, Buf(Count)),
       Field(Bufs, BYTE, Out, GridVar(Count, Sizes))]
    case SetRegs =>
      [COUNT, Field(Size, WORD, In, One), Field(Ids, ID, In, Buf(Count)), Field(Bufs, BYTE, In, Grid(Count, Size))]
    case SetRegsVar =>
      [COUNT, Field(Ids, ID, In, Buf(Count)), Field(Sizes, WORD, In, Buf(Count)),
       Field(Bufs, BYTE, In, GridVar(Count, Sizes))]
    case GetRegsInfos =>
      [COUNT, Field(Ids, ID, In, Buf(Count)), Field(OutInfos, REG_TY, Out, Buf(Count))]
    case FindRegsIds =>
      [COUNT, Field(Names, BYTE, In, Cstrs(Count)), Field(OutIds, ID, Out, Buf(Count))]
    case ReadMem =>
      [COUNT, Field(Size, WORD, In, One), Field(Addrs, WORD, In, Buf(Count)), Field(Bufs, BYTE, Out, Grid(Count, Size))]
    case ReadMemVar =>
      [COUNT, Field(Addrs, WORD, In, Buf(Count)), Field(Sizes, WORD, In, Buf(Count)),
       Field(Bufs, BYTE, Out, GridVar(Count, Sizes))]
    case WriteMem =>
      [COUNT, Field(Size, WORD, In, One), Field(Addrs, WORD, In, Buf(Count)), Field(Bufs, BYTE, In, Grid(Count, Size))]
    case WriteMemVar =>
      [COUNT, Field(Addrs, WORD, In, Buf(Count)), Field(Sizes, WORD, In, Buf(Count)),
       Field(Bufs, BYTE, In, GridVar(Count, Sizes))]
    case GetSymsByIds =>
      [COUNT, Field(Ids, ID, In, Buf(Count)), Field(OutInfos, SYM_TY, Out, Buf(Count))]
    case GetSymsByAddr =>
      [Field(Start, WORD, In, One), Field(Size, WORD, In, One), Field(OutInfos, TVec(SYM_TY), Out, One)]
    case GetSymsByNames =>
      [COUNT, Field(Names, BYTE, In, Cstrs(Count)), Field(OutInfos, SYM_TY, Out, Buf(Count))]
    case GetCodeText =>
      [Field(Start, WORD, In, One), Field(Nins, WORD, In, One), Field(OutText, TVec(TStr), Out, One),
       Field(OutSizes, TVec(WORD), Out, One)]
    case AddBkps => [COUNT, Field(Addrs, WORD, In, Buf(Count))]
    case DelBkps => [COUNT, Field(Addrs, WORD, In, Buf(Count))]
    case Resume => [Field(Mode, BYTE, In, One)]
    case Error => [Field(OutMsg, TStr, Out, One)]
  }

  lemma WfStep(sch: seq<Field>, f: Field)
    requires Wf(sch) && WfField(f, sch)
    ensures Wf(sch + [f])
  {
    hide WfField;
    forall i | 0 <= i < |sch| + 1
      ensures WfField((sch + [f])[i], (sch + [f])[..i])
    {
      if i < |sch| {
        assert (sch + [f])[..i] == sch[..i];
      } else {
        assert (sch + [f])[..i] == sch;
      }
    }
  }

  /** A counted buffer. */
  lemma WfCounted(f: Field)
    requires f.slot != Count && (f.shape == Buf(Count) || (f.shape == Cstrs(Count) && f.dir == In))
    ensures Wf([COUNT, f])
  {
    assert COUNT in [COUNT] && IsLength(COUNT, Count);
    WfStep([], COUNT);
    WfStep([COUNT], f);
    assert [] + [COUNT] == [COUNT] && [COUNT] + [f] == [COUNT, f];
  }

  lemma WfThird(a: Field, b: Field, c: Field)
    requires Wf([a, b]) && c.slot != a.slot && c.slot != b.slot
    requires c.shape == One || (c.shape.Buf? && IsLength(a, c.shape.n))
    ensures Wf([a, b, c])
  {
    assert a in [a, b];
    WfStep([a, b], c);
    assert [a, b] + [c] == [a, b, c];
  }

  /** Rows after their count and their lengths. */
  lemma WfRows(a: Field, b: Field, c: Field, d: Field)
    requires Wf([a, b, c]) && d.slot != a.slot && d.slot != b.slot && d.slot != c.slot
    requires d.shape.Grid? ==> IsLength(a, d.shape.n) && IsLength(b, d.shape.m)
    requires d.shape.GridVar? ==> IsLength(a, d.shape.n) && IsLengths(c, d.shape.n, d.shape.ms)
    requires d.shape == One || d.shape.Grid? || d.shape.GridVar?
    ensures Wf([a, b, c, d])
  {
    assert a in [a, b, c] && b in [a, b, c] && c in [a, b, c];
    WfStep([a, b, c], d);
    assert [a, b, c] + [d] == [a, b, c, d];
  }

  lemma WfScalars(a: Field, b: Field)
    requires a.shape == One && b.shape == One && a.slot != b.slot
    ensures Wf([]) && Wf([a]) && Wf([a, b])
  {
    WfStep([], a);
    assert [] + [a] == [a];
    WfStep([a], b);
    assert [a] + [b] == [a, b];
  }

  /** Every request description is well formed: the general results apply to all of them. */
  lemma AllWf(t: ReqType)
    ensures Wf(SchemaOf(t))
  {
    hide Wf;
    var sch := SchemaOf(t);
    if |sch| == 0 {
      WfScalars(COUNT, Field(Size, WORD, In, One));
    } else if |sch| == 1 {
      WfScalars(sch[0], if sch[0].slot == Count then Field(Size, WORD, In, One) else COUNT);
    } else {
      if sch[1].shape == One {
        WfScalars(sch[0], sch[1]);
      } else {
        WfCounted(sch[1]);
      }
      assert sch[..2] == [sch[0], sch[1]];
      if |sch| >= 3 {
        WfThird(sch[0], sch[1], sch[2]);
      }
      if |sch| == 4 {
        WfRows(sch[0], sch[1], sch[2], sch[3]);
      }
    }
  }
}
