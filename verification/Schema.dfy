/** A request is described once, as the sequence of fields that `prepare_request` hands to the request
    handler; each of the four handlers interprets that one description in its own way
    (include/odb/mess/request-handler.hh). */
module Schema {
  import opened Common
  import opened Wire

  /** The members of the request structures. */
  datatype Slot =
    | Count | Size | Start | Ids | Sizes | Addrs | Bufs | Names | Nins | Mode
    | OutInfos | OutUpdate | OutIds | OutText | OutSizes | OutMsg

  datatype Dir = In | Out

  /** How a member is laid out: one object, a buffer, rows of equal length, rows of given lengths, or
      zero-terminated strings. Lengths are themselves members. */
  datatype Shape = One | Buf(n: Slot) | Grid(n: Slot, m: Slot) | GridVar(n: Slot, ms: Slot) | Cstrs(n: Slot)

  datatype Field = Field(slot: Slot, ty: Ty, dir: Dir, shape: Shape)

  /** A request structure. Buffers are sequences, rows sequences of sequences. */
  type Record = map<Slot, Val>

  // Lengths, as the members of a record give them.

  function IntOf(rec: Record, s: Slot): nat {
    if s in rec && rec[s].VInt? then rec[s].n else 0
  }

  function ItemsOf(rec: Record, s: Slot): seq<Val> {
    if s in rec && rec[s].VSeq? then rec[s].items else []
  }

  function Ints(vs: seq<Val>): (ns: seq<nat>)
    ensures |ns| == |vs| && forall i :: 0 <= i < |vs| && vs[i].VInt? ==> ns[i] == vs[i].n
  {
    seq(|vs|, i requires 0 <= i < |vs| => if vs[i].VInt? then vs[i].n else 0)
  }

  function Repeat<T>(n: nat, v: T): (r: seq<T>)
    ensures |r| == n && forall i :: 0 <= i < n ==> r[i] == v
  {
    seq(n, _ => v)
  }

  /** The row lengths of a two-dimensional member. */
  function RowLens(shape: Shape, rec: Record): seq<nat> {
    match shape
    case Grid(n, m) => Repeat(IntOf(rec, n), IntOf(rec, m))
    case GridVar(n, ms) => Ints(ItemsOf(rec, ms))
    case _ => []
  }

  function Sum(ns: seq<nat>): nat {
    if ns == [] then 0 else ns[0] + Sum(ns[1..])
  }

  // Rows.

  function RowItems(v: Val): seq<Val> {
    if v.VSeq? then v.items else []
  }

  function PutRows(ty: Ty, rows: seq<Val>): Bytes {
    if rows == [] then [] else PutAll(ty, RowItems(rows[0])) + PutRows(ty, rows[1..])
  }

  function TakeRows(ty: Ty, lens: seq<nat>, bs: Bytes): Option<(seq<Val>, Bytes)> {
    if lens == [] then Some(([], bs))
    else
      match TakeAll(ty, lens[0], bs)
      case None => None
      case Some((vs, r)) =>
        match TakeRows(ty, lens[1..], r)
        case None => None
        case Some((rows, q)) => Some(([VSeq(vs)] + rows, q))
  }

  ghost predicate RowsFit(ty: Ty, lens: seq<nat>, rows: seq<Val>) {
    |rows| == |lens| && forall i :: 0 <= i < |rows| ==>
      rows[i].VSeq? && |rows[i].items| == lens[i] && AllHaveType(ty, rows[i].items)
  }

  // Zero-terminated strings, sent as one block behind its size in 16 bits.

  ghost predicate NulFree(s: Bytes) {
    forall i :: 0 <= i < |s| ==> s[i] != 0
  }

  ghost predicate IsCstrs(vs: seq<Val>) {
    forall i :: 0 <= i < |vs| ==> vs[i].VStr? && NulFree(vs[i].s)
  }

  function Str(v: Val): Bytes {
    if v.VStr? then v.s else []
  }

  function Block(strs: seq<Val>): Bytes {
    if strs == [] then [] else Str(strs[0]) + [0] + Block(strs[1..])
  }

  function PutCstrs(strs: seq<Val>): Bytes {
    Le(|Block(strs)| % TWO_16, 2) + Block(strs)
  }

  /** std::strlen within a buffer; None when it would run off its end. */
  function Strlen(bs: Bytes): Option<nat> {
    if bs == [] then None
    else if bs[0] == 0 then Some(0)
    else
      match Strlen(bs[1..])
      case None => None
      case Some(n) => Some(n + 1)
  }

  lemma {:induction false} StrlenFinds(bs: Bytes)
    ensures match Strlen(bs)
            case None => NulFree(bs)
            case Some(n) => n < |bs| && bs[n] == 0 && NulFree(bs[..n])
  {
    if bs != [] && bs[0] != 0 {
      StrlenFinds(bs[1..]);
      var r := Strlen(bs[1..]);
      if r.Some? {
        assert forall i :: 0 <= i < r.value + 1 ==> bs[i] == if i == 0 then bs[0] else bs[1..][..r.value][i - 1];
      } else {
        assert forall i :: 0 < i < |bs| ==> bs[i] == bs[1..][i - 1];
      }
    }
  }

  lemma {:induction false} StrlenOf(s: Bytes, rest: Bytes)
    requires NulFree(s)
    ensures Strlen(s + [0] + rest) == Some(|s|)
  {
    if s != [] {
      assert (s + [0] + rest)[1..] == s[1..] + [0] + rest;
      StrlenOf(s[1..], rest);
    }
  }

  /** Cuts `n` strings out of a block. */
  function SplitBlock(n: nat, block: Bytes): Option<seq<Val>> {
    if n == 0 then Some([])
    else
      match Strlen(block)
      case None => None
      case Some(k) =>
        StrlenFinds(block);
        match SplitBlock(n - 1, block[k + 1..])
        case None => None
        case Some(strs) => Some([VStr(block[..k])] + strs)
  }

  function TakeCstrs(n: nat, bs: Bytes): Option<(seq<Val>, Bytes)> {
    match TakeInt(2, bs)
    case None => None
    case Some((size, r)) =>
      match TakeBytes(size, r)
      case None => None
      case Some((block, q)) =>
        match SplitBlock(n, block)
        case None => None
        case Some(strs) => Some((strs, q))
  }

  lemma {:induction false} SplitOfBlock(strs: seq<Val>)
    requires IsCstrs(strs)
    ensures SplitBlock(|strs|, Block(strs)) == Some(strs)
  {
    if strs != [] {
      var s := strs[0].s;
      StrlenOf(s, Block(strs[1..]));
      assert Block(strs)[|s| + 1..] == Block(strs[1..]) && Block(strs)[..|s|] == s;
      SplitOfBlock(strs[1..]);
      assert [VStr(s)] + strs[1..] == strs;
    }
  }

  // One field.

  function PutField(f: Field, rec: Record): Bytes {
    match f.shape
    case One => if f.slot in rec then Put(f.ty, rec[f.slot]) else []
    case Buf(_) => PutAll(f.ty, ItemsOf(rec, f.slot))
    case Grid(_, _) => PutRows(f.ty, ItemsOf(rec, f.slot))
    case GridVar(_, _) => PutRows(f.ty, ItemsOf(rec, f.slot))
    case Cstrs(_) => PutCstrs(ItemsOf(rec, f.slot))
  }

  function AsSeq(r: Option<(seq<Val>, Bytes)>): Option<(Val, Bytes)> {
    match r
    case None => None
    case Some((vs, q)) => Some((VSeq(vs), q))
  }

  /** Reads a field whose lengths are in `rec`. */
  function TakeField(f: Field, rec: Record, bs: Bytes): Option<(Val, Bytes)> {
    match f.shape
    case One => Take(f.ty, bs)
    case Buf(n) => AsSeq(TakeAll(f.ty, IntOf(rec, n), bs))
    case Grid(_, _) => AsSeq(TakeRows(f.ty, RowLens(f.shape, rec), bs))
    case GridVar(_, _) => AsSeq(TakeRows(f.ty, RowLens(f.shape, rec), bs))
    case Cstrs(n) => AsSeq(TakeCstrs(IntOf(rec, n), bs))
  }

  /** A freshly allocated buffer for a field the server is to fill in. */
  function Blank(f: Field, rec: Record): Val {
    match f.shape
    case One => VSeq([])
    case Buf(n) => VSeq(Repeat(IntOf(rec, n), VSeq([])))
    case _ => VSeq(BlankRows(RowLens(f.shape, rec)))
  }

  function BlankRows(lens: seq<nat>): (r: seq<Val>)
    ensures |r| == |lens| && forall i :: 0 <= i < |r| ==> r[i].VSeq? && |r[i].items| == lens[i]
  {
    seq(|lens|, i requires 0 <= i < |lens| => VSeq(Repeat(lens[i], VInt(0))))
  }

  /** The member has the type and the lengths that the rest of the record says. */
  ghost predicate Writable(f: Field, rec: Record) {
    f.slot in rec &&
    var v := rec[f.slot];
    match f.shape
    case One => HasType(f.ty, v)
    case Buf(n) => v.VSeq? && |v.items| == IntOf(rec, n) && AllHaveType(f.ty, v.items)
    case Grid(_, _) => v.VSeq? && RowsFit(f.ty, RowLens(f.shape, rec), v.items)
    case GridVar(_, _) => v.VSeq? && RowsFit(f.ty, RowLens(f.shape, rec), v.items)
    case Cstrs(n) => v.VSeq? && |v.items| == IntOf(rec, n) && IsCstrs(v.items)
  }

  /** The member can be written, and arrives: a block of strings fits its 16-bit size. */
  ghost predicate Fits(f: Field, rec: Record) {
    Writable(f, rec) && (f.shape.Cstrs? ==> |Block(rec[f.slot].items)| < TWO_16)
  }

  /** The slots a field takes its lengths from. */
  function Lengths(shape: Shape): set<Slot> {
    match shape
    case One => {}
    case Buf(n) => {n}
    case Grid(n, m) => {n, m}
    case GridVar(n, ms) => {n, ms}
    case Cstrs(n) => {n}
  }

  ghost predicate SameOn(slots: set<Slot>, a: Record, b: Record) {
    forall s <- slots :: s in a && s in b && a[s] == b[s]
  }

  lemma {:induction false} RowsRoundTrip(ty: Ty, lens: seq<nat>, rows: seq<Val>, rest: Bytes)
    requires RowsFit(ty, lens, rows)
    ensures TakeRows(ty, lens, PutRows(ty, rows) + rest) == Some((rows, rest))
  {
    if rows == [] {
      assert [] + rest == rest;
    } else {
      var tail := PutRows(ty, rows[1..]);
      Assoc(PutAll(ty, rows[0].items), tail, rest);
      RoundTripAll(ty, rows[0].items, tail + rest);
      RowsRoundTrip(ty, lens[1..], rows[1..], rest);
      assert [VSeq(rows[0].items)] + rows[1..] == rows;
    }
  }

  lemma TakeFront(a: Bytes, rest: Bytes)
    ensures TakeBytes(|a|, a + rest) == Some((a, rest))
  {
  }

  lemma CstrsRoundTrip(strs: seq<Val>, rest: Bytes)
    requires IsCstrs(strs) && |Block(strs)| < TWO_16
    ensures TakeCstrs(|strs|, PutCstrs(strs) + rest) == Some((strs, rest))
  {
    hide Block, SplitBlock, Le, FromLe, Pow256, TakeInt;
    var block := Block(strs);
    PowersInUse();
    assert |block| % TWO_16 == |block|;
    TakePutInt(|block|, 2, block + rest);
    Assoc(Le(|block|, 2), block, rest);
    TakeFront(block, rest);
    SplitOfBlock(strs);
  }

  /** A field written by one end reads back at the other, given the same lengths. */
  lemma FieldRoundTrip(f: Field, rec: Record, other: Record, rest: Bytes)
    requires Fits(f, rec) && SameOn(Lengths(f.shape), rec, other)
    ensures TakeField(f, other, PutField(f, rec) + rest) == Some((rec[f.slot], rest))
  {
    var v := rec[f.slot];
    match f.shape
    case One => RoundTrip(f.ty, v, rest);
    case Buf(n) => RoundTripAll(f.ty, v.items, rest);
    case Grid(_, _) =>
      assert RowLens(f.shape, rec) == RowLens(f.shape, other);
      RowsRoundTrip(f.ty, RowLens(f.shape, rec), v.items, rest);
    case GridVar(_, _) =>
      assert RowLens(f.shape, rec) == RowLens(f.shape, other);
      RowsRoundTrip(f.ty, RowLens(f.shape, rec), v.items, rest);
    case Cstrs(n) => CstrsRoundTrip(v.items, rest);
  }

  // The four interpretations of a whole description.

  /** HandlerCliSend writes the inputs, HandlerServSend the outputs. */
  function Send(sch: seq<Field>, dir: Dir, rec: Record): Bytes {
    if sch == [] then []
    else (if sch[0].dir == dir then PutField(sch[0], rec) else []) + Send(sch[1..], dir, rec)
  }

  /** HandlerServRecv reads the inputs, and allocates what the server is to fill in. */
  function ServRecv(sch: seq<Field>, rec: Record, bs: Bytes): Option<(Record, Bytes)> {
    if sch == [] then Some((rec, bs))
    else if sch[0].dir == Out then ServRecv(sch[1..], rec[sch[0].slot := Blank(sch[0], rec)], bs)
    else
      match TakeField(sch[0], rec, bs)
      case None => None
      case Some((v, r)) => ServRecv(sch[1..], rec[sch[0].slot := v], r)
  }

  /** HandlerCliRecv reads the outputs into the client's own structure, whose lengths it still has. */
  function CliRecv(sch: seq<Field>, rec: Record, bs: Bytes): Option<(Record, Bytes)> {
    if sch == [] then Some((rec, bs))
    else if sch[0].dir == In then CliRecv(sch[1..], rec, bs)
    else
      match TakeField(sch[0], rec, bs)
      case None => None
      case Some((v, r)) => CliRecv(sch[1..], rec[sch[0].slot := v], r)
  }

  // Well-formed descriptions.

  predicate IsLength(f: Field, s: Slot) {
    f.slot == s && f.dir == In && f.shape == One && f.ty.TInt?
  }

  predicate IsLengths(f: Field, n: Slot, ms: Slot) {
    f.slot == ms && f.dir == In && f.shape == Buf(n) && f.ty.TInt?
  }

  predicate WfField(f: Field, prev: seq<Field>) {
    && (forall g <- prev :: g.slot != f.slot)
    && match f.shape
       case One => true
       case Buf(n) => exists g <- prev :: IsLength(g, n)
       case Grid(n, m) => (exists g <- prev :: IsLength(g, n)) && exists g <- prev :: IsLength(g, m)
       case GridVar(n, ms) => (exists g <- prev :: IsLength(g, n)) && exists g <- prev :: IsLengths(g, n, ms)
       case Cstrs(n) => f.dir == In && exists g <- prev :: IsLength(g, n)
  }

  /** Every member occurs once, and lengths are inputs that come before their use. */
  predicate Wf(sch: seq<Field>) {
    forall i :: 0 <= i < |sch| ==> WfField(sch[i], sch[..i])
  }

  ghost predicate AllWritable(sch: seq<Field>, dir: Dir, rec: Record) {
    forall f <- sch :: f.dir == dir ==> Writable(f, rec)
  }

  /** All fields of one direction fit. */
  ghost predicate AllFit(sch: seq<Field>, dir: Dir, rec: Record) {
    forall f <- sch :: f.dir == dir ==> Fits(f, rec)
  }

  lemma FittingIsWritable(sch: seq<Field>, dir: Dir, rec: Record)
    requires AllFit(sch, dir, rec)
    ensures AllWritable(sch, dir, rec)
  {
    hide Writable;
  }

  /** The two records agree on the inputs. */
  ghost predicate SameInputs(sch: seq<Field>, a: Record, b: Record) {
    forall f <- sch :: f.dir == In ==> f.slot in a && f.slot in b && a[f.slot] == b[f.slot]
  }

  lemma LengthsBefore(sch: seq<Field>, i: nat, a: Record, b: Record)
    requires Wf(sch) && i < |sch| && SameInputs(sch[..i], a, b)
    ensures SameOn(Lengths(sch[i].shape), a, b)
  {
    assert WfField(sch[i], sch[..i]);
  }

  /** `b` with the server's blanks put in, and the client's inputs. */
  function Received(sch: seq<Field>, rec: Record, from: Record): Record {
    if sch == [] then rec
    else
      var f := sch[0];
      var v := if f.dir == Out then Blank(f, rec) else if f.slot in from then from[f.slot] else VInt(0);
      Received(sch[1..], rec[f.slot := v], from)
  }

  /** The client's record with the server's outputs put in. */
  function Returned(sch: seq<Field>, rec: Record, from: Record): Record {
    if sch == [] then rec
    else
      var f := sch[0];
      Returned(sch[1..], if f.dir == Out && f.slot in from then rec[f.slot := from[f.slot]] else rec, from)
  }

  lemma {:induction false} RequestFrom(sch: seq<Field>, i: nat, cli: Record, serv: Record, rest: Bytes)
    requires Wf(sch) && i <= |sch| && AllFit(sch, In, cli) && SameInputs(sch[..i], cli, serv)
    ensures ServRecv(sch[i..], serv, Send(sch[i..], In, cli) + rest) == Some((Received(sch[i..], serv, cli), rest))
    decreases |sch| - i
  {
    if i < |sch| {
      var f := sch[i];
      assert f in sch && sch[i..][0] == f && sch[i..][1..] == sch[i + 1..] && sch[..i + 1] == sch[..i] + [f];
      assert WfField(f, sch[..i]);
      var tail := Send(sch[i + 1..], In, cli) + rest;
      var next := serv[f.slot := if f.dir == Out then Blank(f, serv) else cli[f.slot]];
      assert SameInputs(sch[..i + 1], cli, next);
      RequestFrom(sch, i + 1, cli, next, rest);
      if f.dir == In {
        LengthsBefore(sch, i, cli, serv);
        Assoc(PutField(f, cli), Send(sch[i + 1..], In, cli), rest);
        FieldRoundTrip(f, cli, serv, tail);
      } else {
        assert [] + Send(sch[i + 1..], In, cli) == Send(sch[i + 1..], In, cli);
      }
    } else {
      assert [] + rest == rest;
    }
  }

  lemma {:induction false} ReceivedInputs(sch: seq<Field>, i: nat, rec: Record, from: Record)
    requires Wf(sch) && i <= |sch| && SameInputs(sch[..i], from, rec)
    requires forall f <- sch :: f.dir == In ==> f.slot in from
    ensures SameInputs(sch, from, Received(sch[i..], rec, from))
    decreases |sch| - i
  {
    if i < |sch| {
      var f := sch[i];
      assert f in sch && sch[i..][0] == f && sch[i..][1..] == sch[i + 1..] && sch[..i + 1] == sch[..i] + [f];
      assert WfField(f, sch[..i]);
      var next := rec[f.slot := if f.dir == Out then Blank(f, rec) else from[f.slot]];
      assert SameInputs(sch[..i + 1], from, next);
      ReceivedInputs(sch, i + 1, next, from);
    } else {
      assert sch[..i] == sch;
    }
  }

  /** Client-send then server-receive restores every input, dependent lengths and rows included, and
      consumes exactly the bytes written. */
  lemma RequestArrives(sch: seq<Field>, cli: Record, rest: Bytes) returns (serv: Record)
    requires Wf(sch) && AllFit(sch, In, cli)
    ensures ServRecv(sch, map[], Send(sch, In, cli) + rest) == Some((serv, rest))
    ensures serv == Received(sch, map[], cli) && SameInputs(sch, cli, serv)
  {
    serv := Received(sch, map[], cli);
    assert sch[0..] == sch;
    RequestFrom(sch, 0, cli, map[], rest);
    assert forall f <- sch :: f.dir == In ==> Fits(f, cli);
    ReceivedInputs(sch, 0, map[], cli);
  }

  lemma {:induction false} ResponseFrom(sch: seq<Field>, i: nat, cli: Record, serv: Record, rest: Bytes)
    requires Wf(sch) && i <= |sch| && AllFit(sch, Out, serv) && SameInputs(sch, serv, cli)
    ensures CliRecv(sch[i..], cli, Send(sch[i..], Out, serv) + rest) == Some((Returned(sch[i..], cli, serv), rest))
    decreases |sch| - i
  {
    if i < |sch| {
      var f := sch[i];
      assert f in sch && sch[i..][0] == f && sch[i..][1..] == sch[i + 1..];
      if f.dir == Out {
        var tail := Send(sch[i + 1..], Out, serv) + rest;
        assert SameInputs(sch[..i], serv, cli);
        LengthsBefore(sch, i, serv, cli);
        Assoc(PutField(f, serv), Send(sch[i + 1..], Out, serv), rest);
        FieldRoundTrip(f, serv, cli, tail);
        OutputsKeepInputs(sch, i, cli, serv);
        ResponseFrom(sch, i + 1, cli[f.slot := serv[f.slot]], serv, rest);
      } else {
        assert [] + Send(sch[i + 1..], Out, serv) == Send(sch[i + 1..], Out, serv);
        ResponseFrom(sch, i + 1, cli, serv, rest);
      }
    } else {
      assert [] + rest == rest;
    }
  }

  /** Storing an output touches no input. */
  lemma OutputsKeepInputs(sch: seq<Field>, i: nat, cli: Record, serv: Record)
    requires Wf(sch) && i < |sch| && sch[i].dir == Out && SameInputs(sch, serv, cli) && sch[i].slot in serv
    ensures SameInputs(sch, serv, cli[sch[i].slot := serv[sch[i].slot]])
  {
    forall f | f in sch && f.dir == In
      ensures f.slot != sch[i].slot
    {
      var j :| 0 <= j < |sch| && sch[j] == f;
      if j < i {
        assert WfField(sch[i], sch[..i]) && sch[j] in sch[..i];
      } else {
        assert WfField(sch[j], sch[..j]) && sch[i] in sch[..j];
      }
    }
  }

  /** Server-send then client-receive restores every output, using only lengths the client kept. */
  lemma ResponseArrives(sch: seq<Field>, cli: Record, serv: Record, rest: Bytes)
    requires Wf(sch) && AllFit(sch, Out, serv) && SameInputs(sch, serv, cli)
    ensures CliRecv(sch, cli, Send(sch, Out, serv) + rest) == Some((Returned(sch, cli, serv), rest))
    ensures forall f <- sch :: f.dir == Out ==>
            f.slot in Returned(sch, cli, serv) && Returned(sch, cli, serv)[f.slot] == serv[f.slot]
    ensures forall s <- cli :: (forall f <- sch :: f.dir == Out ==> f.slot != s) ==>
              s in Returned(sch, cli, serv) && Returned(sch, cli, serv)[s] == cli[s]
  {
    assert sch[0..] == sch;
    ResponseFrom(sch, 0, cli, serv, rest);
    assert forall f <- sch :: f.dir == Out ==> Fits(f, serv);
    ReturnedOutputs(sch, cli, serv);
  }

  lemma {:induction false} ReturnedOutputs(sch: seq<Field>, cli: Record, serv: Record)
    requires forall f <- sch :: f.dir == Out ==> f.slot in serv
    ensures forall f <- sch :: f.dir == Out ==>
            f.slot in Returned(sch, cli, serv) && Returned(sch, cli, serv)[f.slot] == serv[f.slot]
    ensures forall s <- cli :: (forall f <- sch :: f.dir == Out ==> f.slot != s) ==>
              s in Returned(sch, cli, serv) && Returned(sch, cli, serv)[s] == cli[s]
    ensures forall s <- cli :: s in serv && cli[s] == serv[s] ==>
              s in Returned(sch, cli, serv) && Returned(sch, cli, serv)[s] == serv[s]
  {
    if sch != [] {
      var f := sch[0];
      var next := if f.dir == Out && f.slot in serv then cli[f.slot := serv[f.slot]] else cli;
      ReturnedOutputs(sch[1..], next, serv);
    }
  }

  // Strings longer than 16 bits can count.

  /** A block cut short does not hold all its strings: the search for the last terminator runs off its end. */
  lemma {:induction false} ShortBlockOverruns(strs: seq<Val>, k: nat)
    requires IsCstrs(strs) && k < |Block(strs)|
    ensures SplitBlock(|strs|, Block(strs)[..k]) == None
  {
    var s := strs[0].s;
    var short := Block(strs)[..k];
    if k <= |s| {
      assert short == s[..k];
      StrlenFinds(short);
    } else {
      var tail := Block(strs[1..]);
      assert short == s + [0] + tail[..k - |s| - 1];
      StrlenOf(s, tail[..k - |s| - 1]);
      assert short[|s| + 1..] == tail[..k - |s| - 1];
      ShortBlockOverruns(strs[1..], k - |s| - 1);
    }
  }

  /** Names arrive as the client wrote them if their block is shorter than 2^16 bytes; otherwise the server
      receives a size cut to 16 bits and searches a terminator beyond its buffer. */
  lemma CstrsArriveIff(strs: seq<Val>, rest: Bytes)
    requires IsCstrs(strs)
    ensures TakeCstrs(|strs|, PutCstrs(strs) + rest) == if |Block(strs)| < TWO_16 then Some((strs, rest)) else None
  {
    if |Block(strs)| < TWO_16 {
      CstrsRoundTrip(strs, rest);
    } else {
      var block := Block(strs);
      var size := |block| % TWO_16;
      PowersInUse();
      TakePutInt(size, 2, block + rest);
      Assoc(Le(size, 2), block, rest);
      assert (block + rest)[..size] == block[..size];
      ShortBlockOverruns(strs, size);
    }
  }
}
