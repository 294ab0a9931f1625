/** The four handlers as they run, over streams and buffers (include/odb/mess/request-handler.hh), proved
    against the interpretations of Schema. */
module Handlers {
  import opened Common
  import opened Wire
  import opened Schema

  // Rows cut out of one flat buffer.

  function Cut(vs: seq<Val>, lens: seq<nat>): seq<Val>
    requires |vs| == Sum(lens)
  {
    if lens == [] then [] else [VSeq(vs[..lens[0]])] + Cut(vs[lens[0]..], lens[1..])
  }

  lemma {:induction false} SumAppend(a: seq<nat>, b: seq<nat>)
    ensures Sum(a + b) == Sum(a) + Sum(b)
  {
    if a == [] {
      assert a + b == b;
    } else {
      assert (a + b)[1..] == a[1..] + b;
      SumAppend(a[1..], b);
    }
  }

  lemma SumPrefix(lens: seq<nat>, i: nat)
    requires i < |lens|
    ensures Sum(lens[..i + 1]) == Sum(lens[..i]) + lens[i] <= Sum(lens)
  {
    assert lens[..i + 1] == lens[..i] + [lens[i]] && lens == lens[..i + 1] + lens[i + 1..];
    SumAppend(lens[..i], [lens[i]]);
    SumAppend(lens[..i + 1], lens[i + 1..]);
    assert Sum([lens[i]]) == lens[i] + Sum([]);
  }

  lemma {:induction false} CutAt(vs: seq<Val>, lens: seq<nat>, i: nat)
    requires |vs| == Sum(lens) && i < |lens|
    ensures |Cut(vs, lens)| == |lens| && Sum(lens[..i]) + lens[i] <= |vs|
    ensures Cut(vs, lens)[i] == VSeq(vs[Sum(lens[..i])..Sum(lens[..i]) + lens[i]])
    decreases |lens|
  {
    SumPrefix(lens, i);
    CutLength(vs, lens);
    if i == 0 {
      assert lens[..0] == [];
    } else {
      assert lens[..i] == [lens[0]] + lens[1..][..i - 1];
      CutAt(vs[lens[0]..], lens[1..], i - 1);
    }
  }

  lemma {:induction false} CutLength(vs: seq<Val>, lens: seq<nat>)
    requires |vs| == Sum(lens)
    ensures |Cut(vs, lens)| == |lens|
    decreases |lens|
  {
    if lens != [] {
      CutLength(vs[lens[0]..], lens[1..]);
    }
  }

  /** Reading all elements into one buffer and cutting it reads the same rows as reading row by row. */
  lemma {:induction false} FlatReadsRows(ty: Ty, lens: seq<nat>, bs: Bytes)
    ensures TakeAll(ty, Sum(lens), bs).Some? ==> |TakeAll(ty, Sum(lens), bs).value.0| == Sum(lens)
    ensures TakeRows(ty, lens, bs) ==
            match TakeAll(ty, Sum(lens), bs) case None => None case Some((vs, q)) => Some((Cut(vs, lens), q))
  {
    TakeAllLength(ty, Sum(lens), bs);
    if lens != [] {
      TakeAllSplit(ty, lens[0], Sum(lens[1..]), bs);
      TakeAllLength(ty, lens[0], bs);
      var first := TakeAll(ty, lens[0], bs);
      if first.Some? {
        var (xs, r) := first.value;
        FlatReadsRows(ty, lens[1..], r);
        var others := TakeAll(ty, Sum(lens[1..]), r);
        if others.Some? {
          assert (xs + others.value.0)[..lens[0]] == xs && (xs + others.value.0)[lens[0]..] == others.value.0;
        }
      }
    }
  }

  lemma {:induction false} SumOfRepeat(n: nat, m: nat)
    ensures Sum(Repeat(n, m)) == n * m
  {
    if n > 0 {
      assert Repeat(n, m)[1..] == Repeat(n - 1, m);
      SumOfRepeat(n - 1, m);
      assert n * m == m + (n - 1) * m;
    }
  }

  // Writing.

  method WriteRows(dst: SerialOutBuff, ty: Ty, lens: seq<nat>, rows: seq<Val>)
    requires RowsFit(ty, lens, rows)
    modifies dst
    ensures dst.data == old(dst.data) + PutRows(ty, rows)
  {
    var i := 0;
    assert rows[0..] == rows;
    while i < |rows|
      invariant 0 <= i <= |rows|
      invariant dst.data + PutRows(ty, rows[i..]) == old(dst.data) + PutRows(ty, rows)
    {
      ghost var before := dst.data;
      dst.SerializeAll(ty, rows[i].items);
      assert rows[i..][1..] == rows[i + 1..];
      Assoc(before, PutAll(ty, rows[i].items), PutRows(ty, rows[i + 1..]));
      i := i + 1;
    }
    assert dst.data + [] == dst.data;
  }

  /** The total size first, cut to 16 bits, then every string with its terminator. */
  method WriteCstrs(dst: SerialOutBuff, strs: seq<Val>)
    requires IsCstrs(strs)
    modifies dst
    ensures dst.data == old(dst.data) + PutCstrs(strs)
  {
    var totalSize := 0;
    var i := 0;
    assert strs[0..] == strs;
    while i < |strs|
      modifies {}
      invariant 0 <= i <= |strs| && totalSize + |Block(strs[i..])| == |Block(strs)|
    {
      assert strs[i..][1..] == strs[i + 1..];
      totalSize := totalSize + |strs[i].s| + 1;
      i := i + 1;
    }
    dst.Write(Le(totalSize % TWO_16, 2));
    ghost var head := dst.data;
    i := 0;
    while i < |strs|
      invariant 0 <= i <= |strs| && dst.data + Block(strs[i..]) == head + Block(strs)
    {
      ghost var before := dst.data;
      dst.Write(strs[i].s + [0]);
      assert strs[i..][1..] == strs[i + 1..];
      Assoc(before, strs[i].s + [0], Block(strs[i + 1..]));
      i := i + 1;
    }
    assert dst.data + [] == dst.data;
    Assoc(old(dst.data), Le(|Block(strs)| % TWO_16, 2), Block(strs));
  }

  method WriteField(dst: SerialOutBuff, f: Field, rec: Record)
    requires Writable(f, rec)
    modifies dst
    ensures dst.data == old(dst.data) + PutField(f, rec)
  {
    var v := rec[f.slot];
    match f.shape
    case One => dst.Serialize(f.ty, v);
    case Buf(_) => dst.SerializeAll(f.ty, v.items);
    case Grid(_, _) => WriteRows(dst, f.ty, RowLens(f.shape, rec), v.items);
    case GridVar(_, _) => WriteRows(dst, f.ty, RowLens(f.shape, rec), v.items);
    case Cstrs(_) => WriteCstrs(dst, v.items);
  }

  // Reading on the server: rows and strings become pointers into one block.

  /** The start of every row in the flat buffer, kept as a running position. */
  method RowStarts(lens: seq<nat>) returns (dirBuf: seq<nat>, total: nat)
    ensures |dirBuf| == |lens| && total == Sum(lens)
    ensures forall i :: 0 <= i < |lens| ==> dirBuf[i] == Sum(lens[..i])
  {
    dirBuf, total := [], 0;
    for i := 0 to |lens|
      invariant |dirBuf| == i && total == Sum(lens[..i])
      invariant forall j :: 0 <= j < i ==> dirBuf[j] == Sum(lens[..j])
    {
      SumPrefix(lens, i);
      dirBuf := dirBuf + [total];
      total := total + lens[i];
    }
    assert lens[..|lens|] == lens;
  }

  /** The same for rows of equal length, which are multiples of that length apart. */
  method GridStarts(size1: nat, size2: nat) returns (dirBuf: seq<nat>, total: nat)
    ensures |dirBuf| == size1 && total == Sum(Repeat(size1, size2))
    ensures forall i :: 0 <= i < size1 ==> dirBuf[i] == Sum(Repeat(size1, size2)[..i])
  {
    total := size1 * size2;
    SumOfRepeat(size1, size2);
    dirBuf := [];
    for i := 0 to size1
      invariant |dirBuf| == i
      invariant forall j :: 0 <= j < i ==> dirBuf[j] == Sum(Repeat(size1, size2)[..j])
    {
      assert Repeat(size1, size2)[..i] == Repeat(i, size2);
      SumOfRepeat(i, size2);
      dirBuf := dirBuf + [i * size2];
    }
  }

  /** Reads all elements into one buffer, and points at the start of each row. */
  method ServReadRows(src: SerialInBuff, ty: Ty, lens: seq<nat>, dirBuf: seq<nat>, total: nat)
      returns (r: Option<seq<Val>>)
    requires src.Valid() && total == Sum(lens)
    requires |dirBuf| == |lens| && forall i :: 0 <= i < |lens| ==> dirBuf[i] == Sum(lens[..i])
    modifies src
    ensures src.Valid()
    ensures match TakeRows(ty, lens, old(src.Rest()))
            case None => r == None
            case Some((vs, q)) => r == Some(vs) && src.Rest() == q
  {
    FlatReadsRows(ty, lens, src.Rest());
    var allBuf := src.UnserializeAll(ty, total);
    if allBuf == None {
      return None;
    }
    var rows := SliceRows(allBuf.value, dirBuf, lens);
    r := Some(rows);
  }

  method SliceRows(allBuf: seq<Val>, dirBuf: seq<nat>, lens: seq<nat>) returns (rows: seq<Val>)
    requires |allBuf| == Sum(lens) && |dirBuf| == |lens| && forall i :: 0 <= i < |lens| ==> dirBuf[i] == Sum(lens[..i])
    ensures rows == Cut(allBuf, lens)
  {
    rows := [];
    CutLength(allBuf, lens);
    for i := 0 to |lens|
      invariant rows == Cut(allBuf, lens)[..i]
    {
      CutAt(allBuf, lens, i);
      rows := rows + [VSeq(allBuf[dirBuf[i]..dirBuf[i] + lens[i]])];
    }
  }

  method ServReadCstrs(src: SerialInBuff, size: nat) returns (r: Option<seq<Val>>)
    requires src.Valid()
    modifies src
    ensures src.Valid()
    ensures match TakeCstrs(size, old(src.Rest()))
            case None => r == None
            case Some((vs, q)) => r == Some(vs) && src.Rest() == q
  {
    var totalSize := src.ReadInt(2);
    if totalSize == None {
      return None;
    }
    var fullBuf := src.Read(totalSize.value);
    if fullBuf == None {
      return None;
    }
    r := CutStrings(size, fullBuf.value);
  }

  /** The strings found so far, then those in the rest of the block. */
  ghost predicate CutSoFar(whole: Option<seq<Val>>, strs: seq<Val>, left: nat, rest: Bytes) {
    whole == match SplitBlock(left, rest) case None => None case Some(ws) => Some(strs + ws)
  }

  lemma CutOne(whole: Option<seq<Val>>, strs: seq<Val>, left: nat, rest: Bytes)
    requires left > 0 && CutSoFar(whole, strs, left, rest)
    ensures match Strlen(rest)
            case None => whole == None
            case Some(k) => k < |rest| && CutSoFar(whole, strs + [VStr(rest[..k])], left - 1, rest[k + 1..])
  {
    hide Strlen, NulFree;
    StrlenFinds(rest);
    var k := Strlen(rest);
    if k.Some? {
      var others := SplitBlock(left - 1, rest[k.value + 1..]);
      if others.Some? {
        Assoc(strs, [VStr(rest[..k.value])], others.value);
      }
    }
  }

  /** Walks through a block of strings, terminator by terminator. */
  method CutStrings(size: nat, fullBuf: Bytes) returns (r: Option<seq<Val>>)
    ensures r == SplitBlock(size, fullBuf)
  {
    var strs: seq<Val> := [];
    var str := 0;
    var i := 0;
    ghost var whole := SplitBlock(size, fullBuf);
    assert fullBuf[0..] == fullBuf && (whole.Some? ==> [] + whole.value == whole.value);
    while i < size
      invariant 0 <= i <= size && 0 <= str <= |fullBuf|
      invariant CutSoFar(whole, strs, size - i, fullBuf[str..])
    {
      hide CutSoFar, SplitBlock;
      CutOne(whole, strs, size - i, fullBuf[str..]);
      var len := Strlen(fullBuf[str..]);
      if len == None {
        return None;
      }
      assert fullBuf[str..][..len.value] == fullBuf[str..str + len.value];
      assert fullBuf[str..][len.value + 1..] == fullBuf[str + len.value + 1..];
      strs := strs + [VStr(fullBuf[str..str + len.value])];
      str := str + len.value + 1;
      i := i + 1;
    }
    assert strs + [] == strs;
    r := Some(strs);
  }

  method ServReadField(src: SerialInBuff, f: Field, rec: Record) returns (r: Option<Val>)
    requires src.Valid()
    modifies src
    ensures src.Valid()
    ensures match TakeField(f, rec, old(src.Rest()))
            case None => r == None
            case Some((v, q)) => r == Some(v) && src.Rest() == q
  {
    match f.shape
    case One => r := src.Unserialize(f.ty);
    case Buf(n) =>
      var vs := src.UnserializeAll(f.ty, IntOf(rec, n));
      r := if vs == None then None else Some(VSeq(vs.value));
    case Grid(n, m) =>
      var dirBuf, total := GridStarts(IntOf(rec, n), IntOf(rec, m));
      var vs := ServReadRows(src, f.ty, RowLens(f.shape, rec), dirBuf, total);
      r := if vs == None then None else Some(VSeq(vs.value));
    case GridVar(_, _) =>
      var dirBuf, total := RowStarts(RowLens(f.shape, rec));
      var vs := ServReadRows(src, f.ty, RowLens(f.shape, rec), dirBuf, total);
      r := if vs == None then None else Some(VSeq(vs.value));
    case Cstrs(n) =>
      var vs := ServReadCstrs(src, IntOf(rec, n));
      r := if vs == None then None else Some(VSeq(vs.value));
  }

  // Reading on the client: straight into the caller's rows.

  method CliReadRows(src: SerialInBuff, ty: Ty, lens: seq<nat>) returns (r: Option<seq<Val>>)
    requires src.Valid()
    modifies src
    ensures src.Valid()
    ensures match TakeRows(ty, lens, old(src.Rest()))
            case None => r == None
            case Some((vs, q)) => r == Some(vs) && src.Rest() == q
  {
    var rows: seq<Val> := [];
    var i := 0;
    ghost var whole := TakeRows(ty, lens, src.Rest());
    assert lens[0..] == lens && (whole.Some? ==> [] + whole.value.0 == whole.value.0);
    while i < |lens|
      invariant 0 <= i <= |lens| && src.Valid()
      invariant whole == match TakeRows(ty, lens[i..], src.Rest())
                case None => None
                case Some((ws, q)) => Some((rows + ws, q))
    {
      assert lens[i..][1..] == lens[i + 1..];
      var row := src.UnserializeAll(ty, lens[i]);
      if row == None {
        return None;
      }
      ghost var rest := TakeRows(ty, lens[i + 1..], src.Rest());
      if rest.Some? {
        Assoc(rows, [VSeq(row.value)], rest.value.0);
      }
      rows := rows + [VSeq(row.value)];
      i := i + 1;
    }
    assert rows + [] == rows;
    r := Some(rows);
  }

  method CliReadField(src: SerialInBuff, f: Field, rec: Record) returns (r: Option<Val>)
    requires src.Valid() && !f.shape.Cstrs?
    modifies src
    ensures src.Valid()
    ensures match TakeField(f, rec, old(src.Rest()))
            case None => r == None
            case Some((v, q)) => r == Some(v) && src.Rest() == q
  {
    match f.shape
    case One => r := src.Unserialize(f.ty);
    case Buf(n) =>
      var vs := src.UnserializeAll(f.ty, IntOf(rec, n));
      r := if vs == None then None else Some(VSeq(vs.value));
    case Grid(_, _) =>
      var vs := CliReadRows(src, f.ty, RowLens(f.shape, rec));
      r := if vs == None then None else Some(VSeq(vs.value));
    case GridVar(_, _) =>
      var vs := CliReadRows(src, f.ty, RowLens(f.shape, rec));
      r := if vs == None then None else Some(VSeq(vs.value));
  }

  // Whole requests and responses.

  class RequestHandler {
    const server: bool

    constructor (server: bool)
      ensures this.server == server
    {
      this.server := server;
    }

    method ClientWriteRequest(dst: SerialOutBuff, sch: seq<Field>, rec: Record)
      requires !server && AllWritable(sch, In, rec)
      modifies dst
      ensures dst.data == old(dst.data) + Send(sch, In, rec)
    {
      WriteFields(dst, sch, In, rec);
    }

    method ServerWriteResponse(dst: SerialOutBuff, sch: seq<Field>, rec: Record)
      requires server && AllWritable(sch, Out, rec)
      modifies dst
      ensures dst.data == old(dst.data) + Send(sch, Out, rec)
    {
      WriteFields(dst, sch, Out, rec);
    }

    method WriteFields(dst: SerialOutBuff, sch: seq<Field>, dir: Dir, rec: Record)
      requires AllWritable(sch, dir, rec)
      modifies dst
      ensures dst.data == old(dst.data) + Send(sch, dir, rec)
    {
      hide Writable, PutField;
      var i := 0;
      assert sch[0..] == sch;
      while i < |sch|
        invariant 0 <= i <= |sch|
        invariant dst.data + Send(sch[i..], dir, rec) == old(dst.data) + Send(sch, dir, rec)
      {
        ghost var before := dst.data;
        assert sch[i] in sch && sch[i..][1..] == sch[i + 1..];
        if sch[i].dir == dir {
          WriteField(dst, sch[i], rec);
          Assoc(before, PutField(sch[i], rec), Send(sch[i + 1..], dir, rec));
        } else {
          assert [] + Send(sch[i + 1..], dir, rec) == Send(sch[i + 1..], dir, rec);
        }
        i := i + 1;
      }
      assert dst.data + [] == dst.data;
    }

    method ServerReadRequest(src: SerialInBuff, sch: seq<Field>) returns (r: Option<Record>)
      requires server && src.Valid()
      modifies src
      ensures src.Valid()
      ensures match ServRecv(sch, map[], old(src.Rest()))
              case None => r == None
              case Some((rec, q)) => r == Some(rec) && src.Rest() == q
    {
      hide TakeField;
      var rec: Record := map[];
      var i := 0;
      assert sch[0..] == sch;
      while i < |sch|
        invariant 0 <= i <= |sch| && src.Valid()
        invariant ServRecv(sch[i..], rec, src.Rest()) == ServRecv(sch, map[], old(src.Rest()))
      {
        assert sch[i..][1..] == sch[i + 1..];
        var f := sch[i];
        if f.dir == Out {
          rec := rec[f.slot := Blank(f, rec)];
        } else {
          var v := ServReadField(src, f, rec);
          if v == None {
            return None;
          }
          rec := rec[f.slot := v.value];
        }
        i := i + 1;
      }
      r := Some(rec);
    }

    method ClientReadResponse(src: SerialInBuff, sch: seq<Field>, mine: Record) returns (r: Option<Record>)
      requires !server && src.Valid() && Wf(sch)
      modifies src
      ensures src.Valid()
      ensures match CliRecv(sch, mine, old(src.Rest()))
              case None => r == None
              case Some((rec, q)) => r == Some(rec) && src.Rest() == q
    {
      hide TakeField;
      var rec := mine;
      var i := 0;
      assert sch[0..] == sch;
      while i < |sch|
        invariant 0 <= i <= |sch| && src.Valid()
        invariant CliRecv(sch[i..], rec, src.Rest()) == CliRecv(sch, mine, old(src.Rest()))
      {
        assert sch[i..][1..] == sch[i + 1..];
        var f := sch[i];
        if f.dir == Out {
          assert WfField(f, sch[..i]);
          var v := CliReadField(src, f, rec);
          if v == None {
            return None;
          }
          rec := rec[f.slot := v.value];
        }
        i := i + 1;
      }
      r := Some(rec);
    }
  }
}
