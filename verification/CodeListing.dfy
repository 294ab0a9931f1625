/** The listing of the `code` command: references to symbols, written `{id}` in the text of an instruction,
    are collected in one pass over the lines and replaced in another (src/mess/simple-cli-client.cc). */
module CodeListing {
  import opened Common

  predicate Digit(c: char) {
    '0' <= c <= '9'
  }

  /** A string reads as zero one place beyond its end. */
  function At(l: string, i: nat): char {
    if i < |l| then l[i] else '\0'
  }

  function DigitsEnd(l: string, i: nat): (e: nat)
    requires i <= |l|
    ensures i <= e <= |l| && (forall k :: i <= k < e ==> Digit(l[k])) && !Digit(At(l, e))
    decreases |l| - i
  {
    if i < |l| && Digit(l[i]) then DigitsEnd(l, i + 1) else i
  }

  function DigitValue(c: char): nat {
    if Digit(c) then c as int - '0' as int else 0
  }

  function Decimal(ds: string): nat {
    if ds == "" then 0 else 10 * Decimal(ds[..|ds| - 1]) + DigitValue(ds[|ds| - 1])
  }

  /** A reference, with the line it is on and the part of the line it takes up. */
  datatype Ref = Ref(line: nat, beg: nat, end: nat, id: U32)

  /** The text from `i` to `e` is a reference: digits between braces. */
  predicate IsRef(l: string, i: int, e: int) {
    0 <= i && i + 2 < e <= |l| && l[i] == '{' && l[e - 1] == '}' && forall k :: i < k < e - 1 ==> Digit(l[k])
  }

  /** The reference that starts at `i`, if there is one. */
  function RefAt(l: string, line: nat, i: nat): (r: Option<Ref>)
    requires i < |l|
    ensures r.Some? ==> r.value.line == line && r.value.beg == i && IsRef(l, i, r.value.end)
                        && r.value.id == Decimal(l[i + 1..r.value.end - 1]) % TWO_32
  {
    var e := DigitsEnd(l, i + 1);
    if l[i] == '{' && e > i + 1 && At(l, e) == '}' then Some(Ref(line, i, e + 1, Decimal(l[i + 1..e]) % TWO_32))
    else None
  }

  lemma {:induction false} DigitsEndIs(l: string, i: nat, j: nat)
    requires i <= j <= |l| && (forall k :: i <= k < j ==> Digit(l[k])) && !Digit(At(l, j))
    ensures DigitsEnd(l, i) == j
    decreases j - i
  {
    if i < j {
      DigitsEndIs(l, i + 1, j);
    }
  }

  /** Whatever has the form of a reference is found as one. */
  lemma RefIsFound(l: string, line: nat, i: nat, e: nat)
    requires IsRef(l, i, e)
    ensures RefAt(l, line, i) == Some(Ref(line, i, e, Decimal(l[i + 1..e - 1]) % TWO_32))
  {
    DigitsEndIs(l, i + 1, e - 1);
  }

  /** The references in a line from `i` on. */
  function Refs(l: string, line: nat, i: nat): seq<Ref>
    requires i <= |l|
    decreases |l| - i
  {
    if i == |l| then []
    else
      match RefAt(l, line, i)
      case None => Refs(l, line, i + 1)
      case Some(r) => [r] + Refs(l, line, r.end)
  }

  /** The line from `i` on with every reference replaced by its symbol's name, in one pass. */
  function Render(l: string, names: U32 -> string, i: nat): string
    requires i <= |l|
    decreases |l| - i
  {
    if i == |l| then ""
    else
      match RefAt(l, 0, i)
      case None => [l[i]] + Render(l, names, i + 1)
      case Some(r) => names(r.id) + Render(l, names, r.end)
  }

  /** References do not overlap and come in order. */
  ghost predicate Apart(rs: seq<Ref>, line: nat, from: nat, len: nat) {
    && (forall k :: 0 <= k < |rs| ==> rs[k].line == line && from <= rs[k].beg < rs[k].end <= len)
    && (forall j, k :: 0 <= j < k < |rs| ==> rs[j].end <= rs[k].beg)
  }

  lemma {:induction false} RefsApart(l: string, line: nat, i: nat)
    requires i <= |l|
    ensures Apart(Refs(l, line, i), line, i, |l|)
    decreases |l| - i
  {
    hide RefAt, Apart, IsRef, Decimal;
    if i == |l| {
      NoneApart(line, i);
    } else {
      match RefAt(l, line, i)
      case None =>
        RefsApart(l, line, i + 1);
        ApartLater(Refs(l, line, i + 1), line, i, |l|);
      case Some(r) =>
        RefSpan(l, line, i, r);
        RefsApart(l, line, r.end);
        ApartFront(r, Refs(l, line, r.end), line, i, |l|);
    }
  }

  lemma NoneApart(line: nat, len: nat)
    ensures Apart([], line, len, len)
  {
  }

  lemma ApartLater(rs: seq<Ref>, line: nat, from: nat, len: nat)
    requires Apart(rs, line, from + 1, len)
    ensures Apart(rs, line, from, len)
  {
  }

  lemma ApartFront(r: Ref, rs: seq<Ref>, line: nat, from: nat, len: nat)
    requires r.line == line && from <= r.beg < r.end <= len && Apart(rs, line, r.end, len)
    ensures Apart([r] + rs, line, from, len)
  {
  }

  lemma RefSpan(l: string, line: nat, i: nat, r: Ref)
    requires i < |l| && RefAt(l, line, i) == Some(r)
    ensures r.line == line && r.beg == i < r.end <= |l|
  {
    hide DigitsEnd, Decimal;
  }

  lemma NotBrace(l: string, line: nat, i: nat)
    requires i < |l| && l[i] != '{'
    ensures Refs(l, line, i) == Refs(l, line, i + 1)
  {
    hide DigitsEnd, Decimal, IsRef;
  }

  /** Text without braces has no references. */
  lemma {:induction false} SkipText(l: string, line: nat, i: nat, j: nat)
    requires i <= j <= |l| && forall k :: i <= k < j ==> l[k] != '{'
    ensures Refs(l, line, i) == Refs(l, line, j)
    decreases j - i
  {
    hide Refs;
    if i < j {
      NotBrace(l, line, i);
      SkipText(l, line, i + 1, j);
    }
  }

  // Replacing recorded parts of a line.

  /** The line from `off` on with the parts `rs` replaced. */
  function Splice(l: string, line: nat, names: U32 -> string, off: nat, rs: seq<Ref>): string
    requires off <= |l| && Apart(rs, line, off, |l|)
    decreases |rs|
  {
    if rs == [] then l[off..]
    else
      l[off..rs[0].beg] + names(rs[0].id) + Splice(l, line, names, rs[0].end, rs[1..])
  }

  /** Text before the first part to replace is kept. */
  lemma SpliceText(l: string, line: nat, names: U32 -> string, i: nat, rs: seq<Ref>)
    requires i < |l| && Apart(rs, line, i + 1, |l|)
    ensures Apart(rs, line, i, |l|)
    ensures Splice(l, line, names, i, rs) == [l[i]] + Splice(l, line, names, i + 1, rs)
  {
    if rs == [] {
      assert l[i..] == [l[i]] + l[i + 1..];
    } else {
      assert l[i..rs[0].beg] == [l[i]] + l[i + 1..rs[0].beg];
      var name, tail := names(rs[0].id), Splice(l, line, names, rs[0].end, rs[1..]);
      Assoc([l[i]], l[i + 1..rs[0].beg], name);
      Assoc([l[i]], l[i + 1..rs[0].beg] + name, tail);
    }
  }

  /** Replacing the recorded parts gives what one pass over the line gives. */
  lemma {:induction false} SpliceIsRender(l: string, line: nat, names: U32 -> string, i: nat)
    requires i <= |l|
    ensures Apart(Refs(l, line, i), line, i, |l|)
    ensures Splice(l, line, names, i, Refs(l, line, i)) == Render(l, names, i)
    decreases |l| - i
  {
    hide IsRef, Decimal, RefAt, Apart, Refs, Render, Splice;
    RefsApart(l, line, i);
    if i == |l| {
      SpliceEnd(l, line, names);
    } else {
      SameRef(l, line, i);
      match RefAt(l, line, i)
      case Some(r) =>
        RefSpan(l, line, i, r);
        SpliceIsRender(l, line, names, r.end);
        SpliceRef(l, line, names, i, r);
      case None =>
        SpliceIsRender(l, line, names, i + 1);
        SpliceChar(l, line, names, i);
    }
  }

  lemma SpliceEnd(l: string, line: nat, names: U32 -> string)
    ensures Apart(Refs(l, line, |l|), line, |l|, |l|)
    ensures Splice(l, line, names, |l|, Refs(l, line, |l|)) == Render(l, names, |l|)
  {
  }

  lemma SpliceRef(l: string, line: nat, names: U32 -> string, i: nat, r: Ref)
    requires i < |l| && RefAt(l, line, i) == Some(r) && RefAt(l, 0, i) == Some(r.(line := 0)) && i < r.end <= |l|
    requires Apart(Refs(l, line, i), line, i, |l|) && Apart(Refs(l, line, r.end), line, r.end, |l|)
    requires Splice(l, line, names, r.end, Refs(l, line, r.end)) == Render(l, names, r.end)
    ensures Splice(l, line, names, i, Refs(l, line, i)) == Render(l, names, i)
  {
    hide IsRef, Decimal, RefAt, Apart;
    RefSpan(l, line, i, r);
    assert Refs(l, line, i)[1..] == Refs(l, line, r.end);
    assert l[i..i] + names(r.id) == names(r.id);
  }

  lemma SpliceChar(l: string, line: nat, names: U32 -> string, i: nat)
    requires i < |l| && RefAt(l, line, i) == None && RefAt(l, 0, i) == None
    requires Apart(Refs(l, line, i), line, i, |l|) && Apart(Refs(l, line, i + 1), line, i + 1, |l|)
    requires Splice(l, line, names, i + 1, Refs(l, line, i + 1)) == Render(l, names, i + 1)
    ensures Splice(l, line, names, i, Refs(l, line, i)) == Render(l, names, i)
  {
    hide IsRef, Decimal, RefAt, Apart;
    SpliceText(l, line, names, i, Refs(l, line, i + 1));
  }

  /** Where a reference is on its line does not depend on the line's number. */
  lemma SameRef(l: string, line: nat, i: nat)
    requires i < |l|
    ensures RefAt(l, line, i).Some? == RefAt(l, 0, i).Some?
    ensures RefAt(l, line, i).Some? ==> RefAt(l, 0, i).value.id == RefAt(l, line, i).value.id
                                        && RefAt(l, 0, i).value.end == RefAt(l, line, i).value.end
  {
  }

  /** A line without references stays as it is. */
  lemma {:induction false} PlainStays(l: string, names: U32 -> string, i: nat)
    requires i <= |l| && forall b, e :: i <= b < |l| ==> !IsRef(l, b, e)
    ensures Render(l, names, i) == l[i..]
    decreases |l| - i
  {
    if i < |l| {
      PlainStays(l, names, i + 1);
      assert l[i..] == [l[i]] + l[i + 1..];
    }
  }

  // Numbers as they are written.

  /** A number in decimal digits. */
  function Written(n: nat): string {
    (if n < 10 then "" else Written(n / 10)) + [('0' as int + n % 10) as char]
  }

  /** Reading a number undoes writing it. */
  lemma {:induction false} ReadsWritten(n: nat)
    ensures Decimal(Written(n)) == n && Written(n) != ""
    ensures forall k :: 0 <= k < |Written(n)| ==> '0' <= Written(n)[k] <= '9'
  {
    hide Decimal;
    var front := if n < 10 then "" else Written(n / 10);
    if n >= 10 {
      ReadsWritten(n / 10);
    } else {
      NothingRead();
    }
    DecimalNext(front, ('0' as int + n % 10) as char);
  }

  lemma NothingRead()
    ensures Decimal("") == 0
  {
  }

  lemma DecimalNext(front: string, c: char)
    ensures Decimal(front + [c]) == 10 * Decimal(front) + DigitValue(c)
  {
    assert (front + [c])[..|front|] == front;
  }

  /** A line with one number between braces. */
  function Referring(pre: string, n: nat, post: string): string {
    pre + "{" + Written(n) + "}" + post
  }

  lemma PartsOf(pre: string, w: string, post: string)
    ensures var l, b, e := pre + "{" + w + "}" + post, |pre|, |pre| + |w| + 2;
            && e <= |l| && l[..b] == pre && l[e..] == post && l[b + 1..e - 1] == w && l[b] == '{' && l[e - 1] == '}'
            && forall k :: b < k < e - 1 ==> l[k] == w[k - b - 1]
  {
  }

  lemma NumberIsRef(pre: string, n: nat, post: string, line: nat)
    ensures var l, b, e := Referring(pre, n, post), |pre|, |pre| + |Written(n)| + 2;
            && e <= |l| && l[..b] == pre && l[e..] == post && l[b] == '{'
            && RefAt(l, line, b) == Some(Ref(line, b, e, n % TWO_32))
  {
    hide DigitsEnd, Written, Decimal, RefAt;
    ReadsWritten(n);
    PartsOf(pre, Written(n), post);
    var l, b, e := Referring(pre, n, post), |pre|, |pre| + |Written(n)| + 2;
    RefIsFound(l, line, b, e);
  }

  /** The first of its references is the one to the symbol of that number modulo 2^32, whose name is shown in its
      place; then the line goes on as if it started there. */
  lemma NumberIsReplaced(pre: string, n: nat, post: string, line: nat, names: U32 -> string)
    requires '{' !in pre
    ensures var l, e := Referring(pre, n, post), |pre| + |Written(n)| + 2;
            && e <= |l| && l[e..] == post
            && Refs(l, line, 0) == [Ref(line, |pre|, e, n % 0x1_0000_0000)] + Refs(l, line, e)
    ensures Render(Referring(pre, n, post), names, 0) == pre + names(n % 0x1_0000_0000) + Render(post, names, 0)
  {
    hide Referring, RefAt, IsRef, Decimal, Written;
    NumberIsRef(pre, n, post, line);
    NumberIsRef(pre, n, post, 0);
    var l, b, e := Referring(pre, n, post), |pre|, |pre| + |Written(n)| + 2;
    assert forall k :: 0 <= k < b ==> l[k] == pre[k];
    SkipText(l, line, 0, b);
    ShowText(l, names, 0, b);
    ShowSuffix(l, names, e, 0);
    assert l[0..b] == pre;
    Assoc(pre, names(n % TWO_32), Render(post, names, 0));
  }

  lemma {:induction false} DigitsSuffix(l: string, from: nat, i: nat)
    requires from + i <= |l|
    ensures DigitsEnd(l, from + i) == from + DigitsEnd(l[from..], i)
    decreases |l| - i
  {
    if from + i < |l| && Digit(l[from + i]) {
      DigitsSuffix(l, from, i + 1);
    }
  }

  /** What is shown of a line depends on what is left of it alone. */
  lemma {:induction false} ShowSuffix(l: string, names: U32 -> string, from: nat, i: nat)
    requires from + i <= |l|
    ensures Render(l, names, from + i) == Render(l[from..], names, i)
    decreases |l| - i
  {
    hide RefAt, IsRef, Decimal;
    if from + i < |l| {
      RefSuffix(l, from, i);
      match RefAt(l[from..], 0, i) {
        case None => ShowSuffix(l, names, from, i + 1);
        case Some(r) =>
          RefSpan(l[from..], 0, i, r);
          ShowSuffix(l, names, from, r.end);
      }
    }
  }

  lemma SliceSuffix(l: string, from: nat, a: nat, b: nat)
    requires a <= b && from + b <= |l|
    ensures l[from..][a..b] == l[from + a..from + b]
  {
  }

  lemma RefSuffix(l: string, from: nat, i: nat)
    requires from + i < |l|
    ensures match RefAt(l[from..], 0, i)
            case None => RefAt(l, 0, from + i) == None
            case Some(r) => RefAt(l, 0, from + i) == Some(Ref(0, from + i, from + r.end, r.id))
  {
    hide Decimal, IsRef, DigitsEnd;
    DigitsSuffix(l, from, i + 1);
    var e := DigitsEnd(l[from..], i + 1);
    SliceSuffix(l, from, i + 1, e);
    assert At(l[from..], e) == At(l, from + e);
  }

  lemma NotRef(l: string, i: nat, r: Option<Ref>)
    requires i < |l| && r == RefAt(l, 0, i) && forall e :: !IsRef(l, i, e)
    ensures r == None
  {
    hide DigitsEnd, Decimal, IsRef;
  }

  /** A character at which no reference starts is shown as it is. */
  lemma CharShown(l: string, names: U32 -> string, i: nat)
    requires i < |l| && forall e :: !IsRef(l, i, e)
    ensures Render(l, names, i) == [l[i]] + Render(l, names, i + 1)
  {
    hide DigitsEnd, Decimal;
    NotRef(l, i, RefAt(l, 0, i));
  }

  /** Every reference of a line is found. */
  lemma {:induction false} AllRefsFound(l: string, line: nat, i: nat, b: nat, e: nat)
    requires i <= b && IsRef(l, b, e)
    ensures exists r <- Refs(l, line, i) :: r.beg == b && r.end == e && r.line == line
    decreases |l| - i
  {
    hide DigitsEnd, Decimal;
    RefIsFound(l, line, b, e);
    var r := RefAt(l, line, i);
    if i == b {
      assert r.value in Refs(l, line, i);
    } else if r == None {
      AllRefsFound(l, line, i + 1, b, e);
    } else {
      assert IsRef(l, i, r.value.end);
      AllRefsFound(l, line, r.value.end, b, e);
    }
  }

  /** Text without braces is shown as it is. */
  lemma {:induction false} ShowText(l: string, names: U32 -> string, i: nat, j: nat)
    requires i <= j <= |l| && forall k :: i <= k < j ==> l[k] != '{'
    ensures Render(l, names, i) == l[i..j] + Render(l, names, j)
    decreases j - i
  {
    hide Render;
    if i < j {
      ShowText(l, names, i + 1, j);
      ShowOther(l, names, i);
      SliceFirst(l, i, j);
      Assoc([l[i]], l[i + 1..j], Render(l, names, j));
    } else {
      assert l[i..j] == "";
    }
  }

  lemma ShowOther(l: string, names: U32 -> string, i: nat)
    requires i < |l| && l[i] != '{'
    ensures Render(l, names, i) == [l[i]] + Render(l, names, i + 1)
  {
    hide DigitsEnd, Decimal, IsRef;
  }

  lemma SliceFirst(l: string, i: nat, j: nat)
    requires i < j <= |l|
    ensures l[i..j] == [l[i]] + l[i + 1..j]
  {
  }

  // All lines.

  /** The references of the first `n` lines. */
  function Flat(lines: seq<string>, n: nat): seq<Ref>
    requires n <= |lines|
  {
    if n == 0 then [] else Flat(lines, n - 1) + Refs(lines[n - 1], n - 1, 0)
  }

  lemma LineOfRefs(l: string, line: nat)
    ensures forall k :: 0 <= k < |Refs(l, line, 0)| ==> Refs(l, line, 0)[k].line == line
  {
    RefsApart(l, line, 0);
  }

  /** The references of line `i` lie together, and those after them belong to later lines. */
  lemma {:induction false} FlatAt(lines: seq<string>, i: nat, n: nat)
    requires i < n <= |lines|
    ensures var before, mine, all := |Flat(lines, i)|, Refs(lines[i], i, 0), Flat(lines, n);
            && before + |mine| <= |all|
            && (forall j :: before <= j < before + |mine| ==> all[j] == mine[j - before])
            && (forall j :: before + |mine| <= j < |all| ==> all[j].line > i)
    decreases n
  {
    hide Refs, Apart, RefAt;
    LineOfRefs(lines[n - 1], n - 1);
    assert Flat(lines, n) == Flat(lines, n - 1) + Refs(lines[n - 1], n - 1, 0);
    if n > i + 1 {
      FlatAt(lines, i, n - 1);
    }
  }

  /** Two references in order: disjoint when on one line, else on lines in order. */
  predicate InOrder(a: Ref, b: Ref) {
    a.line < b.line || (a.line == b.line && a.end <= b.beg)
  }

  /** Over all lines, references are in order and disjoint, and each is where it says. */
  lemma {:induction false} FlatInOrder(lines: seq<string>, n: nat)
    requires n <= |lines|
    ensures forall j, k :: 0 <= j < k < |Flat(lines, n)| ==> InOrder(Flat(lines, n)[j], Flat(lines, n)[k])
    ensures forall r <- Flat(lines, n) :: r.line < n && IsRef(lines[r.line], r.beg, r.end)
                                          && r.id == Decimal(lines[r.line][r.beg + 1..r.end - 1]) % TWO_32
  {
    hide Refs, IsRef, Decimal, Apart, InOrder;
    if n > 0 {
      FlatInOrder(lines, n - 1);
      RefsApart(lines[n - 1], n - 1, 0);
      RefsAreRefs(lines[n - 1], n - 1, 0);
      OrderJoins(Flat(lines, n - 1), Refs(lines[n - 1], n - 1, 0), n - 1, |lines[n - 1]|);
    }
  }

  lemma OrderJoins(a: seq<Ref>, b: seq<Ref>, line: nat, len: nat)
    requires forall j, k :: 0 <= j < k < |a| ==> InOrder(a[j], a[k])
    requires (forall r <- a :: r.line < line) && Apart(b, line, 0, len)
    ensures forall j, k :: 0 <= j < k < |a + b| ==> InOrder((a + b)[j], (a + b)[k])
  {
    forall j, k | 0 <= j < k < |a + b|
      ensures InOrder((a + b)[j], (a + b)[k])
    {
      assert (a + b)[j] == (if j < |a| then a[j] else b[j - |a|]);
      assert (a + b)[k] == (if k < |a| then a[k] else b[k - |a|]);
      assert j < |a| ==> a[j] in a;
    }
  }

  lemma {:induction false} RefsAreRefs(l: string, line: nat, i: nat)
    requires i <= |l|
    ensures forall r <- Refs(l, line, i) ::
              r.line == line && IsRef(l, r.beg, r.end) && r.id == Decimal(l[r.beg + 1..r.end - 1]) % TWO_32
    decreases |l| - i
  {
    hide DigitsEnd, Decimal, IsRef;
    if i < |l| {
      match RefAt(l, line, i)
      case None => RefsAreRefs(l, line, i + 1);
      case Some(r) => RefsAreRefs(l, line, r.end);
    }
  }

  // First pass.

  /** The two lists the first pass keeps hold the references `rs`. */
  ghost predicate Recorded(refs: seq<U32>, refPos: seq<(nat, nat, nat)>, rs: seq<Ref>) {
    |refs| == |refPos| == |rs| && forall k :: 0 <= k < |rs| ==>
        refs[k] == rs[k].id && refPos[k] == (rs[k].line, rs[k].beg, rs[k].end)
  }

  lemma Record(refs: seq<U32>, refPos: seq<(nat, nat, nat)>, rs: seq<Ref>, r: Ref)
    requires Recorded(refs, refPos, rs)
    ensures Recorded(refs + [r.id], refPos + [(r.line, r.beg, r.end)], rs + [r])
  {
  }

  method Find(l: string, c: char, from: nat) returns (pos: Option<nat>)
    requires from <= |l|
    ensures match pos
            case None => forall k :: from <= k < |l| ==> l[k] != c
            case Some(p) => from <= p < |l| && l[p] == c && forall k :: from <= k < p ==> l[k] != c
  {
    for i := from to |l|
      invariant forall k :: from <= k < i ==> l[k] != c
    {
      if l[i] == c {
        return Some(i);
      }
    }
    return None;
  }

  lemma DecimalGrows(l: string, from: nat, pos: nat)
    requires from <= pos < |l|
    ensures Decimal(l[from..pos + 1]) == 10 * Decimal(l[from..pos]) + DigitValue(l[pos])
  {
    assert l[from..pos + 1][..pos - from] == l[from..pos];
  }

  /** Reads digits as a 32-bit number, which wraps around. */
  method ReadId(l: string, from: nat) returns (pos: nat, id: U32)
    requires from <= |l|
    ensures pos == DigitsEnd(l, from) && id == Decimal(l[from..pos]) % TWO_32
  {
    pos, id := from, 0;
    while Digit(At(l, pos))
      invariant from <= pos <= |l| && DigitsEnd(l, pos) == DigitsEnd(l, from)
      invariant (forall k :: from <= k < pos ==> Digit(l[k])) && id == Decimal(l[from..pos]) % TWO_32
      decreases |l| - pos
    {
      DecimalGrows(l, from, pos);
      WrapDigit(Decimal(l[from..pos]), DigitValue(l[pos]));
      id := (10 * id + DigitValue(l[pos])) % TWO_32;
      pos := pos + 1;
    }
  }

  lemma WrapDigit(n: nat, d: nat)
    ensures (10 * (n % TWO_32) + d) % TWO_32 == (10 * n + d) % TWO_32
  {
    var q := n / TWO_32;
    assert 10 * n + d == TWO_32 * (10 * q) + (10 * (n % TWO_32) + d);
    WrapMultiple(10 * q, 10 * (n % TWO_32) + d);
  }

  lemma {:induction false} WrapMultiple(q: nat, m: nat)
    ensures (TWO_32 * q + m) % TWO_32 == m % TWO_32
  {
    if q > 0 {
      WrapMultiple(q - 1, m);
      assert TWO_32 * q + m == (TWO_32 * (q - 1) + m) + TWO_32;
    }
  }

  /** A brace starts a reference, or it and the digits after it are passed over. */
  lemma AtBrace(l: string, line: nat, i: nat)
    requires i < |l| && l[i] == '{'
    ensures var e := DigitsEnd(l, i + 1);
            if e > i + 1 && At(l, e) == '}' then
              e < |l| && Refs(l, line, i) == [Ref(line, i, e + 1, Decimal(l[i + 1..e]) % TWO_32)] + Refs(l, line, e + 1)
            else Refs(l, line, i) == Refs(l, line, e)
  {
    var e := DigitsEnd(l, i + 1);
    if !(e > i + 1 && At(l, e) == '}') {
      SkipText(l, line, i + 1, e);
    }
  }

  /** The references found up to `pos` and those from there on are all of the line's, after `rs0`. */
  ghost predicate Scanned(l: string, line: nat, rs0: seq<Ref>, found: seq<Ref>, pos: nat)
    requires pos <= |l|
  {
    found + Refs(l, line, pos) == rs0 + Refs(l, line, 0)
  }

  lemma ScannedNone(l: string, line: nat, rs0: seq<Ref>)
    ensures Scanned(l, line, rs0, rs0, 0)
  {
  }

  lemma ScannedAll(l: string, line: nat, rs0: seq<Ref>, found: seq<Ref>)
    requires Scanned(l, line, rs0, found, |l|)
    ensures found == rs0 + Refs(l, line, 0)
  {
    assert found + [] == found;
  }

  lemma ScanRest(l: string, line: nat, rs0: seq<Ref>, found: seq<Ref>, pos: nat)
    requires pos <= |l| && Scanned(l, line, rs0, found, pos) && forall k :: pos <= k < |l| ==> l[k] != '{'
    ensures Scanned(l, line, rs0, found, |l|)
  {
    SkipText(l, line, pos, |l|);
  }

  lemma ScanBrace(l: string, line: nat, rs0: seq<Ref>, found: seq<Ref>, pos: nat, beg: nat)
    requires pos <= beg < |l| && l[beg] == '{' && (forall k :: pos <= k < beg ==> l[k] != '{')
    requires Scanned(l, line, rs0, found, pos)
    ensures var e := DigitsEnd(l, beg + 1);
            if e > beg + 1 && At(l, e) == '}' then
              e < |l| && Scanned(l, line, rs0, found + [Ref(line, beg, e + 1, Decimal(l[beg + 1..e]) % TWO_32)], e + 1)
            else Scanned(l, line, rs0, found, e)
  {
    hide Refs, Digit, Decimal, RefAt, DigitsEnd;
    SkipText(l, line, pos, beg);
    AtBrace(l, line, beg);
    var e := DigitsEnd(l, beg + 1);
    if e > beg + 1 && At(l, e) == '}' {
      Assoc(found, [Ref(line, beg, e + 1, Decimal(l[beg + 1..e]) % TWO_32)], Refs(l, line, e + 1));
    }
  }

  method FindLineRefs(l: string, line: nat, refs0: seq<U32>, refPos0: seq<(nat, nat, nat)>, ghost rs0: seq<Ref>)
    returns (refs: seq<U32>, refPos: seq<(nat, nat, nat)>)
    requires Recorded(refs0, refPos0, rs0)
    ensures Recorded(refs, refPos, rs0 + Refs(l, line, 0))
  {
    hide *;
    refs, refPos := refs0, refPos0;
    ghost var found := rs0;
    var pos := 0;
    ScannedNone(l, line, rs0);
    while pos < |l|
      invariant 0 <= pos <= |l| && Recorded(refs, refPos, found) && Scanned(l, line, rs0, found, pos)
      decreases |l| - pos
    {
      var brace := Find(l, '{', pos);
      if brace == None {
        ScanRest(l, line, rs0, found, pos);
        pos := |l|;
        break;
      }
      var begPos := brace.value;
      ScanBrace(l, line, rs0, found, pos, begPos);
      var id;
      pos, id := ReadId(l, begPos + 1);
      if pos > begPos + 1 && At(l, pos) == '}' {
        pos := pos + 1;
        Record(refs, refPos, found, Ref(line, begPos, pos, id));
        refs := refs + [id];
        refPos := refPos + [(line, begPos, pos)];
        found := found + [Ref(line, begPos, pos, id)];
      }
    }
    ScannedAll(l, line, rs0, found);
  }

  method FindRefs(lines: seq<string>) returns (refs: seq<U32>, refPos: seq<(nat, nat, nat)>)
    ensures Recorded(refs, refPos, Flat(lines, |lines|))
  {
    refs, refPos := [], [];
    for i := 0 to |lines|
      invariant Recorded(refs, refPos, Flat(lines, i))
    {
      refs, refPos := FindLineRefs(lines[i], i, refs, refPos, Flat(lines, i));
    }
  }

  // Second pass.

  /** What the listing is made from: lines with their addresses, the execution point, the symbols defined in
      the range in address order, and how an address is written. */
  datatype View = View(lines: seq<string>, addrs: seq<U64>, act: U64, defs: seq<(string, U64)>, hex: U64 -> string)

  predicate DefinesHere(v: View, i: nat, d: nat)
    requires i < |v.addrs|
  {
    d < |v.defs| && v.defs[d].1 == v.addrs[i]
  }

  /** How many definitions are announced before line `i`. */
  function DefsBefore(v: View, i: nat): nat
    requires i <= |v.addrs|
  {
    if i == 0 then 0 else DefsBefore(v, i - 1) + if DefinesHere(v, i - 1, DefsBefore(v, i - 1)) then 1 else 0
  }

  function DefText(v: View, i: nat, first: bool): string
    requires i < |v.addrs|
  {
    var d := DefsBefore(v, i);
    if !DefinesHere(v, i, d) then ""
    else (if first then "" else "\n") + "     0x0" + v.hex(v.addrs[i]) + " <" + v.defs[d].0 + ">:\n"
  }

  function Margin(v: View, i: nat): string
    requires i < |v.addrs|
  {
    (if v.addrs[i] == v.act then "  ->  " else "      ") + "0x" + v.hex(v.addrs[i]) + ":    "
  }

  /** The listing from line `i` on, in one pass: a definition where there is one, then the line with its
      references replaced, unless it is empty. */
  function Listing(v: View, names: U32 -> string, i: nat, first: bool): string
    requires i <= |v.lines| == |v.addrs|
    decreases |v.lines| - i
  {
    if i == |v.lines| then ""
    else if v.lines[i] == "" then DefText(v, i, first) + Listing(v, names, i + 1, first)
    else
      DefText(v, i, first) + (Margin(v, i) + Render(v.lines[i], names, 0) + "\n") + Listing(v, names, i + 1, false)
  }

  /** One line of the listing: the definition, behind an empty line unless it comes first, then the mark of the
      execution point, the address and the text. */
  lemma LineShown(v: View, names: U32 -> string, i: nat, first: bool)
    requires i < |v.lines| == |v.addrs|
    ensures var d, hex := DefsBefore(v, i), v.hex(v.addrs[i]);
            var def := if d < |v.defs| && v.defs[d].1 == v.addrs[i]
                       then (if first then "" else "\n") + "     0x0" + hex + " <" + v.defs[d].0 + ">:\n" else "";
            var mark := if v.addrs[i] == v.act then "  ->  " else "      ";
            Listing(v, names, i, first) ==
              if v.lines[i] == "" then def + Listing(v, names, i + 1, first)
              else
                def + (mark + "0x" + hex + ":    " + Render(v.lines[i], names, 0) + "\n") +
                Listing(v, names, i + 1, false)
  {
  }

  // Which definitions are announced.

  /** Definition `k` is announced before some line. */
  ghost predicate Announced(v: View, k: nat) {
    exists i :: 0 <= i < |v.addrs| && DefsBefore(v, i) == k && DefinesHere(v, i, k)
  }

  /** Lines further and further down, at the addresses of the first definitions. */
  ghost predicate LinesOf(v: View, at: seq<nat>) {
    && |at| <= |v.defs|
    && (forall j :: 0 <= j < |at| ==> at[j] < |v.addrs| && v.addrs[at[j]] == v.defs[j].1)
    && (forall j :: 0 < j < |at| ==> at[j - 1] < at[j])
  }

  lemma {:induction false} DefsGrow(v: View, i: nat, j: nat)
    requires i <= j <= |v.addrs|
    ensures DefsBefore(v, i) <= DefsBefore(v, j)
  {
    if i < j {
      DefsGrow(v, i, j - 1);
    }
  }

  /** No choice of lines announces more than taking the first that fits. */
  lemma {:induction false} FirstFits(v: View, at: seq<nat>)
    requires LinesOf(v, at) && at != []
    ensures DefsBefore(v, at[|at| - 1] + 1) >= |at|
  {
    var k := |at| - 1;
    if k > 0 {
      FirstFits(v, at[..k]);
      DefsGrow(v, at[k - 1] + 1, at[k]);
    }
  }

  lemma {:induction false} LinesFound(v: View, i: nat) returns (at: seq<nat>)
    requires i <= |v.addrs|
    ensures LinesOf(v, at) && |at| == DefsBefore(v, i) && (at != [] ==> at[|at| - 1] < i)
  {
    if i == 0 {
      return [];
    }
    at := LinesFound(v, i - 1);
    if DefinesHere(v, i - 1, |at|) {
      at := at + [i - 1];
    }
  }

  lemma {:induction false} EachAnnounced(v: View, i: nat, k: nat)
    requires i <= |v.addrs| && k < DefsBefore(v, i)
    ensures Announced(v, k)
  {
    if k < DefsBefore(v, i - 1) {
      EachAnnounced(v, i - 1, k);
    } else {
      assert DefsBefore(v, i - 1) == k && DefinesHere(v, i - 1, k);
    }
  }

  /** A definition is announced if and only if it and all before it are at the addresses of lines that follow one
      another. */
  lemma AnnouncedIff(v: View, k: nat)
    ensures Announced(v, k) <==> exists at :: |at| == k + 1 && LinesOf(v, at)
  {
    if Announced(v, k) {
      var i :| 0 <= i < |v.addrs| && DefsBefore(v, i) == k && DefinesHere(v, i, k);
      var at := LinesFound(v, i + 1);
      assert |at| == k + 1;
    }
    if at :| |at| == k + 1 && LinesOf(v, at) {
      FirstFits(v, at);
      EachAnnounced(v, at[k] + 1, k);
    }
  }

  predicate OnLine(v: View, k: nat)
    requires k < |v.defs|
  {
    exists i :: 0 <= i < |v.addrs| && v.addrs[i] == v.defs[k].1
  }

  /** Lines in address order, and definitions too, at most one at an address. */
  predicate Ascending(v: View) {
    && (forall i, j :: 0 <= i < j < |v.addrs| ==> v.addrs[i] <= v.addrs[j])
    && (forall i, j :: 0 <= i < j < |v.defs| ==> v.defs[i].1 < v.defs[j].1)
  }

  lemma {:induction false} LinesChosen(v: View, k: nat) returns (at: seq<nat>)
    requires Ascending(v) && k <= |v.defs| && forall j :: 0 <= j < k ==> OnLine(v, j)
    ensures |at| == k && LinesOf(v, at)
  {
    if k == 0 {
      return [];
    }
    at := LinesChosen(v, k - 1);
    assert OnLine(v, k - 1);
    var i :| 0 <= i < |v.addrs| && v.addrs[i] == v.defs[k - 1].1;
    assert k > 1 ==> v.defs[k - 2].1 < v.defs[k - 1].1;
    at := at + [i];
  }

  /** In address order, that is if and only if none of them lies between two lines: one that does hides all
      after it. */
  lemma HiddenIff(v: View, k: nat)
    requires Ascending(v) && k < |v.defs|
    ensures Announced(v, k) <==> forall j :: 0 <= j <= k ==> OnLine(v, j)
  {
    AnnouncedIff(v, k);
    if forall j :: 0 <= j <= k ==> OnLine(v, j) {
      var at := LinesChosen(v, k + 1);
    }
  }

  /** As long as the first definition is not met, a line without references is printed alone. */
  lemma PlainLine(v: View, names: U32 -> string, i: nat, first: bool)
    requires i < |v.lines| == |v.addrs| && v.defs != [] && !OnLine(v, 0) && v.lines[i] != ""
    requires forall b, e :: 0 <= b < |v.lines[i]| ==> !IsRef(v.lines[i], b, e)
    ensures Listing(v, names, i, first) == Margin(v, i) + v.lines[i] + "\n" + Listing(v, names, i + 1, false)
  {
    hide Render, Margin;
    NoneYet(v, i);
    PlainStays(v.lines[i], names, 0);
    var whole := Margin(v, i) + v.lines[i] + "\n";
    assert "" + whole == whole;
  }

  lemma {:induction false} NoneYet(v: View, i: nat)
    requires i <= |v.addrs| && v.defs != [] && !OnLine(v, 0)
    ensures DefsBefore(v, i) == 0
  {
    if i > 0 {
      NoneYet(v, i - 1);
    }
  }

  lemma NoLines(v: View, names: U32 -> string, first: bool)
    requires |v.lines| == |v.addrs|
    ensures Listing(v, names, |v.lines|, first) == ""
  {
  }

  /** Of two instructions, at 6 and 8, the second is where `g` is defined; but `f` is defined between them, and
      no definition is announced. */
  lemma DefinitionHidden(hex: U64 -> string, names: U32 -> string)
    ensures var v := View(["a", "b"], [6, 8], 6, [("f", 7), ("g", 8)], hex);
            && Ascending(v) && OnLine(v, 1) && !Announced(v, 1)
            && Listing(v, names, 0, true) == "  ->  0x" + hex(6) + ":    a\n" + "      0x" + hex(8) + ":    b\n"
  {
    hide Announced, LinesOf, Refs, Render, DefsBefore, Listing;
    var v := View(["a", "b"], [6, 8], 6, [("f", 7), ("g", 8)], hex);
    assert v.addrs[1] == v.defs[1].1;
    assert !OnLine(v, 0);
    HiddenIff(v, 1);
    PlainLine(v, names, 0, true);
    PlainLine(v, names, 1, false);
    NoLines(v, names, false);
  }

  lemma SpliceStep(l: string, line: nat, names: U32 -> string, off: nat, rs: seq<Ref>, text: string)
    requires off <= |l| && Apart(rs, line, off, |l|) && rs != []
    ensures Apart(rs[1..], line, rs[0].end, |l|)
    ensures text + Splice(l, line, names, off, rs)
         == (text + l[off..rs[0].beg] + names(rs[0].id)) + Splice(l, line, names, rs[0].end, rs[1..])
  {
    var plain, name, tail := l[off..rs[0].beg], names(rs[0].id), Splice(l, line, names, rs[0].end, rs[1..]);
    assert text + (plain + name + tail) == (text + plain + name) + tail;
  }

  /** The names fetched for the recorded ids. */
  ghost predicate Named(refs: seq<U32>, syms: seq<string>, names: U32 -> string) {
    |syms| == |refs| && forall k :: 0 <= k < |refs| ==> syms[k] == names(refs[k])
  }

  method PrintLine(l: string, i: nat, refs: seq<U32>, refPos: seq<(nat, nat, nat)>, syms: seq<string>, refI0: nat,
                   ghost lines: seq<string>, ghost names: U32 -> string)
    returns (text: string, refI: nat)
    requires i < |lines| && l == lines[i] && refI0 == |Flat(lines, i)|
    requires Recorded(refs, refPos, Flat(lines, |lines|)) && Named(refs, syms, names)
    ensures text == Render(l, names, 0) && refI == |Flat(lines, i + 1)|
  {
    hide Refs, Flat, Render, Splice, Apart;
    ghost var mine := Refs(l, i, 0);
    FlatAt(lines, i, |lines|);
    FlatNext(lines, i);
    SpliceIsRender(l, i, names, 0);
    text, refI := "", refI0;
    var off := 0;
    ghost var k: nat := 0;
    assert mine[0..] == mine && "" + Splice(l, i, names, 0, mine) == Splice(l, i, names, 0, mine);
    while refI < |refs| && refPos[refI].0 == i
      invariant refI == refI0 + k && k <= |mine| && 0 <= off <= |l| && Apart(mine[k..], i, off, |l|)
      invariant text + Splice(l, i, names, off, mine[k..]) == Render(l, names, 0)
      decreases |refs| - refI
    {
      Shown(lines, refs, refPos, i, k, refI);
      SpliceStep(l, i, names, off, mine[k..], text);
      ApartAt(mine[k..], i, off, |l|);
      assert mine[k..][1..] == mine[k + 1..];
      text := text + l[off..refPos[refI].1] + syms[refI];
      off := refPos[refI].2;
      refI := refI + 1;
      k := k + 1;
    }
    Shown(lines, refs, refPos, i, k, refI);
    SpliceNone(l, i, names, off);
    assert mine[|mine|..] == [];
    if off < |l| {
      text := text + l[off..];
    } else {
      assert text + l[off..] == text;
    }
  }

  lemma FlatNext(lines: seq<string>, i: nat)
    requires i < |lines|
    ensures |Flat(lines, i + 1)| == |Flat(lines, i)| + |Refs(lines[i], i, 0)|
  {
  }

  lemma ApartAt(rs: seq<Ref>, line: nat, off: nat, len: nat)
    requires Apart(rs, line, off, len) && rs != []
    ensures off <= rs[0].beg < rs[0].end <= len
  {
  }

  lemma SpliceNone(l: string, line: nat, names: U32 -> string, off: nat)
    requires off <= |l|
    ensures Apart([], line, off, |l|) && Splice(l, line, names, off, []) == l[off..]
  {
  }

  /** The recorded reference at hand is on line `i` exactly as long as that line has references left, and
      then it is the next of them. */
  lemma Shown(lines: seq<string>, refs: seq<U32>, refPos: seq<(nat, nat, nat)>, i: nat, k: nat, refI: nat)
    requires i < |lines| && Recorded(refs, refPos, Flat(lines, |lines|))
    requires refI == |Flat(lines, i)| + k && k <= |Refs(lines[i], i, 0)|
    ensures refI < |refs| && refPos[refI].0 == i <==> k < |Refs(lines[i], i, 0)|
    ensures k < |Refs(lines[i], i, 0)| ==>
              var r := Refs(lines[i], i, 0)[k]; refs[refI] == r.id && refPos[refI] == (i, r.beg, r.end)
  {
    hide Refs, Flat;
    FlatAt(lines, i, |lines|);
    LineOfRefs(lines[i], i);
    var all, mine := Flat(lines, |lines|), Refs(lines[i], i, 0);
    assert k < |mine| ==> all[refI] == mine[k];
    assert k == |mine| && refI < |all| ==> all[refI].line > i;
  }

  /** What is printed before line `i`, with the listing from there on, is the whole listing. */
  ghost predicate Printed(v: View, names: U32 -> string, os: string, i: nat, first: bool)
    requires i <= |v.lines| == |v.addrs|
  {
    os + Listing(v, names, i, first) == Listing(v, names, 0, true)
  }

  lemma PrintedStart(v: View, names: U32 -> string)
    requires |v.lines| == |v.addrs|
    ensures Printed(v, names, "", 0, true) && DefsBefore(v, 0) == 0
  {
  }

  lemma PrintedAll(v: View, names: U32 -> string, os: string, first: bool)
    requires |v.lines| == |v.addrs| && Printed(v, names, os, |v.lines|, first)
    ensures os == Listing(v, names, 0, true)
  {
    assert os + "" == os;
  }

  /** An empty line has no references to use up, and prints at most a definition. */
  lemma PrintedEmpty(v: View, names: U32 -> string, os: string, i: nat, first: bool)
    requires i < |v.lines| == |v.addrs| && v.lines[i] == "" && Printed(v, names, os, i, first)
    ensures Printed(v, names, os + DefText(v, i, first), i + 1, first)
    ensures |Flat(v.lines, i + 1)| == |Flat(v.lines, i)|
  {
    hide DefText, Render, Margin;
    FlatNext(v.lines, i);
    Assoc(os, DefText(v, i, first), Listing(v, names, i + 1, first));
  }

  lemma PrintedLine(v: View, names: U32 -> string, os: string, i: nat, first: bool)
    requires i < |v.lines| == |v.addrs| && v.lines[i] != "" && Printed(v, names, os, i, first)
    ensures Printed(v, names, os + DefText(v, i, first) + (Margin(v, i) + Render(v.lines[i], names, 0) + "\n"),
                    i + 1, false)
  {
    hide DefText, Render, Margin;
    var def, whole := DefText(v, i, first), Margin(v, i) + Render(v.lines[i], names, 0) + "\n";
    var rest := Listing(v, names, i + 1, false);
    Assoc(os, def, whole);
    Assoc(os, def + whole, rest);
  }

  /** The text that announces definition `d` before line `i`, if it is defined there. */
  method PrintDef(v: View, i: nat, d: nat, first: bool) returns (text: string, next: nat)
    requires i < |v.addrs| && d == DefsBefore(v, i)
    ensures text == DefText(v, i, first) && next == DefsBefore(v, i + 1)
  {
    if DefinesHere(v, i, d) {
      text := (if first then "" else "\n") + "     0x0" + v.hex(v.addrs[i]) + " <" + v.defs[d].0 + ">:\n";
      next := d + 1;
    } else {
      text, next := "", d;
    }
  }

  method Print(v: View, refs: seq<U32>, refPos: seq<(nat, nat, nat)>, syms: seq<string>, ghost names: U32 -> string)
    returns (os: string)
    requires |v.lines| == |v.addrs|
    requires Recorded(refs, refPos, Flat(v.lines, |v.lines|)) && Named(refs, syms, names)
    ensures os == Listing(v, names, 0, true)
  {
    hide *;
    os := "";
    var refI, defI, first := 0, 0, true;
    var i := 0;
    PrintedStart(v, names);
    FlatNone(v.lines);
    while i < |v.lines|
      invariant 0 <= i <= |v.lines| && defI == DefsBefore(v, i) && refI == |Flat(v.lines, i)|
      invariant Printed(v, names, os, i, first)
    {
      var def;
      def, defI := PrintDef(v, i, defI, first);
      if v.lines[i] == "" {
        PrintedEmpty(v, names, os, i, first);
        os := os + def;
      } else {
        PrintedLine(v, names, os, i, first);
        first := false;
        var text;
        text, refI := PrintLine(v.lines[i], i, refs, refPos, syms, refI, v.lines, names);
        os := os + def + (Margin(v, i) + text + "\n");
      }
      i := i + 1;
    }
    PrintedAll(v, names, os, first);
  }

  lemma FlatNone(lines: seq<string>)
    ensures Flat(lines, 0) == []
  {
  }

  // The command.

  method CodeAddrs(start: U64, sizes: seq<U64>) returns (addrs: seq<U64>)
    ensures |addrs| == |sizes| && forall i :: 0 <= i < |sizes| ==> addrs[i] == CodeAddr(start, sizes, i)
  {
    addrs := [];
    var nextAddr: U64 := start;
    for i := 0 to |sizes|
      invariant |addrs| == i && nextAddr == CodeAddr(start, sizes, i)
      invariant forall j :: 0 <= j < i ==> addrs[j] == CodeAddr(start, sizes, j)
    {
      addrs := addrs + [nextAddr];
      nextAddr := (nextAddr + sizes[i]) % TWO_64;
    }
  }

  function NameOf(lookup: U32 -> Result<string>): (names: U32 -> string)
    ensures forall id: U32 :: lookup(id).Ok? ==> names(id) == lookup(id).value
  {
    (id: U32) => match lookup(id) case Ok(name) => name case Err(_) => ""
  }

  /** The names of all ids, or the error for the first that has none. */
  method Resolve(refs: seq<U32>, lookup: U32 -> Result<string>) returns (r: Result<seq<string>>)
    ensures match r
            case Ok(syms) => Named(refs, syms, NameOf(lookup)) && forall k :: 0 <= k < |refs| ==> lookup(refs[k]).Ok?
            case Err(m) => exists k :: 0 <= k < |refs| && lookup(refs[k]) == Err(m) &&
                             forall j :: 0 <= j < k ==> lookup(refs[j]).Ok?
  {
    var syms: seq<string> := [];
    for i := 0 to |refs|
      invariant |syms| == i && forall k :: 0 <= k < i ==> lookup(refs[k]).Ok? && syms[k] == NameOf(lookup)(refs[k])
    {
      match lookup(refs[i]) {
        case Err(m) => return Err(m);
        case Ok(name) => syms := syms + [name];
      }
    }
    r := Ok(syms);
  }

  ghost predicate Resolvable(lines: seq<string>, lookup: U32 -> Result<string>) {
    forall ref <- Flat(lines, |lines|) :: lookup(ref.id).Ok?
  }

  /** The whole command prints the one-pass listing if and only if every reference has a symbol. */
  method CmdCode(start: U64, lines: seq<string>, sizes: seq<U64>, act: U64, defs: seq<(string, U64)>,
                 lookup: U32 -> Result<string>, hex: U64 -> string)
    returns (r: Result<string>)
    requires |lines| == |sizes|
    ensures r.Ok? <==> Resolvable(lines, lookup)
    ensures r.Ok? ==> var addrs := seq(|lines|, i requires 0 <= i < |lines| => CodeAddr(start, sizes, i));
                      r.value == Listing(View(lines, addrs, act, defs, hex), NameOf(lookup), 0, true)
    ensures r.Err? ==> exists ref <- Flat(lines, |lines|) :: lookup(ref.id) == Err(r.msg)
  {
    var addrs := CodeAddrs(start, sizes);
    var refs, refPos := FindRefs(lines);
    var syms := Resolve(refs, lookup);
    ghost var all := Flat(lines, |lines|);
    assert forall k :: 0 <= k < |refs| ==> refs[k] == all[k].id;
    match syms {
      case Err(m) =>
        ghost var k :| 0 <= k < |refs| && lookup(refs[k]) == Err(m);
        assert all[k] in all;
        return Err(m);
      case Ok(names) =>
        var os := Print(View(lines, addrs, act, defs, hex), refs, refPos, names, NameOf(lookup));
        assert addrs == seq(|lines|, i requires 0 <= i < |lines| => CodeAddr(start, sizes, i));
        r := Ok(os);
    }
  }
}
