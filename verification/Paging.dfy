/** Symbols listed page by page through the C interface (src/server_capi/vm-api.cc,
    include/odb/server_capi/vm-api.h). */
module Paging {
  import opened Common

  const CAP := 32

  /** What the C callback stores: an error text, or symbols and how far it got. */
  datatype Page = Page(err: string, syms: seq<U32>, actSize: U64)

  /** The symbols defined at each address. */
  type Table = U64 -> seq<U32>

  /** The symbols of the `size` addresses from `addr` on, in address order. */
  function Listed(table: Table, addr: U64, size: nat): seq<U32>
    decreases size
  {
    if size == 0 then [] else table(addr) + Listed(table, (addr + 1) % TWO_64, size - 1)
  }

  /** Each page covers an exact prefix of the range that is not empty, and fits the buffer. */
  predicate Covers(table: Table, addr: U64, size: U64, p: Page) {
    0 < p.actSize <= size && |p.syms| <= CAP && p.syms == Listed(table, addr, p.actSize)
  }

  /** The callback keeps to the documented interface. */
  ghost predicate Faithful<X(!new)>(table: Table, page: (X, U64, U64) -> (X, Page)) {
    forall x: X, addr: U64, size: U64 :: size > 0 && page(x, addr, size).1.err == "" ==>
        Covers(table, addr, size, page(x, addr, size).1)
  }

  lemma WrapNext(addr: U64, m: nat)
    requires m > 0
    ensures ((addr + 1) % TWO_64 + (m - 1)) % TWO_64 == (addr + m) % TWO_64
  {
    if addr + 1 == TWO_64 {
      assert addr + m == TWO_64 + (m - 1);
    }
  }

  /** A range falls apart into two without loss or repetition, also where addresses wrap around. */
  lemma {:induction false} ListedSplit(table: Table, addr: U64, m: nat, n: nat)
    ensures Listed(table, addr, m + n) == Listed(table, addr, m) + Listed(table, (addr + m) % TWO_64, n)
    decreases m
  {
    hide Listed;
    if m == 0 {
      NoneListed(table, addr);
      assert [] + Listed(table, addr, n) == Listed(table, addr, n);
    } else {
      var next: U64 := (addr + 1) % TWO_64;
      WrapNext(addr, m);
      ListedFirst(table, addr, m + n);
      ListedFirst(table, addr, m);
      ListedSplit(table, next, m - 1, n);
      Assoc(table(addr), Listed(table, next, m - 1), Listed(table, (addr + m) % TWO_64, n));
    }
  }

  lemma NoneListed(table: Table, addr: U64)
    ensures Listed(table, addr, 0) == []
  {
  }

  lemma ListedFirst(table: Table, addr: U64, size: nat)
    requires size > 0
    ensures Listed(table, addr, size) == table(addr) + Listed(table, (addr + 1) % TWO_64, size - 1)
  {
  }

  /** A callback can keep to its interface exactly where no address has more symbols than the buffer holds;
      elsewhere no page is possible, and a callback that covers nothing would be called for ever. */
  lemma PagePossibleIff(table: Table, addr: U64, size: U64)
    requires size > 0
    ensures (exists p :: Covers(table, addr, size, p)) <==> |table(addr)| <= 32
  {
    if |table(addr)| <= CAP {
      assert Listed(table, addr, 1) == table(addr) + Listed(table, (addr + 1) % TWO_64, 0);
      assert Covers(table, addr, size, Page("", table(addr), 1));
    }
    forall p | Covers(table, addr, size, p)
      ensures |table(addr)| <= CAP
    {
      assert Listed(table, addr, p.actSize) == table(addr) + Listed(table, (addr + 1) % TWO_64, p.actSize - 1);
    }
  }

  /** Pages that cover a range from one end to the other, each going on where the one before it ended. */
  ghost predicate Tiles(table: Table, addr: U64, size: U64, pages: seq<Page>)
    decreases |pages|
  {
    if pages == [] then size == 0
    else
      size > 0 && Covers(table, addr, size, pages[0]) &&
      Tiles(table, (addr + pages[0].actSize) % TWO_64, size - pages[0].actSize, pages[1..])
  }

  /** How many symbols the `k`-th address of a range has. */
  function CountAt(table: Table, addr: U64, k: nat): nat {
    |table((addr + k) % TWO_64)|
  }

  /** No address of the range has more symbols than the buffer holds. */
  ghost predicate Sparse(table: Table, addr: U64, size: nat) {
    forall k :: 0 <= k < size ==> CountAt(table, addr, k) <= CAP
  }

  /** What an address has is part of every listing it is in. */
  lemma ListedAt(table: Table, addr: U64, size: nat, k: nat)
    requires k < size
    ensures CountAt(table, addr, k) <= |Listed(table, addr, size)|
  {
    ListedSplit(table, addr, k, size - k);
    var at: U64 := (addr + k) % TWO_64;
    assert Listed(table, at, size - k) == table(at) + Listed(table, (at + 1) % TWO_64, size - k - 1);
  }

  lemma {:induction false} WrapPast(addr: U64, m: nat, k: nat)
    ensures ((addr + m) % TWO_64 + k) % TWO_64 == (addr + m + k) % TWO_64
    decreases m
  {
    if m > 0 {
      WrapNext(addr, m);
      WrapNext(addr, m + k);
      WrapPast((addr + 1) % TWO_64, m - 1, k);
    }
  }

  lemma CountPast(table: Table, addr: U64, m: nat, k: nat)
    ensures CountAt(table, (addr + m) % TWO_64, k) == CountAt(table, addr, m + k)
  {
    WrapPast(addr, m, k);
  }

  lemma {:induction false} TiledIsSparse(table: Table, addr: U64, size: U64, pages: seq<Page>)
    requires Tiles(table, addr, size, pages)
    ensures Sparse(table, addr, size)
    decreases |pages|
  {
    hide CountAt, Listed;
    if pages != [] {
      var m := pages[0].actSize;
      TiledIsSparse(table, (addr + m) % TWO_64, size - m, pages[1..]);
      forall k | 0 <= k < size
        ensures CountAt(table, addr, k) <= CAP
      {
        if k < m {
          ListedAt(table, addr, m, k);
        } else {
          CountPast(table, addr, m, k - m);
        }
      }
    }
  }

  lemma SparseNext(table: Table, addr: U64, size: nat)
    requires size > 0 && Sparse(table, addr, size)
    ensures Sparse(table, (addr + 1) % TWO_64, size - 1) && |table(addr)| <= CAP
  {
    hide CountAt;
    var next: U64 := (addr + 1) % TWO_64;
    forall k | 0 <= k < size - 1
      ensures CountAt(table, next, k) <= CAP
    {
      CountPast(table, addr, 1, k);
    }
    CountFirst(table, addr);
    assert CountAt(table, addr, 0) <= CAP;
  }

  lemma CountFirst(table: Table, addr: U64)
    ensures CountAt(table, addr, 0) == |table(addr)|
  {
  }

  lemma OnePage(table: Table, addr: U64, size: U64)
    requires size > 0 && |table(addr)| <= CAP
    ensures Covers(table, addr, size, Page("", table(addr), 1))
  {
    assert Listed(table, addr, 1) == table(addr) + Listed(table, (addr + 1) % TWO_64, 0);
  }

  /** One page for each address. */
  lemma {:induction false} SparseIsTiled(table: Table, addr: U64, size: U64) returns (pages: seq<Page>)
    requires Sparse(table, addr, size)
    ensures Tiles(table, addr, size, pages)
    decreases size
  {
    hide Covers, Sparse;
    if size == 0 {
      pages := [];
    } else {
      SparseNext(table, addr, size);
      OnePage(table, addr, size);
      var others := SparseIsTiled(table, (addr + 1) % TWO_64, size - 1);
      pages := [Page("", table(addr), 1)] + others;
    }
  }

  /** A range can be listed in pages if and only if no address in it has more symbols than a page holds. */
  lemma PagesPossibleIff(table: Table, addr: U64, size: U64)
    ensures (exists pages :: Tiles(table, addr, size, pages)) <==> Sparse(table, addr, size)
  {
    if pages :| Tiles(table, addr, size, pages) {
      TiledIsSparse(table, addr, size, pages);
    }
    if Sparse(table, addr, size) {
      var pages := SparseIsTiled(table, addr, size);
    }
  }

  /** A run of callback calls: what was asked, and the states of the C program before, between and after. */
  ghost predicate CallChain<X>(get: (X, U64, U64) -> (X, Page), xs: seq<X>, asked: seq<(U64, U64)>) {
    |xs| == |asked| + 1 && forall i :: 0 <= i < |asked| ==> get(xs[i], asked[i].0, asked[i].1).0 == xs[i + 1]
  }

  lemma ChainGrows<X>(get: (X, U64, U64) -> (X, Page), xs: seq<X>, asked: seq<(U64, U64)>, addr: U64, size: U64)
    requires CallChain(get, xs, asked)
    ensures CallChain(get, xs + [get(xs[|asked|], addr, size).0], asked + [(addr, size)])
  {
  }

  class CWrapperVMApi<X(!new)> {
    const getSymbols: (X, U64, U64) -> (X, Page)
    /** The state of the C program, and the error buffer shared by all calls. */
    var data: X
    var err: string

    constructor (getSymbols: (X, U64, U64) -> (X, Page), data: X)
      ensures this.getSymbols == getSymbols && this.data == data
    {
      this.getSymbols, this.data, this.err := getSymbols, data, "";
    }

    /** All symbols of a range. The callback is called at most once per address, on its own earlier state; only
        its last call can have stored an error, which is then thrown. */
    method GetSymbols(ghost table: Table, addr0: U64, size0: U64)
      returns (r: Result<seq<U32>>, ghost xs: seq<X>, ghost asked: seq<(U64, U64)>)
      requires Faithful(table, getSymbols)
      modifies this
      ensures CallChain(getSymbols, xs, asked) && xs[0] == old(data) && xs[|asked|] == data && |asked| <= size0
      ensures r.Ok? ==> r.value == Listed(table, addr0, size0)
      ensures forall i :: 0 <= i < |asked| ==>
                getSymbols(xs[i], asked[i].0, asked[i].1).1.err == if r.Err? && i == |asked| - 1 then r.msg else ""
      ensures r.Err? ==> asked != [] && r.msg != ""
    {
      var res: seq<U32> := [];
      var addr: U64, size: U64 := addr0, size0;
      err := "";
      xs, asked := [data], [];
      while size > 0
        invariant size <= size0 && |asked| + size <= size0
        invariant CallChain(getSymbols, xs, asked) && xs[0] == old(data) && xs[|asked|] == data
        invariant forall i :: 0 <= i < |asked| ==> getSymbols(xs[i], asked[i].0, asked[i].1).1.err == ""
        invariant res + Listed(table, addr, size) == Listed(table, addr0, size0)
        decreases size
      {
        hide Listed, Covers, CallChain;
        var (next, page) := getSymbols(data, addr, size);
        data := next;
        err := page.err;
        ChainGrows(getSymbols, xs, asked, addr, size);
        xs, asked := xs + [next], asked + [(addr, size)];
        if err != "" {
          return Err(err), xs, asked;
        }
        PageRead(table, addr, size, page, res);
        size := size - page.actSize;
        addr := (addr + page.actSize) % TWO_64;
        res := res + page.syms;
      }
      assert res + [] == res;
      r := Ok(res);
    }
  }

  /** A page's symbols, and the rest of the range after it. */
  lemma PageRead(table: Table, addr: U64, size: U64, page: Page, res: seq<U32>)
    requires Covers(table, addr, size, page)
    ensures 0 < page.actSize <= size
    ensures res + Listed(table, addr, size) ==
            (res + page.syms) + Listed(table, (addr + page.actSize) % TWO_64, size - page.actSize)
  {
    ListedSplit(table, addr, page.actSize, size - page.actSize);
    Assoc(res, page.syms, Listed(table, (addr + page.actSize) % TWO_64, size - page.actSize));
  }
}
