/** The debugger's lazily loaded symbol table: which addresses have been asked for is kept in a
    RangeMap, and only the missing middle of a window is fetched (src/server/debugger.cc). */
module SymbolCache {
  import opened Common
  import opened RangeMaps
  import M = Messages

  const SYM_LOAD_SIZE: U64 := 256
  const VM_SYM_NULL: U32 := TWO_32 - 1

  type Symbol = M.SymbolInfos

  /** What the VM answers about its symbols. None stands for a thrown VMApi::Error. */
  datatype Vm = Vm(
    memorySize: U64,
    defs: map<U32, Symbol>,
    symbols: (U64, U64) -> Option<seq<U32>>,
    readable: set<U32>,
    find: M.Text -> Option<U32>)

  ghost predicate Distinct(defs: map<U32, Symbol>) {
    forall i <- defs, j <- defs :: defs[i].addr == defs[j].addr ==> i == j
  }

  /** Symbols sit at distinct addresses inside memory, and the VM lists a range it answers for exactly. */
  ghost predicate Honest(vm: Vm) {
    && 0 < vm.memorySize
    && (forall id <- vm.defs :: vm.defs[id].addr < vm.memorySize)
    && Distinct(vm.defs)
    && (forall a: U64, n: U64 :: a + n <= vm.memorySize && vm.symbols(a, n).Some? ==>
          forall id :: id in vm.symbols(a, n).value <==> id in vm.defs && a <= vm.defs[id].addr < a + n)
  }

  /** The VM answers every range query. */
  ghost predicate Lists(vm: Vm) {
    forall a: U64, n: U64 :: vm.symbols(a, n).Some?
  }

  /** How many of these queries the VM answers. */
  ghost function AnsweredBy(vm: Vm, log: seq<(U64, U64)>): nat {
    if log == [] then 0
    else AnsweredBy(vm, log[..|log| - 1]) + if vm.symbols(log[|log| - 1].0, log[|log| - 1].1).Some? then 1 else 0
  }

  lemma {:induction false} AllAnswered(vm: Vm, log: seq<(U64, U64)>)
    requires Lists(vm)
    ensures AnsweredBy(vm, log) == |log|
  {
    if log != [] {
      AllAnswered(vm, log[..|log| - 1]);
    }
  }

  /** The VM as the debugger calls it; every range query is kept in a log, also those that throw. */
  class VmApi {
    const vm: Vm
    ghost var asked: seq<(U64, U64)>

    constructor (vm: Vm)
      ensures this.vm == vm && asked == []
    {
      this.vm, asked := vm, [];
    }

    method Symbols(addr: U64, size: U64) returns (r: Option<seq<U32>>)
      modifies this
      ensures asked == old(asked) + [(addr, size)] && r == vm.symbols(addr, size)
    {
      asked := asked + [(addr, size)];
      r := vm.symbols(addr, size);
    }

    method SymbInfos(id: U32) returns (r: Option<Symbol>)
      ensures r == if id in vm.defs && id in vm.readable then Some(vm.defs[id]) else None
    {
      r := if id in vm.defs && id in vm.readable then Some(vm.defs[id]) else None;
    }

    method FindSymId(name: M.Text) returns (r: Option<U32>)
      ensures r == vm.find(name)
    {
      r := vm.find(name);
    }
  }

  /** `ids` are the symbols defined in [lo, hi), by increasing address. */
  ghost predicate IsListing(defs: map<U32, Symbol>, lo: int, hi: int, ids: seq<U32>) {
    && (forall id :: id in ids <==> id in defs && lo <= defs[id].addr < hi)
    && (forall i, j :: 0 <= i < j < |ids| ==> defs[ids[i]].addr < defs[ids[j]].addr)
  }

  /** A range has one listing, so a contract that asks for the listing fixes the answer. */
  lemma {:induction false} ListingUnique(defs: map<U32, Symbol>, lo: int, hi: int, a: seq<U32>, b: seq<U32>)
    requires IsListing(defs, lo, hi, a) && IsListing(defs, lo, hi, b)
    ensures a == b
    decreases |a|
  {
    if a != [] {
      assert a[0] in a && a[0] in b;
      assert b[0] in b && b[0] in a;
      var mid := defs[a[0]].addr + 1;
      TailListing(defs, lo, hi, a);
      TailListing(defs, lo, hi, b);
      ListingUnique(defs, mid, hi, a[1..], b[1..]);
    }
  }

  lemma TailListing(defs: map<U32, Symbol>, lo: int, hi: int, a: seq<U32>)
    requires IsListing(defs, lo, hi, a) && a != []
    ensures a[0] in defs && IsListing(defs, defs[a[0]].addr + 1, hi, a[1..])
  {
    assert a[0] in a;
    forall id
      ensures id in a[1..] <==> id in defs && defs[a[0]].addr + 1 <= defs[id].addr < hi
    {
      if id in a[1..] {
        var i :| 1 <= i < |a| && a[i] == id;
        assert id in a && defs[a[0]].addr < defs[a[i]].addr;
      }
      assert id in a ==> id == a[0] || id in a[1..];
    }
  }

  /** The number of addresses below `n` not yet marked as loaded. */
  ghost function Unloaded(ns: seq<Node<int>>, n: nat): nat
    requires 0 < |ns|
  {
    if n == 0 then 0 else Unloaded(ns, n - 1) + if At(ns, n - 1) == 0 then 1 else 0
  }

  lemma {:induction false} UnloadedFalls(before: seq<Node<int>>, after: seq<Node<int>>, n: nat, w: nat)
    requires 0 < |before| && 0 < |after|
    requires forall k :: 0 <= k < n && At(after, k) == 0 ==> At(before, k) == 0
    ensures Unloaded(after, n) <= Unloaded(before, n)
    ensures w < n && At(before, w) == 0 && At(after, w) != 0 ==> Unloaded(after, n) < Unloaded(before, n)
  {
    if n > 0 {
      UnloadedFalls(before, after, n - 1, w);
    }
  }

  datatype Entry = Entry(addr: U64, id: U32)

  /** The first position of an address-ordered table whose address is not below `addr`. */
  predicate IsLowerBound(es: seq<Entry>, addr: int, p: nat) {
    p <= |es| && (forall i :: 0 <= i < p ==> es[i].addr < addr) && (forall i :: p <= i < |es| ==> addr <= es[i].addr)
  }

  predicate Ordered(es: seq<Entry>) {
    forall i, j :: 0 <= i < j < |es| ==> es[i].addr < es[j].addr
  }

  /** The two tables record the same symbols, all of them as defined. */
  ghost predicate Recorded(defs: map<U32, Symbol>, ms: map<U32, Symbol>, es: seq<Entry>) {
    && (forall id <- ms :: id in defs && ms[id] == defs[id])
    && Ordered(es)
    && (forall i :: 0 <= i < |es| ==> es[i].id in ms && ms[es[i].id].addr == es[i].addr)
    && (forall id <- ms :: Entry(ms[id].addr, id) in es)
  }

  function Insert(es: seq<Entry>, p: nat, e: Entry): (r: seq<Entry>)
    requires p <= |es|
    ensures |r| == |es| + 1 && r[p] == e && e in r
    ensures forall i :: 0 <= i < p ==> r[i] == es[i]
    ensures forall i :: p < i < |r| ==> r[i] == es[i - 1]
    ensures forall x <- es :: x in r
  {
    var r := es[..p] + [e] + es[p..];
    assert forall i :: 0 <= i < |es| ==> es[i] == r[if i < p then i else i + 1];
    assert r[p] == e;
    r
  }

  lemma InsertIds(ms: map<U32, Symbol>, es: seq<Entry>, p: nat, id: U32, sym: Symbol)
    requires forall i :: 0 <= i < |es| ==> es[i].id in ms && ms[es[i].id].addr == es[i].addr
    requires p <= |es| && id !in ms
    ensures var r := Insert(es, p, Entry(sym.addr, id));
            forall i :: 0 <= i < |r| ==> r[i].id in ms[id := sym] && ms[id := sym][r[i].id].addr == r[i].addr
  {
    hide Insert;
    var r := Insert(es, p, Entry(sym.addr, id));
    forall i | 0 <= i < |r|
      ensures r[i].id in ms[id := sym] && ms[id := sym][r[i].id].addr == r[i].addr
    {
      assert i != p ==> r[i] == es[if i < p then i else i - 1];
    }
  }

  lemma InsertAll(ms: map<U32, Symbol>, ms': map<U32, Symbol>, es: seq<Entry>, p: nat, id: U32, sym: Symbol)
    requires (forall x <- ms :: Entry(ms[x].addr, x) in es) && p <= |es| && id !in ms && ms' == ms[id := sym]
    ensures forall x <- ms' :: Entry(ms'[x].addr, x) in Insert(es, p, Entry(sym.addr, id))
  {
    hide Insert;
    forall x | x in ms'
      ensures Entry(ms'[x].addr, x) in Insert(es, p, Entry(sym.addr, id))
    {
      assert x != id ==> Entry(ms[x].addr, x) in es;
    }
  }

  /** Recording a defined symbol at an address not yet in the table keeps the tables in step. */
  lemma InsertKeeps(defs: map<U32, Symbol>, ms: map<U32, Symbol>, es: seq<Entry>, p: nat, id: U32)
    requires Recorded(defs, ms, es) && id in defs && id !in ms
    requires p <= |es| && IsLowerBound(es, defs[id].addr, p) && (p == |es| || es[p].addr != defs[id].addr)
    ensures Recorded(defs, ms[id := defs[id]], Insert(es, p, Entry(defs[id].addr, id)))
  {
    hide Insert, Ordered, IsLowerBound;
    InsertOrdered(es, p, Entry(defs[id].addr, id));
    InsertIds(ms, es, p, id, defs[id]);
    InsertAll(ms, ms[id := defs[id]], es, p, id, defs[id]);
  }

  lemma InsertOrdered(es: seq<Entry>, p: nat, e: Entry)
    requires Ordered(es) && IsLowerBound(es, e.addr, p) && (p == |es| || es[p].addr != e.addr)
    ensures Ordered(Insert(es, p, e))
  {
    var r := Insert(es, p, e);
    forall i, j | 0 <= i < j < |r|
      ensures r[i].addr < r[j].addr
    {
      assert i != p ==> r[i] == es[if i < p then i else i - 1];
      assert j != p ==> r[j] == es[if j < p then j else j - 1];
      assert p + 1 < j ==> es[p].addr < es[j - 1].addr;
    }
  }

  method LowerBound(es: seq<Entry>, addr: U64) returns (p: nat)
    requires Ordered(es)
    ensures p <= |es| && IsLowerBound(es, addr, p)
  {
    p := 0;
    while p < |es| && es[p].addr < addr
      invariant p <= |es| && forall i :: 0 <= i < p ==> es[i].addr < addr
    {
      p := p + 1;
    }
  }

  datatype Fetch = Loaded | QueryThrew | InfosThrew

  class SymbolTable {
    const api: VmApi
    ghost const vm: Vm := api.vm
    const memorySize: U64
    const loaded: RangeMap<int>
    var mapSyms: map<U32, Symbol>
    var symsPos: seq<Entry>

    /** Everything recorded is what the VM defines, and both tables record the same symbols. */
    ghost predicate Tables()
      reads this
    {
      Recorded(vm.defs, mapSyms, symsPos) && mapSyms.Keys <= vm.readable
    }

    /** The marks cover memory. */
    ghost predicate Ranges()
      reads this, loaded
    {
      && 0 < vm.memorySize == memorySize
      && loaded.Valid() && loaded.minKey == 0 && loaded.maxKey == vm.memorySize - 1
      && (forall k :: 0 <= k < vm.memorySize ==> At(loaded.ranges, k) == 0 || At(loaded.ranges, k) == 1)
    }

    /** No query went beyond memory, and as many as `n` and the missing marks together are not too many. */
    ghost predicate Counted(n: nat)
      requires Ranges()
      reads this, loaded, api
    {
      && (forall q <- api.asked :: 0 < q.1 && q.0 + q.1 <= vm.memorySize)
      && n + Unloaded(loaded.ranges, vm.memorySize) <= vm.memorySize
    }

    /** Each answered query has lowered the number of missing marks. */
    ghost predicate Marks()
      reads this, loaded, api
    {
      Ranges() && Counted(AnsweredBy(vm, api.asked))
    }

    ghost predicate Truthful()
      reads this, loaded, api
    {
      Honest(vm) && Tables() && Marks()
    }

    /** Every symbol at an address marked as loaded is recorded. */
    ghost predicate Complete()
      requires Truthful()
      reads this, loaded, api
    {
      forall id <- vm.defs :: At(loaded.ranges, vm.defs[id].addr) == 1 ==> id in mapSyms
    }

    constructor (api: VmApi)
      requires Honest(api.vm) && api.asked == []
      ensures this.api == api && Truthful() && Complete() && fresh(loaded)
      ensures mapSyms == map[] && symsPos == []
      ensures forall k :: 0 <= k < vm.memorySize ==> At(loaded.ranges, k) == 0
    {
      this.api := api;
      memorySize := api.vm.memorySize;
      loaded := new RangeMap<int>(0, api.vm.memorySize - 1, 0);
      mapSyms, symsPos := map[], [];
      new;
      FreshCount(loaded.ranges, vm.memorySize);
    }

    /** No other symbol is recorded at the address of a symbol that is not recorded. */
    lemma AddressFree(id: U32, p: nat)
      requires Tables() && Distinct(vm.defs) && id in vm.defs && id !in mapSyms
      requires IsLowerBound(symsPos, vm.defs[id].addr, p)
      ensures p == |symsPos| || symsPos[p].addr != vm.defs[id].addr
    {
      hide Ordered;
    }

    /** Records symbol `id`; returns false when the VM throws on it. */
    method LoadSymbol(id: U32) returns (ok: bool)
      requires Tables() && Distinct(vm.defs)
      modifies `mapSyms, `symsPos
      ensures Tables()
      ensures ok <==> id in old(mapSyms) || (id in vm.defs && id in vm.readable)
      ensures ok ==> mapSyms.Keys == old(mapSyms).Keys + {id}
      ensures !ok ==> mapSyms == old(mapSyms) && symsPos == old(symsPos)
    {
      hide Insert, Ordered, IsLowerBound, Distinct;
      if id in mapSyms {
        return true;
      }
      var got := api.SymbInfos(id);
      if got == None {
        return false;
      }
      var infos := got.value;
      var p := LowerBound(symsPos, infos.addr);
      AddressFree(id, p);
      if p == |symsPos| || symsPos[p].addr != infos.addr {
        InsertKeeps(vm.defs, mapSyms, symsPos, p, id);
        symsPos := Insert(symsPos, p, Entry(infos.addr, id));
      }
      mapSyms := mapSyms[id := infos];
      ok := true;
    }

    /** The part of the window that has to be asked for: from its first to its last address not loaded. */
    method Gap(addr0: U64, size0: U64) returns (gap: Option<(U64, U64)>)
      requires Ranges() && addr0 < vm.memorySize && addr0 + Max(size0, SYM_LOAD_SIZE) <= TWO_64
      ensures gap.None? <==> Covered(addr0, size0)
      ensures gap.Some? ==>
                var (addr, end) := gap.value;
                && addr0 <= addr <= end < WindowEnd(addr0, size0)
                && At(loaded.ranges, addr) == 0 && At(loaded.ranges, end) == 0
                && (forall k :: addr0 <= k < addr ==> At(loaded.ranges, k) == 1)
                && (forall k :: end < k < WindowEnd(addr0, size0) ==> At(loaded.ranges, k) == 1)
    {
      var addr := addr0;
      var size: U64 := Max(size0, SYM_LOAD_SIZE);
      var end: U64 := addr + size - 1;
      end := Min(end, memorySize - 1);
      var lowRange := loaded.RangeOf(addr);
      if lowRange.val == 1 {
        addr := lowRange.high + 1;
        if addr == 0 || addr > end {
          return None;
        }
      }
      assert At(loaded.ranges, addr) == 0;
      var highRange := loaded.RangeOf(end);
      if highRange.val == 1 {
        if highRange.low == 0 {
          return None;
        }
        end := highRange.low - 1;
        if end < addr {
          return None;
        }
      }
      gap := Some((addr, end));
    }

    /** Every address of the window is marked. */
    ghost predicate Covered(addr: nat, size: nat)
      requires Ranges()
      reads this, loaded
    {
      forall k :: addr <= k < WindowEnd(addr, size) ==> At(loaded.ranges, k) == 1
    }

    ghost function WindowEnd(addr: nat, size: nat): int {
      Min(addr + Max(size, SYM_LOAD_SIZE), vm.memorySize)
    }

    /** Makes sure the symbols of [addr, addr + max(size, SYM_LOAD_SIZE)), cut at the end of memory, are
        recorded. */
    method Preload(addr: U64, size: U64) returns (r: Fetch)
      requires Truthful() && addr < vm.memorySize && addr + Max(size, SYM_LOAD_SIZE) <= TWO_64
      modifies this, loaded, api
      ensures Truthful()
      ensures old(mapSyms).Keys <= mapSyms.Keys
      ensures r != QueryThrew ==> Covered(addr, size)
      ensures r != QueryThrew ==>
                forall k :: addr <= k < vm.memorySize && (k < addr + size || k < addr + 256) ==>
                  At(loaded.ranges, k) == 1
      ensures r == QueryThrew ==> unchanged(this) && unchanged(loaded) && !Lists(vm)
      ensures forall k :: 0 <= k < vm.memorySize && old(At(loaded.ranges, k)) == 1 ==> At(loaded.ranges, k) == 1
      // Nothing is asked when the window is already loaded. Otherwise there is one query, whether it throws or
      // not: inside memory, from an address not loaded to an address not loaded. An answer lowers the number
      // of such addresses.
      ensures old(Covered(addr, size)) ==> r == Loaded && api.asked == old(api.asked)
      ensures !old(Covered(addr, size)) ==> AskedOnce(old(api.asked), api.asked, old(loaded.ranges), vm.memorySize)
      ensures !old(Covered(addr, size)) && r != QueryThrew ==>
                Unloaded(loaded.ranges, vm.memorySize) < old(Unloaded(loaded.ranges, vm.memorySize))
      // A throw of get_symb_infos is exactly what loses completeness, and from a VM that lists ranges a
      // complete table is loaded exactly when the VM can tell the infos of the symbols in the window.
      ensures old(Complete()) ==> (Complete() <==> r != InfosThrew)
      ensures old(Complete()) && Lists(vm) ==> (r == Loaded <==> Readable(addr, WindowEnd(addr, size)))
      ensures old(Complete()) && Lists(vm) ==> (Complete() <==> Readable(addr, WindowEnd(addr, size)))
    {
      hide AnsweredBy, Recorded, AskedOnce, Useful, Distinct, Readable, Honest, Covered, Overwritten, Unloaded,
           Counted, At;
      var gap := Gap(addr, size);
      if gap.None? {
        if Complete() {
          CoveredReadable(addr, size);
        }
        WindowLoaded(addr, size);
        return Loaded;
      }
      var (from, end) := gap.value;
      OneQuery(api.asked, from, end - from + 1, loaded.ranges, vm.memorySize);
      r := Load(from, end);
      if r != QueryThrew {
        GapClosed(addr, size, from, end, old(loaded.ranges));
        WindowLoaded(addr, size);
      }
      if old(Complete()) && r != QueryThrew {
        FetchedComplete(from, end - from + 1, old(mapSyms).Keys, old(loaded.ranges));
        GapReadable(addr, size, from, end - from + 1, old(mapSyms).Keys, old(loaded.ranges));
      }
    }

    lemma WindowLoaded(addr: nat, size: nat)
      requires Ranges() && Covered(addr, size)
      ensures forall k :: addr <= k < vm.memorySize && (k < addr + size || k < addr + 256) ==> At(loaded.ranges, k) == 1
    {
    }

    /** Marking the gap covers the window, and unmarks nothing. */
    lemma GapClosed(addr: nat, size: nat, from: nat, end: nat, before: seq<Node<int>>)
      requires Ranges() && 0 < |before| && addr <= from <= end < WindowEnd(addr, size)
      requires Overwritten(before, loaded.ranges, 0, vm.memorySize - 1, from, end, 1)
      requires forall k :: addr <= k < from || end < k < WindowEnd(addr, size) ==> At(before, k) == 1
      ensures Covered(addr, size)
      ensures forall k :: 0 <= k < vm.memorySize && At(before, k) == 1 ==> At(loaded.ranges, k) == 1
    {
    }

    lemma CoveredReadable(addr: nat, size: nat)
      requires Truthful() && Complete() && Covered(addr, size)
      ensures Readable(addr, WindowEnd(addr, size))
    {
    }

    /** The VM can tell the infos of every symbol defined in [lo, hi). */
    ghost predicate Readable(lo: int, hi: int) {
      forall id <- vm.defs :: lo <= vm.defs[id].addr < hi ==> id in vm.readable
    }

    /** Around the gap everything is recorded, hence readable: only the gap's own symbols matter. */
    lemma GapReadable(addr: nat, size: nat, from: U64, n: U64, known: set<U32>, before: seq<Node<int>>)
      requires Honest(vm) && 0 < n && from + n <= vm.memorySize && 0 < |before| && known <= vm.readable
      requires addr <= from && from + n <= WindowEnd(addr, size) && vm.symbols(from, n).Some?
      requires forall k :: addr <= k < from || from + n <= k < WindowEnd(addr, size) ==> At(before, k) == 1
      requires forall id <- vm.defs :: At(before, vm.defs[id].addr) == 1 ==> id in known
      ensures (forall id <- vm.symbols(from, n).value :: id in vm.readable) <==> Readable(addr, WindowEnd(addr, size))
    {
      assert forall id :: id in vm.symbols(from, n).value <==> id in vm.defs && from <= vm.defs[id].addr < from + n;
    }

    /** Completeness after a fetch, given completeness before it. */
    lemma FetchedComplete(from: U64, n: U64, known: set<U32>, before: seq<Node<int>>)
      requires Truthful() && known <= mapSyms.Keys && 0 < n && from + n <= vm.memorySize && 0 < |before|
      requires Overwritten(before, loaded.ranges, 0, vm.memorySize - 1, from, from + n - 1, 1)
      requires forall id <- vm.defs :: At(before, vm.defs[id].addr) == 1 ==> id in known
      requires vm.symbols(from, n).Some?
      ensures Complete() <==> forall id <- vm.symbols(from, n).value :: id in mapSyms
    {
      assert forall id :: id in vm.symbols(from, n).value <==> id in vm.defs && from <= vm.defs[id].addr < from + n;
      if forall id <- vm.symbols(from, n).value :: id in mapSyms {
        forall id | id in vm.defs && At(loaded.ranges, vm.defs[id].addr) == 1
          ensures id in mapSyms
        {
          if from <= vm.defs[id].addr < from + n {
            assert id in vm.symbols(from, n).value;
          }
        }
      }
    }

    /** Marks a gap as loaded, which makes up for one more query. */
    method Mark(from: U64, end: U64, ghost n: nat)
      requires Ranges() && Counted(n) && from <= end < vm.memorySize && At(loaded.ranges, from) == 0
      modifies loaded
      ensures Ranges() && Counted(n + 1)
      ensures Overwritten(old(loaded.ranges), loaded.ranges, 0, vm.memorySize - 1, from, end, 1)
      ensures Unloaded(loaded.ranges, vm.memorySize) < old(Unloaded(loaded.ranges, vm.memorySize))
    {
      loaded.Set(from, end, 1);
      UnloadedFalls(old(loaded.ranges), loaded.ranges, vm.memorySize, from);
    }

    /** Asks for the symbols of a gap, marks it, and records them up to the first that throws. */
    method Load(from: U64, end: U64) returns (r: Fetch)
      requires Truthful() && from <= end < vm.memorySize && At(loaded.ranges, from) == 0
      modifies `mapSyms, `symsPos, loaded, api
      ensures Truthful() && api.asked == old(api.asked) + [(from, end - from + 1)]
      ensures match vm.symbols(from, end - from + 1)
              case None => r == QueryThrew && unchanged(this) && unchanged(loaded)
              case Some(ids) =>
                && r != QueryThrew && old(mapSyms).Keys <= mapSyms.Keys
                && (r == Loaded <==> forall id <- ids :: id in mapSyms)
                && (r == Loaded <==> forall id <- ids :: id in vm.readable)
                && Overwritten(old(loaded.ranges), loaded.ranges, 0, vm.memorySize - 1, from, end, 1)
                && Unloaded(loaded.ranges, vm.memorySize) < old(Unloaded(loaded.ranges, vm.memorySize))
    {
      hide AnsweredBy, Recorded;
      var n: U64 := end - from + 1;
      Logged(vm, api.asked, (from, n));
      var answer := api.Symbols(from, n);
      if answer.None? {
        return QueryThrew;
      }
      Mark(from, end, AnsweredBy(vm, old(api.asked)));
      r := LoadAll(answer.value);
    }

    /** Records the listed symbols, up to the first that throws. */
    method LoadAll(syms: seq<U32>) returns (r: Fetch)
      requires Tables() && Distinct(vm.defs) && forall id <- syms :: id in vm.defs
      modifies `mapSyms, `symsPos
      ensures Tables() && old(mapSyms).Keys <= mapSyms.Keys
      ensures r == Loaded || r == InfosThrew
      ensures r == Loaded <==> forall id <- syms :: id in mapSyms
      ensures r == Loaded <==> forall id <- syms :: id in vm.readable
    {
      var i := 0;
      while i < |syms|
        invariant 0 <= i <= |syms| && Tables() && old(mapSyms).Keys <= mapSyms.Keys
        invariant forall id <- syms[..i] :: id in mapSyms
      {
        assert syms[i] in syms;
        var ok := LoadSymbol(syms[i]);
        if !ok {
          return InfosThrew;
        }
        i := i + 1;
      }
      assert syms[..i] == syms;
      r := Loaded;
    }

    /** The ids recorded in [addr, addr + size), by address; all those defined there if nothing was lost. */
    method GetSymbols(addr: U64, size: U64) returns (r: Option<seq<U32>>)
      requires Truthful() && addr < vm.memorySize && addr + Max(size, SYM_LOAD_SIZE) <= TWO_64
      modifies this, loaded, api
      ensures Truthful()
      ensures if old(Covered(addr, size)) then api.asked == old(api.asked)
              else AskedOnce(old(api.asked), api.asked, old(loaded.ranges), vm.memorySize)
      ensures r.Some? && addr + size < TWO_64 ==> IsListing(mapSyms, addr, addr + size, r.value)
      ensures r.Some? && addr + size == TWO_64 ==> r.value == []
      ensures r.Some? && old(Complete()) ==> Complete()
      ensures r.Some? && old(Complete()) && addr + size < TWO_64 ==> IsListing(vm.defs, addr, addr + size, r.value)
      ensures Lists(vm) ==> Covered(addr, size)
      ensures old(Covered(addr, size)) ==> r.Some?
      ensures old(Complete()) && Lists(vm) ==> (r.Some? <==> Readable(addr, WindowEnd(addr, size)))
      ensures old(Complete()) && Lists(vm) ==> (Complete() <==> Readable(addr, WindowEnd(addr, size)))
    {
      hide Honest, Recorded, Marks, Lists, IsListing, Readable, AskedOnce;
      var fetch := Preload(addr, size);
      if fetch != Loaded {
        return None;
      }
      var end: U64 := (addr + size) % TWO_64;
      var res := Scan(vm.defs, mapSyms, symsPos, addr, end);
      r := Some(res);
      if old(Complete()) && addr + size < TWO_64 {
        AllKnown(addr, size);
        ListingComplete(vm.defs, mapSyms, addr, addr + size, res);
      }
    }

    /** Every symbol defined in a covered window is recorded. */
    lemma AllKnown(addr: nat, size: nat)
      requires Truthful() && Complete() && Covered(addr, size)
      ensures forall id <- vm.defs :: addr <= vm.defs[id].addr < addr + Max(size, SYM_LOAD_SIZE) ==> id in mapSyms
      ensures forall id <- mapSyms :: id in vm.defs && mapSyms[id] == vm.defs[id]
    {
    }

    /** The id of the symbol recorded at `addr`, or VM_SYM_NULL. */
    method GetSymbolAt(addr: U64) returns (r: Option<U32>)
      requires Truthful()
      requires WindowStart(addr) < vm.memorySize
      requires addr + SYM_LOAD_SIZE / 2 <= TWO_64
      modifies this, loaded, api
      ensures Truthful()
      ensures if old(Covered(WindowStart(addr), SYM_LOAD_SIZE)) then api.asked == old(api.asked)
              else AskedOnce(old(api.asked), api.asked, old(loaded.ranges), vm.memorySize)
      ensures r.Some? && old(Complete()) ==> Complete()
      ensures r.Some? ==>
                forall k :: 0 <= k < vm.memorySize && addr - 128 <= k < addr + 128 ==> At(loaded.ranges, k) == 1
      ensures r.Some? ==> forall id <- mapSyms :: mapSyms[id].addr == addr ==> r.value == id
      ensures r.Some? && (forall id <- mapSyms :: mapSyms[id].addr != addr) ==> r.value == 0xFFFF_FFFF
      ensures r.Some? && old(Complete()) ==> forall id <- vm.defs :: vm.defs[id].addr == addr ==> r.value == id
      ensures r.Some? && (forall id <- vm.defs :: vm.defs[id].addr != addr) ==> r.value == VM_SYM_NULL
      ensures var end := WindowEnd(WindowStart(addr), SYM_LOAD_SIZE);
              old(Complete()) && Lists(vm) ==>
                (r.Some? <==> Readable(WindowStart(addr), end)) && (Complete() <==> Readable(WindowStart(addr), end))
    {
      hide Honest, Marks, Lists, Distinct, AskedOnce;
      var base := WindowStart(addr);
      var fetch := Preload(base, SYM_LOAD_SIZE);
      if fetch != Loaded {
        return None;
      }
      if old(Complete()) {
        AllKnown(base, SYM_LOAD_SIZE);
      }
      assert forall id <- mapSyms :: Entry(mapSyms[id].addr, id) in symsPos;
      var p := LowerBound(symsPos, addr);
      if p == |symsPos| || symsPos[p].addr != addr {
        r := Some(VM_SYM_NULL);
      } else {
        r := Some(symsPos[p].id);
      }
    }

    method GetSymbolInfos(id: U32) returns (r: Option<Symbol>)
      requires Truthful()
      modifies this
      ensures Truthful() && (old(Complete()) ==> Complete())
      ensures r.Some? ==> id in vm.defs && r.value == vm.defs[id]
      ensures r.Some? <==> id in vm.defs && id in vm.readable
    {
      var ok := LoadSymbol(id);
      r := if ok then Some(mapSyms[id]) else None;
    }

    method FindSymId(name: M.Text) returns (r: Option<U32>)
      requires Truthful()
      modifies this
      ensures Truthful() && (old(Complete()) ==> Complete())
      ensures r.Some? ==> r == vm.find(name) && r.value in mapSyms
      ensures r.Some? <==> vm.find(name).Some? && vm.find(name).value in vm.defs && vm.find(name).value in vm.readable
    {
      r := api.FindSymId(name);
      if r.Some? {
        var ok := LoadSymbol(r.value);
        if !ok {
          r := None;
        }
      }
    }
  }

  /** A slice of the address table between two bounds lists the recorded symbols of that range. */
  lemma SliceLists(defs: map<U32, Symbol>, ms: map<U32, Symbol>, es: seq<Entry>, addr: nat, end: nat,
                   first: nat, last: nat, res: seq<U32>)
    requires Recorded(defs, ms, es)
    requires first <= last <= |es| && IsLowerBound(es, addr, first)
    requires last < |es| ==> end <= es[last].addr
    requires |res| == last - first
    requires forall j :: first <= j < last ==> es[j].addr < end && res[j - first] == es[j].id
    ensures IsListing(ms, addr, end, res)
  {
    assert forall i :: 0 <= i < |res| ==> res[i] == es[first + i].id by {
      assert forall i :: 0 <= i < |res| ==> res[i] == res[(first + i) - first];
    }
    forall id
      ensures id in res <==> id in ms && addr <= ms[id].addr < end
    {
      if id in ms && addr <= ms[id].addr < end {
        var i :| 0 <= i < |es| && es[i] == Entry(ms[id].addr, id);
        assert first <= i < last;
        assert res[i - first] == id;
      }
    }
  }

  /** The ids recorded in [addr, end), read off the address table. */
  method Scan(ghost defs: map<U32, Symbol>, ghost ms: map<U32, Symbol>, es: seq<Entry>, addr: U64, end: U64)
      returns (res: seq<U32>)
    requires Recorded(defs, ms, es)
    ensures IsListing(ms, addr, end, res)
    ensures end <= addr ==> res == []
  {
    res := [];
    var it := LowerBound(es, addr);
    ghost var first := it;
    while it < |es| && es[it].addr < end
      invariant first <= it <= |es| && |res| == it - first
      invariant forall j :: first <= j < it ==> es[j].addr < end && res[j - first] == es[j].id
    {
      res := res + [es[it].id];
      it := it + 1;
    }
    SliceLists(defs, ms, es, addr, end, first, it, res);
    assert res != [] ==> es[first].addr < end;
  }

  /** A listing of the recorded symbols lists the defined ones when all of these are recorded. */
  lemma ListingComplete(defs: map<U32, Symbol>, ms: map<U32, Symbol>, addr: nat, end: nat, res: seq<U32>)
    requires IsListing(ms, addr, end, res)
    requires forall id <- ms :: id in defs && ms[id] == defs[id]
    requires forall id <- defs :: addr <= defs[id].addr < end ==> id in ms
    ensures IsListing(defs, addr, end, res)
  {
    forall i, j | 0 <= i < j < |res|
      ensures defs[res[i]].addr < defs[res[j]].addr
    {
      assert res[i] in res && res[j] in res;
    }
  }

  // Whole histories.

  datatype Lookup = InRange(addr: U64, size: U64) | AtAddress(addr: U64)

  function WindowStart(addr: U64): U64 {
    if addr < SYM_LOAD_SIZE / 2 then 0 else addr - SYM_LOAD_SIZE / 2
  }

  /** The lookup is in memory and its window does not overflow. */
  ghost predicate Legal(vm: Vm, q: Lookup) {
    match q
    case InRange(addr, size) => addr < vm.memorySize && addr + Max(size, SYM_LOAD_SIZE) <= TWO_64 &&
        addr + size < TWO_64
    case AtAddress(addr) => WindowStart(addr) < vm.memorySize && addr + SYM_LOAD_SIZE / 2 <= TWO_64
  }

  /** What the VM itself would have to say. */
  ghost predicate Answers(vm: Vm, q: Lookup, ids: seq<U32>) {
    match q
    case InRange(addr, size) => IsListing(vm.defs, addr, addr + size, ids)
    case AtAddress(addr) =>
      |ids| == 1 && (forall id <- vm.defs :: vm.defs[id].addr == addr ==> ids[0] == id)
      && ((forall id <- vm.defs :: vm.defs[id].addr != addr) ==> ids[0] == VM_SYM_NULL)
  }

  /** With a VM that does not throw, every lookup of every history is answered, and answered as the VM
      defines it. All queries of the history are inside memory, and there are at most as many as addresses. */
  method LookUpAll(api: VmApi, qs: seq<Lookup>) returns (answers: seq<seq<U32>>)
    requires Honest(api.vm) && Lists(api.vm) && api.vm.defs.Keys <= api.vm.readable && api.asked == []
    requires forall q <- qs :: Legal(api.vm, q)
    modifies api
    ensures |answers| == |qs| && forall i :: 0 <= i < |qs| ==> Answers(api.vm, qs[i], answers[i])
    ensures |api.asked| <= api.vm.memorySize
    ensures forall q <- api.asked :: 0 < q.1 && q.0 + q.1 <= api.vm.memorySize
  {
    hide Honest, Lists, Answers, IsListing;
    var table := new SymbolTable(api);
    answers := [];
    var i := 0;
    while i < |qs|
      invariant 0 <= i <= |qs| == |answers| + (|qs| - i) && fresh(table) && fresh(table.loaded)
      invariant table.api == api && table.Truthful() && table.Complete()
      invariant forall j :: 0 <= j < i ==> Answers(api.vm, qs[j], answers[j])
    {
      assert qs[i] in qs;
      var ids := LookUp(table, qs[i]);
      answers := answers + [ids];
      i := i + 1;
    }
    AllAnswered(api.vm, api.asked);
  }

  method LookUp(table: SymbolTable, q: Lookup) returns (ids: seq<U32>)
    requires table.Truthful() && table.Complete() && Legal(table.vm, q)
    requires Lists(table.vm) && table.vm.defs.Keys <= table.vm.readable
    modifies table, table.loaded, table.api
    ensures table.Truthful() && table.Complete() && Answers(table.vm, q, ids)
  {
    hide Honest, Lists, Recorded;
    match q
    case InRange(addr, size) =>
      var r := table.GetSymbols(addr, size);
      ids := r.value;
    case AtAddress(addr) =>
      var r := table.GetSymbolAt(addr);
      ids := [r.value];
  }

  /** A VM that lists its only symbol, but throws on its infos. */
  function ThrowingVm(): Vm {
    Vm(1000, map[7 := M.SymbolInfos(7, [], 3)],
       (a: U64, n: U64) => if a <= 3 < a + n then Some([7]) else Some([]), {}, (name: M.Text) => None)
  }

  lemma ThrowingVmHonest()
    ensures Honest(ThrowingVm()) && Lists(ThrowingVm())
    ensures ThrowingVm().memorySize == 1000 && 7 in ThrowingVm().defs && ThrowingVm().defs[7].addr == 3
    ensures ThrowingVm().readable == {}
  {
  }

  /** Such a VM makes the debugger answer, without any error, that the symbol does not exist: the range stays
      marked although the load was abandoned. */
  method ThrowHidesSymbol() returns (first: Option<seq<U32>>, second: Option<seq<U32>>)
    ensures first == None && second == Some([])
  {
    ThrowingVmHonest();
    hide ThrowingVm, Honest, Lists, AskedOnce, AnsweredBy, Useful;
    var api := new VmApi(ThrowingVm());
    var table := new SymbolTable(api);
    first := table.GetSymbols(0, 10);
    assert table.mapSyms.Keys == {};
    second := table.GetSymbols(0, 10);
    ListingUnique(map[], 0, 10, second.value, []);
  }

  /** A non-empty query inside memory that starts and ends on an address not loaded. */
  ghost predicate Useful(ns: seq<Node<int>>, memorySize: nat, a: nat, n: nat)
    requires 0 < |ns|
  {
    0 < n && a + n <= memorySize && At(ns, a) == 0 && At(ns, a + n - 1) == 0
  }

  /** There was one query in between, and a useful one. */
  ghost predicate AskedOnce(before: seq<(U64, U64)>, after: seq<(U64, U64)>, ns: seq<Node<int>>, memorySize: nat)
    requires 0 < |ns|
  {
    exists a: U64, n: U64 :: after == before + [(a, n)] && Useful(ns, memorySize, a, n)
  }

  lemma OneQuery(before: seq<(U64, U64)>, a: U64, n: U64, ns: seq<Node<int>>, memorySize: nat)
    requires 0 < |ns| && 0 < n && a + n <= memorySize && At(ns, a) == 0 && At(ns, a + n - 1) == 0
    ensures AskedOnce(before, before + [(a, n)], ns, memorySize)
  {
    assert Useful(ns, memorySize, a, n);
  }

  lemma Logged(vm: Vm, log: seq<(U64, U64)>, q: (U64, U64))
    ensures AnsweredBy(vm, log + [q]) == AnsweredBy(vm, log) + if vm.symbols(q.0, q.1).Some? then 1 else 0
  {
    assert (log + [q])[..|log|] == log;
  }

  lemma {:induction false} FreshCount(ns: seq<Node<int>>, n: nat)
    requires 0 < |ns|
    ensures Unloaded(ns, n) <= n
  {
    if n > 0 {
      FreshCount(ns, n - 1);
    }
  }
}
