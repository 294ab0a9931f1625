/** The client's cache of register infos and values (src/mess/db-client.cc), against the registers of the
    VM it is connected to. */
module RegisterCache {
  import opened Common
  import M = Messages

  type Bytes = seq<Byte>
  type RegInfos = M.RegInfos
  type Values = map<U32, Bytes>
  /** What the VM says of its registers. */
  type Defs = map<U32, RegInfos>

  /** Infos carry the id they were asked for, no value, and a size that is not zero. */
  ghost predicate Defined(defs: Defs) {
    forall id <- defs :: defs[id].idx == id && defs[id].val == [] && 0 < defs[id].size
  }

  /** Every register has a value of its own size. */
  ghost predicate Sized(defs: Defs, vals: Values) {
    vals.Keys == defs.Keys && forall id <- defs :: |vals[id]| == defs[id].size
  }

  /** A name finds the register that carries it. */
  ghost predicate Finds(defs: Defs, find: M.Text -> Option<U32>) {
    forall name, id :: find(name) == Some(id) <==> id in defs && defs[id].name == name
  }

  /** The values after writing `bufs` one after the other. */
  function Written(vals: Values, ids: seq<U32>, bufs: seq<Bytes>): Values
    requires |ids| == |bufs|
  {
    if ids == [] then vals
    else
      var n := |ids| - 1;
      Written(vals, ids[..n], bufs[..n])[ids[n] := bufs[n]]
  }

  /** Where each piece starts when pieces of these sizes are laid out one after the other. */
  function Offset(sizes: seq<nat>, i: nat): nat
    requires i <= |sizes|
  {
    if i == 0 then 0 else Offset(sizes, i - 1) + sizes[i - 1]
  }

  lemma {:induction false} OffsetGrows(sizes: seq<nat>, i: nat, j: nat)
    requires i < j <= |sizes|
    ensures Offset(sizes, i) + sizes[i] <= Offset(sizes, j)
  {
    if i + 1 < j {
      OffsetGrows(sizes, i, j - 1);
    }
  }

  /** The values of the first `n` registers asked for, one after the other. */
  function Laid(vals: Values, ids: seq<U32>, n: nat): Bytes
    requires n <= |ids|
  {
    if n == 0 then [] else Laid(vals, ids, n - 1) + if ids[n - 1] in vals then vals[ids[n - 1]] else []
  }

  lemma {:induction false} LaidLength(vals: Values, ids: seq<U32>, sizes: seq<nat>, n: nat)
    requires n <= |ids| == |sizes| && forall i :: 0 <= i < |ids| ==> ids[i] in vals && sizes[i] == |vals[ids[i]]|
    ensures |Laid(vals, ids, n)| == Offset(sizes, n)
  {
    if n > 0 {
      LaidLength(vals, ids, sizes, n - 1);
    }
  }

  /** Cutting the laid out values at the running sums of their sizes gives each value back. */
  lemma {:induction false} CutIsValue(vals: Values, ids: seq<U32>, sizes: seq<nat>, n: nat, i: nat)
    requires i < n <= |ids| == |sizes| && forall i :: 0 <= i < |ids| ==> ids[i] in vals && sizes[i] == |vals[ids[i]]|
    ensures Offset(sizes, i) + sizes[i] <= |Laid(vals, ids, n)|
    ensures Laid(vals, ids, n)[Offset(sizes, i)..Offset(sizes, i) + sizes[i]] == vals[ids[i]]
  {
    LaidLength(vals, ids, sizes, n - 1);
    var front, last := Laid(vals, ids, n - 1), vals[ids[n - 1]];
    assert Laid(vals, ids, n) == front + last;
    if i < n - 1 {
      CutIsValue(vals, ids, sizes, n - 1, i);
      SliceOfFront(front, last, Offset(sizes, i), Offset(sizes, i) + sizes[i]);
    } else {
      SliceOfBack(front, last);
    }
  }

  lemma SliceOfFront(a: Bytes, b: Bytes, lo: nat, hi: nat)
    requires lo <= hi <= |a|
    ensures (a + b)[lo..hi] == a[lo..hi]
  {
  }

  lemma SliceOfBack(a: Bytes, b: Bytes)
    ensures (a + b)[|a|..|a| + |b|] == b
  {
  }

  /** Copies `val` into a buffer, from position `pos`. */
  method CopyTo(buf: array<Byte>, pos: nat, val: Bytes)
    requires pos + |val| <= buf.Length
    modifies buf
    ensures buf[..pos + |val|] == old(buf[..pos]) + val
  {
    var k := 0;
    while k < |val|
      invariant 0 <= k <= |val| && buf[..pos] == old(buf[..pos]) && buf[pos..pos + k] == val[..k]
    {
      buf[pos + k] := val[k];
      k := k + 1;
    }
    assert buf[..pos + |val|] == buf[..pos] + buf[pos..pos + |val|];
  }

  method LayOut(vals: Values, ids: seq<U32>, buf: array<Byte>, offs: seq<nat>, sizes: seq<nat>)
    requires |ids| == |offs| == |sizes| && buf.Length == Offset(sizes, |sizes|)
    requires forall i :: 0 <= i < |ids| ==> ids[i] in vals && sizes[i] == |vals[ids[i]]|
    requires forall i :: 0 <= i < |offs| ==> offs[i] == Offset(sizes, i)
    modifies buf
    ensures buf[..] == Laid(vals, ids, |ids|)
  {
    var i := 0;
    ghost var end := 0;
    while i < |ids|
      invariant 0 <= i <= |ids| && end == Offset(sizes, i) <= buf.Length
      invariant buf[..end] == Laid(vals, ids, i)
    {
      OffsetGrows(sizes, i, |sizes|);
      var val := vals[ids[i]];
      CopyTo(buf, offs[i], val);
      end := end + |val|;
      i := i + 1;
    }
    assert buf[..] == buf[..end];
  }

  /** The VM's registers behind the debugger. Registers are independent and read back what was written.
      Writing a locked register throws. */
  class Vm {
    const defs: Defs
    const find: M.Text -> Option<U32>
    const locked: set<U32>
    var vals: Values

    ghost predicate Valid()
      reads this
    {
      Defined(defs) && Sized(defs, vals) && Finds(defs, find)
    }

    constructor (defs: Defs, find: M.Text -> Option<U32>, locked: set<U32>, vals: Values)
      requires Defined(defs) && Sized(defs, vals) && Finds(defs, find)
      ensures Valid() && this.defs == defs && this.find == find && this.locked == locked && this.vals == vals
    {
      this.defs, this.find, this.locked, this.vals := defs, find, locked, vals;
    }

    method GetRegsInfos(ids: seq<U32>) returns (r: Option<seq<RegInfos>>)
      ensures r.Some? <==> forall id <- ids :: id in defs
      ensures r.Some? ==> |r.value| == |ids| && forall i :: 0 <= i < |ids| ==>
              ids[i] in defs && r.value[i] == defs[ids[i]]
    {
      var infos: seq<RegInfos> := [];
      for i := 0 to |ids|
        invariant |infos| == i
        invariant forall j :: 0 <= j < i ==> ids[j] in defs && infos[j] == defs[ids[j]]
      {
        if ids[i] !in defs {
          return None;
        }
        infos := infos + [defs[ids[i]]];
      }
      r := Some(infos);
    }

    method FindRegsIds(names: seq<M.Text>) returns (r: Option<seq<U32>>)
      ensures r.Some? <==> forall name <- names :: find(name).Some?
      ensures r.Some? ==> |r.value| == |names| && forall i :: 0 <= i < |names| ==> find(names[i]) == Some(r.value[i])
    {
      var ids: seq<U32> := [];
      for i := 0 to |names|
        invariant |ids| == i
        invariant forall j :: 0 <= j < i ==> find(names[j]) == Some(ids[j])
      {
        if find(names[i]) == None {
          return None;
        }
        ids := ids + [find(names[i]).value];
      }
      r := Some(ids);
    }

    /** Copies each register's value to its place in the buffer. */
    method GetRegs(ids: seq<U32>, buf: array<Byte>, offs: seq<nat>, sizes: seq<nat>)
      requires Sized(defs, vals) && |ids| == |offs| == |sizes| && buf.Length == Offset(sizes, |sizes|)
      requires forall i :: 0 <= i < |ids| ==> ids[i] in defs && sizes[i] == defs[ids[i]].size
      requires forall i :: 0 <= i < |offs| ==> offs[i] == Offset(sizes, i)
      modifies buf
      ensures buf[..] == Laid(vals, ids, |ids|)
    {
      LayOut(vals, ids, buf, offs, sizes);
    }

    /** Writes the registers in order, up to the first that throws. */
    method SetRegs(ids: seq<U32>, bufs: seq<Bytes>) returns (done: nat)
      requires Valid() && |ids| == |bufs|
      requires forall i :: 0 <= i < |ids| ==> ids[i] in defs && |bufs[i]| == defs[ids[i]].size
      modifies this
      ensures Valid() && done == FirstLocked(ids, locked) && vals == Written(old(vals), ids[..done], bufs[..done])
    {
      hide Defined, Finds, Sized, Written;
      done := 0;
      assert ids[0..] == ids;
      WrittenNone(vals, ids, bufs);
      while done < |ids| && ids[done] !in locked
        invariant Valid() && 0 <= done <= |ids| && vals == Written(old(vals), ids[..done], bufs[..done])
        invariant done + FirstLocked(ids[done..], locked) == FirstLocked(ids, locked)
      {
        WrittenNext(old(vals), ids, bufs, done);
        SizedSet(defs, vals, ids[done], bufs[done]);
        vals := vals[ids[done] := bufs[done]];
        assert ids[done..][1..] == ids[done + 1..];
        done := done + 1;
      }
    }

    /** The program runs: registers take any values of their sizes. */
    method Run(next: Values)
      requires Valid() && Sized(defs, next)
      modifies this
      ensures Valid() && vals == next
    {
      vals := next;
    }
  }

  /** The first of these registers that cannot be written, or their number. */
  function FirstLocked(ids: seq<U32>, locked: set<U32>): (k: nat)
    ensures k <= |ids| && (forall i :: 0 <= i < k ==> ids[i] !in locked) && (k < |ids| ==> ids[k] in locked)
  {
    if ids == [] || ids[0] in locked then 0 else 1 + FirstLocked(ids[1..], locked)
  }

  lemma WrittenNone(vals: Values, ids: seq<U32>, bufs: seq<Bytes>)
    requires |ids| == |bufs|
    ensures Written(vals, ids[..0], bufs[..0]) == vals
  {
  }

  lemma WrittenNext(vals: Values, ids: seq<U32>, bufs: seq<Bytes>, i: nat)
    requires i < |ids| == |bufs|
    ensures Written(vals, ids[..i + 1], bufs[..i + 1]) == Written(vals, ids[..i], bufs[..i])[ids[i] := bufs[i]]
  {
    assert ids[..i + 1][..i] == ids[..i] && bufs[..i + 1][..i] == bufs[..i];
  }

  lemma SizedSet(defs: Defs, vals: Values, id: U32, buf: Bytes)
    requires Sized(defs, vals) && id in defs && |buf| == defs[id].size
    ensures Sized(defs, vals[id := buf])
  {
  }

  datatype ClientState = VmStopped | VmRunning

  /** Infos without the value. */
  function Bare(reg: RegInfos): RegInfos {
    reg.(val := [])
  }

  /** The cached infos are those of the VM, each with its value or with none. */
  ghost predicate Entries(defs: Defs, arr: seq<RegInfos>) {
    forall i :: 0 <= i < |arr| ==>
      arr[i].idx in defs && Bare(arr[i]) == defs[arr[i].idx] && (arr[i].val == [] || |arr[i].val| == arr[i].size)
  }

  /** An index points at entries of its keys, and has all keys. */
  ghost predicate IndexedById(arr: seq<RegInfos>, byId: map<U32, nat>) {
    && (forall id <- byId :: byId[id] < |arr| && arr[byId[id]].idx == id)
    && (forall i :: 0 <= i < |arr| ==> arr[i].idx in byId)
  }

  ghost predicate IndexedByName(arr: seq<RegInfos>, byName: map<M.Text, nat>) {
    && (forall name <- byName :: byName[name] < |arr| && arr[byName[name]].name == name)
    && (forall i :: 0 <= i < |arr| ==> arr[i].name in byName)
  }

  /** A register asked for twice at once has two entries, but only the one its id leads to ever holds a
      value. */
  ghost predicate OneValue(arr: seq<RegInfos>, byId: map<U32, nat>) {
    forall i :: 0 <= i < |arr| && arr[i].val != [] ==> arr[i].idx in byId && byId[arr[i].idx] == i
  }

  ghost predicate Indexed(defs: Defs, arr: seq<RegInfos>, byId: map<U32, nat>, byName: map<M.Text, nat>) {
    Entries(defs, arr) && IndexedById(arr, byId) && IndexedByName(arr, byName) && OneValue(arr, byId)
  }

  /** The cached values. */
  ghost function CacheOf(arr: seq<RegInfos>, byId: map<U32, nat>): Values {
    map id | id in byId && byId[id] < |arr| && arr[byId[id]].val != [] :: arr[byId[id]].val
  }

  /** std::map::emplace: a key already there keeps its value. */
  function Emplace<K>(m: map<K, nat>, k: K, v: nat): map<K, nat> {
    if k in m then m else m[k := v]
  }

  ghost predicate Extends<K>(m: map<K, nat>, m': map<K, nat>) {
    forall k <- m :: k in m' && m'[k] == m[k]
  }

  lemma AppendKeeps(defs: Defs, arr: seq<RegInfos>, byId: map<U32, nat>, byName: map<M.Text, nat>, id: U32)
    requires Defined(defs) && Indexed(defs, arr, byId, byName) && id in defs
    ensures Indexed(defs, arr + [defs[id]], Emplace(byId, id, |arr|), Emplace(byName, defs[id].name, |arr|))
    ensures CacheOf(arr + [defs[id]], Emplace(byId, id, |arr|)) == CacheOf(arr, byId)
  {
    BareDef(defs, id);
    AppendIndexed(defs, arr, byId, byName, defs[id]);
    AppendCache(arr, byId, defs[id]);
  }

  lemma BareDef(defs: Defs, id: U32)
    requires Defined(defs) && id in defs
    ensures Bare(defs[id]) == defs[id] && defs[id].idx == id && defs[id].val == []
  {
  }

  lemma AppendIndexed(defs: Defs, arr: seq<RegInfos>, byId: map<U32, nat>, byName: map<M.Text, nat>, reg: RegInfos)
    requires Indexed(defs, arr, byId, byName) && reg.idx in defs && Bare(reg) == defs[reg.idx] && reg.val == []
    ensures Indexed(defs, arr + [reg], Emplace(byId, reg.idx, |arr|), Emplace(byName, reg.name, |arr|))
  {
    assert Entries(defs, arr + [reg]) by {
      hide Bare;
    }
    AppendById(arr, byId, reg);
    AppendByName(arr, byName, reg);
  }

  lemma AppendById(arr: seq<RegInfos>, byId: map<U32, nat>, reg: RegInfos)
    requires IndexedById(arr, byId) && OneValue(arr, byId) && reg.val == []
    ensures IndexedById(arr + [reg], Emplace(byId, reg.idx, |arr|))
    ensures OneValue(arr + [reg], Emplace(byId, reg.idx, |arr|))
  {
  }

  lemma AppendByName(arr: seq<RegInfos>, byName: map<M.Text, nat>, reg: RegInfos)
    requires IndexedByName(arr, byName)
    ensures IndexedByName(arr + [reg], Emplace(byName, reg.name, |arr|))
  {
  }

  lemma AppendCache(arr: seq<RegInfos>, byId: map<U32, nat>, reg: RegInfos)
    requires (forall id <- byId :: byId[id] < |arr|) && reg.val == []
    ensures CacheOf(arr + [reg], Emplace(byId, reg.idx, |arr|)) == CacheOf(arr, byId)
  {
  }

  lemma EntryIndexed(defs: Defs, arr: seq<RegInfos>, byId: map<U32, nat>, byName: map<M.Text, nat>, i: nat)
    requires Indexed(defs, arr, byId, byName) && i < |arr|
    ensures arr[i].idx in byId && arr[i].name in byName
  {
  }

  /** What an index leads to. */
  lemma EntryOf(defs: Defs, arr: seq<RegInfos>, byId: map<U32, nat>, byName: map<M.Text, nat>, id: U32)
    requires Indexed(defs, arr, byId, byName) && id in byId
    ensures byId[id] < |arr| && id in defs && Bare(arr[byId[id]]) == defs[id] && arr[byId[id]].idx == id
    ensures id in CacheOf(arr, byId) <==> arr[byId[id]].val != []
    ensures id in CacheOf(arr, byId) ==> CacheOf(arr, byId)[id] == arr[byId[id]].val
  {
  }

  lemma AllKnown(defs: Defs, arr: seq<RegInfos>, byId: map<U32, nat>, byName: map<M.Text, nat>)
    requires Defined(defs) && Indexed(defs, arr, byId, byName)
    ensures forall id <- byId :: id in defs && defs[id].name in byName
  {
  }

  lemma NamesFound(defs: Defs, arr: seq<RegInfos>, byId: map<U32, nat>, byName: map<M.Text, nat>,
                   find: M.Text -> Option<U32>)
    requires Defined(defs) && Indexed(defs, arr, byId, byName) && Finds(defs, find)
    ensures forall name <- byName :: byName[name] < |arr| && find(name) == Some(arr[byName[name]].idx)
  {
    forall name | name in byName
      ensures byName[name] < |arr| && find(name) == Some(arr[byName[name]].idx)
    {
      assert Bare(arr[byName[name]]) == defs[arr[byName[name]].idx];
    }
  }

  function WithValue(arr: seq<RegInfos>, at: nat, val: M.Text): (r: seq<RegInfos>)
    requires at < |arr|
    ensures |r| == |arr| && r[at] == arr[at].(val := val) && forall i :: 0 <= i < |arr| && i != at ==> r[i] == arr[i]
  {
    arr[at := arr[at].(val := val)]
  }

  lemma SetKeeps(defs: Defs, arr: seq<RegInfos>, byId: map<U32, nat>, byName: map<M.Text, nat>, id: U32, val: M.Text)
    requires Defined(defs) && Indexed(defs, arr, byId, byName) && id in byId && id in defs && |val| == defs[id].size
    ensures byId[id] < |arr| && Indexed(defs, WithValue(arr, byId[id], val), byId, byName)
    ensures CacheOf(WithValue(arr, byId[id], val), byId) == CacheOf(arr, byId)[id := val]
  {
    assert arr[byId[id]].size == Bare(arr[byId[id]]).size;
    SetIndexed(defs, arr, byId, byName, id, val);
    SetCache(arr, byId, id, val);
  }

  lemma SetEntries(defs: Defs, arr: seq<RegInfos>, i: nat, val: M.Text)
    requires Entries(defs, arr) && i < |arr| && (val == [] || |val| == arr[i].size)
    ensures Entries(defs, WithValue(arr, i, val))
  {
    SameButValue(arr[i], val);
    hide Bare;
  }

  lemma SetIndexed(defs: Defs, arr: seq<RegInfos>, byId: map<U32, nat>, byName: map<M.Text, nat>, id: U32, val: M.Text)
    requires Indexed(defs, arr, byId, byName) && id in byId && |val| == arr[byId[id]].size
    ensures Indexed(defs, WithValue(arr, byId[id], val), byId, byName)
  {
    SetEntries(defs, arr, byId[id], val);
    hide Bare, Entries;
  }

  lemma SameButValue(reg: RegInfos, val: M.Text)
    ensures Bare(reg.(val := val)) == Bare(reg)
  {
  }

  lemma SetCache(arr: seq<RegInfos>, byId: map<U32, nat>, id: U32, val: M.Text)
    requires (forall i <- byId :: byId[i] < |arr| && arr[byId[i]].idx == i) && id in byId && val != []
    ensures CacheOf(WithValue(arr, byId[id], val), byId) == CacheOf(arr, byId)[id := val]
  {
  }

  lemma NoValues(arr: seq<RegInfos>, byId: map<U32, nat>)
    requires forall i :: 0 <= i < |arr| ==> arr[i].val == []
    ensures CacheOf(arr, byId) == map[]
  {
  }

  lemma ClearKeeps(defs: Defs, arr: seq<RegInfos>, byId: map<U32, nat>, byName: map<M.Text, nat>, i: nat)
    requires Indexed(defs, arr, byId, byName) && i < |arr|
    ensures Indexed(defs, WithValue(arr, i, []), byId, byName)
  {
    SetEntries(defs, arr, i, []);
    hide Bare, Entries;
    assert IndexedById(WithValue(arr, i, []), byId);
    assert IndexedByName(WithValue(arr, i, []), byName);
    assert OneValue(WithValue(arr, i, []), byId);
  }

  // The cache and the VM's registers, as the client's calls move them.

  datatype Mem = Mem(cache: Values, vals: Values)

  /** Every cached value is the register's current one. */
  ghost predicate Coherent(m: Mem) {
    forall id <- m.cache :: id in m.vals && m.cache[id] == m.vals[id]
  }

  /** The cache after the values of these registers have been fetched, unless they were there. */
  function Filled(cache: Values, vals: Values, ids: seq<U32>): Values {
    map id | id in cache.Keys + vals.Keys && (id in cache || id in ids) :: if id in cache then cache[id] else vals[id]
  }

  lemma FilledNone(cache: Values, vals: Values, ids: seq<U32>)
    ensures Filled(cache, vals, ids[..0]) == cache
  {
  }

  lemma FilledNext(cache: Values, vals: Values, ids: seq<U32>, i: nat)
    requires i < |ids| && ids[i] !in cache && ids[i] in vals
    ensures Filled(cache, vals, ids[..i + 1]) == Filled(cache, vals, ids[..i])[ids[i] := vals[ids[i]]]
  {
    assert forall id :: id in ids[..i + 1] <==> id in ids[..i] || id == ids[i];
  }

  /** It is enough to fetch those that are missing. */
  lemma FilledMissing(cache: Values, vals: Values, ids: seq<U32>, miss: seq<U32>)
    requires forall id <- ids :: id in cache || id in miss
    requires forall id <- miss :: id in ids
    ensures Filled(cache, vals, miss) == Filled(cache, vals, ids)
  {
  }

  function Cut(v: Bytes, n: nat): Bytes {
    if n <= |v| then v[..n] else v
  }

  /** The first bytes of each register's value, as many as its size says. */
  function ReadAll(vals: Values, ids: seq<U32>, sizes: seq<nat>): (r: seq<Bytes>)
    ensures |r| == |ids|
    ensures forall i :: 0 <= i < |ids| ==>
              r[i] == if ids[i] in vals then Cut(vals[ids[i]], SizeAt(|ids|, sizes, i)) else []
  {
    seq(|ids|, i requires 0 <= i < |ids| => if ids[i] in vals then Cut(vals[ids[i]], SizeAt(|ids|, sizes, i)) else [])
  }

  lemma CutWithin(v: Bytes, n: nat)
    ensures n <= |v| ==> Cut(v, n) == v[..n]
  {
  }

  lemma FilledAt(cache: Values, vals: Values, ids: seq<U32>, i: nat)
    requires i < |ids| && ids[i] in vals
    ensures ids[i] in Filled(cache, vals, ids) && Filled(cache, vals, ids)[ids[i]] == (vals + cache)[ids[i]]
  {
  }

  lemma EntrySize(defs: Defs, arr: seq<RegInfos>, byId: map<U32, nat>, byName: map<M.Text, nat>, id: U32)
    requires Indexed(defs, arr, byId, byName) && id in CacheOf(arr, byId)
    ensures id in byId && byId[id] < |arr| && id in defs && |arr[byId[id]].val| == defs[id].size
  {
    assert Bare(arr[byId[id]]) == defs[id];
  }

  lemma DefIdx(defs: Defs, id: U32)
    requires Defined(defs) && id in defs
    ensures defs[id].idx == id
  {
  }

  lemma PrefixStep<T>(s: seq<T>, i: nat)
    requires i < |s|
    ensures s[..i + 1] == s[..i] + [s[i]]
  {
  }

  class DbClient {
    const vm: Vm
    var state: ClientState
    var regiArr: seq<RegInfos>
    var regiIdxMap: map<U32, nat>
    var regiNameMap: map<M.Text, nat>

    ghost predicate Valid()
      reads this, vm
    {
      vm.Valid() && Indexed(vm.defs, regiArr, regiIdxMap, regiNameMap)
    }

    ghost function Cache(): Values
      reads this
    {
      CacheOf(regiArr, regiIdxMap)
    }

    constructor (vm: Vm)
      requires vm.Valid()
      ensures Valid() && this.vm == vm && state == VmStopped && Cache() == map[]
    {
      this.vm, state, regiArr, regiIdxMap, regiNameMap := vm, VmStopped, [], map[], map[];
    }

    /** Adds freshly received infos; an id or a name already known keeps its entry. */
    method AddInfos(ids: seq<U32>, infos: seq<RegInfos>)
      requires Valid() && |ids| == |infos| && forall i :: 0 <= i < |ids| ==>
               ids[i] in vm.defs && infos[i] == vm.defs[ids[i]]
      modifies `regiArr, `regiIdxMap, `regiNameMap
      ensures Valid() && regiArr == old(regiArr) + infos && Cache() == old(Cache())
      ensures Extends(old(regiIdxMap), regiIdxMap) && Extends(old(regiNameMap), regiNameMap)
    {
      hide Indexed, CacheOf, Sized, Finds;
      var i := 0;
      while i < |infos|
        invariant 0 <= i <= |infos| && Valid() && regiArr == old(regiArr) + infos[..i] && Cache() == old(Cache())
        invariant Extends(old(regiIdxMap), regiIdxMap) && Extends(old(regiNameMap), regiNameMap)
      {
        var inf := infos[i];
        assert inf.idx == ids[i];
        AppendKeeps(vm.defs, regiArr, regiIdxMap, regiNameMap, ids[i]);
        regiIdxMap := Emplace(regiIdxMap, inf.idx, |regiArr|);
        regiNameMap := Emplace(regiNameMap, inf.name, |regiArr|);
        PrefixStep(infos, i);
        Assoc(old(regiArr), infos[..i], [inf]);
        regiArr := regiArr + [inf];
        i := i + 1;
      }
      assert infos[..i] == infos;
    }

    /** The keys not yet known, in the order given. */
    static method Unknown<K(==)>(keys: seq<K>, known: set<K>) returns (miss: seq<K>)
      ensures forall k <- miss :: k in keys && k !in known
      ensures forall i :: 0 <= i < |keys| ==> keys[i] in known || keys[i] in miss
    {
      miss := [];
      for i := 0 to |keys|
        invariant forall k <- miss :: k in keys && k !in known
        invariant forall j :: 0 <= j < i ==> keys[j] in known || keys[j] in miss
      {
        if keys[i] !in known {
          miss := miss + [keys[i]];
        }
      }
    }

    /** Makes sure the infos of all these registers are cached; false when the VM throws. */
    method FetchRegInfosById(ids: seq<U32>) returns (ok: bool)
      requires Valid()
      modifies `regiArr, `regiIdxMap, `regiNameMap
      ensures Valid() && Cache() == old(Cache())
      ensures ok <==> forall id <- ids :: id in vm.defs
      ensures ok ==> forall i :: 0 <= i < |ids| ==>
              ids[i] in regiIdxMap && ids[i] in vm.defs && vm.defs[ids[i]].name in regiNameMap
      ensures Extends(old(regiNameMap), regiNameMap)
    {
      hide Indexed, CacheOf, Sized, Finds, Defined;
      var miss := Unknown(ids, regiIdxMap.Keys);
      AllKnown(vm.defs, regiArr, regiIdxMap, regiNameMap);
      if miss == [] {
        return true;
      }
      var infos := vm.GetRegsInfos(miss);
      if infos == None {
        return false;
      }
      AddInfos(miss, infos.value);
      ok := true;
      forall j | 0 <= j < |miss|
        ensures miss[j] in regiIdxMap
      {
        EntryIndexed(vm.defs, regiArr, regiIdxMap, regiNameMap, |old(regiArr)| + j);
        DefIdx(vm.defs, miss[j]);
      }
      AllKnown(vm.defs, regiArr, regiIdxMap, regiNameMap);
    }

    method FetchRegInfosByName(names: seq<M.Text>) returns (ok: bool)
      requires Valid()
      modifies `regiArr, `regiIdxMap, `regiNameMap
      ensures Valid() && Cache() == old(Cache())
      ensures ok <==> forall name <- names :: vm.find(name).Some?
      ensures ok ==> forall name <- names :: name in regiNameMap
    {
      hide Indexed, CacheOf, Sized;
      var miss := Unknown(names, regiNameMap.Keys);
      NamesFound(vm.defs, regiArr, regiIdxMap, regiNameMap, vm.find);
      if miss == [] {
        assert forall name <- names :: name in regiNameMap;
        return true;
      }
      var idxs := vm.FindRegsIds(miss);
      if idxs == None {
        return false;
      }
      ok := FetchRegInfosById(idxs.value);
      forall i | 0 <= i < |miss|
        ensures idxs.value[i] in vm.defs && vm.defs[idxs.value[i]].name == miss[i]
      {
        assert vm.find(miss[i]) == Some(idxs.value[i]);
      }
    }

    /** Fetches the values of those of these registers that have none cached: one batched read into a single
        buffer, cut at the running sums of their sizes. */
    method FetchRegValsById(ids: seq<U32>) returns (ok: bool)
      requires Valid() && state == VmStopped
      modifies `regiArr, `regiIdxMap, `regiNameMap
      ensures Valid() && (ok <==> forall id <- ids :: id in vm.defs)
      ensures Cache() == if ok then Filled(old(Cache()), vm.vals, ids) else old(Cache())
      ensures ok ==> forall i :: 0 <= i < |ids| ==> ids[i] in regiIdxMap
    {
      hide Indexed, CacheOf, Filled, Finds, Defined, Laid;
      ok := FetchRegInfosById(ids);
      if ok {
        var miss, missSize := ListMissing(ids);
        FilledMissing(Cache(), vm.vals, ids, miss);
        FilledNone(Cache(), vm.vals, miss);
        if miss != [] {
          var missBufs, totalSize := PlaceBuffers(missSize);
          var fullBuff := new Byte[totalSize];
          vm.GetRegs(miss, fullBuff, missBufs, missSize);
          Store(miss, missSize, fullBuff);
        } else {
          assert miss[..0] == miss;
        }
      }
    }

    /** The registers without a cached value, and their sizes. */
    method ListMissing(ids: seq<U32>) returns (miss: seq<U32>, missSize: seq<nat>)
      requires Valid() && forall i :: 0 <= i < |ids| ==> ids[i] in regiIdxMap
      ensures |miss| == |missSize|
      ensures forall j :: 0 <= j < |miss| ==>
              miss[j] in regiIdxMap && miss[j] in vm.defs && missSize[j] == vm.defs[miss[j]].size
      ensures forall id <- miss :: id in ids && id !in Cache()
      ensures forall id <- ids :: id in Cache() || id in miss
    {
      hide Indexed, CacheOf, Finds, Sized;
      miss, missSize := [], [];
      for i := 0 to |ids|
        invariant |miss| == |missSize|
        invariant forall j :: 0 <= j < |miss| ==>
                  miss[j] in regiIdxMap && miss[j] in vm.defs && missSize[j] == vm.defs[miss[j]].size
        invariant forall id <- miss :: id in ids && id !in Cache()
        invariant forall j :: 0 <= j < i ==> ids[j] in Cache() || ids[j] in miss
      {
        EntryOf(vm.defs, regiArr, regiIdxMap, regiNameMap, ids[i]);
        var reg := regiArr[regiIdxMap[ids[i]]];
        if reg.val == [] {
          miss := miss + [reg.idx];
          missSize := missSize + [reg.size];
        }
      }
    }

    /** Where each missing value goes in one common buffer. */
    static method PlaceBuffers(missSize: seq<nat>) returns (missBufs: seq<nat>, bufPos: nat)
      ensures |missBufs| == |missSize| && bufPos == Offset(missSize, |missSize|)
      ensures forall j :: 0 <= j < |missBufs| ==> missBufs[j] == Offset(missSize, j)
    {
      missBufs, bufPos := [], 0;
      for i := 0 to |missSize|
        invariant |missBufs| == i && bufPos == Offset(missSize, i)
        invariant forall j :: 0 <= j < i ==> missBufs[j] == Offset(missSize, j)
      {
        missBufs := missBufs + [bufPos];
        bufPos := bufPos + missSize[i];
      }
    }

    method SetValue(id: U32, val: M.Text)
      requires Valid() && id in regiIdxMap && id in vm.defs && |val| == vm.defs[id].size
      modifies `regiArr
      ensures Valid() && Cache() == old(Cache())[id := val]
    {
      hide Indexed, CacheOf, Sized, Finds, Defined;
      SetKeeps(vm.defs, regiArr, regiIdxMap, regiNameMap, id, val);
      regiArr := WithValue(regiArr, regiIdxMap[id], val);
    }

    /** Puts the values read for these registers into their cache entries. */
    method Store(miss: seq<U32>, missSize: seq<nat>, fullBuff: array<Byte>)
      requires Valid() && |miss| == |missSize|
      requires forall j :: 0 <= j < |miss| ==>
               miss[j] in regiIdxMap && miss[j] in vm.defs && missSize[j] == vm.defs[miss[j]].size
      requires forall id <- miss :: id !in Cache()
      requires fullBuff[..] == Laid(vm.vals, miss, |miss|)
      modifies `regiArr
      ensures Valid() && Cache() == Filled(old(Cache()), vm.vals, miss)
    {
      hide Indexed, CacheOf, Filled, Finds, Defined;
      var bufPos := 0;
      FilledNone(Cache(), vm.vals, miss);
      for i := 0 to |miss|
        invariant Valid() && bufPos == Offset(missSize, i)
        invariant Cache() == Filled(old(Cache()), vm.vals, miss[..i])
      {
        CutIsValue(vm.vals, miss, missSize, |miss|, i);
        var val := fullBuff[bufPos..bufPos + missSize[i]];
        assert val == fullBuff[..][bufPos..bufPos + missSize[i]];
        FilledNext(old(Cache()), vm.vals, miss, i);
        SetValue(miss[i], val);
        bufPos := bufPos + missSize[i];
      }
      assert miss[..|miss|] == miss;
    }

    /** The cached value of each register, or the VM's if none was cached: as many bytes as asked for. */
    method GetRegs(ids: seq<U32>, sizes: seq<nat>) returns (r: Option<seq<Bytes>>)
      requires Valid() && state == VmStopped && SizesGiven(|ids|, sizes)
      requires forall i :: 0 <= i < |ids| && ids[i] in vm.defs ==> SizeAt(|ids|, sizes, i) <= vm.defs[ids[i]].size
      modifies `regiArr, `regiIdxMap, `regiNameMap
      ensures Valid() && (r.Some? <==> forall id <- ids :: id in vm.defs)
      ensures Cache() == if r.Some? then Filled(old(Cache()), vm.vals, ids) else old(Cache())
      ensures r.Some? ==> r.value == ReadAll(vm.vals + old(Cache()), ids, sizes)
    {
      hide Indexed, CacheOf, Filled, Finds, Defined, Uniform, Cut;
      var ok := FetchRegValsById(ids);
      if !ok {
        return None;
      }
      var out: seq<Bytes> := [];
      for i := 0 to |ids|
        modifies {}
        invariant out == ReadAll(vm.vals + old(Cache()), ids, sizes)[..i]
      {
        EntryOf(vm.defs, regiArr, regiIdxMap, regiNameMap, ids[i]);
        FilledAt(old(Cache()), vm.vals, ids, i);
        var reg := regiArr[regiIdxMap[ids[i]]];
        EntrySize(vm.defs, regiArr, regiIdxMap, regiNameMap, ids[i]);
        CutWithin(reg.val, SizeAt(|ids|, sizes, i));
        out := out + [reg.val[..SizeAt(|ids|, sizes, i)]];
      }
      r := Some(out);
    }

    /** Writes through to the VM, then updates the cache. A throw in the middle of the writes leaves the
        cache as it was before them. */
    method SetRegs(ids: seq<U32>, bufs: seq<M.Text>, sizes: seq<nat>) returns (ok: bool)
      requires Valid() && state == VmStopped && |bufs| == |ids| && SizesGiven(|ids|, sizes)
      requires forall i :: 0 <= i < |ids| && ids[i] in vm.defs ==>
               SizeAt(|ids|, sizes, i) == |bufs[i]| == vm.defs[ids[i]].size
      modifies `regiArr, `regiIdxMap, `regiNameMap, vm
      ensures Valid() && var k := FirstLocked(ids, vm.locked);
              if !(forall id <- ids :: id in vm.defs) then !ok && Cache() == old(Cache()) && vm.vals == old(vm.vals)
              else
                && (ok <==> k == |ids|)
                && vm.vals == Written(old(vm.vals), ids[..k], bufs[..k])
                && Cache() == if ok then Written(old(Cache()), ids, bufs) else old(Cache())
    {
      hide Indexed, CacheOf, Written, Finds, Defined;
      ok := FetchRegInfosById(ids);
      if !ok {
        return;
      }
      var done := vm.SetRegs(ids, bufs);
      if done < |ids| {
        return false;
      }
      UpdateCache(ids, bufs);
    }

    /** Records the values just written, in the order they were written. */
    method UpdateCache(ids: seq<U32>, bufs: seq<M.Text>)
      requires Valid() && |ids| == |bufs|
      requires forall i :: 0 <= i < |ids| ==>
               ids[i] in regiIdxMap && ids[i] in vm.defs && |bufs[i]| == vm.defs[ids[i]].size
      modifies `regiArr
      ensures Valid() && Cache() == Written(old(Cache()), ids, bufs)
    {
      hide Indexed, CacheOf, Written, Finds, Defined, Sized;
      WrittenNone(Cache(), ids, bufs);
      for i := 0 to |ids|
        invariant Valid() && Cache() == Written(old(Cache()), ids[..i], bufs[..i])
      {
        WrittenNext(old(Cache()), ids, bufs, i);
        SetValue(ids[i], bufs[i]);
      }
      assert ids[..|ids|] == ids && bufs[..|ids|] == bufs;
    }

    method GetRegsInfos(ids: seq<U32>) returns (r: Option<seq<RegInfos>>)
      requires Valid() && state == VmStopped
      modifies `regiArr, `regiIdxMap, `regiNameMap
      ensures Valid() && Cache() == old(Cache()) && (r.Some? <==> forall id <- ids :: id in vm.defs)
      ensures r.Some? ==> |r.value| == |ids| && forall i :: 0 <= i < |ids| ==> Bare(r.value[i]) == vm.defs[ids[i]]
    {
      hide Indexed, CacheOf, Finds, Defined, Sized;
      var ok := FetchRegInfosById(ids);
      if !ok {
        return None;
      }
      var out: seq<RegInfos> := [];
      for i := 0 to |ids|
        modifies {}
        invariant |out| == i
        invariant forall j :: 0 <= j < i ==> Bare(out[j]) == vm.defs[ids[j]]
      {
        EntryOf(vm.defs, regiArr, regiIdxMap, regiNameMap, ids[i]);
        out := out + [regiArr[regiIdxMap[ids[i]]]];
      }
      r := Some(out);
    }

    method FindRegsIds(names: seq<M.Text>) returns (r: Option<seq<U32>>)
      requires Valid() && state == VmStopped
      modifies `regiArr, `regiIdxMap, `regiNameMap
      ensures Valid() && Cache() == old(Cache()) && (r.Some? <==> forall name <- names :: vm.find(name).Some?)
      ensures r.Some? ==> |r.value| == |names| && forall i :: 0 <= i < |names| ==> vm.find(names[i]) == Some(r.value[i])
    {
      hide Indexed, CacheOf, Finds, Defined, Sized;
      var ok := FetchRegInfosByName(names);
      if !ok {
        return None;
      }
      NamesFound(vm.defs, regiArr, regiIdxMap, regiNameMap, vm.find);
      var out: seq<U32> := [];
      for i := 0 to |names|
        modifies {}
        invariant |out| == i
        invariant forall j :: 0 <= j < i ==> vm.find(names[j]) == Some(out[j])
      {
        assert names[i] in names;
        out := out + [regiArr[regiNameMap[names[i]]].idx];
      }
      r := Some(out);
    }

    method Resume()
      requires Valid() && state == VmStopped
      modifies `state
      ensures Valid() && state == VmRunning
    {
      state := VmRunning;
    }

    /** Learns whether the VM has stopped, and if it has, forgets all values. */
    method CheckStopped(stopped: bool)
      requires Valid() && state == VmRunning
      modifies `state, `regiArr
      ensures Valid() && state == if stopped then VmStopped else VmRunning
      ensures Cache() == if stopped then map[] else old(Cache())
    {
      if stopped {
        DiscardTmpCache();
        state := VmStopped;
      }
    }

    method DiscardTmpCache()
      requires Valid()
      modifies `regiArr
      ensures Valid() && Cache() == map[]
    {
      hide Indexed, CacheOf, Finds, Defined, Sized;
      for i := 0 to |regiArr|
        invariant |regiArr| == |old(regiArr)| && Valid()
        invariant forall j :: 0 <= j < i ==> regiArr[j].val == []
      {
        ClearKeeps(vm.defs, regiArr, regiIdxMap, regiNameMap, i);
        regiArr := WithValue(regiArr, i, []);
      }
      NoValues(regiArr, regiIdxMap);
    }

    /** Stops the VM by request. Nothing is forgotten: the values cached before the VM ran are kept. */
    method Stop()
      requires Valid() && state == VmRunning
      modifies `state
      ensures Valid() && state == VmStopped && Cache() == old(Cache())
    {
      state := VmStopped;
    }
  }


  // Whole sessions.

  /** How the client learns that the VM has stopped: by asking, or by stopping it. */
  datatype Ending = ByCheck | ByStop

  datatype Op =
    | Get(ids: seq<U32>, sizes: seq<nat>)
    | Set(ids: seq<U32>, bufs: seq<M.Text>, sizes: seq<nat>)
    | Infos(ids: seq<U32>)
    | Find(names: seq<M.Text>)
    | RunUntil(after: Values, how: Ending)   // resume, and any execution

  datatype Answer = Read(bufs: seq<Bytes>) | Told(regs: seq<RegInfos>) | Found(ids: seq<U32>) | Done | Threw

  /** Sizes are given, and are those of the registers that exist. */
  ghost predicate Fits(defs: Defs, op: Op) {
    match op
    case Get(ids, sizes) =>
      SizesGiven(|ids|, sizes) && forall i :: 0 <= i < |ids| && ids[i] in defs ==>
          SizeAt(|ids|, sizes, i) <= defs[ids[i]].size
    case Set(ids, bufs, sizes) =>
      |ids| == |bufs| && SizesGiven(|ids|, sizes) &&
      forall i :: 0 <= i < |ids| && ids[i] in defs ==> SizeAt(|ids|, sizes, i) == |bufs[i]| == defs[ids[i]].size
    case Infos(_) | Find(_) => true
    case RunUntil(after, _) => Sized(defs, after)
  }

  predicate AllIn(ids: seq<U32>, defs: Defs) {
    forall id <- ids :: id in defs
  }

  /** The registers among `ids` that are written before one throws. */
  function Writable(ids: seq<U32>, locked: set<U32>): seq<U32> {
    ids[..FirstLocked(ids, locked)]
  }

  function InfosOf(defs: Defs, ids: seq<U32>): (r: seq<RegInfos>)
    requires AllIn(ids, defs)
    ensures |r| == |ids| && forall i :: 0 <= i < |ids| ==> ids[i] in defs && r[i] == defs[ids[i]]
  {
    seq(|ids|, i requires 0 <= i < |ids| => assert ids[i] in ids; defs[ids[i]])
  }

  function IdsOf(find: M.Text -> Option<U32>, names: seq<M.Text>): (r: seq<U32>)
    requires forall name <- names :: find(name).Some?
    ensures |r| == |names| && forall i :: 0 <= i < |names| ==> find(names[i]) == Some(r[i])
  {
    seq(|names|, i requires 0 <= i < |names| => assert names[i] in names; find(names[i]).value)
  }

  /** What an operation answers, and where it leaves the cache and the registers. */
  function Step(defs: Defs, find: M.Text -> Option<U32>, locked: set<U32>, m: Mem, op: Op): (Mem, Answer) {
    match op
    case Get(ids, sizes) =>
      if AllIn(ids, defs) then (m.(cache := Filled(m.cache, m.vals, ids)), Read(ReadAll(m.vals + m.cache, ids, sizes)))
      else (m, Threw)
    case Set(ids, bufs, _) =>
      var k := FirstLocked(ids, locked);
      if !AllIn(ids, defs) || |ids| != |bufs| then (m, Threw)
      else if k == |ids| then (Mem(Written(m.cache, ids, bufs), Written(m.vals, ids, bufs)), Done)
      else (m.(vals := Written(m.vals, ids[..k], bufs[..k])), Threw)
    case Infos(ids) => (m, if AllIn(ids, defs) then Told(InfosOf(defs, ids)) else Threw)
    case Find(names) => (m, if forall name <- names :: find(name).Some? then Found(IdsOf(find, names)) else Threw)
    case RunUntil(after, how) => (Mem(if how == ByCheck then map[] else m.cache, after), Done)
  }

  function Answers(defs: Defs, find: M.Text -> Option<U32>, locked: set<U32>, m: Mem, ops: seq<Op>): seq<Answer>
    decreases |ops|
  {
    if ops == [] then []
    else
      var (next, a) := Step(defs, find, locked, m, ops[0]);
      [a] + Answers(defs, find, locked, next, ops[1..])
  }

  /** The same operations on the VM itself, without any cache. */
  function DirectAnswers(defs: Defs, find: M.Text -> Option<U32>, locked: set<U32>, vals: Values,
                         ops: seq<Op>): seq<Answer>
    decreases |ops|
  {
    if ops == [] then []
    else
      var (next, a) := Step(defs, find, locked, Mem(map[], vals), ops[0]);
      [a] + DirectAnswers(defs, find, locked, next.vals, ops[1..])
  }

  /** The client does what the specification says, operation by operation: reads, writes that succeed or
      throw, and runs that end either way. */
  method Perform(client: DbClient, op: Op) returns (a: Answer)
    requires client.Valid() && client.state == VmStopped && Fits(client.vm.defs, op)
    modifies client, client.vm
    ensures client.Valid() && client.state == VmStopped
    ensures (Mem(client.Cache(), client.vm.vals), a) ==
            Step(client.vm.defs, client.vm.find, client.vm.locked, old(Mem(client.Cache(), client.vm.vals)), op)
  {
    hide Indexed, CacheOf, Filled, Written, ReadAll, Finds, Defined, Sized;
    match op
    case Get(ids, sizes) =>
      var r := client.GetRegs(ids, sizes);
      a := if r.Some? then Read(r.value) else Threw;
    case Set(ids, bufs, sizes) =>
      var ok := client.SetRegs(ids, bufs, sizes);
      a := if ok then Done else Threw;
      assert FirstLocked(ids, client.vm.locked) == |ids| ==> ids[..|ids|] == ids && bufs[..|ids|] == bufs;
    case Infos(ids) =>
      var r := client.GetRegsInfos(ids);
      a := if r.Some? then Told(M.Each(Bare, r.value)) else Threw;
      assert r.Some? ==> a.regs == InfosOf(client.vm.defs, ids);
    case Find(names) =>
      var r := client.FindRegsIds(names);
      a := if r.Some? then Found(r.value) else Threw;
      assert r.Some? ==> r.value == IdsOf(client.vm.find, names);
    case RunUntil(after, how) =>
      client.Resume();
      client.vm.Run(after);
      if how == ByCheck {
        client.CheckStopped(true);
      } else {
        client.Stop();
      }
      a := Done;
  }

  method Session(client: DbClient, ops: seq<Op>) returns (got: seq<Answer>)
    requires client.Valid() && client.state == VmStopped && forall op <- ops :: Fits(client.vm.defs, op)
    modifies client, client.vm
    ensures client.Valid()
    ensures got == Answers(client.vm.defs, client.vm.find, client.vm.locked,
                           old(Mem(client.Cache(), client.vm.vals)), ops)
  {
    hide Indexed, CacheOf, Step, Fits, Finds, Defined, Sized;
    got := [];
    var i := 0;
    ghost var defs, find, locked := client.vm.defs, client.vm.find, client.vm.locked;
    ghost var whole := Answers(defs, find, locked, Mem(client.Cache(), client.vm.vals), ops);
    assert ops[0..] == ops && [] + whole == whole;
    while i < |ops|
      invariant 0 <= i <= |ops| && client.Valid() && client.state == VmStopped
      invariant got + Answers(defs, find, locked, Mem(client.Cache(), client.vm.vals), ops[i..]) == whole
      decreases |ops| - i
    {
      ghost var m := Mem(client.Cache(), client.vm.vals);
      assert ops[i] in ops && ops[i..][1..] == ops[i + 1..];
      var a := Perform(client, ops[i]);
      Assoc(got, [a], Answers(defs, find, locked, Mem(client.Cache(), client.vm.vals), ops[i + 1..]));
      got := got + [a];
      i := i + 1;
    }
    assert ops[i..] == [] && got + [] == got;
  }

  // When the cache is exact.

  predicate Unchanged(before: Values, after: Values, id: U32) {
    id in before && id in after && after[id] == before[id]
  }

  /** The operation leaves no outdated value in the cache: a run that ends through stop must not have changed
      a cached register, nor a write that throws one of those it wrote before. */
  ghost predicate Harmless(defs: Defs, locked: set<U32>, m: Mem, op: Op) {
    match op
    case Set(ids, bufs, _) =>
      var k := FirstLocked(ids, locked);
      AllIn(ids, defs) && |ids| == |bufs| && k < |ids| ==>
        forall id <- ids[..k] :: id in m.cache ==> Unchanged(m.vals, Written(m.vals, ids[..k], bufs[..k]), id)
    case RunUntil(after, ByStop) => forall id <- m.cache :: Unchanged(m.vals, after, id)
    case _ => true
  }

  /** Writing changes only the registers written. */
  lemma {:induction false} WrittenOnly(before: Values, ids: seq<U32>, bufs: seq<Bytes>)
    requires |ids| == |bufs|
    ensures Written(before, ids, bufs).Keys == before.Keys + set id | id in ids
    ensures forall id <- before :: id !in ids ==> Written(before, ids, bufs)[id] == before[id]
  {
    if ids != [] {
      var n := |ids| - 1;
      WrittenOnly(before, ids[..n], bufs[..n]);
      assert forall id :: id in ids <==> id in ids[..n] || id == ids[n];
    }
  }

  /** Writes that reach both the cache and the VM keep them in step. */
  lemma {:induction false} WrittenBoth(m: Mem, ids: seq<U32>, bufs: seq<Bytes>)
    requires |ids| == |bufs| && Coherent(m)
    ensures Coherent(Mem(Written(m.cache, ids, bufs), Written(m.vals, ids, bufs)))
  {
    if ids != [] {
      WrittenBoth(m, ids[..|ids| - 1], bufs[..|ids| - 1]);
    }
  }

  /** After writes that only reached the VM, the cache is exact if and only if every cached register among
      them got the value it had. */
  lemma PartialWrite(m: Mem, ids: seq<U32>, bufs: seq<Bytes>)
    requires |ids| == |bufs| && Coherent(m)
    ensures Coherent(m.(vals := Written(m.vals, ids, bufs))) <==>
            forall id <- ids :: id in m.cache ==> Unchanged(m.vals, Written(m.vals, ids, bufs), id)
  {
    WrittenOnly(m.vals, ids, bufs);
  }

  /** An exact cache stays exact if and only if the operation is harmless. */
  lemma ExactAfter(defs: Defs, find: M.Text -> Option<U32>, locked: set<U32>, m: Mem, op: Op)
    requires Coherent(m)
    ensures Coherent(Step(defs, find, locked, m, op).0) <==> Harmless(defs, locked, m, op)
  {
    match op
    case Set(ids, bufs, _) =>
      var k := FirstLocked(ids, locked);
      if |ids| == |bufs| {
        WrittenBoth(m, ids, bufs);
        PartialWrite(m, ids[..k], bufs[..k]);
      }
    case _ =>
  }

  /** With an exact cache an operation answers what it would answer without a cache, and does the same to the
      registers. */
  lemma ExactAnswers(defs: Defs, find: M.Text -> Option<U32>, locked: set<U32>, m: Mem, op: Op)
    requires Coherent(m)
    ensures Step(defs, find, locked, m, op).1 == Step(defs, find, locked, Mem(map[], m.vals), op).1
    ensures Step(defs, find, locked, m, op).0.vals == Step(defs, find, locked, Mem(map[], m.vals), op).0.vals
  {
    assert m.vals + m.cache == m.vals == m.vals + map[];
  }

  /** A read answers what the VM holds if and only if the cached values among those asked for are current in
      the bytes asked for. */
  lemma ReadExactIff(m: Mem, ids: seq<U32>, sizes: seq<nat>)
    requires m.cache.Keys <= m.vals.Keys
    ensures ReadAll(m.vals + m.cache, ids, sizes) == ReadAll(m.vals, ids, sizes) <==>
            forall i :: 0 <= i < |ids| && ids[i] in m.cache ==>
              Cut(m.cache[ids[i]], SizeAt(|ids|, sizes, i)) == Cut(m.vals[ids[i]], SizeAt(|ids|, sizes, i))
  {
    hide Cut;
    var a, b := ReadAll(m.vals + m.cache, ids, sizes), ReadAll(m.vals, ids, sizes);
    assert forall i :: 0 <= i < |ids| && ids[i] in m.cache ==> (a[i] == b[i] <==>
             Cut(m.cache[ids[i]], SizeAt(|ids|, sizes, i)) == Cut(m.vals[ids[i]], SizeAt(|ids|, sizes, i)));
    assert a == b <==> forall i :: 0 <= i < |ids| ==> a[i] == b[i];
  }

  ghost predicate AllHarmless(defs: Defs, find: M.Text -> Option<U32>, locked: set<U32>, m: Mem, ops: seq<Op>)
    decreases |ops|
  {
    ops == [] || (Harmless(defs, locked, m, ops[0]) &&
                  AllHarmless(defs, find, locked, Step(defs, find, locked, m, ops[0]).0, ops[1..]))
  }

  /** Over any session of harmless operations the client gets what it would get straight from the VM. */
  lemma {:induction false} SessionExact(defs: Defs, find: M.Text -> Option<U32>, locked: set<U32>, m: Mem, ops: seq<Op>)
    requires Coherent(m) && AllHarmless(defs, find, locked, m, ops)
    ensures Answers(defs, find, locked, m, ops) == DirectAnswers(defs, find, locked, m.vals, ops)
    decreases |ops|
  {
    hide Step, Harmless, Coherent;
    if ops != [] {
      ExactAfter(defs, find, locked, m, ops[0]);
      ExactAnswers(defs, find, locked, m, ops[0]);
      SessionExact(defs, find, locked, Step(defs, find, locked, m, ops[0]).0, ops[1..]);
    }
  }

  /** Sessions whose runs all end by asking, and whose writes do not throw half way, are of that kind. */
  lemma {:induction false} PlainSessions(defs: Defs, find: M.Text -> Option<U32>, locked: set<U32>, m: Mem,
                                         ops: seq<Op>)
    requires forall op <- ops :: op.RunUntil? ==> op.how == ByCheck
    requires forall op <- ops :: op.Set? ==> FirstLocked(op.ids, locked) == |op.ids|
    ensures AllHarmless(defs, find, locked, m, ops)
    decreases |ops|
  {
    if ops != [] {
      assert ops[0] in ops;
      PlainSessions(defs, find, locked, Step(defs, find, locked, m, ops[0]).0, ops[1..]);
    }
  }

  /** A run that ends through stop is harmless, whatever the program does, if and only if nothing is cached. */
  lemma StopKeepsStaleValues(defs: Defs, locked: set<U32>, m: Mem)
    requires Defined(defs) && Sized(defs, m.vals) && Coherent(m)
    ensures (forall after :: Sized(defs, after) ==> Harmless(defs, locked, m, RunUntil(after, ByStop))) <==>
            m.cache == map[]
  {
    if m.cache != map[] {
      var id :| id in m.cache;
      var other: Byte := if m.vals[id][0] == 0 then 1 else 0;
      var bytes: Bytes := m.vals[id][0 := other];
      var after: Values := m.vals[id := bytes];
      assert Sized(defs, after) && after[id][0] != m.cache[id][0];
      assert !Harmless(defs, locked, m, RunUntil(after, ByStop));
    }
  }

  /** Infos and ids are those the VM has, whatever is cached, and asking for them changes nothing. */
  lemma TellsWhatTheVmHas(defs: Defs, find: M.Text -> Option<U32>, locked: set<U32>, m: Mem, ids: seq<U32>,
                          names: seq<M.Text>)
    ensures var (next, a) := Step(defs, find, locked, m, Infos(ids));
            && next == m && (a == Threw <==> exists id <- ids :: id !in defs)
            && (a != Threw ==>
                  && a.Told? && |a.regs| == |ids|
                  && forall i :: 0 <= i < |ids| ==> ids[i] in defs && a.regs[i] == defs[ids[i]])
    ensures var (next, a) := Step(defs, find, locked, m, Find(names));
            && next == m && (a == Threw <==> exists name <- names :: find(name) == None)
            && (a != Threw ==>
                  && a.Found? && |a.ids| == |names|
                  && forall i :: 0 <= i < |names| ==> find(names[i]) == Some(a.ids[i]))
  {
  }

  /** A write that succeeds is what is read afterwards, with the client and straight from the VM. */
  lemma WriteReadsBack(defs: Defs, find: M.Text -> Option<U32>, locked: set<U32>, m: Mem, ids: seq<U32>,
                       bufs: seq<M.Text>, sizes: seq<nat>, i: nat)
    requires i < |ids| == |bufs| && AllIn(ids, defs) && forall id <- ids :: id !in locked
    requires forall j :: i < j < |ids| ==> ids[j] != ids[i]
    ensures var (next, a) := Step(defs, find, locked, m, Set(ids, bufs, sizes));
            && a == Done
            && Step(defs, find, locked, next, Get([ids[i]], [|bufs[i]|])).1 == Read([bufs[i]])
            && Step(defs, find, locked, Mem(map[], next.vals), Get([ids[i]], [|bufs[i]|])).1 == Read([bufs[i]])
  {
    hide Filled;
    LastWritten(m.cache, ids, bufs, i);
    LastWritten(m.vals, ids, bufs, i);
    var cache, vals := Written(m.cache, ids, bufs), Written(m.vals, ids, bufs);
    assert ids[i] in ids;
    ReadOne(vals + cache, ids[i], bufs[i]);
    ReadOne(vals + map[], ids[i], bufs[i]);
  }

  lemma {:induction false} LastWritten(vals: Values, ids: seq<U32>, bufs: seq<Bytes>, i: nat)
    requires i < |ids| == |bufs| && forall j :: i < j < |ids| ==> ids[j] != ids[i]
    ensures ids[i] in Written(vals, ids, bufs) && Written(vals, ids, bufs)[ids[i]] == bufs[i]
  {
    var n := |ids| - 1;
    if i < n {
      LastWritten(vals, ids[..n], bufs[..n], i);
    }
  }

  lemma ReadOne(vals: Values, id: U32, val: Bytes)
    requires id in vals && vals[id] == val
    ensures ReadAll(vals, [id], [|val|]) == [val]
  {
    assert SizeAt(1, [|val|], 0) == |val| && val[..|val|] == val;
  }

  const ONE_REG: Defs := map[0 := M.RegInfos(0, [], 1, M.General, [])]

  function FindOne(): M.Text -> Option<U32> {
    (name: M.Text) => if name == [] then Some(0) else None
  }

  lemma OneReg(b: Byte)
    ensures Defined(ONE_REG) && Sized(ONE_REG, map[0 := [b]]) && Finds(ONE_REG, FindOne())
    ensures SizesGiven(1, [1]) && SizeAt(1, [1], 0) == 1 && Fits(ONE_REG, Get([0], [1]))
  {
  }

  lemma OneRead(defs: Defs, find: M.Text -> Option<U32>, locked: set<U32>, cache: Values, vals: Values)
    requires 0 in defs && 0 in vals && |vals[0]| == 1 && cache.Keys <= {0} && (0 in cache ==> |cache[0]| == 1)
    ensures var seen := if 0 in cache then cache[0] else vals[0];
            Step(defs, find, locked, Mem(cache, vals), Get([0], [1])) == (Mem(map[0 := seen], vals), Read([seen]))
  {
    var seen := (vals + cache)[0];
    assert Filled(cache, vals, [0]) == map[0 := seen];
    assert Cut(seen, 1) == seen && SizeAt(1, [1], 0) == 1;
    assert ReadAll(vals + cache, [0], [1]) == [seen];
  }

  /** A read, a run that changes the register, and another read. */
  function ReadRunRead(how: Ending): seq<Op> {
    [Get([0], [1]), RunUntil(map[0 := [2]], how), Get([0], [1])]
  }

  lemma LastAnswer(defs: Defs, find: M.Text -> Option<U32>, locked: set<U32>, m: Mem, ops: seq<Op>)
    requires |ops| == 1
    ensures Answers(defs, find, locked, m, ops) == [Step(defs, find, locked, m, ops[0]).1]
    ensures DirectAnswers(defs, find, locked, m.vals, ops) == [Step(defs, find, locked, Mem(map[], m.vals), ops[0]).1]
  {
    hide Step;
    assert ops[1..] == [];
  }

  lemma TwoAnswers(defs: Defs, find: M.Text -> Option<U32>, locked: set<U32>, m: Mem, ops: seq<Op>)
    requires |ops| == 2
    ensures var (m1, a1) := Step(defs, find, locked, m, ops[0]);
            Answers(defs, find, locked, m, ops) == [a1, Step(defs, find, locked, m1, ops[1]).1]
    ensures var (m1, a1) := Step(defs, find, locked, Mem(map[], m.vals), ops[0]);
            DirectAnswers(defs, find, locked, m.vals, ops) ==
              [a1, Step(defs, find, locked, Mem(map[], m1.vals), ops[1]).1]
  {
    hide Step;
    LastAnswer(defs, find, locked, Step(defs, find, locked, m, ops[0]).0, ops[1..]);
    LastAnswer(defs, find, locked, Step(defs, find, locked, Mem(map[], m.vals), ops[0]).0, ops[1..]);
  }

  /** The answers of three operations, with the client and straight from the VM. */
  lemma ThreeAnswers(defs: Defs, find: M.Text -> Option<U32>, locked: set<U32>, m: Mem, ops: seq<Op>)
    requires |ops| == 3
    ensures var (m1, a1) := Step(defs, find, locked, m, ops[0]);
            var (m2, a2) := Step(defs, find, locked, m1, ops[1]);
            Answers(defs, find, locked, m, ops) == [a1, a2, Step(defs, find, locked, m2, ops[2]).1]
    ensures var (m1, a1) := Step(defs, find, locked, Mem(map[], m.vals), ops[0]);
            var (m2, a2) := Step(defs, find, locked, Mem(map[], m1.vals), ops[1]);
            DirectAnswers(defs, find, locked, m.vals, ops) ==
              [a1, a2, Step(defs, find, locked, Mem(map[], m2.vals), ops[2]).1]
  {
    hide Step;
    TwoAnswers(defs, find, locked, Step(defs, find, locked, m, ops[0]).0, ops[1..]);
    TwoAnswers(defs, find, locked, Step(defs, find, locked, Mem(map[], m.vals), ops[0]).0, ops[1..]);
  }

  /** A client that reads a register, resumes, stops the VM and reads again is given the value of before the
      run, where the VM itself would give the new one. */
  lemma OldValueAnswered()
    ensures Answers(ONE_REG, FindOne(), {}, Mem(map[], map[0 := [1]]), ReadRunRead(ByStop)) ==
            [Read([[1]]), Done, Read([[1]])]
    ensures DirectAnswers(ONE_REG, FindOne(), {}, map[0 := [1]], ReadRunRead(ByStop)) ==
            [Read([[1]]), Done, Read([[2]])]
  {
    var old1: Values, new1: Values := map[0 := [1]], map[0 := [2]];
    OneRead(ONE_REG, FindOne(), {}, map[], old1);
    OneRead(ONE_REG, FindOne(), {}, map[], new1);
    OneRead(ONE_REG, FindOne(), {}, old1, new1);
    hide FindOne, Answers, DirectAnswers, Filled, ReadAll;
    ThreeAnswers(ONE_REG, FindOne(), {}, Mem(map[], old1), ReadRunRead(ByStop));
  }

  method StopReadsOldValue() returns (got: seq<Answer>)
    ensures got == [Read([[1]]), Done, Read([[1]])]
    ensures got != DirectAnswers(ONE_REG, FindOne(), {}, map[0 := [1]], ReadRunRead(ByStop))
  {
    OneReg(1);
    OneReg(2);
    OldValueAnswered();
    hide Answers, DirectAnswers, Indexed, CacheOf, Finds, Defined, Sized;
    var vm := new Vm(ONE_REG, FindOne(), {}, map[0 := [1]]);
    var client := new DbClient(vm);
    got := Session(client, ReadRunRead(ByStop));
  }

  /** Two registers, the second of which cannot be written. */
  const TWO_REGS: Defs := map[0 := M.RegInfos(0, [], 1, M.General, []), 1 := M.RegInfos(1, [1], 1, M.General, [])]

  function TwoValues(b: Byte): Values {
    map[0 := [b], 1 := [1]]
  }

  /** A read, a write of both registers, and another read. */
  function ReadWriteRead(): seq<Op> {
    [Get([0], [1]), Set([0, 1], [[2], [3]], [1, 1]), Get([0], [1])]
  }

  lemma SecondLocked()
    ensures FirstLocked([0, 1], {1}) == 1
    ensures forall b: Byte :: Written(TwoValues(b), [0, 1][..1], [[2], [3]][..1]) == TwoValues(2)
  {
    assert [0, 1][1..] == [1];
    assert [0, 1][..1] == [0] && [0][..0] == [] && [[2], [3]][..1] == [[2]] && [[2]][..0] == [];
  }

  /** The write throws at the second register, when the first is written already. */
  lemma SecondThrows(find: M.Text -> Option<U32>, cache: Values)
    ensures Step(TWO_REGS, find, {1}, Mem(cache, TwoValues(1)), ReadWriteRead()[1]) == (Mem(cache, TwoValues(2)), Threw)
  {
    hide FirstLocked, Written;
    SecondLocked();
  }

  /** A client that reads a register, writes it along with one that throws, and reads it again is given the value
      of before the write, where the VM itself would give the new one. */
  lemma ThrowReadsOldValue(find: M.Text -> Option<U32>)
    ensures Defined(TWO_REGS) && Sized(TWO_REGS, TwoValues(1)) && forall op <- ReadWriteRead() :: Fits(TWO_REGS, op)
    ensures Answers(TWO_REGS, find, {1}, Mem(map[], TwoValues(1)), ReadWriteRead()) ==
            [Read([[1]]), Threw, Read([[1]])]
    ensures DirectAnswers(TWO_REGS, find, {1}, TwoValues(1), ReadWriteRead()) == [Read([[1]]), Threw, Read([[2]])]
  {
    hide Answers, DirectAnswers, Filled, ReadAll, FirstLocked, Written;
    var cached: Values := map[0 := [1]];
    OneRead(TWO_REGS, find, {1}, map[], TwoValues(1));
    OneRead(TWO_REGS, find, {1}, map[], TwoValues(2));
    OneRead(TWO_REGS, find, {1}, cached, TwoValues(2));
    SecondThrows(find, cached);
    SecondThrows(find, map[]);
    ThreeAnswers(TWO_REGS, find, {1}, Mem(map[], TwoValues(1)), ReadWriteRead());
  }
}
