/** What each direct call does, item by item (src/server/db-client-impl-vmside.cc): which of the debugger's
    functions it calls, in which state and order, and what it gives back. `xs` are the states of the VM before,
    between and after; a throw is the last of these calls, with what it left. */
module DirectCalls {
  import opened Common
  import opened Wire
  import opened Messages
  import opened Remote
  import S = Stepping
  import A = Agreement

  lemma BatchSteps<X, P, Q>(f: (X, P) -> (X, Outcome<Q>), x: X, items: seq<P>) returns (xs: seq<X>)
    ensures var (y, r) := Batch(f, x, items);
            && 0 < |xs| <= |items| + 1 && xs[0] == x
            && (forall i :: 0 <= i < |xs| - 1 ==> f(xs[i], items[i]).0 == xs[i + 1])
            && (forall i :: 0 <= i < |xs| - 1 ==> f(xs[i], items[i]).1.Done?)
            && match r
               case Done(all) =>
                 && |xs| == |items| + 1 && y == xs[|items|] && |all| == |items|
                 && forall i :: 0 <= i < |items| ==> f(xs[i], items[i]).1 == Done(all[i])
               case Thrown(m) => |xs| <= |items| && f(xs[|xs| - 1], items[|xs| - 1]) == (y, Thrown(m))
  {
    var qs;
    xs, qs := BatchChain(f, x, items);
    forall i | 0 <= i < |qs|
      ensures f(xs[i], items[i]).0 == xs[i + 1]
      ensures f(xs[i], items[i]).1 == Done(qs[i])
    {
      assert f(xs[i], items[i]) == (xs[i + 1], Done(qs[i]));
    }
  }

  lemma RegsRead<X>(api: Api<X>, srv: Server<X>, ids: seq<U32>, sizes: seq<U64>) returns (xs: seq<X>)
    ensures var (after, r) := Direct(api, srv, ReadRegs(ids, sizes));
            && after == srv.(vm := after.vm) && 0 < |xs| <= |ids| + 1 && xs[0] == srv.vm
            && (forall i :: 0 <= i < |xs| - 1 ==> api.getReg(xs[i], ids[i]).0 == xs[i + 1])
            && match r
               case Done(v) =>
                 && |xs| == |ids| + 1 && after.vm == xs[|ids|] && v.RBufs? && |v.bufs| == |ids|
                 && forall i :: 0 <= i < |ids| ==> api.getReg(xs[i], ids[i]).1 == Done(v.bufs[i])
               case Thrown(m) =>
                 && |xs| <= |ids| && api.getReg(xs[|xs| - 1], ids[|xs| - 1]) == (after.vm, Thrown(m))
                 && forall i :: 0 <= i < |xs| - 1 ==> api.getReg(xs[i], ids[i]).1.Done?
  {
    xs := BatchSteps(api.getReg, srv.vm, ids);
  }

  lemma RegsWritten<X>(api: Api<X>, srv: Server<X>, ids: seq<U32>, sizes: seq<U64>, bufs: seq<Bytes>)
      returns (xs: seq<X>)
    requires |bufs| == |ids|
    ensures var (after, r) := Direct(api, srv, WriteRegs(ids, sizes, bufs));
            && after == srv.(vm := after.vm) && 0 < |xs| <= |ids| + 1 && xs[0] == srv.vm
            && (forall i :: 0 <= i < |xs| - 1 ==> api.setReg(xs[i], (ids[i], bufs[i])) == (xs[i + 1], Done(())))
            && match r
               case Done(v) => v == RDone && |xs| == |ids| + 1 && after.vm == xs[|ids|]
               case Thrown(m) =>
                 var k := |xs| - 1;
                 k < |ids| && api.setReg(xs[k], (ids[k], bufs[k])) == (after.vm, Thrown(m))
  {
    var items := Zip(ids, bufs);
    assert forall i :: 0 <= i < |ids| ==> items[i] == (ids[i], bufs[i]);
    xs := BatchSteps(api.setReg, srv.vm, items);
    forall i | 0 <= i < |xs| - 1
      ensures api.setReg(xs[i], (ids[i], bufs[i])) == (xs[i + 1], Done(()))
    {
      var (y, r) := api.setReg(xs[i], items[i]);
      assert y == xs[i + 1] && r.Done? && r.value == ();
    }
  }

  lemma RegsTold<X>(api: Api<X>, srv: Server<X>, ids: seq<U32>) returns (xs: seq<X>)
    ensures var (after, r) := Direct(api, srv, RegsInfos(ids));
            && after == srv.(vm := after.vm) && 0 < |xs| <= |ids| + 1 && xs[0] == srv.vm
            && (forall i :: 0 <= i < |xs| - 1 ==> api.regInfos(xs[i], ids[i]).0 == xs[i + 1])
            && match r
               case Done(v) =>
                 && |xs| == |ids| + 1 && after.vm == xs[|ids|] && v.RRegs? && |v.regs| == |ids|
                 && forall i :: 0 <= i < |ids| ==> api.regInfos(xs[i], ids[i]).1 == Done(v.regs[i])
               case Thrown(m) =>
                 && |xs| <= |ids| && api.regInfos(xs[|xs| - 1], ids[|xs| - 1]) == (after.vm, Thrown(m))
                 && forall i :: 0 <= i < |xs| - 1 ==> api.regInfos(xs[i], ids[i]).1.Done?
  {
    xs := BatchSteps(api.regInfos, srv.vm, ids);
  }

  lemma RegsFound<X>(api: Api<X>, srv: Server<X>, names: seq<Bytes>) returns (xs: seq<X>)
    ensures var (after, r) := Direct(api, srv, RegsByName(names));
            && after == srv.(vm := after.vm) && 0 < |xs| <= |names| + 1 && xs[0] == srv.vm
            && (forall i :: 0 <= i < |xs| - 1 ==> api.findReg(xs[i], names[i]).0 == xs[i + 1])
            && match r
               case Done(v) =>
                 && |xs| == |names| + 1 && after.vm == xs[|names|] && v.RIds? && |v.ids| == |names|
                 && forall i :: 0 <= i < |names| ==> api.findReg(xs[i], names[i]).1 == Done(v.ids[i])
               case Thrown(m) =>
                 && |xs| <= |names| && api.findReg(xs[|xs| - 1], names[|xs| - 1]) == (after.vm, Thrown(m))
                 && forall i :: 0 <= i < |xs| - 1 ==> api.findReg(xs[i], names[i]).1.Done?
  {
    xs := BatchSteps(api.findReg, srv.vm, names);
  }

  lemma MemoryRead<X>(api: Api<X>, srv: Server<X>, addrs: seq<U64>, sizes: seq<U64>) returns (xs: seq<X>)
    requires |sizes| == |addrs|
    ensures var (after, r) := Direct(api, srv, ReadMemory(addrs, sizes));
            && after == srv.(vm := after.vm) && 0 < |xs| <= |addrs| + 1 && xs[0] == srv.vm
            && (forall i :: 0 <= i < |xs| - 1 ==> api.readMem(xs[i], (addrs[i], sizes[i])).0 == xs[i + 1])
            && match r
               case Done(v) =>
                 && |xs| == |addrs| + 1 && after.vm == xs[|addrs|] && v.RBufs? && |v.bufs| == |addrs|
                 && forall i :: 0 <= i < |addrs| ==> api.readMem(xs[i], (addrs[i], sizes[i])).1 == Done(v.bufs[i])
               case Thrown(m) =>
                 var k := |xs| - 1;
                 && k < |addrs| && api.readMem(xs[k], (addrs[k], sizes[k])) == (after.vm, Thrown(m))
                 && forall i :: 0 <= i < k ==> api.readMem(xs[i], (addrs[i], sizes[i])).1.Done?
  {
    var items := Zip(addrs, sizes);
    assert forall i :: 0 <= i < |addrs| ==> items[i] == (addrs[i], sizes[i]);
    xs := BatchSteps(api.readMem, srv.vm, items);
  }

  lemma MemoryWritten<X>(api: Api<X>, srv: Server<X>, addrs: seq<U64>, sizes: seq<U64>, bufs: seq<Bytes>)
      returns (xs: seq<X>)
    requires |bufs| == |addrs|
    ensures var (after, r) := Direct(api, srv, WriteMemory(addrs, sizes, bufs));
            && after == srv.(vm := after.vm) && 0 < |xs| <= |addrs| + 1 && xs[0] == srv.vm
            && (forall i :: 0 <= i < |xs| - 1 ==> api.writeMem(xs[i], (addrs[i], bufs[i])) == (xs[i + 1], Done(())))
            && match r
               case Done(v) => v == RDone && |xs| == |addrs| + 1 && after.vm == xs[|addrs|]
               case Thrown(m) =>
                 var k := |xs| - 1;
                 k < |addrs| && api.writeMem(xs[k], (addrs[k], bufs[k])) == (after.vm, Thrown(m))
  {
    var items := Zip(addrs, bufs);
    assert forall i :: 0 <= i < |addrs| ==> items[i] == (addrs[i], bufs[i]);
    xs := BatchSteps(api.writeMem, srv.vm, items);
    forall i | 0 <= i < |xs| - 1
      ensures api.writeMem(xs[i], (addrs[i], bufs[i])) == (xs[i + 1], Done(()))
    {
      var (y, r) := api.writeMem(xs[i], items[i]);
      assert y == xs[i + 1] && r.Done? && r.value == ();
    }
  }

  lemma SymsTold<X>(api: Api<X>, srv: Server<X>, ids: seq<U32>) returns (xs: seq<X>)
    ensures var (after, r) := Direct(api, srv, SymsById(ids));
            && after == srv.(vm := after.vm) && 0 < |xs| <= |ids| + 1 && xs[0] == srv.vm
            && (forall i :: 0 <= i < |xs| - 1 ==> api.symInfos(xs[i], ids[i]).0 == xs[i + 1])
            && match r
               case Done(v) =>
                 && |xs| == |ids| + 1 && after.vm == xs[|ids|] && v.RSyms? && |v.syms| == |ids|
                 && forall i :: 0 <= i < |ids| ==> api.symInfos(xs[i], ids[i]).1 == Done(v.syms[i])
               case Thrown(m) =>
                 && |xs| <= |ids| && api.symInfos(xs[|xs| - 1], ids[|xs| - 1]) == (after.vm, Thrown(m))
                 && forall i :: 0 <= i < |xs| - 1 ==> api.symInfos(xs[i], ids[i]).1.Done?
  {
    xs := BatchSteps(api.symInfos, srv.vm, ids);
  }

  /** The symbols of a range are listed first; then each is asked for. */
  lemma SymsListed<X>(api: Api<X>, srv: Server<X>, addr: U64, size: U64) returns (xs: seq<X>)
    ensures var (after, r) := Direct(api, srv, SymsIn(addr, size));
            var (listed, found) := api.symbols(srv.vm, addr, size);
            && after == srv.(vm := after.vm)
            && if found.Thrown? then after.vm == listed && r == Thrown(found.msg)
               else
                 var ids := found.value;
                 && 0 < |xs| <= |ids| + 1 && xs[0] == listed
                 && (forall i :: 0 <= i < |xs| - 1 ==> api.symInfos(xs[i], ids[i]).0 == xs[i + 1])
                 && match r
                    case Done(v) =>
                      && |xs| == |ids| + 1 && after.vm == xs[|ids|] && v.RSyms? && |v.syms| == |ids|
                      && forall i :: 0 <= i < |ids| ==> api.symInfos(xs[i], ids[i]).1 == Done(v.syms[i])
                    case Thrown(m) =>
                      && |xs| <= |ids| && api.symInfos(xs[|xs| - 1], ids[|xs| - 1]) == (after.vm, Thrown(m))
                      && forall i :: 0 <= i < |xs| - 1 ==> api.symInfos(xs[i], ids[i]).1.Done?
  {
    xs := [];
    var (listed, found) := api.symbols(srv.vm, addr, size);
    if found.Done? {
      xs := BatchSteps(api.symInfos, listed, found.value);
    }
  }

  /** For each name its id is looked for first, and `ys` are the states in between. */
  lemma SymsFound<X>(api: Api<X>, srv: Server<X>, names: seq<Bytes>) returns (xs: seq<X>, ys: seq<X>)
    ensures var (after, r) := Direct(api, srv, SymsByName(names));
            && after == srv.(vm := after.vm) && 0 < |xs| <= |names| + 1 && xs[0] == srv.vm && |ys| == |names|
            && (forall i :: 0 <= i < |xs| - 1 ==>
                  && api.findSym(xs[i], names[i]).0 == ys[i] && api.findSym(xs[i], names[i]).1.Done?
                  && api.symInfos(ys[i], api.findSym(xs[i], names[i]).1.value).0 == xs[i + 1])
            && match r
               case Done(v) =>
                 && |xs| == |names| + 1 && after.vm == xs[|names|] && v.RSyms? && |v.syms| == |names|
                 && forall i :: 0 <= i < |names| ==>
                      api.symInfos(ys[i], api.findSym(xs[i], names[i]).1.value).1 == Done(v.syms[i])
               case Thrown(m) =>
                 var k := |xs| - 1;
                 && k < |names|
                 && var (y, found) := api.findSym(xs[k], names[k]);
                    if found.Thrown? then (after.vm, r) == (y, Thrown(found.msg))
                    else api.symInfos(y, found.value) == (after.vm, Thrown(m))
  {
    xs := BatchSteps(SymNamed(api), srv.vm, names);
    ys := seq(|names|, i requires 0 <= i < |names| => if i < |xs| then api.findSym(xs[i], names[i]).0 else srv.vm);
    forall i | 0 <= i < |xs| - 1
      ensures api.findSym(xs[i], names[i]).1.Done?
      ensures api.symInfos(ys[i], api.findSym(xs[i], names[i]).1.value) == SymNamed(api)(xs[i], names[i])
    {
      assert SymNamed(api)(xs[i], names[i]).1.Done?;
    }
  }

  /** Each instruction is read right behind the one before it; addresses wrap around. */
  lemma CodeRead<X>(api: Api<X>, srv: Server<X>, addr: U64, nins: U64) returns (xs: seq<X>, addrs: seq<U64>)
    ensures var (after, r) := Direct(api, srv, Code(addr, nins));
            && after == srv.(vm := after.vm) && 0 < |xs| == |addrs| <= nins + 1 && xs[0] == srv.vm && addrs[0] == addr
            && (forall i :: 0 <= i < |xs| - 1 ==>
                  && api.codeText(xs[i], addrs[i]).0 == xs[i + 1] && api.codeText(xs[i], addrs[i]).1.Done?
                  && addrs[i + 1] == (addrs[i] + api.codeText(xs[i], addrs[i]).1.value.1) % TWO_64)
            && match r
               case Done(v) =>
                 && |xs| == nins + 1 && after.vm == xs[nins] && v.RCode? && |v.text| == |v.sizes| == nins
                 && forall i :: 0 <= i < nins ==> api.codeText(xs[i], addrs[i]).1 == Done((v.text[i], v.sizes[i]))
               case Thrown(m) =>
                 |xs| <= nins && api.codeText(xs[|xs| - 1], addrs[|xs| - 1]) == (after.vm, Thrown(m))
  {
    xs, addrs := CodeSteps(api, srv.vm, addr, nins);
    forall i | 0 <= i < |xs| - 1
      ensures api.codeText(xs[i], addrs[i]).0 == xs[i + 1] && api.codeText(xs[i], addrs[i]).1.Done?
      ensures addrs[i + 1] == (addrs[i] + api.codeText(xs[i], addrs[i]).1.value.1) % TWO_64
    {
      assert StepsTo(api, xs[i], addrs[i], xs[i + 1], addrs[i + 1]);
    }
  }

  ghost predicate StepsTo<X>(api: Api<X>, x: X, addr: U64, y: X, next: U64) {
    var (z, t) := api.codeText(x, addr);
    z == y && t.Done? && next == (addr + t.value.1) % TWO_64
  }

  lemma {:induction false} CodeSteps<X>(api: Api<X>, x: X, addr: U64, n: nat) returns (xs: seq<X>, addrs: seq<U64>)
    ensures var (y, r) := CodeFrom(api, x, addr, n);
            && 0 < |xs| == |addrs| <= n + 1 && xs[0] == x && addrs[0] == addr
            && (forall i :: 0 <= i < |xs| - 1 ==> StepsTo(api, xs[i], addrs[i], xs[i + 1], addrs[i + 1]))
            && match r
               case Done((texts, dists)) =>
                 && |xs| == n + 1 && y == xs[n]
                 && forall i :: 0 <= i < n ==> api.codeText(xs[i], addrs[i]).1 == Done((texts[i], dists[i]))
               case Thrown(m) => |xs| <= n && api.codeText(xs[|xs| - 1], addrs[|xs| - 1]) == (y, Thrown(m))
    decreases n
  {
    hide StepsTo;
    if n == 0 || api.codeText(x, addr).1.Thrown? {
      xs, addrs := [x], [addr];
    } else {
      var (y, t) := api.codeText(x, addr);
      var next: U64 := (addr + t.value.1) % TWO_64;
      var ys, bs := CodeSteps(api, y, next, n - 1);
      xs, addrs := [x] + ys, [addr] + bs;
      FirstStep(api, x, addr);
      var rest := CodeFrom(api, y, next, n - 1).1;
      if rest.Done? {
        forall i | 0 <= i < n
          ensures api.codeText(xs[i], addrs[i]).1 ==
                  Done((([t.value.0] + rest.value.0)[i], ([t.value.1] + rest.value.1)[i]))
        {
          assert i > 0 ==> xs[i] == ys[i - 1] && addrs[i] == bs[i - 1];
        }
      }
    }
  }

  lemma FirstStep<X>(api: Api<X>, x: X, addr: U64)
    requires api.codeText(x, addr).1.Done?
    ensures var (y, t) := api.codeText(x, addr); StepsTo(api, x, addr, y, (addr + t.value.1) % TWO_64)
  {
  }

  // The calls on the debugger.

  /** An update says of a stopped program where and why it has stopped; of a running one, only that it runs. */
  lemma StateTold<X>(api: Api<X>, srv: Server<X>, was: A.ClientUpdate)
    ensures var (after, r) := Direct(api, srv, Check(was));
            && after == srv && r.Done? && r.value.RUpdate?
            && Direct(api, srv, Hello(was)) == (srv, Done(RHello(srv.infos, r.value.udp)))
            && if S.Running(srv.db.state) then r.value.udp == was.(stopped := false)
               else
                 var u := r.value.udp;
                 && u.stopped && u.addr == srv.db.insAddr && u.stack == srv.db.stack
                 && (u.vmState == A.Errored <==> srv.db.state == S.State.Error)
                 && (u.vmState == A.Exited <==> srv.db.state == S.State.Exit)
  {
  }

  /** The program is stopped, unless it is finished or stopped already. */
  lemma Stopped<X>(api: Api<X>, srv: Server<X>)
    ensures var (after, r) := Direct(api, srv, Halt);
            if S.Running(srv.db.state) || srv.db.state == S.State.NotStarted then
              r == Done(RDone) && after == srv.(db := srv.db.(state := S.State.Stopped))
            else
              after == srv &&
              r == Thrown(Ascii(if srv.db.state == S.State.Stopped
                                then "cannot stop execution: " + "program already stopped"
                                else "cannot stop execution: " + "program already finished"))
  {
  }

  /** The program is let run, in the mode asked for, unless it is finished. */
  lemma Resumed<X>(api: Api<X>, srv: Server<X>, mode: S.ResumeType)
    ensures var (after, r) := Direct(api, srv, Go(mode));
            if srv.db.state == S.State.Error || srv.db.state == S.State.Exit then
              r == Thrown(Ascii("cannot resume execution: " + "program already finished")) && after == srv
            else
              && r == Done(RDone) && S.Resume(srv.db, mode) == Ok(after.db)
              && after == srv.(db := srv.db.(state := after.db.state, stepOverDepth := after.db.stepOverDepth))
              && after.db.state == match mode { case ToFinish => S.RunToFinish case Continue => S.RunBkp
                                                case Step => S.RunStep case StepOver => S.RunStepOver
                                                case StepOut => S.RunStepOut }
  {
  }

  /** Breakpoints are set one after the other, up to the first that is outside memory or there already. */
  lemma BkpsSet<X>(api: Api<X>, srv: Server<X>, addrs: seq<U64>) returns (k: nat)
    ensures var (after, r) := Direct(api, srv, SetBkps(addrs));
            && k <= |addrs|
            && var there := srv.db.breakpts + set a | a in addrs[..k];
            && after == srv.(db := srv.db.(breakpts := there))
            && (forall i :: 0 <= i < k ==>
                  addrs[i] < srv.db.memorySize && addrs[i] !in srv.db.breakpts && addrs[i] !in addrs[..i])
            && match r
               case Done(v) => v == RDone && k == |addrs|
               case Thrown(m) =>
                 && k < |addrs| && (addrs[k] >= srv.db.memorySize || addrs[k] in there)
                 && m == Ascii(if addrs[k] >= srv.db.memorySize
                               then "cannot add breakpoint: " + "address outside of memory range"
                               else "cannot add breakpoint: " + "There is already one at this address")
  {
    hide AddBkp, DelBkp, Ascii;
    var db;
    k, db := SetUpTo(srv.db, addrs);
    if k < |addrs| {
      Added(db, addrs[k]);
    }
  }

  lemma SetUpTo(db: S.Db, addrs: seq<U64>) returns (k: nat, last: S.Db)
    ensures k <= |addrs| && last == db.(breakpts := db.breakpts + SetOf(addrs[..k]))
    ensures forall i :: 0 <= i < k ==>
              addrs[i] < db.memorySize && addrs[i] !in db.breakpts && addrs[i] !in addrs[..i]
    ensures var (after, r) := Batch(AddBkp, db, addrs);
            if k == |addrs| then after == last && r.Done?
            else r.Thrown? && AddBkp(last, addrs[k]) == (after, Thrown(r.msg))
  {
    hide AddBkp, Ascii;
    var xs, qs := BatchChain(AddBkp, db, addrs);
    k := 0;
    assert db.breakpts + SetOf(addrs[..0]) == db.breakpts;
    while k < |qs|
      invariant k <= |qs| && xs[k] == db.(breakpts := db.breakpts + SetOf(addrs[..k]))
      invariant forall i :: 0 <= i < k ==>
                  addrs[i] < db.memorySize && addrs[i] !in db.breakpts && addrs[i] !in addrs[..i]
    {
      assert AddBkp(xs[k], addrs[k]) == (xs[k + 1], Done(qs[k]));
      Added(xs[k], addrs[k]);
      OneMoreSet(addrs, k);
      k := k + 1;
    }
    last := xs[k];
  }

  /** They are deleted one after the other, up to the first that is outside memory or not there. */
  lemma BkpsUnset<X>(api: Api<X>, srv: Server<X>, addrs: seq<U64>) returns (k: nat)
    ensures var (after, r) := Direct(api, srv, UnsetBkps(addrs));
            && k <= |addrs|
            && var left := srv.db.breakpts - set a | a in addrs[..k];
            && after == srv.(db := srv.db.(breakpts := left))
            && (forall i :: 0 <= i < k ==>
                  addrs[i] < srv.db.memorySize && addrs[i] in srv.db.breakpts && addrs[i] !in addrs[..i])
            && match r
               case Done(v) => v == RDone && k == |addrs|
               case Thrown(m) =>
                 && k < |addrs| && (addrs[k] >= srv.db.memorySize || addrs[k] !in left)
                 && m == Ascii(if addrs[k] >= srv.db.memorySize
                               then "cannot delete breakpoint: " + "address outside of memory range"
                               else "cannot delete breakpoint: " + "there is none at this address")
  {
    hide AddBkp, DelBkp, Ascii;
    var db;
    k, db := UnsetUpTo(srv.db, addrs);
    if k < |addrs| {
      Deleted(db, addrs[k]);
    }
  }

  lemma UnsetUpTo(db: S.Db, addrs: seq<U64>) returns (k: nat, last: S.Db)
    ensures k <= |addrs| && last == db.(breakpts := db.breakpts - SetOf(addrs[..k]))
    ensures forall i :: 0 <= i < k ==>
              addrs[i] < db.memorySize && addrs[i] in db.breakpts && addrs[i] !in addrs[..i]
    ensures var (after, r) := Batch(DelBkp, db, addrs);
            if k == |addrs| then after == last && r.Done?
            else r.Thrown? && DelBkp(last, addrs[k]) == (after, Thrown(r.msg))
  {
    hide DelBkp, Ascii;
    var xs, qs := BatchChain(DelBkp, db, addrs);
    k := 0;
    assert db.breakpts - SetOf(addrs[..0]) == db.breakpts;
    while k < |qs|
      invariant k <= |qs| && xs[k] == db.(breakpts := db.breakpts - SetOf(addrs[..k]))
      invariant forall i :: 0 <= i < k ==>
                  addrs[i] < db.memorySize && addrs[i] in db.breakpts && addrs[i] !in addrs[..i]
    {
      assert DelBkp(xs[k], addrs[k]) == (xs[k + 1], Done(qs[k]));
      Deleted(xs[k], addrs[k]);
      OneMoreSet(addrs, k);
      k := k + 1;
    }
    last := xs[k];
  }

  lemma OneMoreSet(addrs: seq<U64>, k: nat)
    requires k < |addrs|
    ensures SetOf(addrs[..k + 1]) == SetOf(addrs[..k]) + {addrs[k]}
  {
    assert addrs[..k + 1] == addrs[..k] + [addrs[k]];
  }

  lemma Added(db: S.Db, addr: U64)
    ensures var (after, r) := AddBkp(db, addr);
            if addr < db.memorySize && addr !in db.breakpts then
              r == Done(()) && after == db.(breakpts := db.breakpts + {addr})
            else
              after == db &&
              r == Thrown(Ascii(if addr >= db.memorySize
                                then "cannot add breakpoint: " + "address outside of memory range"
                                else "cannot add breakpoint: " + "There is already one at this address"))
  {
    hide Ascii;
  }

  lemma Deleted(db: S.Db, addr: U64)
    ensures var (after, r) := DelBkp(db, addr);
            if addr < db.memorySize && addr in db.breakpts then
              r == Done(()) && after == db.(breakpts := db.breakpts - {addr})
            else
              after == db &&
              r == Thrown(Ascii(if addr >= db.memorySize
                                then "cannot delete breakpoint: " + "address outside of memory range"
                                else "cannot delete breakpoint: " + "there is none at this address"))
  {
    hide Ascii;
  }
}
