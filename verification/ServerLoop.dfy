/** The server's main loop, called by the VM after every instruction (src/server/server-app.cc).
    What the client does is a script: one entry per call into the client handler. A run in which the
    loop still waits for the client is one whose script has run out. */
module ServerLoop {
  import opened Common
  import opened Stepping

  datatype Peer = NotConnected | Connected | Disconnected

  /** Debugger calls a client can make that change the debugger. */
  type Command = e: Event | !e.Upd? witness Halt

  /** What the client does when the handler looks: it may be found connected, have commands, or leave. A client
      that is found to have left gives no more commands. */
  datatype Act = Act(connects: bool, cmds: seq<Command>, leaves: bool)

  /** What one look at the client makes of the handler, and the commands it finds. */
  ghost function PeerNext(p: Peer, act: Act): Peer {
    if p == NotConnected && act.connects then Connected
    else if p == Connected && act.leaves then Disconnected
    else p
  }

  ghost function Found(p: Peer, act: Act): seq<Command> {
    if p == Connected && !act.leaves then act.cmds else []
  }

  ghost function PeerAfter(p: Peer, acts: seq<Act>): Peer {
    if acts == [] then p else PeerNext(PeerAfter(p, acts[..|acts| - 1]), acts[|acts| - 1])
  }

  ghost function Given(p: Peer, acts: seq<Act>): seq<Command> {
    if acts == [] then []
    else Given(p, acts[..|acts| - 1]) + Found(PeerAfter(p, acts[..|acts| - 1]), acts[|acts| - 1])
  }

  lemma {:induction false} StaysConnected(acts: seq<Act>)
    requires forall act <- acts :: !act.leaves
    ensures PeerAfter(Connected, acts) == Connected
  {
    if acts != [] {
      assert acts[|acts| - 1] in acts && forall act <- acts[..|acts| - 1] :: act in acts;
      StaysConnected(acts[..|acts| - 1]);
    }
  }

  lemma {:induction false} GivenGrows(p: Peer, acts: seq<Act>, k: nat)
    requires k <= |acts|
    ensures Given(p, acts[..k]) <= Given(p, acts)
  {
    hide PeerAfter, Found;
    if k == |acts| {
      assert acts[..k] == acts;
    } else {
      GivenGrows(p, acts[..|acts| - 1], k);
      assert acts[..|acts| - 1][..k] == acts[..k];
    }
  }

  /** A client that stays is connected, and its commands are found one act after the other. */
  lemma GivenInOrder(acts: seq<Act>, k: nat)
    requires k < |acts| && forall act <- acts :: !act.leaves
    ensures PeerAfter(Connected, acts) == Connected
    ensures var (before, after) := (Given(Connected, acts[..k]), Given(Connected, acts[..k + 1]));
            after == before + acts[k].cmds && after <= Given(Connected, acts)
  {
    hide PeerAfter;
    StaysConnected(acts);
    StaysConnected(acts[..k]);
    GivenGrows(Connected, acts, k + 1);
    assert acts[..k + 1][..k] == acts[..k] && acts[k] in acts;
  }

  lemma {:induction false} PlayMore(db: Db, cs: seq<Command>, ds: seq<Command>)
    ensures Play(db, cs + ds) == Play(Play(db, cs), ds)
  {
    hide Do;
    if ds == [] {
      assert cs + ds == cs;
    } else {
      var n := |ds| - 1;
      assert (cs + ds)[..|cs + ds| - 1] == cs + ds[..n];
      PlayMore(db, cs, ds[..n]);
    }
  }

  /** The debugger after the client's first `k` acts. */
  ghost function Served(start: Db, acts: seq<Act>, k: nat): Db
    requires k <= |acts|
  {
    Play(start, Given(Connected, acts[..k]))
  }

  /** With act `k` the loop is done: the client leaves, or leaves a running program running. */
  ghost predicate LetsGo(start: Db, acts: seq<Act>, k: nat)
    requires k < |acts|
  {
    acts[k].leaves || (Running(Served(start, acts, k).state) && Running(Served(start, acts, k + 1).state))
  }

  /** The last of these commands that starts or stops the program starts it. */
  ghost predicate LastResumes(cs: seq<Command>) {
    exists i :: 0 <= i < |cs| && cs[i].Res? && forall j :: i < j < |cs| ==> cs[j] != Halt
  }

  lemma LastOf(cs: seq<Command>)
    requires cs != []
    ensures var n := |cs| - 1; LastResumes(cs) <==> cs[n].Res? || (cs[n] != Halt && LastResumes(cs[..n]))
  {
    var n := |cs| - 1;
    if LastResumes(cs) {
      var i :| 0 <= i < |cs| && cs[i].Res? && forall j :: i < j < |cs| ==> cs[j] != Halt;
      assert i < n ==> cs[..n][i].Res?;
    }
    if LastResumes(cs[..n]) {
      var i :| 0 <= i < n && cs[..n][i].Res? && forall j :: i < j < n ==> cs[..n][j] != Halt;
      assert cs[i].Res? && forall j :: i < j < n ==> cs[j] == cs[..n][j];
    }
  }

  /** Commands that leave a stopped program running are those whose last word is to resume. */
  lemma {:induction false} RunsAfter(db: Db, cs: seq<Command>)
    requires db.state == Stopped
    ensures var r := Play(db, cs);
            (r.state == Stopped || Running(r.state)) && (Running(r.state) <==> LastResumes(cs))
  {
    hide Do, LastResumes;
    if cs != [] {
      var n := |cs| - 1;
      RunsAfter(db, cs[..n]);
      OneMore(Play(db, cs[..n]), cs[n]);
      LastOf(cs);
    } else {
      assert !LastResumes(cs) by {
        NoneResumes();
      }
    }
  }

  lemma NoneResumes()
    ensures !LastResumes([])
  {
  }

  lemma OneMore(db: Db, c: Command)
    requires db.state == Stopped || Running(db.state)
    ensures var r := Do(db, c);
            && (r.state == Stopped || Running(r.state))
            && (Running(r.state) <==> c.Res? || (c != Halt && Running(db.state)))
  {
  }

  /** Commands leave alone where the program is, and whether it has finished. */
  lemma {:induction false} PlayKeeps(db: Db, cs: seq<Command>)
    ensures SamePlace(db, Play(db, cs))
  {
    hide SamePlace, Do;
    if cs == [] {
      AtPlace(db);
    } else {
      PlayKeeps(db, cs[..|cs| - 1]);
      DoKeeps(db, Play(db, cs[..|cs| - 1]), cs[|cs| - 1]);
    }
  }

  ghost predicate SamePlace(db: Db, r: Db) {
    && r.stack == db.stack && r.insAddr == db.insAddr && r.memorySize == db.memorySize
    && (db.state != NotStarted ==> r.state != NotStarted && (Finished(r.state) <==> Finished(db.state)))
  }

  lemma AtPlace(db: Db)
    ensures SamePlace(db, db)
  {
  }

  lemma DoKeeps(start: Db, db: Db, c: Command)
    requires SamePlace(start, db)
    ensures SamePlace(start, Do(db, c))
  {
  }

  /** An update moves the program on, or finishes it. */
  lemma UpdateMoves(db: Db, u: UpdateInfos)
    requires db.state != NotStarted && !Finished(db.state)
    ensures var r := Update(db, u);
            && r.stack == (if Normal(u) then NextStack(db.stack, db.insAddr, u) else db.stack)
            && r.insAddr == (if Normal(u) then u.addr else db.insAddr)
            && (Finished(r.state) <==> !Normal(u)) && r.state != NotStarted
  {
    hide NextStack, Halts;
  }

  /** A stopped program can be let go. */
  lemma LetGo(db: Db)
    requires db.state == Stopped
    ensures Kept(Resume(db, ToFinish), db) == db.(state := RunToFinish)
  {
  }

  lemma NoLooks(p: Peer, db: Db, acts: seq<Act>)
    ensures PeerAfter(p, acts[..0]) == p && Given(p, acts[..0]) == [] && Play(db, Given(p, acts[..0])) == db
    ensures p == Connected ==> Served(db, acts, 0) == db
  {
  }

  /** The first look at a client that has not come yet. */
  lemma OneLook(acts: seq<Act>)
    requires acts != []
    ensures PeerAfter(NotConnected, acts[..1]) == (if acts[0].connects then Connected else NotConnected)
    ensures Given(NotConnected, acts[..1]) == []
  {
    assert acts[..1][..0] == [] && acts[..1][0] == acts[0];
  }

  /** What one more look adds. */
  lemma OneAct(p: Peer, start: Db, acts: seq<Act>, n: nat)
    requires n < |acts|
    ensures var q := PeerAfter(p, acts[..n]);
            && PeerAfter(p, acts[..n + 1]) == PeerNext(q, acts[n])
            && Given(p, acts[..n + 1]) == Given(p, acts[..n]) + Found(q, acts[n])
            && Play(start, Given(p, acts[..n + 1])) == Play(Play(start, Given(p, acts[..n])), Found(q, acts[n]))
  {
    hide Do, Found;
    assert acts[..n + 1][..n] == acts[..n];
    PlayMore(start, Given(p, acts[..n]), Found(PeerAfter(p, acts[..n]), acts[n]));
  }

  /** After `n` looks the handler is `q` and the debugger `d`. */
  ghost predicate SoFar(p: Peer, start: Db, acts: seq<Act>, n: nat, q: Peer, d: Db) {
    n <= |acts| && q == PeerAfter(p, acts[..n]) && d == Play(start, Given(p, acts[..n]))
  }

  /** None of the first `n` acts of a client that was there lets go. */
  ghost predicate Held(p: Peer, start: Db, acts: seq<Act>, n: nat) {
    p == Connected ==> n <= |acts| && forall k :: 0 <= k < n ==> !LetsGo(start, acts, k)
  }

  /** Act `n - 1` is the first that does. */
  ghost predicate Done(p: Peer, start: Db, acts: seq<Act>, n: nat) {
    p == Connected ==>
      0 < n <= |acts| && LetsGo(start, acts, n - 1) && forall k :: 0 <= k < n - 1 ==> !LetsGo(start, acts, k)
  }

  lemma Begins(p: Peer, start: Db, acts: seq<Act>)
    ensures SoFar(p, start, acts, 0, p, start) && Held(p, start, acts, 0)
  {
    NoLooks(p, start, acts);
  }

  lemma LookOnce(p: Peer, start: Db, acts: seq<Act>, n: nat, d: Db)
    requires SoFar(p, start, acts, n, Connected, d) && Held(p, start, acts, n) && n < |acts|
    ensures var after := if acts[n].leaves then d else Play(d, acts[n].cmds);
            && SoFar(p, start, acts, n + 1, if acts[n].leaves then Disconnected else Connected, after)
            && if acts[n].leaves || (Running(d.state) && Running(after.state)) then Done(p, start, acts, n + 1)
               else Held(p, start, acts, n + 1)
  {
    hide Play, Given, PeerAfter, Running;
    OneAct(p, start, acts, n);
    NoLooks(p, d, acts);
  }

  lemma Waited(p: Peer, start: Db, acts: seq<Act>, n: nat, more: nat, q: Peer, d: Db)
    requires SoFar(p, start, acts, n, q, d) && q != Disconnected && n + more <= |acts|
    requires Given(q, acts[n..][..more]) == [] && (q == Connected ==> more == 0)
    requires p == Connected ==> q == Connected
    ensures SoFar(p, start, acts, n + more, PeerAfter(q, acts[n..][..more]), d)
    ensures Held(p, start, acts, n) ==> Held(p, start, acts, n + more)
  {
    hide Play, Given, PeerAfter, LetsGo;
    MoreLooks(p, start, acts, n, more);
    NoLooks(q, d, acts);
  }

  lemma NotThere(p: Peer, start: Db, acts: seq<Act>, n: nat)
    ensures p != Connected ==> Done(p, start, acts, n) && Held(p, start, acts, n)
  {
  }

  lemma Ended(p: Peer, start: Db, acts: seq<Act>, n: nat, q: Peer, d: Db, returned: bool)
    requires SoFar(p, start, acts, n, q, d)
    requires if returned then Done(p, start, acts, n) else n == |acts| && Held(p, start, acts, n)
    ensures q == PeerAfter(p, acts[..n]) && d == Play(start, Given(p, acts[..n]))
    ensures p == Connected ==>
              && (returned <==> exists k :: 0 <= k < |acts| && LetsGo(start, acts, k))
              && (returned ==> 0 < n && LetsGo(start, acts, n - 1))
              && forall k :: 0 <= k < n - 1 ==> !LetsGo(start, acts, k)
  {
    hide Play, Given, PeerAfter, LetsGo;
  }

  lemma {:induction false} MoreLooks(p: Peer, start: Db, acts: seq<Act>, n: nat, more: nat)
    requires n + more <= |acts|
    ensures var q := PeerAfter(p, acts[..n]);
            && PeerAfter(p, acts[..n + more]) == PeerAfter(q, acts[n..][..more])
            && Given(p, acts[..n + more]) == Given(p, acts[..n]) + Given(q, acts[n..][..more])
            && Play(start, Given(p, acts[..n + more])) ==
                 Play(Play(start, Given(p, acts[..n])), Given(q, acts[n..][..more]))
  {
    hide PeerNext, Found, Do, PeerAfter, Given, Play;
    var q, rest := PeerAfter(p, acts[..n]), acts[n..];
    var front := Given(p, acts[..n]);
    if more == 0 {
      NoLooks(q, start, rest);
      assert acts[..n + 0] == acts[..n] && front + [] == front;
    } else {
      MoreLooks(p, start, acts, n, more - 1);
      OneAct(p, start, acts, n + more - 1);
      OneAct(q, start, rest, more - 1);
      assert rest[more - 1] == acts[n + more - 1] && acts[..n + more - 1 + 1] == acts[..n + more];
      Assoc(front, Given(q, rest[..more - 1]), Found(PeerAfter(q, rest[..more - 1]), rest[more - 1]));
    }
    PlayMore(start, front, Given(q, rest[..more]));
  }

  /** All commands come from the client's acts. */
  lemma {:induction false} GivenFrom(p: Peer, acts: seq<Act>)
    ensures forall c <- Given(p, acts) :: exists act <- acts :: c in act.cmds
  {
    if acts != [] {
      GivenFrom(p, acts[..|acts| - 1]);
      assert acts[|acts| - 1] in acts && forall act <- acts[..|acts| - 1] :: act in acts;
    }
  }

  ghost predicate NeverResumes(acts: seq<Act>) {
    forall act <- acts, c <- act.cmds :: !c.Res?
  }

  /** A client that does not resume a stopped program leaves it stopped. */
  lemma StaysHeld(start: Db, p: Peer, acts: seq<Act>, n: nat, more: nat)
    requires start.state == Stopped && n + more <= |acts| && NeverResumes(acts)
    ensures Play(start, Given(p, acts[n..][..more])).state == Stopped
  {
    hide Play, Given;
    var part := acts[n..][..more];
    assert forall act <- part :: act in acts;
    GivenFrom(p, part);
    RunsAfter(start, Given(p, part));
    assert forall c <- Given(p, part) :: !c.Res?;
  }

  /** How the debugger is left, from how the update found it. */
  lemma LeftAs(d: Db, start: Db, end: Db, r: Db, q: Peer, returned: bool, normal: bool)
    requires start == d || (!DbStopped(d.state) && start == d.(state := Stopped))
    requires SamePlace(start, end) && d.state != NotStarted && (Finished(d.state) <==> !normal)
    requires r == if q == Disconnected && end.state == Stopped then end.(state := RunToFinish) else end
    requires returned ==> r.state != Stopped && (q == Disconnected || !DbStopped(r.state))
    ensures r.state != NotStarted && r.stack == d.stack && r.insAddr == d.insAddr
    ensures returned && Finished(r.state) ==> q == Disconnected && !normal
    ensures returned && !Finished(r.state) ==> Running(r.state) && normal
  {
  }

  class ServerApp {
    var enabled: bool
    const nostart: bool
    const hasHandlers: bool
    var db: Option<Db>
    var client: Option<Peer>
    /** The client's behaviour still to come. */
    var script: seq<Act>

    ghost predicate Valid()
      reads this
    {
      && (db.Some? <==> client.Some?)
      && (db.Some? ==> enabled && db.value.state != NotStarted)
    }

    /** The VM may call the loop with this update. */
    ghost predicate MayReport(u: UpdateInfos)
      reads this
    {
      enabled ==>
        if db.None? then u.kind == UpdOk
        else Running(db.value.state) && (u.kind == CallSub || u.kind == RetSub ==> db.value.stack != [])
    }

    constructor (enabled: bool, nostart: bool, hasHandlers: bool, script: seq<Act>)
      ensures Valid() && db == None && this.enabled == enabled
    {
      this.enabled, this.nostart, this.hasHandlers, this.script := enabled, nostart, hasHandlers, script;
      db, client := None, None;
    }

    /** The debugger once the update has reached it. */
    ghost function Arrived(size: U64, u: UpdateInfos): Db
      reads this
    {
      if db.Some? then Update(db.value, u)
      else Db(if nostart then Stopped else RunToFinish, [CallInfos(u.addr, None)], u.addr, {}, 0, size)
    }

    lemma ArrivedAt(size: U64, u: UpdateInfos)
      requires Valid() && MayReport(u) && enabled
      ensures var d := Arrived(size, u);
              && d.state != NotStarted && (Finished(d.state) <==> !Normal(u))
              && (DbStopped(d.state) <==> Finished(d.state) || d.state == Stopped)
              && d.stack == (if db.None? then [CallInfos(u.addr, None)]
                             else if Normal(u) then NextStack(db.value.stack, db.value.insAddr, u)
                             else db.value.stack)
              && d.insAddr == if db.Some? && !Normal(u) then db.value.insAddr else u.addr
    {
      hide Update, NextStack;
      if db.Some? {
        UpdateMoves(db.value, u);
      }
    }

    /** What the handler has been so far. */
    ghost function PeerNow(): Peer
      reads this
    {
      if client.Some? then client.value else NotConnected
    }

    /** One call of the main loop, in which the client is looked at `used` times. `returned` is false while it
        still waits for the client. */
    method Loop(size: U64, u: UpdateInfos) returns (returned: bool, ghost used: nat)
      requires Valid() && MayReport(u)
      modifies this
      ensures Valid() && (enabled ==> db.Some?)
      ensures !old(enabled) ==> returned && unchanged(this)
      ensures !returned ==> script == []
      ensures returned && enabled ==> db.value.state != Stopped
      ensures returned && enabled && Finished(db.value.state) ==> client.value == Disconnected && !Normal(u)
      ensures returned && enabled && !Finished(db.value.state) ==> Running(db.value.state) && Normal(u)
      ensures enabled ==>
                db.value.stack == if old(db).None? then [CallInfos(u.addr, None)]
                                  else if Normal(u) then NextStack(old(db).value.stack, old(db).value.insAddr, u)
                                  else old(db).value.stack
      ensures enabled ==> db.value.insAddr == if old(db).Some? && !Normal(u) then old(db).value.insAddr else u.addr
      // The commands found in the looks used up are performed in order, on the debugger stopped by a client that
      // has just come; one left stopped by its client is let go.
      ensures enabled ==>
                && used <= |old(script)| && script == old(script)[used..]
                && client.value == PeerAfter(old(PeerNow()), old(script)[..used])
      ensures enabled ==>
                var d := old(Arrived(size, u));
                var comes := old(PeerNow()) == NotConnected && old(script) != [] && old(script)[0].connects;
                var start := if comes && !DbStopped(d.state) then d.(state := Stopped) else d;
                var end := Play(start, Given(old(PeerNow()), old(script)[..used]));
                db.value == if client.value == Disconnected && end.state == Stopped then end.(state := RunToFinish)
                            else end
      // It returns to the program with the first act of the client that lets it go.
      ensures enabled && old(PeerNow()) == Connected ==>
                var d, acts := old(Arrived(size, u)), old(script);
                && (returned <==> exists k :: 0 <= k < |acts| && LetsGo(d, acts, k))
                && (returned ==> 0 < used && LetsGo(d, acts, used - 1))
                && forall k :: 0 <= k < used - 1 ==> !LetsGo(d, acts, k)
      // A client that comes, or is there when the program stops, has it stopped until it resumes it or leaves.
      ensures enabled && Normal(u) && (forall act <- old(script), c <- act.cmds :: !c.Res?) &&
              (((old(client) == None || old(client) == Some(NotConnected)) &&
                old(script) != [] && old(script)[0].connects)
               || (old(client) == Some(Connected) && Update(old(db).value, u).state == Stopped)) ==>
                !returned || client == Some(Disconnected)
    {
      hide Update, NextStack, Resume, Play, Given, PeerAfter, LetsGo, SamePlace, DbStopped, Finished, Running, Normal;
      assert NeverResumes(script) <==> forall act <- script, c <- act.cmds :: !c.Res?;
      hide NeverResumes;
      if !enabled {
        return true, 0;
      }
      ArrivedAt(size, u);
      NoLooks(PeerNow(), Arrived(size, u), script);
      var here;
      here, used := Report(size, u);
      if !here {
        return !enabled, 0;
      }
      ghost var looked, start, peer := script, db.value, client.value;
      ghost var more;
      NoLooks(peer, start, looked);
      returned, more := Serve();
      PlayKeeps(start, Given(peer, looked[..more]));
      LeftAs(old(Arrived(size, u)), start, Play(start, Given(peer, looked[..more])), db.value, client.value, returned,
             Normal(u));
      MoreLooks(old(PeerNow()), start, old(script), used, more);
      if start.state == Stopped && peer == Connected && NeverResumes(old(script)) {
        StaysHeld(start, peer, old(script), used, more);
      }
      used := used + more;
    }

    /** Takes the update in and looks whether the client has come; false when there is no client to serve, or
        it is not known yet. */
    method Report(size: U64, u: UpdateInfos) returns (here: bool, ghost used: nat)
      requires Valid() && MayReport(u) && enabled
      modifies this
      ensures Valid() && (enabled ==> db.Some?)
      ensures !here && enabled ==> script == old(script) == [] && client == Some(NotConnected)
      ensures here ==> enabled && used <= |old(script)| && script == old(script)[used..]
      ensures enabled ==>
                var d := old(Arrived(size, u));
                && (if here && old(PeerNow()) == NotConnected then used == 1 && old(script) != [] else used == 0)
                && client.value == (if used == 0 then old(PeerNow()) else if old(script)[0].connects then Connected
                                    else NotConnected)
                && db.value == if used == 1 && old(script)[0].connects && !DbStopped(d.state) then d.(state := Stopped)
                               else d
      ensures here ==> client.value == PeerAfter(old(PeerNow()), old(script)[..used]) &&
                       Given(old(PeerNow()), old(script)[..used]) == []
    {
      hide Update, NextStack, PeerAfter, Given;
      used := 0;
      NoLooks(PeerNow(), Arrived(size, u), script);
      if db.None? {
        Init(size, u);
        if !enabled {
          return false, 0;
        }
      } else {
        UpdateMoves(db.value, u);
        db := Some(Update(db.value, u));
      }
      if client.value == NotConnected {
        if script == [] {
          return false, 0;
        }
        OneLook(script);
        SetupConnection();
        used := 1;
        if client.value == Connected {
          StopDb();
        }
      }
      here := true;
    }

    /** Lets the client have its say for as long as the program is stopped. */
    method Serve() returns (returned: bool, ghost used: nat)
      requires Valid() && enabled && db.Some?
      modifies `client, `script, `db
      ensures Valid() && db.Some? && used <= |old(script)| && script == old(script)[used..]
      ensures !returned ==> script == [] && client.value != Disconnected
      ensures returned ==> db.value.state != Stopped && (client.value == Disconnected || !DbStopped(db.value.state))
      ensures client.value == PeerAfter(old(client).value, old(script)[..used])
      ensures var end := Play(old(db).value, Given(old(client).value, old(script)[..used]));
              db.value == if client.value == Disconnected && end.state == Stopped then end.(state := RunToFinish)
                          else end
      ensures old(client).value == Connected ==>
                && (returned <==> exists k :: 0 <= k < |old(script)| && LetsGo(old(db).value, old(script), k))
                && (returned ==> 0 < used && LetsGo(old(db).value, old(script), used - 1))
                && forall k :: 0 <= k < used - 1 ==> !LetsGo(old(db).value, old(script), k)
    {
      hide Update, NextStack, Resume, Play, Given, PeerAfter, LetsGo, Served, SoFar, Held, Done;
      used := 0;
      ghost var start, peer, acts := db.value, client.value, script;
      Begins(peer, start, acts);
      NotThere(peer, start, acts, 0);
      var again := true;
      returned := true;
      while again
        invariant Valid() && enabled && db.Some? && used <= |acts| && script == acts[used..]
        invariant SoFar(peer, start, acts, used, client.value, db.value)
        invariant again ==> returned && (peer == Connected ==> client.value != NotConnected)
        invariant again ==>
                    if client.value == Disconnected then Done(peer, start, acts, used)
                    else Held(peer, start, acts, used)
        invariant !again && returned ==>
                    Done(peer, start, acts, used) && (client.value == Disconnected || !DbStopped(db.value.state))
        invariant !returned ==> Held(peer, start, acts, used) && script == [] && client.value != Disconnected
        decreases |script|, again
      {
        again, returned, used := Round(peer, start, acts, used);
      }
      Ended(peer, start, acts, used, client.value, db.value, returned);
      if client.value == Disconnected && db.value.state == Stopped {
        LetGo(db.value);
        db := Some(Kept(Resume(db.value, ToFinish), db.value));
      }
    }

    /** One round of the loop: whether it goes on, and if not, whether it is back with the program. */
    method Round(ghost peer: Peer, ghost start: Db, ghost acts: seq<Act>, ghost used0: nat)
      returns (again: bool, returned: bool, ghost used: nat)
      requires Valid() && enabled && db.Some? && used0 <= |acts| && script == acts[used0..]
      requires SoFar(peer, start, acts, used0, client.value, db.value)
      requires peer == Connected ==> client.value != NotConnected
      requires if client.value == Disconnected then Done(peer, start, acts, used0)
               else Held(peer, start, acts, used0)
      modifies `client, `script, `db
      ensures Valid() && db.Some? && used0 <= used <= |acts| && script == acts[used..]
      ensures SoFar(peer, start, acts, used, client.value, db.value)
      ensures again ==> returned && used0 < used && (peer == Connected ==> client.value != NotConnected)
      ensures again ==>
                if client.value == Disconnected then Done(peer, start, acts, used)
                else Held(peer, start, acts, used)
      ensures !again && returned ==>
                Done(peer, start, acts, used) && (client.value == Disconnected || !DbStopped(db.value.state))
      ensures !returned ==> Held(peer, start, acts, used) && script == [] && client.value != Disconnected
    {
      hide Play, Given, PeerAfter, SoFar, Held, Done;
      used := used0;
      if client.value == Disconnected {
        return false, true, used;
      }
      NotThere(peer, start, acts, used);
      if !DbStopped(db.value.state) && client.value == Connected {
        if script == [] {
          return false, false, used;
        }
        LookOnce(peer, start, acts, used, db.value);
        CheckStopped();
        used := used + 1;
      }
      if !DbStopped(db.value.state) {
        NotThere(peer, start, acts, used);
        return false, true, used;
      }
      ghost var q, more := client.value, 0;
      var ok;
      ok, more := Connect();
      Waited(peer, start, acts, used, more, q, db.value);
      used := used + more;
      if !ok || script == [] {
        return false, false, used;
      }
      LookOnce(peer, start, acts, used, db.value);
      RunCommand();
      return true, true, used + 1;
    }

    method Init(size: U64, u: UpdateInfos)
      requires Valid() && enabled && db.None? && u.kind == UpdOk
      modifies `enabled, `db, `client
      ensures Valid() && enabled == hasHandlers && (enabled <==> db.Some?)
      ensures enabled ==>
                client == Some(NotConnected) &&
                db == Some(Db(if nostart then Stopped else RunToFinish, [CallInfos(u.addr, None)], u.addr, {}, 0, size))
    {
      db := Some(Db(RunToFinish, [CallInfos(u.addr, None)], u.addr, {}, 0, size));
      client := Some(NotConnected);
      if nostart {
        StopDb();
      }
      if !hasHandlers {
        client, db, enabled := None, None, false;
      }
    }

    method StopDb()
      requires Valid() && db.Some?
      modifies `db
      ensures Valid() && db.Some? && DbStopped(db.value.state)
      ensures db.value == if DbStopped(old(db).value.state) then old(db).value else old(db).value.(state := Stopped)
    {
      if !DbStopped(db.value.state) {
        db := Some(Kept(Stop(db.value), db.value));
      }
    }

    /** Not blocking: looks whether the client has come. */
    method SetupConnection()
      requires Valid() && client == Some(NotConnected) && script != []
      modifies `client, `script
      ensures Valid() && script == old(script)[1..]
      ensures client == Some(if old(script)[0].connects then Connected else NotConnected)
    {
      if script[0].connects {
        client := Some(Connected);
      }
      script := script[1..];
    }

    /** Waits for the client; false when it never comes. */
    method Connect() returns (ok: bool, ghost used: nat)
      requires Valid() && client.Some? && client.value != Disconnected
      modifies `client, `script
      ensures Valid() && used <= |old(script)| && script == old(script)[used..]
      ensures ok <==> client == Some(Connected)
      ensures !ok ==> script == [] && client == Some(NotConnected)
      ensures old(client) == Some(Connected) ==> ok && used == 0
      ensures client.value == PeerAfter(old(client).value, old(script)[..used])
      ensures Given(old(client).value, old(script)[..used]) == []
    {
      used := 0;
      if client.value == Connected {
        return true, 0;
      }
      while script != []
        invariant Valid() && client == Some(NotConnected) && used <= |old(script)| && script == old(script)[used..]
        invariant PeerAfter(NotConnected, old(script)[..used]) == NotConnected
        invariant Given(NotConnected, old(script)[..used]) == []
        decreases |script|
      {
        OneAct(NotConnected, db.value, old(script), used);
        SetupConnection();
        used := used + 1;
        if client.value == Connected {
          return true, used;
        }
      }
      ok := false;
    }

    /** Waits for the client's next commands. */
    method RunCommand()
      requires Valid() && client == Some(Connected) && script != []
      modifies `client, `script, `db
      ensures Valid() && db.Some? && script == old(script)[1..]
      ensures client == Some(if old(script)[0].leaves then Disconnected else Connected)
      ensures db.value == if old(script)[0].leaves then old(db).value else Play(old(db).value, old(script)[0].cmds)
    {
      Look();
    }

    /** Not blocking: performs what commands there are. */
    method CheckStopped()
      requires Valid() && client == Some(Connected) && script != []
      modifies `client, `script, `db
      ensures Valid() && db.Some? && script == old(script)[1..]
      ensures client == Some(if old(script)[0].leaves then Disconnected else Connected)
      ensures db.value == if old(script)[0].leaves then old(db).value else Play(old(db).value, old(script)[0].cmds)
    {
      Look();
    }

    method Look()
      requires Valid() && client == Some(Connected) && script != []
      modifies `client, `script, `db
      ensures Valid() && db.Some? && script == old(script)[1..]
      ensures client == Some(if old(script)[0].leaves then Disconnected else Connected)
      ensures db.value == if old(script)[0].leaves then old(db).value else Play(old(db).value, old(script)[0].cmds)
    {
      if script[0].leaves {
        client := Some(Disconnected);
      } else {
        PlayKeeps(db.value, script[0].cmds);
        db := Some(Play(db.value, script[0].cmds));
      }
      script := script[1..];
    }
  }

  /** A whole program under the debugger: the VM reports its updates one by one, stops reporting after an
      error or its exit, and never returns from its outermost frame. Every call finds the debugger in a
      state that on_update accepts, whatever the client does. */
  method Drive(app: ServerApp, size: U64, us: seq<UpdateInfos>) returns (served: nat)
    requires app.Valid() && app.db == None && us != [] && us[0].kind == UpdOk && StaysInside(1, us, |us|)
    requires forall i :: 0 <= i < |us| - 1 ==> Normal(us[i])
    modifies app
    ensures served <= |us| && (served < |us| ==> app.script == [])
    ensures served == |us| && app.enabled ==> app.db.Some? && app.db.value.state != Stopped
    ensures served == |us| && app.enabled ==> (Finished(app.db.value.state) <==> !Normal(us[|us| - 1]))
    ensures served == |us| && app.enabled && Finished(app.db.value.state) ==> app.client == Some(Disconnected)
  {
    served := 0;
    while served < |us|
      invariant 0 <= served <= |us| && app.Valid()
      invariant served == 0 ==> app.db == None
      invariant app.enabled && served > 0 ==>
                  && app.db.Some? && app.db.value.state != Stopped
                  && |app.db.value.stack| == Depth(1, us, served)
                  && (Normal(us[served - 1]) ==> Running(app.db.value.state))
                  && (!Normal(us[served - 1]) ==> Finished(app.db.value.state) && app.client == Some(Disconnected))
    {
      var returned, _ := app.Loop(size, us[served]);
      if !returned {
        return;
      }
      served := served + 1;
    }
  }
}
