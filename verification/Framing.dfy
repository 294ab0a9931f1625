/** Messages over a byte stream that is cut at arbitrary points (src/mess/tcp-transfer.cc). */
module Framing {
  import opened Common
  import opened Wire

  /** The message size is kept in 32 bits, and only so many bytes are sent. */
  function Kept(m: Bytes): (r: Bytes)
    ensures r <= m && |r| == |m| % 0x1_0000_0000
  {
    m[..|m| % TWO_32]
  }

  function Frame(m: Bytes): (r: Bytes)
    ensures |r| == 4 + |m| % TWO_32
  {
    Le(|m| % TWO_32, 4) + Kept(m)
  }

  function Stream(ms: seq<Bytes>): Bytes {
    if ms == [] then [] else Frame(ms[0]) + Stream(ms[1..])
  }

  function AllKept(ms: seq<Bytes>): (r: seq<Bytes>)
    ensures |r| == |ms| && forall i :: 0 <= i < |ms| ==> r[i] == Kept(ms[i])
  {
    seq(|ms|, i requires 0 <= i < |ms| => Kept(ms[i]))
  }

  /** What a receiver takes off the front of a stream. */
  function Unframe(bs: Bytes): Option<(Bytes, Bytes)> {
    match TakeInt(4, bs)
    case None => None
    case Some((size, r)) => TakeBytes(size, r)
  }

  /** One message comes out as it went in if and only if its size fits 32 bits; the stream stays in step
      either way. */
  lemma FrameArrives(m: Bytes, rest: Bytes)
    ensures Unframe(Frame(m) + rest) == Some((Kept(m), rest))
    ensures Kept(m) == m <==> |m| < TWO_32
  {
    PowersInUse();
    TakePutInt(|m| % TWO_32, 4, Kept(m) + rest);
    Assoc(Le(|m| % TWO_32, 4), Kept(m), rest);
    assert TakeBytes(|Kept(m)|, Kept(m) + rest) == Some((Kept(m), rest));
  }

  lemma StreamAt(ms: seq<Bytes>, k: nat)
    requires k < |ms|
    ensures Stream(ms[k..]) == Frame(ms[k]) + Stream(ms[k + 1..])
    ensures |Stream(ms[k..])| == 4 + |Kept(ms[k])| + |Stream(ms[k + 1..])|
  {
    assert ms[k..][1..] == ms[k + 1..];
  }

  lemma StreamEnd(ms: seq<Bytes>)
    ensures Stream(ms[|ms|..]) == []
  {
  }

  // The transfer loops.

  /** The next `k` calls of the system move something. */
  ghost predicate Live(script: seq<nat>, k: nat) {
    k <= |script| && forall i :: 0 <= i < k ==> script[i] > 0
  }

  /** No more than `k` calls have been made in between. */
  ghost predicate Used(before: seq<nat>, after: seq<nat>, k: nat) {
    |after| <= |before| <= |after| + k && after == before[|before| - |after|..]
  }

  lemma LiveAfter(before: seq<nat>, after: seq<nat>, k: nat, m: nat)
    requires Used(before, after, k) && Live(before, k + m)
    ensures Live(after, m)
  {
  }

  lemma LiveFront(script: seq<nat>, k: nat, m: nat)
    ensures Live(script, k + m) ==> Live(script, k)
  {
  }

  lemma FrameParts(m: Bytes)
    ensures Frame(m) == Le(|m| % TWO_32, 4) + m[..|m| % TWO_32]
  {
  }

  lemma FrontOfSum(a: Bytes, b: Bytes, k: nat)
    requires k <= |a|
    ensures (a + b)[..k] == a[..k] && a[..|a|] == a
  {
  }

  lemma SumOfFront(a: Bytes, b: Bytes, k: nat)
    requires k <= |b|
    ensures a + b[..k] == (a + b)[..|a| + k]
  {
  }

  lemma UsedTwice(a: seq<nat>, b: seq<nat>, c: seq<nat>, k: nat, m: nat)
    requires Used(a, b, k) && Used(b, c, m)
    ensures Used(a, c, k + m)
  {
  }

  /** One end of a connection. The script says how many bytes the system moves at each call; 0, or the end
      of the script, is a call that fails. */
  class Socket {
    var sent: Bytes
    var incoming: Bytes
    var script: seq<nat>
    var failed: bool

    constructor (incoming: Bytes, script: seq<nat>)
      ensures sent == [] && this.incoming == incoming && this.script == script && !failed
    {
      sent, this.incoming, this.script, failed := [], incoming, script, false;
    }

    /** How much of at most `limit` bytes moves now. */
    method Move(limit: nat) returns (n: nat)
      modifies this`script, this`failed
      ensures n == (if old(script) == [] then 0 else Min(limit, old(script)[0]))
      ensures script == (if old(script) == [] then [] else old(script)[1..]) && failed == (old(failed) || n == 0)
    {
      n := if script == [] then 0 else Min(limit, script[0]);
      script := if script == [] then [] else script[1..];
      failed := failed || n == 0;
    }

    method Send(buf: Bytes) returns (n: nat)
      modifies this
      ensures n == (if old(script) == [] then 0 else Min(|buf|, old(script)[0]))
      ensures script == (if old(script) == [] then [] else old(script)[1..]) && failed == (old(failed) || n == 0)
      ensures sent == old(sent) + buf[..n] && incoming == old(incoming)
    {
      n := Move(|buf|);
      sent := sent + buf[..n];
    }

    /** Reads at most `len` bytes into `buf` from `off` on. */
    method Read(buf: array<Byte>, off: nat, len: nat) returns (n: nat)
      requires off + len <= buf.Length
      modifies this, buf
      ensures n == (if old(script) == [] then 0 else Min(Min(len, |old(incoming)|), old(script)[0]))
      ensures script == (if old(script) == [] then [] else old(script)[1..]) && failed == (old(failed) || n == 0)
      ensures incoming == old(incoming)[n..] && sent == old(sent)
      ensures buf[..off] == old(buf[..off]) && buf[off..off + n] == old(incoming)[..n]
    {
      n := Move(Min(len, |incoming|));
      var i := 0;
      while i < n
        modifies buf
        invariant 0 <= i <= n && buf[..off] == old(buf[..off]) && buf[off..off + i] == incoming[..i]
      {
        buf[off + i] := incoming[i];
        i := i + 1;
      }
      incoming := incoming[n..];
    }

    method WriteMult(inBuf: Bytes) returns (ok: bool)
      modifies this
      ensures incoming == old(incoming) && |old(sent)| <= |sent| <= |old(sent)| + |inBuf|
      ensures sent == old(sent) + inBuf[..|sent| - |old(sent)|]
      ensures ok <==> |sent| == |old(sent)| + |inBuf|
      ensures if ok then failed == old(failed) && Used(old(script), script, |inBuf|)
              else failed && !Live(old(script), |inBuf|)
    {
      var pos, len := 0, |inBuf|;
      while len > 0
        invariant 0 <= pos && 0 <= len && pos + len == |inBuf| && sent == old(sent) + inBuf[..pos]
        invariant incoming == old(incoming) && failed == old(failed) && Used(old(script), script, pos)
        decreases len
      {
        var swrote := Send(inBuf[pos..]);
        assert inBuf[..pos] + inBuf[pos..][..swrote] == inBuf[..pos + swrote];
        Assoc(old(sent), inBuf[..pos], inBuf[pos..][..swrote]);
        if swrote == 0 {
          break;
        }
        len := len - swrote;
        pos := pos + swrote;
      }
      ok := len == 0;
    }

    method ReadMult(outBuf: array<Byte>, size: nat) returns (ok: bool, ghost got: nat)
      requires size <= outBuf.Length
      modifies this, outBuf
      ensures got <= size && got <= |old(incoming)| && incoming == old(incoming)[got..] && sent == old(sent)
      ensures outBuf[..got] == old(incoming)[..got]
      ensures ok <==> got == size
      ensures if ok then failed == old(failed) && Used(old(script), script, size)
              else failed && (|old(incoming)| < size || !Live(old(script), size))
    {
      var pos, len := 0, size;
      while len > 0
        invariant 0 <= pos <= |old(incoming)| && 0 <= len && pos + len == size && incoming == old(incoming)[pos..]
        invariant outBuf[..pos] == old(incoming)[..pos] && sent == old(sent) && failed == old(failed)
        invariant Used(old(script), script, pos)
        decreases len
      {
        var sread := Read(outBuf, pos, len);
        assert outBuf[..pos + sread] == outBuf[..pos] + outBuf[pos..pos + sread];
        assert old(incoming)[pos..][sread..] == old(incoming)[pos + sread..];
        if sread == 0 {
          break;
        }
        len := len - sread;
        pos := pos + sread;
      }
      ok := len == 0;
      got := pos;
    }

    /** send_data_tcp: the whole frame, or, once the connection fails, a part of it. */
    method SendData(m: Bytes) returns (ok: bool)
      modifies this
      ensures incoming == old(incoming)
      ensures ok ==> sent == old(sent) + Frame(m) && failed == old(failed)
      ensures Live(old(script), |Frame(m)|) ==> ok
      ensures !ok ==> failed && |old(sent)| <= |sent| < |old(sent)| + |Frame(m)|
                      && sent == old(sent) + Frame(m)[..|sent| - |old(sent)|]
    {
      hide Frame, Live, Used, Le;
      var size := |m| % TWO_32;
      var header := Le(size, 4);
      var body := m[..size];
      ghost var before, all := sent, script;
      assert Frame(m) == header + body by {
        FrameParts(m);
      }
      LiveFront(script, 4, size);
      ok := WriteMult(header);
      FrontOfSum(header, body, |sent| - |before|);
      if ok {
        ghost var half, left := sent, script;
        ok := WriteMult(body);
        ghost var k := |sent| - |half|;
        Assoc(before, header, body[..k]);
        SumOfFront(header, body, k);
        assert body[..size] == body;
        if Live(all, 4 + size) {
          LiveAfter(all, left, 4, size);
        }
      }
    }

    /** recv_data_tcp: exactly the first message of the stream, unless the connection fails. */
    method RecvData() returns (ok: bool, m: Bytes)
      modifies this
      ensures sent == old(sent)
      ensures ok ==>
                Unframe(old(incoming)) == Some((m, incoming)) && failed == old(failed) &&
                Used(old(script), script, 4 + |m|)
      ensures !ok ==> failed
      ensures match Unframe(old(incoming))
              case None => !ok
              case Some((whole, _)) => Live(old(script), 4 + |whole|) ==> ok
    {
      var header := new Byte[4];
      ghost var got;
      ghost var before := incoming;
      m := [];
      ok, got := ReadMult(header, 4);
      if !ok {
        return;
      }
      assert header[..] == before[..4];
      var size := FromLe(header[..]);
      var body := new Byte[size];
      ghost var left := script;
      ok, got := ReadMult(body, size);
      if Live(old(script), 4 + size) {
        LiveAfter(old(script), left, 4, size);
      }
      if ok {
        m := body[..];
        assert TakeInt(4, before) == Some((size, before[4..])) && m == before[4..][..size];
        UsedTwice(old(script), left, script, 4, size);
      }
    }

    /** A series of messages from the other end, however the stream is cut. */
    method RecvAll(ghost ms: seq<Bytes>, n: nat) returns (received: seq<Bytes>)
      requires n == |ms| && exists rest :: incoming == Stream(ms) + rest
      modifies this
      ensures |received| <= n && received == AllKept(ms)[..|received|]
      ensures |received| < n ==> failed
      ensures Live(old(script), |Stream(ms)|) ==> |received| == n
      ensures |received| == n ==> old(incoming) == Stream(ms) + incoming
    {
      hide Stream, Frame, Live, Used, Kept, Unframe;
      ghost var rest :| incoming == Stream(ms) + rest;
      received := [];
      assert ms[0..] == ms;
      while |received| < n
        invariant |received| <= n && received == AllKept(ms)[..|received|]
        invariant incoming == Stream(ms[|received|..]) + rest
        invariant Live(old(script), |Stream(ms)|) ==> Live(script, |Stream(ms[|received|..])|)
        decreases n - |received|
      {
        ghost var k := |received|;
        StreamAt(ms, k);
        Assoc(Frame(ms[k]), Stream(ms[k + 1..]), rest);
        FrameArrives(ms[k], Stream(ms[k + 1..]) + rest);
        ghost var before := script;
        LiveFront(before, 4 + |Kept(ms[k])|, |Stream(ms[k + 1..])|);
        var ok, m := RecvData();
        if !ok {
          return;
        }
        if Live(before, |Stream(ms[k..])|) {
          LiveAfter(before, script, 4 + |m|, |Stream(ms[k + 1..])|);
        }
        received := received + [m];
      }
      StreamEnd(ms);
      assert [] + rest == rest;
    }
  }

  // Both ends at once: every interleaving of partial sends and partial reads.

  /** Where a receiver is: in a header, or in a message of known size. */
  datatype Phase = InHeader(got: Bytes) | InBody(size: nat, got: Bytes)

  datatype Net = Net(unsent: Bytes, fifo: Bytes, phase: Phase, received: seq<Bytes>)

  datatype Step = Sends(k: nat) | Reads(k: nat)

  function Wanted(p: Phase): nat {
    match p
    case InHeader(got) => if |got| <= 4 then 4 - |got| else 0
    case InBody(size, got) => if |got| <= size then size - |got| else 0
  }

  predicate Possible(n: Net, s: Step) {
    match s
    case Sends(k) => 0 < k <= |n.unsent|
    case Reads(k) => 0 < k <= |n.fifo| && k <= Wanted(n.phase)
  }

  /** A message is complete as soon as no more bytes are wanted. */
  function Settled(n: Net): Net {
    var p := match n.phase
               case InHeader(got) => if |got| == 4 then InBody(FromLe(got), []) else n.phase
               case _ => n.phase;
    if p.InBody? && |p.got| == p.size then
      n.(phase := InHeader([]), received := n.received + [p.got])
    else
      n.(phase := p)
  }

  function Take(n: Net, s: Step): Net
    requires Possible(n, s)
  {
    match s
    case Sends(k) => n.(unsent := n.unsent[k..], fifo := n.fifo + n.unsent[..k])
    case Reads(k) => Settled(n.(fifo := n.fifo[k..], phase := n.phase.(got := n.phase.got + n.fifo[..k])))
  }

  ghost predicate Run(n: Net, ss: seq<Step>)
    decreases |ss|
  {
    ss == [] || (Possible(n, ss[0]) && Run(Take(n, ss[0]), ss[1..]))
  }

  function End(n: Net, ss: seq<Step>): Net
    requires Run(n, ss)
    decreases |ss|
  {
    if ss == [] then n else End(Take(n, ss[0]), ss[1..])
  }

  function Partial(p: Phase): Bytes {
    match p
    case InHeader(got) => got
    case InBody(size, got) => Le(size, 4) + got
  }

  ghost predicate Inv(n: Net, stream: Bytes) {
    && Stream(n.received) + (Partial(n.phase) + (n.fifo + n.unsent)) == stream
    && (forall m <- n.received :: |m| < TWO_32)
    && match n.phase
       case InHeader(got) => |got| < 4
       case InBody(size, got) => |got| < size < TWO_32
  }

  lemma {:induction false} StreamAppend(ms: seq<Bytes>, m: Bytes)
    ensures Stream(ms + [m]) == Stream(ms) + Frame(m)
  {
    if ms == [] {
      assert [m][1..] == [] && [] + [m] == [m] && Frame(m) + [] == Frame(m) && [] + Frame(m) == Frame(m);
    } else {
      assert (ms + [m])[1..] == ms[1..] + [m];
      StreamAppend(ms[1..], m);
      Assoc(Frame(ms[0]), Stream(ms[1..]), Frame(m));
    }
  }

  lemma {:induction false} LeOfFromLe(bs: Bytes)
    ensures Le(FromLe(bs), |bs|) == bs
  {
    if bs != [] {
      LeOfFromLe(bs[1..]);
      assert FromLe(bs) % 256 == bs[0] && FromLe(bs) / 256 == FromLe(bs[1..]);
      assert [bs[0]] + bs[1..] == bs;
    }
  }

  /** A whole header is as good as the size it holds. */
  lemma HeaderIsSize(got: Bytes)
    requires |got| == 4
    ensures Partial(InBody(FromLe(got), [])) == got && FromLe(got) < TWO_32
  {
    PowersInUse();
    LeOfFromLe(got);
    FromLeBound(got);
    assert got + [] == got;
  }

  /** A whole message is its frame. */
  lemma BodyIsFrame(ms: seq<Bytes>, m: Bytes, rest: Bytes)
    requires |m| < TWO_32
    ensures Stream(ms) + (Partial(InBody(|m|, m)) + rest) == Stream(ms + [m]) + (Partial(InHeader([])) + rest)
  {
    hide Stream;
    assert Kept(m) == m;
    StreamAppend(ms, m);
    Assoc(Stream(ms), Frame(m), rest);
    assert [] + rest == rest;
  }

  /** The bytes are the same before and after a receiver draws its conclusion from them. */
  lemma SettledKeeps(n: Net, stream: Bytes)
    requires Stream(n.received) + (Partial(n.phase) + (n.fifo + n.unsent)) == stream
    requires forall m <- n.received :: |m| < TWO_32
    requires match n.phase case InHeader(got) => |got| <= 4 case InBody(size, got) => |got| <= size < TWO_32
    ensures Inv(Settled(n), stream)
  {
    hide Stream, Partial;
    var p := match n.phase
               case InHeader(got) => if |got| == 4 then InBody(FromLe(got), []) else n.phase
               case _ => n.phase;
    if n.phase.InHeader? && |n.phase.got| == 4 {
      HeaderIsSize(n.phase.got);
      HeaderKept(n.phase.got);
    }
    if p.InBody? && |p.got| == p.size {
      BodyIsFrame(n.received, p.got, n.fifo + n.unsent);
    }
  }

  lemma HeaderKept(got: Bytes)
    ensures Partial(InHeader(got)) == got
  {
  }

  lemma StepKeeps(n: Net, s: Step, stream: Bytes)
    requires Inv(n, stream) && Possible(n, s)
    ensures Inv(Take(n, s), stream)
  {
    match s
    case Sends(k) =>
      assert n.fifo + n.unsent == (n.fifo + n.unsent[..k]) + n.unsent[k..];
    case Reads(k) =>
      var m := n.(fifo := n.fifo[k..], phase := n.phase.(got := n.phase.got + n.fifo[..k]));
      MovedBytes(n, k);
      SettledKeeps(m, stream);
  }

  lemma MovedBytes(n: Net, k: nat)
    requires k <= |n.fifo|
    ensures Partial(n.phase.(got := n.phase.got + n.fifo[..k])) + (n.fifo[k..] + n.unsent) ==
            Partial(n.phase) + (n.fifo + n.unsent)
  {
    var read := n.fifo[..k];
    assert n.fifo + n.unsent == read + (n.fifo[k..] + n.unsent);
    Assoc(Partial(n.phase), read, n.fifo[k..] + n.unsent);
    if n.phase.InBody? {
      Assoc(Le(n.phase.size, 4), n.phase.got, read);
    }
  }

  lemma {:induction false} RunKeeps(n: Net, ss: seq<Step>, stream: Bytes)
    requires Inv(n, stream) && Run(n, ss)
    ensures Inv(End(n, ss), stream)
    decreases |ss|
  {
    if ss != [] {
      StepKeeps(n, ss[0], stream);
      RunKeeps(Take(n, ss[0]), ss[1..], stream);
    }
  }

  /** Whole frames at the front of a stream are its first messages. */
  lemma {:induction false} FramesArePrefix(got: seq<Bytes>, rest: Bytes, ms: seq<Bytes>)
    requires Stream(got) + rest == Stream(ms) && forall m <- got :: |m| < TWO_32
    ensures |got| <= |ms| && got == AllKept(ms)[..|got|]
    ensures Stream(ms[|got|..]) == rest
  {
    hide Frame, Kept, Unframe;
    if got == [] {
      assert [] + rest == rest && ms[0..] == ms;
    } else {
      Assoc(Frame(got[0]), Stream(got[1..]), rest);
      FrameArrives(got[0], Stream(got[1..]) + rest);
      assert ms != [];
      FrameArrives(ms[0], Stream(ms[1..]));
      FramesArePrefix(got[1..], rest, ms[1..]);
      assert ms[|got|..] == ms[1..][|got[1..]|..];
      assert AllKept(ms)[..|got|] == [Kept(ms[0])] + AllKept(ms[1..])[..|got[1..]|];
    }
  }

  const START := Net([], [], InHeader([]), [])

  /** In every interleaving, what has been received is at any time the beginning of what was sent; once all
      bytes have moved it is all of it. */
  lemma ReceivedIsSent(ms: seq<Bytes>, ss: seq<Step>)
    requires Run(START.(unsent := Stream(ms)), ss)
    ensures var end := End(START.(unsent := Stream(ms)), ss);
            && |end.received| <= |ms| && end.received == AllKept(ms)[..|end.received|]
            && (end.unsent == [] && end.fifo == [] ==> end.received == AllKept(ms))
  {
    var start := START.(unsent := Stream(ms));
    assert [] + ([] + ([] + start.unsent)) == start.unsent;
    RunKeeps(start, ss, Stream(ms));
    var end := End(start, ss);
    var rest := Partial(end.phase) + (end.fifo + end.unsent);
    FramesArePrefix(end.received, rest, ms);
    if end.unsent == [] && end.fifo == [] && |end.received| < |ms| {
      FrameArrives(ms[|end.received|], Stream(ms[|end.received|..][1..]));
      assert rest == Partial(end.phase);
      ShortFrame(end.phase);
      assert false;
    }
  }

  /** An unfinished message is no whole frame. */
  lemma ShortFrame(p: Phase)
    requires match p case InHeader(got) => |got| < 4 case InBody(size, got) => |got| < size < TWO_32
    ensures Unframe(Partial(p)) == None
  {
    if p.InBody? {
      PowersInUse();
      TakePutInt(p.size, 4, p.got);
    }
  }

  function Measure(n: Net): nat {
    2 * |n.unsent| + |n.fifo|
  }

  /** No run goes on for ever, and none stops before all bytes have moved. */
  lemma Progress(n: Net, stream: Bytes)
    requires Inv(n, stream)
    ensures forall s :: Possible(n, s) ==> Measure(Take(n, s)) < Measure(n)
    ensures (n.unsent == [] && n.fifo == []) <==> forall s :: !Possible(n, s)
  {
    if n.unsent != [] {
      assert Possible(n, Sends(1));
    } else if n.fifo != [] {
      assert Possible(n, Reads(1));
    }
  }
}
