/** Serialized values: what the stream operators write and read (src/mess/request.cc,
    include/odb/mess/serial.hh). */
module Wire {
  import opened Common

  type Bytes = seq<Byte>

  /** Types that have stream operators. An enumeration travels as one byte, a boolean as a byte too. */
  datatype Ty = TInt(width: nat) | TStr | TVec(elem: Ty) | TStruct(fields: seq<Ty>)

  datatype Val = VInt(n: nat) | VStr(s: Bytes) | VSeq(items: seq<Val>)

  function Pow256(w: nat): (p: nat)
    ensures p > 0
  {
    if w == 0 then 1 else 256 * Pow256(w - 1)
  }

  lemma PowersInUse()
    ensures Pow256(1) == TWO_8 && Pow256(2) == TWO_16 && Pow256(4) == TWO_32 && Pow256(8) == TWO_64
  {
    assert Pow256(1) == 256 * Pow256(0);
    assert Pow256(2) == 256 * Pow256(1);
    assert Pow256(3) == 256 * Pow256(2);
    assert Pow256(4) == 256 * Pow256(3);
    assert Pow256(5) == 256 * Pow256(4);
    assert Pow256(6) == 256 * Pow256(5);
    assert Pow256(7) == 256 * Pow256(6);
    assert Pow256(8) == 256 * Pow256(7);
  }

  /** The `w` bytes of an integer, both ends using the same byte order. */
  function Le(n: nat, w: nat): (bs: Bytes)
    ensures |bs| == w
  {
    if w == 0 then [] else [n % 256] + Le(n / 256, w - 1)
  }

  function FromLe(bs: Bytes): nat {
    if bs == [] then 0 else bs[0] + 256 * FromLe(bs[1..])
  }

  lemma {:induction false} LeRoundTrip(n: nat, w: nat)
    requires n < Pow256(w)
    ensures FromLe(Le(n, w)) == n
  {
    if w > 0 {
      LeRoundTrip(n / 256, w - 1);
      assert Le(n, w)[1..] == Le(n / 256, w - 1);
    }
  }

  lemma {:induction false} FromLeBound(bs: Bytes)
    ensures FromLe(bs) < Pow256(|bs|)
  {
    if bs != [] {
      FromLeBound(bs[1..]);
    }
  }

  ghost predicate HasType(ty: Ty, v: Val)
    decreases ty
  {
    match ty
    case TInt(w) => v.VInt? && v.n < Pow256(w)
    case TStr => v.VStr? && |v.s| < Pow256(8)
    case TVec(e) => v.VSeq? && |v.items| < Pow256(8) && forall i :: 0 <= i < |v.items| ==> HasType(e, v.items[i])
    case TStruct(fs) => v.VSeq? && |v.items| == |fs| && forall i :: 0 <= i < |fs| ==> HasType(fs[i], v.items[i])
  }

  ghost predicate AllHaveType(ty: Ty, vs: seq<Val>) {
    forall i :: 0 <= i < |vs| ==> HasType(ty, vs[i])
  }

  // What is written. Values of another type than the one asked for write nothing.

  function Put(ty: Ty, v: Val): Bytes
    decreases ty, 0
  {
    match ty
    case TInt(w) => if v.VInt? then Le(v.n, w) else []
    case TStr => if v.VStr? then Le(|v.s|, 8) + v.s else []
    case TVec(e) => if v.VSeq? then Le(|v.items|, 8) + PutAll(e, v.items) else []
    case TStruct(fs) => if v.VSeq? && |v.items| == |fs| then PutFields(fs, v.items) else []
  }

  function PutAll(ty: Ty, vs: seq<Val>): Bytes
    decreases ty, |vs|
  {
    if vs == [] then [] else Put(ty, vs[0]) + PutAll(ty, vs[1..])
  }

  function PutFields(tys: seq<Ty>, vs: seq<Val>): Bytes
    requires |tys| == |vs|
    decreases tys, 0
  {
    if tys == [] then [] else Put(tys[0], vs[0]) + PutFields(tys[1..], vs[1..])
  }

  // What is read back, with the bytes left over; None when the stream panics for lack of bytes.

  function TakeBytes(n: nat, bs: Bytes): Option<(Bytes, Bytes)> {
    if n <= |bs| then Some((bs[..n], bs[n..])) else None
  }

  function TakeInt(w: nat, bs: Bytes): Option<(nat, Bytes)> {
    if w <= |bs| then Some((FromLe(bs[..w]), bs[w..])) else None
  }

  function Take(ty: Ty, bs: Bytes): Option<(Val, Bytes)>
    decreases ty, 0
  {
    match ty
    case TInt(w) =>
      (match TakeInt(w, bs)
       case None => None
       case Some((n, r)) => Some((VInt(n), r)))
    case TStr =>
      (match TakeInt(8, bs)
       case None => None
       case Some((n, r)) =>
         match TakeBytes(n, r)
         case None => None
         case Some((s, q)) => Some((VStr(s), q)))
    case TVec(e) =>
      (match TakeInt(8, bs)
       case None => None
       case Some((n, r)) =>
         match TakeAll(e, n, r)
         case None => None
         case Some((vs, q)) => Some((VSeq(vs), q)))
    case TStruct(fs) =>
      (match TakeFields(fs, bs)
       case None => None
       case Some((vs, q)) => Some((VSeq(vs), q)))
  }

  function TakeAll(ty: Ty, n: nat, bs: Bytes): Option<(seq<Val>, Bytes)>
    decreases ty, n
  {
    if n == 0 then Some(([], bs))
    else
      match Take(ty, bs)
      case None => None
      case Some((v, r)) =>
        match TakeAll(ty, n - 1, r)
        case None => None
        case Some((vs, q)) => Some(([v] + vs, q))
  }

  function TakeFields(tys: seq<Ty>, bs: Bytes): Option<(seq<Val>, Bytes)>
    decreases tys, 0
  {
    if tys == [] then Some(([], bs))
    else
      match Take(tys[0], bs)
      case None => None
      case Some((v, r)) =>
        match TakeFields(tys[1..], r)
        case None => None
        case Some((vs, q)) => Some(([v] + vs, q))
  }

  lemma TakePutInt(n: nat, w: nat, rest: Bytes)
    requires n < Pow256(w)
    ensures TakeInt(w, Le(n, w) + rest) == Some((n, rest))
  {
    LeRoundTrip(n, w);
    assert (Le(n, w) + rest)[..w] == Le(n, w);
  }

  /** A value that is written reads back, and leaves exactly the bytes that follow it. */
  lemma {:induction false} RoundTrip(ty: Ty, v: Val, rest: Bytes)
    requires HasType(ty, v)
    ensures Take(ty, Put(ty, v) + rest) == Some((v, rest))
    decreases ty, 0
  {
    match ty
    case TInt(w) =>
      TakePutInt(v.n, w, rest);
    case TStr =>
      TakePutInt(|v.s|, 8, v.s + rest);
      Assoc(Le(|v.s|, 8), v.s, rest);
      assert TakeBytes(|v.s|, v.s + rest) == Some((v.s, rest));
    case TVec(e) =>
      TakePutInt(|v.items|, 8, PutAll(e, v.items) + rest);
      Assoc(Le(|v.items|, 8), PutAll(e, v.items), rest);
      RoundTripAll(e, v.items, rest);
    case TStruct(fs) =>
      RoundTripFields(fs, v.items, rest);
  }

  lemma {:induction false} RoundTripAll(ty: Ty, vs: seq<Val>, rest: Bytes)
    requires AllHaveType(ty, vs)
    ensures TakeAll(ty, |vs|, PutAll(ty, vs) + rest) == Some((vs, rest))
    decreases ty, |vs|
  {
    if vs == [] {
      assert [] + rest == rest;
    } else {
      Assoc(Put(ty, vs[0]), PutAll(ty, vs[1..]), rest);
      RoundTrip(ty, vs[0], PutAll(ty, vs[1..]) + rest);
      RoundTripAll(ty, vs[1..], rest);
      assert [vs[0]] + vs[1..] == vs;
    }
  }

  lemma {:induction false} RoundTripFields(tys: seq<Ty>, vs: seq<Val>, rest: Bytes)
    requires |tys| == |vs| && forall i :: 0 <= i < |tys| ==> HasType(tys[i], vs[i])
    ensures TakeFields(tys, PutFields(tys, vs) + rest) == Some((vs, rest))
    decreases tys, 0
  {
    if tys == [] {
      assert [] + rest == rest;
    } else {
      Assoc(Put(tys[0], vs[0]), PutFields(tys[1..], vs[1..]), rest);
      RoundTrip(tys[0], vs[0], PutFields(tys[1..], vs[1..]) + rest);
      RoundTripFields(tys[1..], vs[1..], rest);
      assert [vs[0]] + vs[1..] == vs;
    }
  }

  /** Strings and vectors are preceded by their lengths in eight bytes; the members of a struct follow one
      another. */
  lemma Layout(s: Bytes, ty: Ty, vs: seq<Val>)
    ensures Put(TStr, VStr(s)) == Le(|s|, 8) + s
    ensures Put(TVec(ty), VSeq(vs)) == Le(|vs|, 8) + PutAll(ty, vs)
    ensures forall v <- vs :: Put(TStruct([ty]), VSeq([v])) == Put(ty, v)
    ensures vs != [] ==> PutAll(ty, vs) == Put(ty, vs[0]) + PutAll(ty, vs[1..])
  {
    forall v | v in vs
      ensures Put(TStruct([ty]), VSeq([v])) == Put(ty, v)
    {
      assert [ty][1..] == [] && [v][1..] == [];
      assert PutFields([ty], [v]) == Put(ty, v) + PutFields([], []);
    }
  }

  /** Reading m + n elements is reading m, then n. */
  lemma {:induction false} TakeAllSplit(ty: Ty, m: nat, n: nat, bs: Bytes)
    ensures TakeAll(ty, m + n, bs) ==
            match TakeAll(ty, m, bs)
            case None => None
            case Some((xs, r)) =>
              match TakeAll(ty, n, r)
              case None => None
              case Some((ys, q)) => Some((xs + ys, q))
  {
    if m == 0 {
      var t := TakeAll(ty, n, bs);
      assert t.Some? ==> [] + t.value.0 == t.value.0;
    } else {
      var head := Take(ty, bs);
      if head.Some? {
        var (v, r) := head.value;
        TakeAllSplit(ty, m - 1, n, r);
        var front := TakeAll(ty, m - 1, r);
        if front.Some? {
          var back := TakeAll(ty, n, front.value.1);
          assert back.Some? ==> [v] + (front.value.0 + back.value.0) == ([v] + front.value.0) + back.value.0;
        }
      }
    }
  }

  lemma {:induction false} TakeAllLength(ty: Ty, n: nat, bs: Bytes)
    ensures TakeAll(ty, n, bs).Some? ==> |TakeAll(ty, n, bs).value.0| == n
  {
    if n > 0 && Take(ty, bs).Some? {
      TakeAllLength(ty, n - 1, Take(ty, bs).value.1);
    }
  }

  // The streams.

  class SerialOutBuff {
    var data: Bytes

    constructor ()
      ensures data == []
    {
      data := [];
    }

    method Reset()
      modifies this
      ensures data == []
    {
      data := [];
    }

    method Write(bytes: Bytes)
      modifies this
      ensures data == old(data) + bytes
    {
      data := data + bytes;
    }

    /** operator<< */
    method Serialize(ty: Ty, v: Val)
      requires HasType(ty, v)
      modifies this
      ensures data == old(data) + Put(ty, v)
      decreases ty, 0
    {
      match ty
      case TInt(w) =>
        Write(Le(v.n, w));
      case TStr =>
        Write(Le(|v.s|, 8));
        Write(v.s);
        Assoc(old(data), Le(|v.s|, 8), v.s);
      case TVec(e) =>
        Write(Le(|v.items|, 8));
        SerializeAll(e, v.items);
        Assoc(old(data), Le(|v.items|, 8), PutAll(e, v.items));
      case TStruct(fs) =>
        SerializeFields(fs, v.items);
    }

    /** The members of a struct. */
    method SerializeFields(fs: seq<Ty>, vs: seq<Val>)
      requires |fs| == |vs| && forall i :: 0 <= i < |fs| ==> HasType(fs[i], vs[i])
      modifies this
      ensures data == old(data) + PutFields(fs, vs)
      decreases fs, 1
    {
      var i := 0;
      assert fs[0..] == fs && vs[0..] == vs;
      while i < |fs|
        invariant 0 <= i <= |fs|
        invariant data + PutFields(fs[i..], vs[i..]) == old(data) + PutFields(fs, vs)
      {
        ghost var before := data;
        Serialize(fs[i], vs[i]);
        assert fs[i..][1..] == fs[i + 1..] && vs[i..][1..] == vs[i + 1..];
        Assoc(before, Put(fs[i], vs[i]), PutFields(fs[i + 1..], vs[i + 1..]));
        i := i + 1;
      }
      assert data + [] == data;
    }

    /** The elements of a buffer, one after the other. */
    method SerializeAll(ty: Ty, vs: seq<Val>)
      requires AllHaveType(ty, vs)
      modifies this
      ensures data == old(data) + PutAll(ty, vs)
      decreases ty, 1
    {
      var i := 0;
      assert vs[0..] == vs;
      while i < |vs|
        invariant 0 <= i <= |vs|
        invariant data + PutAll(ty, vs[i..]) == old(data) + PutAll(ty, vs)
      {
        ghost var before := data;
        Serialize(ty, vs[i]);
        assert vs[i..][1..] == vs[i + 1..];
        Assoc(before, Put(ty, vs[i]), PutAll(ty, vs[i + 1..]));
        i := i + 1;
      }
      assert data + [] == data;
    }
  }

  class SerialInBuff {
    var data: Bytes
    var pos: nat

    ghost predicate Valid()
      reads this
    {
      pos <= |data|
    }

    /** The bytes still to be read. */
    ghost function Rest(): Bytes
      requires Valid()
      reads this
    {
      data[pos..]
    }

    constructor (data: Bytes)
      ensures Valid() && Rest() == data
    {
      this.data, this.pos := data, 0;
    }

    method Reset(data: Bytes)
      modifies this
      ensures Valid() && Rest() == data
    {
      this.data, this.pos := data, 0;
    }

    /** Reads `len` bytes, or panics. */
    method Read(len: nat) returns (r: Option<Bytes>)
      requires Valid()
      modifies this
      ensures Valid()
      ensures match TakeBytes(len, old(Rest())) case None => r == None case Some((s, q)) => r == Some(s) && Rest() == q
    {
      if pos + len > |data| {
        return None;
      }
      r := Some(data[pos..pos + len]);
      assert data[pos..][len..] == data[pos + len..] && data[pos..][..len] == data[pos..pos + len];
      pos := pos + len;
    }

    method ReadInt(w: nat) returns (r: Option<nat>)
      requires Valid()
      modifies this
      ensures Valid()
      ensures match TakeInt(w, old(Rest())) case None => r == None case Some((n, q)) => r == Some(n) && Rest() == q
    {
      var raw := Read(w);
      r := if raw == None then None else Some(FromLe(raw.value));
    }

    /** operator>> */
    method Unserialize(ty: Ty) returns (r: Option<Val>)
      requires Valid()
      modifies this
      ensures Valid()
      ensures match Take(ty, old(Rest())) case None => r == None case Some((v, q)) => r == Some(v) && Rest() == q
      decreases ty, 0
    {
      match ty
      case TInt(w) =>
        var n := ReadInt(w);
        r := if n == None then None else Some(VInt(n.value));
      case TStr =>
        var n := ReadInt(8);
        if n == None {
          return None;
        }
        var s := Read(n.value);
        r := if s == None then None else Some(VStr(s.value));
      case TVec(e) =>
        var n := ReadInt(8);
        if n == None {
          return None;
        }
        var vs := UnserializeAll(e, n.value);
        r := if vs == None then None else Some(VSeq(vs.value));
      case TStruct(fs) =>
        var vs := UnserializeFields(fs);
        r := if vs == None then None else Some(VSeq(vs.value));
    }

    /** The members of a struct. */
    method UnserializeFields(fs: seq<Ty>) returns (r: Option<seq<Val>>)
      requires Valid()
      modifies this
      ensures Valid()
      ensures match TakeFields(fs, old(Rest()))
              case None => r == None
              case Some((vs, q)) => r == Some(vs) && Rest() == q
      decreases fs, 1
    {
      var vs: seq<Val> := [];
      var i := 0;
      ghost var whole := TakeFields(fs, Rest());
      assert fs[0..] == fs && (whole.Some? ==> [] + whole.value.0 == whole.value.0);
      while i < |fs|
        invariant 0 <= i <= |fs| && Valid()
        invariant whole == match TakeFields(fs[i..], Rest()) case None => None case Some((ws, q)) => Some((vs + ws, q))
      {
        assert fs[i..][1..] == fs[i + 1..];
        var v := Unserialize(fs[i]);
        if v == None {
          return None;
        }
        ghost var rest := TakeFields(fs[i + 1..], Rest());
        assert rest.Some? ==> vs + ([v.value] + rest.value.0) == (vs + [v.value]) + rest.value.0;
        vs := vs + [v.value];
        i := i + 1;
      }
      assert vs + [] == vs;
      r := Some(vs);
    }

    /** `n` elements, one after the other. */
    method UnserializeAll(ty: Ty, n: nat) returns (r: Option<seq<Val>>)
      requires Valid()
      modifies this
      ensures Valid()
      ensures match TakeAll(ty, n, old(Rest()))
              case None => r == None
              case Some((vs, q)) => r == Some(vs) && Rest() == q
      decreases ty, 1
    {
      var vs: seq<Val> := [];
      var i := 0;
      ghost var whole := TakeAll(ty, n, Rest());
      assert whole.Some? ==> [] + whole.value.0 == whole.value.0;
      while i < n
        invariant 0 <= i <= n && Valid()
        invariant whole ==
                  match TakeAll(ty, n - i, Rest()) case None => None case Some((ws, q)) => Some((vs + ws, q))
      {
        var v := Unserialize(ty);
        if v == None {
          return None;
        }
        ghost var rest := TakeAll(ty, n - i - 1, Rest());
        assert rest.Some? ==> vs + ([v.value] + rest.value.0) == (vs + [v.value]) + rest.value.0;
        vs := vs + [v.value];
        i := i + 1;
      }
      assert vs + [] == vs;
      r := Some(vs);
    }
  }
}
