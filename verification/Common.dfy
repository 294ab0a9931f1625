/** Types shared by every component: machine integers, bytes and the usual option and result types. */
module Common {

  const TWO_8 := 0x100
  const TWO_16 := 0x1_0000
  const TWO_32 := 0x1_0000_0000
  const TWO_64 := 0x1_0000_0000_0000_0000

  type Byte = x: int | 0 <= x < TWO_8
  type U32 = x: int | 0 <= x < TWO_32
  type U64 = x: int | 0 <= x < TWO_64

  datatype Option<+T> = None | Some(value: T)

  datatype Result<+T> = Ok(value: T) | Err(msg: string)

  function Max(a: int, b: int): int {
    if a >= b then a else b
  }

  function Min(a: int, b: int): int {
    if a <= b then a else b
  }

  /** All registers have the first of the sizes given: there is one register, or the second size is 0. */
  predicate Uniform(n: nat, sizes: seq<nat>) {
    n < 2 || |sizes| < 2 || sizes[1] == 0
  }

  /** The size given for register `i` of `n`. */
  function SizeAt(n: nat, sizes: seq<nat>, i: nat): (r: nat)
    ensures r == 0 || exists k :: 0 <= k < |sizes| && r == sizes[k]
  {
    var k := if Uniform(n, sizes) then 0 else i;
    if k < |sizes| then sizes[k] else 0
  }

  /** As many sizes as are looked at. */
  predicate SizesGiven(n: nat, sizes: seq<nat>) {
    if Uniform(n, sizes) then n > 0 ==> |sizes| >= Min(n, 2) else |sizes| == n
  }

  /** The address of instruction `i`: the sizes of those before it, added to the first address, which wraps
      around. */
  function CodeAddr(addr: U64, dists: seq<U64>, i: nat): U64
    requires i <= |dists|
  {
    if i == 0 then addr else (CodeAddr(addr, dists, i - 1) + dists[i - 1]) % TWO_64
  }

  lemma Assoc<T>(a: seq<T>, b: seq<T>, c: seq<T>)
    ensures (a + b) + c == a + (b + c)
  {
  }
}
