/**
 Shared vocabulary: bytes and machine integers, the error enumeration of the
 crypto layer, big-endian integers, and a few sequence facts.
 */
module Prelude {

  type byte = b: int | 0 <= b < 0x100
  type u16 = n: int | 0 <= n < 0x1_0000
  type u32 = n: int | 0 <= n < 0x1_0000_0000
  type u64 = n: int | 0 <= n < 0x1_0000_0000_0000_0000

  type Bytes = seq<byte>

  const U32_MAX: u32 := 0xFFFF_FFFF

  datatype Option<+T> = None | Some(value: T)

  /** The crypto error enumeration, without the message texts. */
  datatype Error =
    | Kdf
    | Encrypt
    | Stale
    | Decrypt
    | KeyLength(actual: nat)
    | Unsupported(id: byte)
    | Rng

  datatype Result<+T> = Ok(value: T) | Err(error: Error) {
    predicate IsFailure() {
      Err?
    }

    function PropagateFailure<U>(): Result<U>
      requires Err?
    {
      Err(error)
    }

    function Extract(): T
      requires Ok?
    {
      value
    }
  }

  // ---------------------------------------------------------------- big-endian

  function Pow256(w: nat): (r: nat)
    ensures r > 0
  {
    if w == 0 then 1 else 256 * Pow256(w - 1)
  }

  lemma Pow256Values()
    ensures Pow256(2) == 0x1_0000
    ensures Pow256(4) == 0x1_0000_0000
    ensures Pow256(8) == 0x1_0000_0000_0000_0000
  {
    assert Pow256(4) == 256 * 256 * Pow256(2);
    assert Pow256(6) == 256 * 256 * Pow256(4);
    assert Pow256(8) == 256 * 256 * Pow256(6);
  }

  /** The low `w` bytes of `n`, most significant first. */
  function BE(n: nat, w: nat): (r: Bytes)
    ensures |r| == w
  {
    if w == 0 then [] else BE(n / 256, w - 1) + [n % 256]
  }

  function FromBE(b: Bytes): nat {
    if b == [] then 0 else 256 * FromBE(b[..|b| - 1]) + b[|b| - 1]
  }

  lemma {:induction false} FromBEBound(b: Bytes)
    ensures FromBE(b) < Pow256(|b|)
  {
    if b != [] {
      FromBEBound(b[..|b| - 1]);
    }
  }

  lemma Quotient(n: nat, m: nat)
    requires n < 256 * m
    ensures n / 256 < m
  {
  }

  lemma {:induction false} FromBEOfBE(n: nat, w: nat)
    requires n < Pow256(w)
    ensures FromBE(BE(n, w)) == n
  {
    if w != 0 {
      assert n / 256 < Pow256(w - 1) by { Quotient(n, Pow256(w - 1)); }
      FromBEOfBE(n / 256, w - 1);
      assert BE(n, w)[..w - 1] == BE(n / 256, w - 1);
    }
  }

  lemma {:induction false} BEOfFromBE(b: Bytes)
    ensures BE(FromBE(b), |b|) == b
  {
    if b != [] {
      BEOfFromBE(b[..|b| - 1]);
    }
  }

  function BE16(n: u16): (r: Bytes)
    ensures |r| == 2 && FromBE(r) == n
  {
    Pow256Values(); FromBEOfBE(n, 2);
    BE(n, 2)
  }

  function BE32(n: u32): (r: Bytes)
    ensures |r| == 4 && FromBE(r) == n
  {
    Pow256Values(); FromBEOfBE(n, 4);
    BE(n, 4)
  }

  function BE64(n: u64): (r: Bytes)
    ensures |r| == 8 && FromBE(r) == n
  {
    Pow256Values(); FromBEOfBE(n, 8);
    BE(n, 8)
  }

  function U16Of(b: Bytes): (n: u16)
    requires |b| == 2
    ensures BE16(n) == b
  {
    Pow256Values(); FromBEBound(b); BEOfFromBE(b);
    FromBE(b)
  }

  function U32Of(b: Bytes): (n: u32)
    requires |b| == 4
    ensures BE32(n) == b
  {
    Pow256Values(); FromBEBound(b); BEOfFromBE(b);
    FromBE(b)
  }

  function U64Of(b: Bytes): (n: u64)
    requires |b| == 8
    ensures BE64(n) == b
  {
    Pow256Values(); FromBEBound(b); BEOfFromBE(b);
    FromBE(b)
  }

  /** `be_u32_at`: the big-endian u32 at `off`, or an error past the end. */
  function U32At(b: Bytes, off: nat): Result<u32> {
    if off + 4 <= |b| then Ok(U32Of(b[off..off + 4])) else Err(Encrypt)
  }

  // ----------------------------------------------------------------- sequences

  function Zeros(n: nat): (r: Bytes)
    ensures |r| == n
  {
    seq(n, _ => 0)
  }

  function Concat<T>(parts: seq<seq<T>>): seq<T> {
    if parts == [] then [] else Concat(parts[..|parts| - 1]) + parts[|parts| - 1]
  }

  lemma ConcatPush<T>(parts: seq<seq<T>>, last: seq<T>)
    ensures Concat(parts + [last]) == Concat(parts) + last
  {
    assert (parts + [last])[..|parts|] == parts;
  }

  lemma {:induction false} ConcatAppend<T>(a: seq<seq<T>>, b: seq<seq<T>>)
    ensures Concat(a + b) == Concat(a) + Concat(b)
    decreases |b|
  {
    if b == [] {
      assert a + b == a;
    } else {
      ConcatAppend(a, b[..|b| - 1]);
      assert (a + b)[..|a + b| - 1] == a + b[..|b| - 1];
    }
  }

  lemma ConcatCons<T>(head: seq<T>, tail: seq<seq<T>>)
    ensures Concat([head] + tail) == head + Concat(tail)
  {
    ConcatAppend([head], tail);
    assert Concat([head]) == head;
  }

  /** Slicing the middle of a three-part concatenation. */
  lemma Middle<T>(a: seq<T>, b: seq<T>, c: seq<T>)
    ensures (a + b + c)[|a|..|a| + |b|] == b
    ensures (a + b + c)[|a| + |b|..] == c
    ensures (a + b + c)[..|a|] == a
  {
  }

  /** `b` holds exactly `part` at `pos`. */
  ghost predicate At(b: Bytes, pos: nat, part: Bytes) {
    pos + |part| <= |b| && b[pos..pos + |part|] == part
  }

  lemma AtSplit(b: Bytes, pos: nat, x: Bytes, y: Bytes)
    ensures At(b, pos, x + y) <==> At(b, pos, x) && At(b, pos + |x|, y)
  {
    if At(b, pos, x + y) {
      assert x == (x + y)[..|x|] == b[pos..pos + |x|];
      assert y == (x + y)[|x|..] == b[pos + |x|..pos + |x| + |y|];
    }
    if At(b, pos, x) && At(b, pos + |x|, y) {
      assert b[pos..pos + |x + y|] == b[pos..pos + |x|] + b[pos + |x|..pos + |x| + |y|];
    }
  }

  lemma AtSplit3(b: Bytes, pos: nat, x: Bytes, y: Bytes, z: Bytes)
    ensures At(b, pos, x + y + z) <==> At(b, pos, x) && At(b, pos + |x|, y) && At(b, pos + |x| + |y|, z)
  {
    AtSplit(b, pos, x + y, z);
    AtSplit(b, pos, x, y);
  }

  lemma AtSplit5(b: Bytes, pos: nat, v: Bytes, w: Bytes, x: Bytes, y: Bytes, z: Bytes)
    ensures At(b, pos, v + w + x + y + z) <==>
            && At(b, pos, v) && At(b, pos + |v|, w) && At(b, pos + |v| + |w|, x)
            && At(b, pos + |v| + |w| + |x|, y) && At(b, pos + |v| + |w| + |x| + |y|, z)
  {
    AtSplit3(b, pos, v + w + x, y, z);
    AtSplit3(b, pos, v, w, x);
  }

  lemma AtSplit7(b: Bytes, t: Bytes, u: Bytes, v: Bytes, w: Bytes, x: Bytes, y: Bytes, z: Bytes)
    ensures b == t + u + v + w + x + y + z <==>
            && At(b, 0, t) && At(b, |t|, u) && At(b, |t| + |u|, v) && At(b, |t| + |u| + |v|, w)
            && At(b, |t| + |u| + |v| + |w|, x) && At(b, |t| + |u| + |v| + |w| + |x|, y)
            && At(b, |t| + |u| + |v| + |w| + |x| + |y|, z)
            && |b| == |t| + |u| + |v| + |w| + |x| + |y| + |z|
  {
    AtSplit3(b, 0, t + u + v + w + x, y, z);
    AtSplit5(b, 0, t, u, v, w, x);
  }

  lemma SliceOfSlice<T>(s: seq<T>, from: nat, to: nat, i: nat, j: nat)
    requires from <= to <= |s| && i <= j <= to - from
    ensures s[from..to][i..j] == s[from + i..from + j]
  {
    var t := s[from..to];
    forall k | 0 <= k < j - i
      ensures t[i..j][k] == s[from + i..from + j][k]
    {
      assert t[i..j][k] == t[i + k] == s[from + (i + k)];
    }
    assert t[i..j] == s[from + i..from + j];
  }

  /** The middle part of a slice that is a three-part concatenation. */
  lemma Inside<T>(s: seq<T>, from: nat, to: nat, a: seq<T>, b: seq<T>, c: seq<T>)
    requires from <= to <= |s| && s[from..to] == a + b + c
    ensures from + |a| + |b| <= to
    ensures s[from + |a|..from + |a| + |b|] == b
  {
    Middle(a, b, c);
    SliceOfSlice(s, from, to, |a|, |a| + |b|);
  }

  lemma TakePush<T>(s: seq<T>, done: seq<T>)
    requires |done| < |s| && s[..|done|] == done
    ensures s[..|done| + 1] == done + [s[|done|]]
  {
  }

  function Sum(s: seq<nat>): nat {
    if s == [] then 0 else Sum(s[..|s| - 1]) + s[|s| - 1]
  }

  ghost predicate Distinct<T>(s: seq<T>) {
    forall i, j :: 0 <= i < j < |s| ==> s[i] != s[j]
  }

  function Range(n: nat): (r: set<nat>)
    ensures |r| == n
    ensures forall v: nat :: v in r <==> v < n
  {
    if n == 0 then {} else Range(n - 1) + {n - 1}
  }

  function Elems(s: seq<nat>): (r: set<nat>)
    ensures forall x :: x in r <==> x in s
    ensures Distinct(s) ==> |r| == |s|
  {
    if s == [] then {}
    else
      var (t, x) := (s[..|s| - 1], s[|s| - 1]);
      assert s == t + [x];
      assert Distinct(s) ==> Distinct(t) && x !in t;
      Elems(t) + {x}
  }

  lemma {:induction false} SubsetCount<T>(a: set<T>, b: set<T>)
    requires a <= b
    ensures |a| <= |b|
  {
    if a != {} {
      var x :| x in a;
      SubsetCount(a - {x}, b - {x});
    }
  }

  /** n distinct numbers below n hit every number below n. */
  lemma Pigeonhole(s: seq<nat>, n: nat)
    requires |s| == n && Distinct(s)
    requires forall i :: 0 <= i < n ==> s[i] < n
    ensures forall v: nat :: v < n ==> v in s
  {
    forall v: nat | v < n
      ensures v in s
    {
      if v !in s {
        SubsetCount(Elems(s), Range(n) - {v});
      }
    }
  }
}
