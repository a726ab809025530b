/** Rejection sampling: unbiased indexes, and strings of unbiased characters. */
module Sampling {
  import opened Prelude
  import opened Random

  const DRAW := 4

  /** The largest multiple of `n` that a draw may stay below. */
  function Limit(n: u32): (limit: nat)
    requires n > 0
    ensures limit <= U32_MAX
  {
    LimitFits(n);
    n * (U32_MAX / n)
  }

  lemma LimitFits(n: u32)
    requires n > 0
    ensures n * (U32_MAX / n) <= U32_MAX < n * (U32_MAX / n) + n
  {
  }

  // ------------------------------------------------------------- specification

  /** The pool as draws; a tail shorter than a draw is none. */
  function Words(pool: Bytes): seq<u32> {
    if |pool| < DRAW then [] else [U32Of(pool[..DRAW])] + Words(pool[DRAW..])
  }

  /** The draws that are not rejected, in order. */
  function Accepted(n: u32, ws: seq<u32>): seq<u32>
    requires n > 0
  {
    if ws == [] then [] else (if ws[0] < Limit(n) then [ws[0]] else []) + Accepted(n, ws[1..])
  }

  /** The string that `k` accepted draws stand for. */
  function Spell(alphabet: string, ds: seq<u32>): string
    requires 0 < |alphabet| <= U32_MAX
  {
    seq(|ds|, i requires 0 <= i < |ds| => alphabet[ds[i] % |alphabet|])
  }

  // ---------------------------------------------------------------- algorithms

  /** `random_index`: draws until one is accepted. */
  method RandomIndex(rng: Entropy, n: u32) returns (r: Result<nat>)
    requires n > 0
    modifies rng
    ensures var ds := Accepted(n, Words(old(rng.pool)));
            && (r.Ok? <==> ds != [])
            && (r.Ok? ==> r.value == ds[0] % n && Accepted(n, Words(rng.pool)) == ds[1..])
            && (r.Err? ==> r == Err(Rng) && Accepted(n, Words(rng.pool)) == [])
  {
    hide Limit;
    var quotient := U32_MAX / n;
    LimitFits(n);
    if n * quotient > U32_MAX {
      return Err(Rng);
    }
    var limit := n * quotient;
    assert limit == Limit(n) by { LimitIs(n); }
    while true
      invariant Accepted(n, Words(rng.pool)) == Accepted(n, Words(old(rng.pool)))
      decreases |rng.pool|
    {
      ghost var before := rng.pool;
      var buf :- rng.Draw(DRAW);
      FirstWord(n, before);
      var v := U32Of(buf);
      if v < limit {
        return Ok(v % n);
      }
    }
  }

  lemma LimitIs(n: u32)
    requires n > 0
    ensures Limit(n) == n * (U32_MAX / n)
  {
  }

  lemma FirstWord(n: u32, pool: Bytes)
    requires n > 0
    ensures |pool| >= DRAW ==>
              var v := U32Of(pool[..DRAW]);
              Accepted(n, Words(pool)) == (if v < Limit(n) then [v] else []) + Accepted(n, Words(pool[DRAW..]))
    ensures |pool| < DRAW ==> Accepted(n, Words(pool)) == []
  {
    if |pool| >= DRAW {
      var v := U32Of(pool[..DRAW]);
      assert Words(pool) == [v] + Words(pool[DRAW..]);
      assert Words(pool)[1..] == Words(pool[DRAW..]);
    }
  }

  /** `pick`: the string of the first `k` accepted draws, if there are that many. */
  method Pick(rng: Entropy, alphabet: string, k: nat) returns (r: Result<string>)
    requires 0 < |alphabet| <= U32_MAX
    modifies rng
    ensures var ds := Accepted(|alphabet|, Words(old(rng.pool)));
            && (r.Ok? <==> |ds| >= k)
            && (r.Ok? ==> r.value == Spell(alphabet, ds[..k]))
            && (r.Err? ==> r == Err(Rng))
  {
    hide Accepted, Words;
    ghost var ds := Accepted(|alphabet|, Words(rng.pool));
    var out := "";
    for i := 0 to k
      invariant i <= |ds| && Accepted(|alphabet|, Words(rng.pool)) == ds[i..]
      invariant out == Spell(alphabet, ds[..i])
    {
      var index :- RandomIndex(rng, |alphabet|);
      assert ds[i..][1..] == ds[i + 1..];
      assert ds[..i + 1] == ds[..i] + [ds[i]];
      out := out + [alphabet[index]];
    }
    return Ok(out);
  }

  // -------------------------------------------------------------------- no bias

  /** The accepted draws that give index `r`. */
  function Preimages(n: u32, r: nat): set<u32>
    requires n > 0
  {
    set v: u32 | v < Limit(n) && v % n == r :: v
  }

  function Progression(n: u32, r: nat, q: nat): (s: set<nat>)
    requires r < n
    ensures |s| == q
    ensures forall v: nat :: v in s <==> v < n * q && v % n == r
  {
    if q == 0 then {}
    else
      ProgressionStep(n, r, q - 1);
      Progression(n, r, q - 1) + {n * (q - 1) + r}
  }

  lemma ProgressionStep(n: u32, r: nat, q: nat)
    requires r < n
    ensures forall v: nat :: (v < n * (q + 1) && v % n == r) <==> (v < n * q && v % n == r) || v == n * q + r
  {
    forall v: nat
      ensures (v < n * (q + 1) && v % n == r) <==> (v < n * q && v % n == r) || v == n * q + r
    {
      RemainderOf(n, q, r);
      if n * q <= v < n * (q + 1) && v % n == r {
        RemainderOf(n, q, v - n * q);
      }
    }
  }

  lemma RemainderOf(n: u32, q: nat, r: nat)
    requires r < n
    ensures (n * q + r) % n == r && (n * q + r) / n == q
  {
    var (d, e) := ((n * q + r) / n, (n * q + r) % n);
    assert n * q + r == n * d + e;
    if q < d {
      assert n * (d - q) == n * d - n * q;
      AtLeastOnce(n, d - q);
    } else if d < q {
      assert n * (q - d) == n * q - n * d;
      AtLeastOnce(n, q - d);
    }
  }

  lemma AtLeastOnce(n: nat, k: nat)
    requires k > 0
    ensures n * k >= n
  {
  }

  /** Every index has exactly floor((2^32 - 1) / n) accepted draws: no residue is favoured. */
  lemma EveryIndexEquallyOften(n: u32, r: nat)
    requires r < n
    ensures |Preimages(n, r)| == U32_MAX / n
  {
    var p := Progression(n, r, U32_MAX / n);
    forall v | v in p
      ensures v in Preimages(n, r)
    {
      LimitFits(n);
    }
    assert Preimages(n, r) == p;
  }

  /** At most half of the draws are rejected. */
  lemma AtMostHalfRejected(n: u32)
    requires n > 0
    ensures 0x1_0000_0000 - Limit(n) <= 0x8000_0000
  {
  }

  /** The sequences of accepted draws that give the indexes `target`, one after the other. */
  function Sequences(n: u32, target: seq<nat>): set<seq<u32>>
    requires n > 0
  {
    if target == [] then {[]}
    else Extended(Sequences(n, target[..|target| - 1]), Preimages(n, target[|target| - 1]))
  }

  /** Every sequence of the one set with every draw of the other at its end. */
  function Extended(fronts: set<seq<u32>>, lasts: set<u32>): set<seq<u32>> {
    set ds, v | ds in fronts && v in lasts :: ds + [v]
  }

  lemma ExtendedHas(fronts: set<seq<u32>>, lasts: set<u32>, ds: seq<u32>)
    ensures ds in Extended(fronts, lasts) <==> ds != [] && ds[..|ds| - 1] in fronts && ds[|ds| - 1] in lasts
  {
    if ds != [] {
      assert ds == ds[..|ds| - 1] + [ds[|ds| - 1]];
    }
    if ds in Extended(fronts, lasts) {
      var front, v :| front in fronts && v in lasts && ds == front + [v];
      assert ds[..|ds| - 1] == front;
    }
  }

  lemma {:induction false} SequencesAre(n: u32, target: seq<nat>, ds: seq<u32>)
    requires n > 0
    ensures ds in Sequences(n, target) <==> Gives(n, ds, target)
  {
    hide Extended, Limit;
    if target != [] {
      var (front, last) := (target[..|target| - 1], target[|target| - 1]);
      ExtendedHas(Sequences(n, front), Preimages(n, last), ds);
      GivesStep(n, ds, target);
      if ds != [] {
        SequencesAre(n, front, ds[..|ds| - 1]);
      }
    }
  }

  ghost predicate Gives(n: u32, ds: seq<u32>, target: seq<nat>)
    requires n > 0
  {
    |ds| == |target| && forall i :: 0 <= i < |ds| ==> ds[i] < Limit(n) && ds[i] % n == target[i]
  }

  lemma GivesStep(n: u32, ds: seq<u32>, target: seq<nat>)
    requires n > 0 && target != []
    ensures Gives(n, ds, target) <==>
              ds != [] && Gives(n, ds[..|ds| - 1], target[..|target| - 1])
                && ds[|ds| - 1] in Preimages(n, target[|target| - 1])
  {
    hide Limit;
  }

  function Power(b: nat, k: nat): nat {
    if k == 0 then 1 else b * Power(b, k - 1)
  }

  lemma {:induction false} Extensions(fronts: set<seq<u32>>, lasts: set<u32>)
    ensures |Extended(fronts, lasts)| == |fronts| * |lasts|
  {
    hide Extended;
    if fronts == {} {
      assert Extended(fronts, lasts) == {} by {
        forall ds: seq<u32>
          ensures ds !in Extended(fronts, lasts)
        {
          ExtendedHas(fronts, lasts, ds);
        }
      }
    } else {
      var one :| one in fronts;
      var rest := fronts - {one};
      Extensions(rest, lasts);
      OneExtension(one, lasts);
      SplitExtended(one, fronts, lasts);
    }
  }

  lemma SplitExtended(one: seq<u32>, fronts: set<seq<u32>>, lasts: set<u32>)
    requires one in fronts
    ensures |Extended(fronts, lasts)| == |Extended({one}, lasts)| + |Extended(fronts - {one}, lasts)|
  {
    hide Extended;
    var (all, here, there) := (Extended(fronts, lasts), Extended({one}, lasts), Extended(fronts - {one}, lasts));
    forall ds: seq<u32>
      ensures ds in all <==> ds in here + there
      ensures !(ds in here && ds in there)
    {
      ExtendedHas(fronts, lasts, ds);
      ExtendedHas({one}, lasts, ds);
      ExtendedHas(fronts - {one}, lasts, ds);
    }
    assert all == here + there && here !! there;
  }

  lemma {:induction false} OneExtension(one: seq<u32>, lasts: set<u32>)
    ensures |Extended({one}, lasts)| == |lasts|
  {
    hide Extended;
    forall ds: seq<u32>
      ensures ds in Extended({one}, lasts) <==> ds != [] && ds[..|ds| - 1] == one && ds[|ds| - 1] in lasts
    {
      ExtendedHas({one}, lasts, ds);
    }
    if lasts == {} {
      assert Extended({one}, lasts) == {};
    } else {
      var v :| v in lasts;
      OneExtension(one, lasts - {v});
      forall ds: seq<u32>
        ensures ds in Extended({one}, lasts - {v}) <==> ds != [] && ds[..|ds| - 1] == one && ds[|ds| - 1] in lasts - {v}
      {
        ExtendedHas({one}, lasts - {v}, ds);
      }
      forall ds: seq<u32>
        ensures ds != [] && ds[..|ds| - 1] == one && ds[|ds| - 1] == v <==> ds == one + [v]
      {
        if ds != [] {
          assert ds == ds[..|ds| - 1] + [ds[|ds| - 1]];
        }
      }
      assert Extended({one}, lasts) == Extended({one}, lasts - {v}) + {one + [v]};
    }
  }

  lemma {:induction false} EverySequenceEquallyOften(n: u32, target: seq<nat>)
    requires n > 0 && forall i :: 0 <= i < |target| ==> target[i] < n
    ensures |Sequences(n, target)| == Power(U32_MAX / n, |target|)
  {
    hide Extended, Preimages;
    if target != [] {
      var (front, last) := (target[..|target| - 1], target[|target| - 1]);
      EverySequenceEquallyOften(n, front);
      EveryIndexEquallyOften(n, last);
      Extensions(Sequences(n, front), Preimages(n, last));
    }
  }

  /** Where a character stands in an alphabet that has it. */
  function IndexIn(alphabet: string, c: char): (i: nat)
    requires c in alphabet
    ensures i < |alphabet| && alphabet[i] == c
  {
    if alphabet[0] == c then 0 else 1 + IndexIn(alphabet[1..], c)
  }

  function Indexes(alphabet: string, s: string): (r: seq<nat>)
    requires forall i :: 0 <= i < |s| ==> s[i] in alphabet
    ensures |r| == |s| && forall i :: 0 <= i < |s| ==> r[i] < |alphabet| && alphabet[r[i]] == s[i]
  {
    seq(|s|, i requires 0 <= i < |s| => IndexIn(alphabet, s[i]))
  }

  /**
   Over distinct characters every string of length `k` is spelled by the same number of
   sequences of `k` accepted draws.
   */
  lemma EveryStringEquallyLikely(alphabet: string, s: string)
    requires 0 < |alphabet| <= U32_MAX && Distinct(alphabet)
    requires forall i :: 0 <= i < |s| ==> s[i] in alphabet
    ensures var n := |alphabet|;
            var ways := Sequences(n, Indexes(alphabet, s));
            && |ways| == Power(U32_MAX / n, |s|)
            && forall ds :: ds in ways <==> Spell(alphabet, ds) == s && forall i :: 0 <= i < |ds| ==> ds[i] < Limit(n)
  {
    var n := |alphabet|;
    var target := Indexes(alphabet, s);
    EverySequenceEquallyOften(n, target);
    forall ds: seq<u32>
      ensures ds in Sequences(n, target) <==> Spell(alphabet, ds) == s && forall i :: 0 <= i < |ds| ==> ds[i] < Limit(n)
    {
      SpelledBy(alphabet, s, ds);
      SequencesAre(n, target, ds);
    }
  }

  lemma SpelledBy(alphabet: string, s: string, ds: seq<u32>)
    requires 0 < |alphabet| <= U32_MAX && Distinct(alphabet)
    requires forall i :: 0 <= i < |s| ==> s[i] in alphabet
    ensures Spell(alphabet, ds) == s <==> |ds| == |s| && forall i :: 0 <= i < |ds| ==>
              ds[i] % |alphabet| == Indexes(alphabet, s)[i]
  {
    var target := Indexes(alphabet, s);
    var spelled := Spell(alphabet, ds);
    if spelled == s {
      forall i | 0 <= i < |ds|
        ensures ds[i] % |alphabet| == target[i]
      {
        assert alphabet[ds[i] % |alphabet|] == spelled[i] == alphabet[target[i]];
      }
    }
  }

  /** What survives the rejection is below the limit, so `EveryStringEquallyLikely` speaks of what `Pick` draws. */
  lemma {:induction false} AcceptedAreBelow(n: u32, ws: seq<u32>)
    requires n > 0
    ensures forall i :: 0 <= i < |Accepted(n, ws)| ==> Accepted(n, ws)[i] < Limit(n)
  {
    hide Limit;
    if ws != [] {
      AcceptedAreBelow(n, ws[1..]);
    }
  }
}
