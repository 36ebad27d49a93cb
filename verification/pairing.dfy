/** The engine's entry points: `pair` drops every input pair with a point
    at infinity, runs the Miller loop over the rest and applies the final
    exponentiation; `Check` compares that product with one. */
module Pairing {
  import opened Tower
  import opened Miller
  import opened FinalExp

  /** Neither point of the pair is the point at infinity. */
  predicate Live(ops: Ops, p: Pair)
  {
    !ops.g1IsZero(p.g1) && !ops.g2IsZero(p.g2)
  }

  /** The pairs `pair` keeps, as its loop appends them: scanning from the
      front, each live pair goes to the end of the list. */
  function Kept(ops: Ops, pairs: seq<Pair>): seq<Pair>
  {
    if |pairs| == 0 then []
    else
      var last := pairs[|pairs| - 1];
      Kept(ops, pairs[..|pairs| - 1]) + (if Live(ops, last) then [last] else [])
  }

  /** An independent statement of the same filter, recursing from the front. */
  function LiveOnly(ops: Ops, pairs: seq<Pair>): seq<Pair>
  {
    if |pairs| == 0 then []
    else (if Live(ops, pairs[0]) then [pairs[0]] else []) + LiveOnly(ops, pairs[1..])
  }

  /** The value `pair` returns: one for an empty batch or when no pair
      survives the filter, otherwise the final exponentiation of the Miller
      loop over the surviving pairs. */
  function PairValue(ops: Ops, pairs: seq<Pair>): Fe12
  {
    if |pairs| == 0 then ops.one
    else
      var kept := Kept(ops, pairs);
      if |kept| == 0 then ops.one
      else FinalExpValue(ops, MillerLoopValue(ops, kept))
  }

  /** Filtering a concatenation filters each part. */
  lemma {:induction false} KeptAppend(ops: Ops, a: seq<Pair>, b: seq<Pair>)
    ensures Kept(ops, a + b) == Kept(ops, a) + Kept(ops, b)
    decreases |b|
  {
    if |b| > 0 {
      var c := b[..|b| - 1];
      assert (a + b)[..|a + b| - 1] == a + c;
      assert (a + b)[|a + b| - 1] == b[|b| - 1];
      KeptAppend(ops, a, c);
    } else {
      assert a + b == a;
    }
  }

  /** Filtering from the back and from the front agree: `pair` keeps the
      live pairs in their original order. */
  lemma {:induction false} KeptInOrder(ops: Ops, pairs: seq<Pair>)
    ensures Kept(ops, pairs) == LiveOnly(ops, pairs)
    decreases |pairs|
  {
    if |pairs| > 0 {
      KeptAppend(ops, [pairs[0]], pairs[1..]);
      assert [pairs[0]] + pairs[1..] == pairs;
      assert [pairs[0]][..0] == [];
      KeptInOrder(ops, pairs[1..]);
    }
  }

  /** A pair is kept exactly when it is in the batch and live. */
  lemma {:induction false} KeptMembers(ops: Ops, pairs: seq<Pair>, p: Pair)
    ensures p in Kept(ops, pairs) <==> p in pairs && Live(ops, p)
    decreases |pairs|
  {
    if |pairs| > 0 {
      var front := pairs[..|pairs| - 1];
      KeptMembers(ops, front, p);
      assert pairs == front + [pairs[|pairs| - 1]];
    }
  }

  /** The filter never grows the batch. */
  lemma {:induction false} KeptLength(ops: Ops, pairs: seq<Pair>)
    ensures |Kept(ops, pairs)| <= |pairs|
    decreases |pairs|
  {
    if |pairs| > 0 {
      KeptLength(ops, pairs[..|pairs| - 1]);
    }
  }

  /** A batch with no identity points passes the filter whole. */
  lemma {:induction false} KeptAllLive(ops: Ops, pairs: seq<Pair>)
    requires forall k :: 0 <= k < |pairs| ==> Live(ops, pairs[k])
    ensures Kept(ops, pairs) == pairs
    decreases |pairs|
  {
    if |pairs| > 0 {
      var front := pairs[..|pairs| - 1];
      forall k | 0 <= k < |front|
        ensures Live(ops, front[k])
      {
        assert front[k] == pairs[k];
      }
      KeptAllLive(ops, front);
      assert Live(ops, pairs[|pairs| - 1]);
      assert pairs == front + [pairs[|pairs| - 1]];
    }
  }

  /** A pair with a point at infinity does not change the result. */
  lemma IdentityIgnored(ops: Ops, a: seq<Pair>, p: Pair, b: seq<Pair>)
    requires !Live(ops, p)
    ensures PairValue(ops, a + [p] + b) == PairValue(ops, a + b)
  {
    IdentityDropped(ops, a, p, b);
    if |a + b| == 0 {
      assert Kept(ops, a + b) == [];
    }
  }

  lemma IdentityDropped(ops: Ops, a: seq<Pair>, p: Pair, b: seq<Pair>)
    requires !Live(ops, p)
    ensures Kept(ops, a + [p] + b) == Kept(ops, a + b)
  {
    KeptAppend(ops, a, [p]);
    KeptAppend(ops, a + [p], b);
    KeptAppend(ops, a, b);
    assert [p][..0] == [];
    assert Kept(ops, [p]) == [];
  }

  /** A batch of pairs with points at infinity only checks true, the empty
      batch among them. */
  lemma AllIdentity(ops: Ops, pairs: seq<Pair>)
    requires forall k :: 0 <= k < |pairs| ==> !Live(ops, pairs[k])
    ensures PairValue(ops, pairs) == ops.one
  {
    if |Kept(ops, pairs)| > 0 {
      var p := Kept(ops, pairs)[0];
      KeptMembers(ops, pairs, p);
    }
  }

  /** `pair(pairs)`, with the engine's two scratch files passed in and out. */
  method Multipair(ops: Ops, pairs: seq<Pair>, t2Init: seq<Fe2>, t12Init: seq<Fe12>)
    returns (f: Fe12, t2: seq<Fe2>, t12: seq<Fe12>)
    requires |t2Init| == 10 && |t12Init| == 9
    ensures |Kept(ops, pairs)| == 0 ==> f == ops.one
    ensures |Kept(ops, pairs)| > 0 ==> f == FinalExpValue(ops, MillerLoopValue(ops, Kept(ops, pairs)))
    ensures |Kept(ops, pairs)| > 0 && ops.sqr12(ops.one) == ops.one
      ==> f == FinalExpValue(ops, MillerLoopReference(ops, Kept(ops, pairs)))
    ensures |t2| == 10 && |t12| == 9
  {
    f, t2, t12 := ops.one, t2Init, t12Init;
    if |pairs| == 0 {
      return;
    }
    var kept := FilterLive(ops, pairs);
    if |kept| == 0 {
      return;
    }
    f, t2 := MillerLoop(ops, kept, t2);
    f, t12 := FinalExponentiation(ops, t12, f);
  }

  /** The filtering loop of `pair`. */
  method FilterLive(ops: Ops, pairs: seq<Pair>) returns (kept: seq<Pair>)
    ensures kept == Kept(ops, pairs)
  {
    kept := [];
    var i := 0;
    while i < |pairs|
      invariant 0 <= i <= |pairs|
      invariant kept == Kept(ops, pairs[..i])
    {
      if !ops.g1IsZero(pairs[i].g1) && !ops.g2IsZero(pairs[i].g2) {
        kept := kept + [pairs[i]];
      }
      assert pairs[..i + 1][..i] == pairs[..i];
      i := i + 1;
    }
    assert pairs[..|pairs|] == pairs;
  }

  /** `Check(pairs)`: whether the pairing product is one. */
  method Check(ops: Ops, pairs: seq<Pair>, t2Init: seq<Fe2>, t12Init: seq<Fe12>)
    returns (ok: bool, t2: seq<Fe2>, t12: seq<Fe12>)
    requires |t2Init| == 10 && |t12Init| == 9
    ensures ok <==> PairValue(ops, pairs) == ops.one
    ensures |t2| == 10 && |t12| == 9
  {
    var f;
    f, t2, t12 := Multipair(ops, pairs, t2Init, t12Init);
    ok := ops.one == f;
  }
}
