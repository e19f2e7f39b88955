/**
 The swap classifier: which transactions the detector analyses at all.
 A transaction qualifies when it holds exactly one swap and, for each of the
 pair's two tokens, exactly one of the amount in and the amount out is zero.
 */
module Classifier {
  import opened Records

  /** How many of the given amounts are zero (the length of the list of zeros among them). */
  function ZeroCount(zs: seq<real>): (r: nat)
    ensures r <= |zs|
    ensures r == 0 <==> forall i :: 0 <= i < |zs| ==> zs[i] != 0.0
  {
    if zs == [] then 0 else (if zs[0] == 0.0 then 1 else 0) + ZeroCount(zs[1..])
  }

  /** The count is exactly the number of zeros among the amounts. */
  lemma {:induction false} ZeroCountIsCount(zs: seq<real>)
    ensures ZeroCount(zs) == multiset(zs)[0.0]
  {
    if zs != [] {
      assert zs == [zs[0]] + zs[1..];
      ZeroCountIsCount(zs[1..]);
    }
  }

  /** True if and only if exactly one of `x` and `y` is zero. */
  function ExactlyOneZero(x: real, y: real): (r: bool)
    ensures r <==> (x == 0.0) != (y == 0.0)
  {
    assert ZeroCount([y]) == (if y == 0.0 then 1 else 0) by {
      assert [y][1..] == [];
    }
    assert [x, y][1..] == [y];
    ZeroCount([x, y]) == 1
  }

  /** A one-swap transaction that moves each token in one direction only. */
  function IsPureSwap(tx: Tx): (r: bool)
    ensures r ==> |tx.swaps| == 1
    ensures |tx.swaps| == 1 ==>
              (r <==> && (tx.swaps[0].amount0In == 0.0) != (tx.swaps[0].amount0Out == 0.0)
                      && (tx.swaps[0].amount1In == 0.0) != (tx.swaps[0].amount1Out == 0.0))
  {
    if |tx.swaps| != 1 then false
    else
      var s := tx.swaps[0];
      ExactlyOneZero(s.amount0In, s.amount0Out) && ExactlyOneZero(s.amount1In, s.amount1Out)
  }

  /** The transactions that are pure swaps, in input order. */
  function PureSwaps(txs: seq<Tx>): (r: seq<Tx>)
    ensures |r| <= |txs|
    ensures forall t :: t in r <==> t in txs && IsPureSwap(t)
    ensures AllHaveSwap(r)
  {
    if txs == [] then []
    else
      var last := txs[|txs| - 1];
      PureSwaps(txs[..|txs| - 1]) + (if IsPureSwap(last) then [last] else [])
  }

  /** Filtering keeps every copy of a pure swap and no copy of anything else. */
  lemma {:induction false} PureSwapsCount(txs: seq<Tx>, t: Tx)
    ensures multiset(PureSwaps(txs))[t] == if IsPureSwap(t) then multiset(txs)[t] else 0
  {
    if txs != [] {
      var init, last := txs[..|txs| - 1], txs[|txs| - 1];
      assert init + [last] == txs;
      assert PureSwaps(txs) == PureSwaps(init) + (if IsPureSwap(last) then [last] else []);
      PureSwapsCount(init, t);
    }
  }

  /** Filtering keeps the survivors in input order. */
  lemma {:induction false} PureSwapsIsSubsequence(txs: seq<Tx>)
    ensures IsSubsequence(PureSwaps(txs), txs)
  {
    if txs == [] {
      assert SubsequenceVia([], [], []);
    } else {
      var init, last := txs[..|txs| - 1], txs[|txs| - 1];
      assert init + [last] == txs;
      assert PureSwaps(txs) == PureSwaps(init) + (if IsPureSwap(last) then [last] else []);
      PureSwapsIsSubsequence(init);
      SubsequenceSnoc(PureSwaps(init), init, last, IsPureSwap(last));
    }
  }
}
