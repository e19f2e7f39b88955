/**
 The records the detector works on: a swap event of a trading pair and the
 transaction that owns a sequence of such swaps, plus the derived values the
 detector keys and orders transactions by.

 Amounts are decimal quantities; they are modelled as `real`, so parsing a
 decimal string is exact here.
 */
module Records {

  datatype Token = Token(symbol: string)

  datatype Pair = Pair(id: string, token0: Token, token1: Token)

  datatype Swap = Swap(
    id: string,
    pair: Pair,
    to: string,
    amount0In: real,
    amount0Out: real,
    amount1In: real,
    amount1Out: real,
    logIndex: int)

  datatype Tx = Tx(id: string, blockNumber: int, swaps: seq<Swap>)

  /** The bucket key of the grouper: the pair's symbol string and the swap's recipient. */
  datatype GroupKey = GroupKey(pairSymbol: string, to: string)

  /** A detected attack: the two attacker transactions, front-run leg first. */
  datatype Sandwich = Sandwich(front: Tx, back: Tx)

  /** A transaction whose first swap can be looked up. */
  predicate HasSwap(tx: Tx) {
    |tx.swaps| > 0
  }

  predicate AllHaveSwap(txs: seq<Tx>) {
    forall i :: 0 <= i < |txs| ==> HasSwap(txs[i])
  }

  /** The pair written as "token0/token1". */
  function PairSymbol(pair: Pair): (r: string)
    ensures |r| == |pair.token0.symbol| + 1 + |pair.token1.symbol|
    ensures r[|pair.token0.symbol|] == '/'
  {
    pair.token0.symbol + "/" + pair.token1.symbol
  }

  /** The bucket a transaction falls in, taken from its first swap. */
  function KeyOf(tx: Tx): GroupKey
    requires HasSwap(tx)
  {
    GroupKey(PairSymbol(tx.swaps[0].pair), tx.swaps[0].to)
  }

  /** The sort key of a transaction: its first swap's log index. */
  function LogIndex(tx: Tx): int
    requires HasSwap(tx)
  {
    tx.swaps[0].logIndex
  }

  /**
   The key is a string, not the pair: two pairs whose symbols differ can
   share a bucket, as (A/B, C) and (A, B/C) both give "A/B/C".
   */
  lemma PairSymbolCollides(to: string)
    ensures var p := Pair("p", Token("A/B"), Token("C"));
            var q := Pair("q", Token("A"), Token("B/C"));
            p.token0 != q.token0 && p.token1 != q.token1 &&
            KeyOf(Tx("t", 0, [Swap("s", p, to, 0.0, 0.0, 0.0, 0.0, 0)])) ==
            KeyOf(Tx("u", 0, [Swap("v", q, to, 0.0, 0.0, 0.0, 0.0, 0)]))
  {
  }

  /** `b` is `s` with some elements dropped: `idx` says where each element of `b` sits in `s`. */
  ghost predicate SubsequenceVia(b: seq<Tx>, s: seq<Tx>, idx: seq<int>) {
    && |idx| == |b|
    && (forall m :: 0 <= m < |idx| ==> 0 <= idx[m] < |s| && s[idx[m]] == b[m])
    && (forall m, n :: 0 <= m < n < |idx| ==> idx[m] < idx[n])
  }

  ghost predicate IsSubsequence(b: seq<Tx>, s: seq<Tx>) {
    exists idx :: SubsequenceVia(b, s, idx)
  }

  lemma SubsequenceTransitive(a: seq<Tx>, b: seq<Tx>, c: seq<Tx>)
    requires IsSubsequence(a, b) && IsSubsequence(b, c)
    ensures IsSubsequence(a, c)
  {
    var i1 :| SubsequenceVia(a, b, i1);
    var i2 :| SubsequenceVia(b, c, i2);
    var idx := seq(|a|, m requires 0 <= m < |a| => i2[i1[m]]);
    assert SubsequenceVia(a, c, idx);
  }

  /** Appending one element to `s` (and possibly to `b`) keeps `b` a subsequence. */
  lemma SubsequenceSnoc(b: seq<Tx>, s: seq<Tx>, t: Tx, keep: bool)
    requires IsSubsequence(b, s)
    ensures IsSubsequence(b + (if keep then [t] else []), s + [t])
  {
    var idx :| SubsequenceVia(b, s, idx);
    if keep {
      assert SubsequenceVia(b + [t], s + [t], idx + [|s|]);
    } else {
      assert b + [] == b;
      assert SubsequenceVia(b, s + [t], idx);
    }
  }
}
