/**
 The sandwich detector: keep the pure swaps, bucket them, and report every
 bucket of exactly two transactions whose first leg's outputs equal the
 second leg's inputs. The condition is checked on the bucket as it stands,
 in input order; only the reported pair is sorted by log index.
 */
module Detector {
  import opened Records
  import opened Classifier
  import opened Grouper

  /**
   The sandwich condition on two transactions, in the order given: what the
   first one's swap takes out of the pool of each token is what the second
   one's swap puts back in.
   */
  predicate IsActuallySandwich(tx0: Tx, tx1: Tx)
    requires HasSwap(tx0) && HasSwap(tx1)
  {
    var swap0, swap1 := tx0.swaps[0], tx1.swaps[0];
    swap0.amount0Out == swap1.amount0In && swap0.amount1Out == swap1.amount1In
  }

  /** A stable sort of two transactions by log index. */
  function SortByLogIndex(a: Tx, b: Tx): (r: Sandwich)
    requires HasSwap(a) && HasSwap(b)
    ensures r == Sandwich(a, b) || r == Sandwich(b, a)
    ensures LogIndex(r.front) <= LogIndex(r.back)
    ensures LogIndex(a) <= LogIndex(b) ==> r == Sandwich(a, b)
  {
    if LogIndex(b) < LogIndex(a) then Sandwich(b, a) else Sandwich(a, b)
  }

  /** What the bucket of key `k` contributes: one sandwich or nothing. */
  function Emit(pure: seq<Tx>, k: GroupKey): seq<Sandwich>
    requires AllHaveSwap(pure)
  {
    var group := Bucket(pure, k);
    if |group| == 2 && IsActuallySandwich(group[0], group[1])
    then [SortByLogIndex(group[0], group[1])]
    else []
  }

  /** The contributions of the buckets `ks`, in the order of `ks`. */
  function Collect(pure: seq<Tx>, ks: seq<GroupKey>): (r: seq<Sandwich>)
    requires AllHaveSwap(pure)
    ensures |r| <= |ks|
  {
    if ks == [] then []
    else Collect(pure, ks[..|ks| - 1]) + Emit(pure, ks[|ks| - 1])
  }

  /** The detector's result as a function of its input. */
  function Detect(txs: seq<Tx>): (r: seq<Sandwich>)
    ensures |r| <= |KeysInOrder(PureSwaps(txs))|
  {
    var pure := PureSwaps(txs);
    Collect(pure, KeysInOrder(pure))
  }

  /**
   `s` is what the detector reports for the transactions at positions `i < j`:
   both pure swaps with the same key, the only two of their bucket, meeting
   the condition in that (input) order, and reported sorted by log index.
   */
  ghost predicate SandwichAt(txs: seq<Tx>, i: int, j: int, s: Sandwich) {
    && 0 <= i < j < |txs|
    && IsPureSwap(txs[i]) && IsPureSwap(txs[j])
    && KeyOf(txs[i]) == KeyOf(txs[j])
    && Bucket(PureSwaps(txs), KeyOf(txs[i])) == [txs[i], txs[j]]
    && IsActuallySandwich(txs[i], txs[j])
    && s == SortByLogIndex(txs[i], txs[j])
  }

  ghost predicate FromInput(txs: seq<Tx>, s: Sandwich) {
    exists i, j :: SandwichAt(txs, i, j, s)
  }

  /** No transaction sits in two reported sandwiches. */
  ghost predicate Disjoint(sandwiches: seq<Sandwich>) {
    forall p, q :: 0 <= p < q < |sandwiches| ==>
      && sandwiches[p].front != sandwiches[q].front && sandwiches[p].front != sandwiches[q].back
      && sandwiches[p].back != sandwiches[q].front && sandwiches[p].back != sandwiches[q].back
  }

  /** At most one reported sandwich per bucket key. */
  ghost predicate OnePerKey(sandwiches: seq<Sandwich>) {
    forall p, q :: 0 <= p < q < |sandwiches| && HasSwap(sandwiches[p].front) && HasSwap(sandwiches[q].front) ==>
      KeyOf(sandwiches[p].front) != KeyOf(sandwiches[q].front)
  }

  /** Each reported pair is ordered by log index. */
  ghost predicate FrontFirst(sandwiches: seq<Sandwich>) {
    forall p :: 0 <= p < |sandwiches| ==>
      HasSwap(sandwiches[p].front) && HasSwap(sandwiches[p].back) &&
      LogIndex(sandwiches[p].front) <= LogIndex(sandwiches[p].back)
  }

  method FindSandwichesInTxs(txs: seq<Tx>) returns (sandwiches: seq<Sandwich>)
    ensures sandwiches == Detect(txs)
    ensures forall p :: 0 <= p < |sandwiches| ==> FromInput(txs, sandwiches[p])
    ensures FrontFirst(sandwiches)
    ensures OnePerKey(sandwiches) && Disjoint(sandwiches)
  {
    var pure := PureSwaps(txs);
    var keys, groups := GroupTxs(pure);
    sandwiches := [];
    for q := 0 to |keys|
      invariant sandwiches == Collect(pure, keys[..q])
    {
      var group := groups[keys[q]];
      assert keys[..q + 1][..q] == keys[..q];
      if |group| == 2 && IsActuallySandwich(group[0], group[1]) {
        sandwiches := sandwiches + [SortByLogIndex(group[0], group[1])];
      }
    }
    assert keys[..|keys|] == keys;
    DetectProperties(txs);
  }

  /** Each element of `Collect` is the contribution of one of the keys. */
  lemma {:induction false} CollectElement(pure: seq<Tx>, ks: seq<GroupKey>, p: int)
    requires AllHaveSwap(pure) && 0 <= p < |Collect(pure, ks)|
    ensures exists q :: 0 <= q < |ks| && Emit(pure, ks[q]) == [Collect(pure, ks)[p]]
  {
    var init := ks[..|ks| - 1];
    if p < |Collect(pure, init)| {
      CollectElement(pure, init, p);
      var q :| 0 <= q < |init| && Emit(pure, init[q]) == [Collect(pure, init)[p]];
      assert ks[q] == init[q];
    } else {
      assert Emit(pure, ks[|ks| - 1]) == [Collect(pure, ks)[p]];
    }
  }

  /** Every bucket that yields a sandwich has it in `Collect`. */
  lemma {:induction false} CollectContains(pure: seq<Tx>, ks: seq<GroupKey>, q: int)
    requires AllHaveSwap(pure) && 0 <= q < |ks| && Emit(pure, ks[q]) != []
    ensures Emit(pure, ks[q])[0] in Collect(pure, ks)
  {
    var init := ks[..|ks| - 1];
    if q < |init| {
      assert ks[q] == init[q];
      CollectContains(pure, init, q);
    }
  }

  /** A contributed sandwich is made of the two members of its bucket, which share its key. */
  lemma EmitShape(pure: seq<Tx>, k: GroupKey, s: Sandwich)
    requires AllHaveSwap(pure) && Emit(pure, k) == [s]
    ensures |Bucket(pure, k)| == 2
    ensures IsActuallySandwich(Bucket(pure, k)[0], Bucket(pure, k)[1])
    ensures s == SortByLogIndex(Bucket(pure, k)[0], Bucket(pure, k)[1])
    ensures HasSwap(s.front) && HasSwap(s.back) && KeyOf(s.front) == k && KeyOf(s.back) == k
  {
  }

  /** Each sandwich of `Collect` has the key of one of the buckets `ks`. */
  lemma CollectKey(pure: seq<Tx>, ks: seq<GroupKey>, p: int)
    requires AllHaveSwap(pure) && 0 <= p < |Collect(pure, ks)|
    ensures HasSwap(Collect(pure, ks)[p].front) && KeyOf(Collect(pure, ks)[p].front) in ks
  {
  }

  /** Different buckets among distinct keys give sandwiches of different keys. */
  lemma {:induction false} CollectKeysDistinct(pure: seq<Tx>, ks: seq<GroupKey>, p: int, q: int)
    requires AllHaveSwap(pure) && Distinct(ks) && 0 <= p < q < |Collect(pure, ks)|
    ensures HasSwap(Collect(pure, ks)[p].front) && HasSwap(Collect(pure, ks)[q].front)
    ensures KeyOf(Collect(pure, ks)[p].front) != KeyOf(Collect(pure, ks)[q].front)
  {
    var init, last := ks[..|ks| - 1], ks[|ks| - 1];
    var c0 := Collect(pure, init);
    assert Collect(pure, ks) == c0 + Emit(pure, last);
    assert Distinct(init);
    CollectKey(pure, init, p);
    if q < |c0| {
      CollectKeysDistinct(pure, init, p, q);
    } else {
      EmitShape(pure, last, Collect(pure, ks)[q]);
      assert last !in init;
    }
  }

  /** The bucket of pure swaps of key `k` keeps the input order of `txs`. */
  lemma PureBucketIsSubsequence(txs: seq<Tx>, k: GroupKey)
    ensures IsSubsequence(Bucket(PureSwaps(txs), k), txs)
  {
    BucketIsSubsequence(PureSwaps(txs), k);
    PureSwapsIsSubsequence(txs);
    SubsequenceTransitive(Bucket(PureSwaps(txs), k), PureSwaps(txs), txs);
  }

  /** The two members of a two-member bucket, found at their input positions. */
  lemma PairBucketPositions(txs: seq<Tx>, k: GroupKey) returns (i: int, j: int)
    requires |Bucket(PureSwaps(txs), k)| == 2
    ensures 0 <= i < j < |txs| && Bucket(PureSwaps(txs), k) == [txs[i], txs[j]]
    ensures IsPureSwap(txs[i]) && IsPureSwap(txs[j]) && KeyOf(txs[i]) == k && KeyOf(txs[j]) == k
  {
    var group := Bucket(PureSwaps(txs), k);
    PureBucketIsSubsequence(txs, k);
    var idx :| SubsequenceVia(group, txs, idx);
    i, j := idx[0], idx[1];
    assert group == [txs[i], txs[j]];
    assert group[0] in PureSwaps(txs) && group[1] in PureSwaps(txs) by {
      BucketMembership(PureSwaps(txs), k, group[0]);
      BucketMembership(PureSwaps(txs), k, group[1]);
    }
  }

  /** Every reported sandwich comes from a two-member bucket of the input, checked in input order. */
  lemma DetectSound(txs: seq<Tx>, p: int)
    requires 0 <= p < |Detect(txs)|
    ensures FromInput(txs, Detect(txs)[p])
  {
    var pure := PureSwaps(txs);
    var ks := KeysInOrder(pure);
    var s := Detect(txs)[p];
    CollectElement(pure, ks, p);
    var q :| 0 <= q < |ks| && Emit(pure, ks[q]) == [s];
    var k := ks[q];
    EmitShape(pure, k, s);
    var i, j := PairBucketPositions(txs, k);
    assert SandwichAt(txs, i, j, s);
  }

  lemma DetectSoundAll(txs: seq<Tx>)
    ensures forall p :: 0 <= p < |Detect(txs)| ==> FromInput(txs, Detect(txs)[p])
    ensures FrontFirst(Detect(txs))
  {
    forall p | 0 <= p < |Detect(txs)| ensures FromInput(txs, Detect(txs)[p]) {
      DetectSound(txs, p);
    }
  }

  /** Every two-member bucket meeting the condition is reported. */
  lemma DetectComplete(txs: seq<Tx>, k: GroupKey)
    requires |Bucket(PureSwaps(txs), k)| == 2
    requires IsActuallySandwich(Bucket(PureSwaps(txs), k)[0], Bucket(PureSwaps(txs), k)[1])
    ensures SortByLogIndex(Bucket(PureSwaps(txs), k)[0], Bucket(PureSwaps(txs), k)[1]) in Detect(txs)
  {
    var pure := PureSwaps(txs);
    var ks := KeysInOrder(pure);
    KeysInOrderMembership(pure, k);
    var q :| 0 <= q < |ks| && ks[q] == k;
    CollectContains(pure, ks, q);
  }

  /** A bucket of any size but two yields no sandwich. */
  lemma DetectSkipsOtherBuckets(txs: seq<Tx>, k: GroupKey, p: int)
    requires |Bucket(PureSwaps(txs), k)| != 2 && 0 <= p < |Detect(txs)|
    ensures HasSwap(Detect(txs)[p].front) && KeyOf(Detect(txs)[p].front) != k
  {
    DetectSound(txs, p);
  }

  /** Both legs of a reported sandwich belong to the same bucket. */
  lemma DetectSameKey(txs: seq<Tx>, p: int)
    requires 0 <= p < |Detect(txs)|
    ensures HasSwap(Detect(txs)[p].front) && HasSwap(Detect(txs)[p].back)
    ensures KeyOf(Detect(txs)[p].front) == KeyOf(Detect(txs)[p].back)
  {
    var pure := PureSwaps(txs);
    CollectElement(pure, KeysInOrder(pure), p);
    var q :| 0 <= q < |KeysInOrder(pure)| && Emit(pure, KeysInOrder(pure)[q]) == [Detect(txs)[p]];
    EmitShape(pure, KeysInOrder(pure)[q], Detect(txs)[p]);
  }

  /** At most one sandwich per key. */
  lemma DetectOnePerKey(txs: seq<Tx>)
    ensures OnePerKey(Detect(txs))
  {
    var pure := PureSwaps(txs);
    KeysInOrderDistinct(pure);
    forall p, q | 0 <= p < q < |Detect(txs)| && HasSwap(Detect(txs)[p].front) && HasSwap(Detect(txs)[q].front)
      ensures KeyOf(Detect(txs)[p].front) != KeyOf(Detect(txs)[q].front)
    {
      CollectKeysDistinct(pure, KeysInOrder(pure), p, q);
    }
  }

  /** No transaction is reported twice. */
  lemma DetectDisjoint(txs: seq<Tx>)
    ensures Disjoint(Detect(txs))
  {
    var d := Detect(txs);
    DetectOnePerKey(txs);
    forall p, q | 0 <= p < q < |d|
      ensures && d[p].front != d[q].front && d[p].front != d[q].back
              && d[p].back != d[q].front && d[p].back != d[q].back
    {
      DetectSameKey(txs, p);
      DetectSameKey(txs, q);
      assert KeyOf(d[p].front) != KeyOf(d[q].front);
    }
  }

  /** Everything the detector promises about its result, in one place. */
  lemma DetectProperties(txs: seq<Tx>)
    ensures forall p :: 0 <= p < |Detect(txs)| ==> FromInput(txs, Detect(txs)[p])
    ensures FrontFirst(Detect(txs))
    ensures OnePerKey(Detect(txs)) && Disjoint(Detect(txs))
  {
    DetectSoundAll(txs);
    DetectOnePerKey(txs);
    DetectDisjoint(txs);
  }

  /** The input is ordered by log index wherever it has swaps. */
  predicate InLogIndexOrder(txs: seq<Tx>) {
    forall i, j :: 0 <= i < j < |txs| && HasSwap(txs[i]) && HasSwap(txs[j]) ==>
      LogIndex(txs[i]) <= LogIndex(txs[j])
  }

  /**
   On input already in log-index order, the sorted pair is the bucket's own
   order, so the reported front leg's outputs equal the back leg's inputs.
   */
  lemma DetectOrderedInput(txs: seq<Tx>, p: int)
    requires InLogIndexOrder(txs) && 0 <= p < |Detect(txs)|
    ensures HasSwap(Detect(txs)[p].front) && HasSwap(Detect(txs)[p].back)
    ensures IsActuallySandwich(Detect(txs)[p].front, Detect(txs)[p].back)
  {
    DetectSound(txs, p);
  }
}
