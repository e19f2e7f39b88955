/**
 The grouper: buckets transactions by (pair symbol, recipient), appending to
 each bucket in input order. The source's dictionary iterates its keys in
 insertion order, so the model returns that order explicitly beside the map.
 */
module Grouper {
  import opened Records

  /** The distinct keys of `txs`, in the order they are first met. */
  function KeysInOrder(txs: seq<Tx>): (ks: seq<GroupKey>)
    requires AllHaveSwap(txs)
  {
    if txs == [] then []
    else
      var ks0 := KeysInOrder(txs[..|txs| - 1]);
      var k := KeyOf(txs[|txs| - 1]);
      if k in ks0 then ks0 else ks0 + [k]
  }

  /** The transactions of `txs` whose key is `k`, in input order. */
  function Bucket(txs: seq<Tx>, k: GroupKey): (b: seq<Tx>)
    requires AllHaveSwap(txs)
    ensures |b| <= |txs|
    ensures forall i :: 0 <= i < |b| ==> HasSwap(b[i]) && KeyOf(b[i]) == k
  {
    if txs == [] then []
    else
      var last := txs[|txs| - 1];
      Bucket(txs[..|txs| - 1], k) + (if KeyOf(last) == k then [last] else [])
  }

  /** All buckets of the keys `ks`, one after the other. */
  function Flatten(txs: seq<Tx>, ks: seq<GroupKey>): seq<Tx>
    requires AllHaveSwap(txs)
  {
    if ks == [] then [] else Bucket(txs, ks[0]) + Flatten(txs, ks[1..])
  }

  predicate Distinct(ks: seq<GroupKey>) {
    forall i, j :: 0 <= i < j < |ks| ==> ks[i] != ks[j]
  }

  /**
   Groups `txs` into buckets. `keys` lists the buckets in the order their
   first transaction was met; `groups` maps each key to its bucket.
   */
  method GroupTxs(txs: seq<Tx>) returns (keys: seq<GroupKey>, groups: map<GroupKey, seq<Tx>>)
    requires AllHaveSwap(txs)
    ensures keys == KeysInOrder(txs)
    ensures forall k :: k in groups <==> k in keys
    ensures forall k :: k in groups ==> groups[k] == Bucket(txs, k) && groups[k] != []
  {
    keys, groups := [], map[];
    for i := 0 to |txs|
      invariant keys == KeysInOrder(txs[..i])
      invariant forall k :: k in groups <==> k in keys
      invariant forall k :: k in groups ==> groups[k] == Bucket(txs[..i], k) && groups[k] != []
      invariant forall k :: k !in groups ==> Bucket(txs[..i], k) == []
    {
      var tx := txs[i];
      var k := KeyOf(tx);
      assert txs[..i + 1][..i] == txs[..i];
      if k in groups {
        groups := groups[k := groups[k] + [tx]];
      } else {
        keys := keys + [k];
        groups := groups[k := [tx]];
      }
    }
    assert txs[..|txs|] == txs;
  }

  /** Every transaction is in the bucket of its own key and in no other. */
  lemma {:induction false} BucketMembership(txs: seq<Tx>, k: GroupKey, t: Tx)
    requires AllHaveSwap(txs)
    ensures t in Bucket(txs, k) <==> t in txs && KeyOf(t) == k
  {
    if txs != [] {
      var init := txs[..|txs| - 1];
      assert init + [txs[|txs| - 1]] == txs;
      BucketMembership(init, k, t);
    }
  }

  /** Each key of the input appears in the key list, and only those. */
  lemma {:induction false} KeysInOrderMembership(txs: seq<Tx>, k: GroupKey)
    requires AllHaveSwap(txs)
    ensures k in KeysInOrder(txs) <==> Bucket(txs, k) != []
  {
    if txs != [] {
      KeysInOrderMembership(txs[..|txs| - 1], k);
    }
  }

  /** A key is listed once, so the source's dictionary has one bucket per key. */
  lemma {:induction false} KeysInOrderDistinct(txs: seq<Tx>)
    requires AllHaveSwap(txs)
    ensures Distinct(KeysInOrder(txs))
  {
    if txs != [] {
      KeysInOrderDistinct(txs[..|txs| - 1]);
    }
  }

  /** Within a bucket, transactions keep the order they had in the input. */
  lemma {:induction false} BucketIsSubsequence(txs: seq<Tx>, k: GroupKey)
    requires AllHaveSwap(txs)
    ensures IsSubsequence(Bucket(txs, k), txs)
  {
    if txs == [] {
      assert SubsequenceVia([], [], []);
    } else {
      var init, last := txs[..|txs| - 1], txs[|txs| - 1];
      assert init + [last] == txs;
      BucketIsSubsequence(init, k);
      SubsequenceSnoc(Bucket(init, k), init, last, KeyOf(last) == k);
    }
  }

  /** Appending one transaction adds it to exactly one bucket among distinct keys `ks`. */
  lemma {:induction false} FlattenSnoc(txs: seq<Tx>, t: Tx, ks: seq<GroupKey>)
    requires AllHaveSwap(txs) && HasSwap(t) && Distinct(ks)
    ensures AllHaveSwap(txs + [t])
    ensures multiset(Flatten(txs + [t], ks)) ==
            multiset(Flatten(txs, ks)) + (if KeyOf(t) in ks then multiset{t} else multiset{})
  {
    var s := txs + [t];
    assert AllHaveSwap(s);
    if ks != [] {
      var k, rest := ks[0], ks[1..];
      FlattenSnoc(txs, t, rest);
      assert s[..|s| - 1] == txs;
      var extra := if KeyOf(t) == k then [t] else [];
      assert Bucket(s, k) == Bucket(txs, k) + extra;
      assert Flatten(s, ks) == Bucket(s, k) + Flatten(s, rest);
      assert Flatten(txs, ks) == Bucket(txs, k) + Flatten(txs, rest);
      assert KeyOf(t) in ks <==> KeyOf(t) == k || KeyOf(t) in rest;
      assert KeyOf(t) == k ==> KeyOf(t) !in rest;
    }
  }

  /** Keys outside the input contribute empty buckets. */
  lemma {:induction false} FlattenExtend(txs: seq<Tx>, ks: seq<GroupKey>, k: GroupKey)
    requires AllHaveSwap(txs) && Bucket(txs, k) == []
    ensures Flatten(txs, ks + [k]) == Flatten(txs, ks)
  {
    if ks == [] {
      assert Flatten(txs, [k]) == Bucket(txs, k) + Flatten(txs, []);
    } else {
      assert (ks + [k])[1..] == ks[1..] + [k];
      FlattenExtend(txs, ks[1..], k);
    }
  }

  /** The buckets, taken together, hold exactly the input transactions. */
  lemma {:induction false} BucketsPartitionInput(txs: seq<Tx>)
    requires AllHaveSwap(txs)
    ensures multiset(Flatten(txs, KeysInOrder(txs))) == multiset(txs)
  {
    if txs != [] {
      var init, last := txs[..|txs| - 1], txs[|txs| - 1];
      assert init + [last] == txs;
      var ks0, ks := KeysInOrder(init), KeysInOrder(txs);
      BucketsPartitionInput(init);
      KeysInOrderDistinct(txs);
      if KeyOf(last) in ks0 {
        FlattenSnoc(init, last, ks);
      } else {
        KeysInOrderMembership(init, KeyOf(last));
        FlattenExtend(init, ks0, KeyOf(last));
        FlattenSnoc(init, last, ks);
      }
    }
  }
}
