/**
 What the detector and the profit calculator return on small blocks, stated
 and proved: an attacker at address "X" trades pair A/B before and after a
 victim at "Y".
 */
module Scenarios {
  import opened Records
  import opened Classifier
  import opened Grouper
  import opened Detector
  import opened Profit

  const AB := Pair("ab", Token("A"), Token("B"))

  function Leg(id: string, to: string, a0In: real, a0Out: real, a1In: real, a1Out: real, logIndex: int): Tx {
    Tx(id, 100, [Swap(id, AB, to, a0In, a0Out, a1In, a1Out, logIndex)])
  }

  /** Front leg: 100 A in, 50 B out. */
  function Front(): Tx { Leg("t1", "X", 100.0, 0.0, 0.0, 50.0, 1) }
  /** The victim, bucketed apart because its recipient differs. */
  function Victim(): Tx { Leg("t2", "Y", 10.0, 0.0, 0.0, 4.0, 3) }

  /** Three pure swaps are kept as they are. */
  lemma AllPure(a: Tx, b: Tx, c: Tx)
    requires IsPureSwap(a) && IsPureSwap(b) && IsPureSwap(c)
    ensures PureSwaps([a, b, c]) == [a, b, c]
  {
    var txs := [a, b, c];
    assert txs[..2] == [a, b] && [a, b][..1] == [a] && [a][..0] == [];
    assert PureSwaps([a]) == [a];
    assert PureSwaps([a, b]) == [a, b];
  }

  /** The first and last of three share a bucket, the middle one is alone. */
  lemma TwoBuckets(a: Tx, b: Tx, c: Tx)
    requires HasSwap(a) && HasSwap(b) && HasSwap(c)
    requires KeyOf(a) == KeyOf(c) != KeyOf(b)
    ensures AllHaveSwap([a, b, c])
    ensures KeysInOrder([a, b, c]) == [KeyOf(a), KeyOf(b)]
    ensures Bucket([a, b, c], KeyOf(a)) == [a, c]
    ensures Bucket([a, b, c], KeyOf(b)) == [b]
  {
    var txs := [a, b, c];
    var ka, kb := KeyOf(a), KeyOf(b);
    assert txs[..2] == [a, b] && [a, b][..1] == [a] && [a][..0] == [];
    assert AllHaveSwap([a]) && AllHaveSwap([a, b]) && AllHaveSwap(txs);
    assert KeysInOrder(txs) == [ka, kb] by {
      assert KeysInOrder([a]) == [ka];
      assert KeysInOrder([a, b]) == [ka, kb];
    }
    assert Bucket(txs, ka) == [a, c] by {
      assert Bucket([a], ka) == [a];
      assert Bucket([a, b], ka) == [a];
      assert Bucket(txs, ka) == [a] + [c];
    }
    assert Bucket(txs, kb) == [b] by {
      assert Bucket([a], kb) == [];
      assert Bucket([a, b], kb) == [b];
      assert Bucket(txs, kb) == [b] + [];
    }
  }

  /** All three in one bucket. */
  lemma OneBucket(a: Tx, b: Tx, c: Tx)
    requires HasSwap(a) && HasSwap(b) && HasSwap(c)
    requires KeyOf(a) == KeyOf(b) == KeyOf(c)
    ensures AllHaveSwap([a, b, c])
    ensures KeysInOrder([a, b, c]) == [KeyOf(a)]
    ensures Bucket([a, b, c], KeyOf(a)) == [a, b, c]
  {
    var txs := [a, b, c];
    var k := KeyOf(a);
    assert txs[..2] == [a, b] && [a, b][..1] == [a] && [a][..0] == [];
    assert KeysInOrder([a]) == [k];
    assert KeysInOrder([a, b]) == [k];
    assert Bucket([a], k) == [a];
    assert Bucket([a, b], k) == [a] + [b];
    assert Bucket(txs, k) == [a, b] + [c];
  }

  /** Attacker legs `a`, `c` around a victim `b`: reported exactly when the condition holds. */
  lemma DetectAroundVictim(a: Tx, b: Tx, c: Tx)
    requires IsPureSwap(a) && IsPureSwap(b) && IsPureSwap(c)
    requires KeyOf(a) == KeyOf(c) != KeyOf(b)
    ensures Detect([a, b, c]) == if IsActuallySandwich(a, c) then [SortByLogIndex(a, c)] else []
  {
    AllPure(a, b, c);
    TwoBuckets(a, b, c);
    var ks := [KeyOf(a), KeyOf(b)];
    assert ks[..1] == [KeyOf(a)] && [KeyOf(a)][..0] == [];
    assert Emit([a, b, c], KeyOf(b)) == [];
    assert Collect([a, b, c], [KeyOf(a)]) == Emit([a, b, c], KeyOf(a));
  }

  /** Three legs in one bucket are never reported, whatever their amounts. */
  lemma DetectThreeLegs(a: Tx, b: Tx, c: Tx)
    requires IsPureSwap(a) && IsPureSwap(b) && IsPureSwap(c)
    requires KeyOf(a) == KeyOf(b) == KeyOf(c)
    ensures Detect([a, b, c]) == []
  {
    AllPure(a, b, c);
    OneBucket(a, b, c);
    assert [KeyOf(a)][..0] == [];
    assert Emit([a, b, c], KeyOf(a)) == [];
    assert Collect([a, b, c], [KeyOf(a)]) == Emit([a, b, c], KeyOf(a));
  }

  /** The back leg puts 40 B in where the front leg took 50 out: nothing is reported. */
  lemma MismatchedBackLegIsNotASandwich()
    ensures Detect([Front(), Victim(), Leg("t3", "X", 0.0, 100.0, 40.0, 0.0, 2)]) == []
  {
    var back := Leg("t3", "X", 0.0, 100.0, 40.0, 0.0, 2);
    assert KeyOf(Front()) == KeyOf(back) == GroupKey("A/B", "X");
    assert KeyOf(Victim()) == GroupKey("A/B", "Y");
    DetectAroundVictim(Front(), Victim(), back);
  }

  /**
   The back leg returns the 50 B and takes out 110 A: one sandwich, front
   leg first, earning 10 A and nothing in B.
   */
  lemma MatchedBackLegIsASandwich()
    ensures var sw := Sandwich(Front(), Leg("t3", "X", 0.0, 110.0, 50.0, 0.0, 5));
            && Detect([Front(), Victim(), sw.back]) == [sw]
            && CalculateProfit(sw) == map["A" := 10.0, "B" := 0.0]
  {
    var back := Leg("t3", "X", 0.0, 110.0, 50.0, 0.0, 5);
    assert KeyOf(Front()) == KeyOf(back) == GroupKey("A/B", "X");
    assert KeyOf(Victim()) == GroupKey("A/B", "Y");
    DetectAroundVictim(Front(), Victim(), back);
  }

  /** Three legs of one attacker in one bucket: nothing is reported, whatever the amounts. */
  lemma ThreeLegBucketIsSkipped(a0In: real, a0Out: real, a1In: real, a1Out: real, logIndex: int)
    requires IsPureSwap(Leg("t4", "X", a0In, a0Out, a1In, a1Out, logIndex))
    ensures Detect([Front(), Leg("t3", "X", 0.0, 110.0, 50.0, 0.0, 5),
                    Leg("t4", "X", a0In, a0Out, a1In, a1Out, logIndex)]) == []
  {
    var second := Leg("t3", "X", 0.0, 110.0, 50.0, 0.0, 5);
    var third := Leg("t4", "X", a0In, a0Out, a1In, a1Out, logIndex);
    assert KeyOf(Front()) == KeyOf(second) == KeyOf(third) == GroupKey("A/B", "X");
    DetectThreeLegs(Front(), second, third);
  }
}
