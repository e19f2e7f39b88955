/**
 The profit calculator: for a reported sandwich, the attacker's net result in
 each of the pair's two tokens over both legs. Keys are the symbols of the
 front leg's pair; when both symbols are equal the token1 entry overwrites the
 token0 entry, as in a dictionary.
 */
module Profit {
  import opened Records
  import opened Classifier
  import opened Detector

  /** Everything the two legs took out of the pool in token 0, minus everything they put in. */
  function NetGain0(sw: Sandwich): real
    requires HasSwap(sw.front) && HasSwap(sw.back)
  {
    var legs := [sw.front.swaps[0], sw.back.swaps[0]];
    (legs[0].amount0Out + legs[1].amount0Out) - (legs[0].amount0In + legs[1].amount0In)
  }

  /** The same for token 1. */
  function NetGain1(sw: Sandwich): real
    requires HasSwap(sw.front) && HasSwap(sw.back)
  {
    var legs := [sw.front.swaps[0], sw.back.swaps[0]];
    (legs[0].amount1Out + legs[1].amount1Out) - (legs[0].amount1In + legs[1].amount1In)
  }

  function Symbol0(sw: Sandwich): string
    requires HasSwap(sw.front)
  {
    sw.front.swaps[0].pair.token0.symbol
  }

  function Symbol1(sw: Sandwich): string
    requires HasSwap(sw.front)
  {
    sw.front.swaps[0].pair.token1.symbol
  }

  /** Profit per token: second leg's (out - in) minus first leg's (in - out). */
  function CalculateProfit(sw: Sandwich): (profits: map<string, real>)
    requires HasSwap(sw.front) && HasSwap(sw.back)
    ensures profits.Keys == {Symbol0(sw), Symbol1(sw)}
    ensures profits[Symbol1(sw)] == NetGain1(sw)
    ensures Symbol0(sw) != Symbol1(sw) ==> profits[Symbol0(sw)] == NetGain0(sw)
  {
    var tx0, tx1 := sw.front, sw.back;
    var swap0, swap1 := tx0.swaps[0], tx1.swaps[0];
    var symbol0 := swap0.pair.token0.symbol;
    var symbol1 := swap0.pair.token1.symbol;
    map[symbol0 := (swap1.amount0Out - swap1.amount0In) - (swap0.amount0In - swap0.amount0Out)]
       [symbol1 := (swap1.amount1Out - swap1.amount1In) - (swap0.amount1In - swap0.amount1Out)]
  }

  /**
   When the front leg's outputs equal the back leg's inputs, what passes
   through cancels: the profit in each token is what the back leg took out
   minus what the front leg put in.
   */
  lemma ProfitOfSandwich(sw: Sandwich)
    requires HasSwap(sw.front) && HasSwap(sw.back)
    requires IsActuallySandwich(sw.front, sw.back)
    ensures CalculateProfit(sw)[Symbol1(sw)] == sw.back.swaps[0].amount1Out - sw.front.swaps[0].amount1In
    ensures Symbol0(sw) != Symbol1(sw) ==>
              CalculateProfit(sw)[Symbol0(sw)] == sw.back.swaps[0].amount0Out - sw.front.swaps[0].amount0In
  {
  }

  /** On input in log-index order, every reported sandwich's profit takes that simplified form. */
  lemma ProfitOfDetected(txs: seq<Tx>, p: int)
    requires InLogIndexOrder(txs) && 0 <= p < |Detect(txs)|
    ensures var sw := Detect(txs)[p];
            && HasSwap(sw.front) && HasSwap(sw.back)
            && CalculateProfit(sw)[Symbol1(sw)] == sw.back.swaps[0].amount1Out - sw.front.swaps[0].amount1In
            && (Symbol0(sw) != Symbol1(sw) ==>
                  CalculateProfit(sw)[Symbol0(sw)] == sw.back.swaps[0].amount0Out - sw.front.swaps[0].amount0In)
  {
    DetectOrderedInput(txs, p);
    ProfitOfSandwich(Detect(txs)[p]);
  }
}
