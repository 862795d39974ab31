/** The affiliate fee of a swap: the scaled purchase, the fee taken from it, and what the buyer keeps. */
module AffiliateFee {

  const AFFILIATE_FEE_TRANSFORMER_GAS := 15000

  /** BigNumber's `integerValue(ROUND_DOWN)`, towards zero. */
  function RoundDown(x: real): int {
    if x >= 0.0 then x.Floor else -(-x).Floor
  }

  /** A buy quote is requested for more than the buyer wants, so the fee can come out of it. */
  function BuyAmountScaled(buyAmount: nat, rate: real): int {
    RoundDown(buyAmount as real * (rate + 1.0))
  }

  datatype FeeAmounts = FeeAmounts(sellTokenFeeAmount: int, buyTokenFeeAmount: int, gasCost: nat)

  /** The part of `x` that goes to the fee: `f` parts out of `1 + f`. */
  function FeeShare(x: real, rate: real): real
    requires rate >= 0.0
  {
    x * rate / (rate + 1.0)
  }

  function BuyerShare(x: real, rate: real): real
    requires rate >= 0.0
  {
    x / (rate + 1.0)
  }

  /** The fee is taken from the worst-case amount. */
  function GetAffiliateFeeAmounts(worstCaseMaker: nat, rate: real): FeeAmounts
    requires rate >= 0.0
  {
    var fee := RoundDown(FeeShare(worstCaseMaker as real, rate));
    FeeAmounts(0, fee, if fee == 0 then 0 else AFFILIATE_FEE_TRANSFORMER_GAS)
  }

  /** The `buyAmount` of the answer: the best case less the fee. */
  function QuotedBuyAmount(bestCaseMaker: nat, worstCaseMaker: nat, rate: real): int
    requires rate >= 0.0
  {
    bestCaseMaker - GetAffiliateFeeAmounts(worstCaseMaker, rate).buyTokenFeeAmount
  }

  lemma Shares(x: real, rate: real)
    requires rate >= 0.0 && x >= 0.0
    ensures BuyerShare(x, rate) + FeeShare(x, rate) == x
    ensures BuyerShare(x, rate) * (rate + 1.0) == x && BuyerShare(x, rate) >= 0.0
    ensures 0.0 <= FeeShare(x, rate) == BuyerShare(x, rate) * rate
  {
    var share := x / (rate + 1.0);
    assert share * (rate + 1.0) == share * rate + share;
    assert x * rate / (rate + 1.0) == share * rate by {
      assert x * rate == share * rate * (rate + 1.0);
    }
    assert share * rate >= 0.0;
  }

  lemma RoundDownBounds(x: real)
    requires x >= 0.0
    ensures x - 1.0 < RoundDown(x) as real <= x
  {
  }

  /** What is left of the worst case is its share `W / (1 + f)`, rounded up. */
  lemma NetIsShareRoundedUp(worstCaseMaker: nat, rate: real)
    requires rate >= 0.0
    ensures BuyerShare(worstCaseMaker as real, rate) <= QuotedBuyAmount(worstCaseMaker, worstCaseMaker, rate) as real
    ensures QuotedBuyAmount(worstCaseMaker, worstCaseMaker, rate) as real - 1.0
          < BuyerShare(worstCaseMaker as real, rate)
  {
    Shares(worstCaseMaker as real, rate);
    RoundDownBounds(FeeShare(worstCaseMaker as real, rate));
  }

  lemma ScaleLess(a: real, b: real, k: real)
    requires a < b && k > 0.0
    ensures a * k < b * k
  {
  }

  /** Exactly which worst cases leave the buyer at least the amount asked for. */
  lemma EnoughExactly(buyAmount: nat, worstCaseMaker: nat, rate: real)
    requires rate >= 0.0
    ensures QuotedBuyAmount(worstCaseMaker, worstCaseMaker, rate) >= buyAmount
       <==> worstCaseMaker as real > (buyAmount as real - 1.0) * (rate + 1.0)
  {
    var share := BuyerShare(worstCaseMaker as real, rate);
    NetIsShareRoundedUp(worstCaseMaker, rate);
    Shares(worstCaseMaker as real, rate);
    if share > buyAmount as real - 1.0 {
      ScaleLess(buyAmount as real - 1.0, share, rate + 1.0);
    } else if share < buyAmount as real - 1.0 {
      ScaleLess(share, buyAmount as real - 1.0, rate + 1.0);
    }
  }

  lemma ScaledIsEnough(buyAmount: nat, rate: real)
    requires rate >= 0.0
    ensures buyAmount <= BuyAmountScaled(buyAmount, rate)
    ensures (buyAmount as real - 1.0) * (rate + 1.0) < BuyAmountScaled(buyAmount, rate) as real
    ensures BuyAmountScaled(buyAmount, rate) as real <= buyAmount as real * (rate + 1.0)
  {
    var b := buyAmount as real;
    assert b * rate >= 0.0;
    assert b * (rate + 1.0) == b * rate + b;
    assert (b - 1.0) * (rate + 1.0) == b * (rate + 1.0) - (rate + 1.0);
  }

  /**
   * Two floors in two places never short the buyer: if the quote promises at least the scaled amount
   * in the worst case, what is left after the fee is at least what was asked for.
   */
  lemma BuyerNeverShort(buyAmount: nat, bestCaseMaker: nat, worstCaseMaker: nat, rate: real)
    requires rate >= 0.0
    requires worstCaseMaker >= BuyAmountScaled(buyAmount, rate) && bestCaseMaker >= worstCaseMaker
    ensures QuotedBuyAmount(bestCaseMaker, worstCaseMaker, rate) >= buyAmount
  {
    ScaledIsEnough(buyAmount, rate);
    EnoughExactly(buyAmount, worstCaseMaker, rate);
  }

  /** A quote for exactly the scaled amount is the inverse of the scaling: the buyer keeps just what was asked for. */
  lemma ScalingRoundTrip(buyAmount: nat, rate: real)
    requires rate >= 0.0
    ensures BuyAmountScaled(buyAmount, rate) >= 0
    ensures QuotedBuyAmount(BuyAmountScaled(buyAmount, rate), BuyAmountScaled(buyAmount, rate), rate) == buyAmount
  {
    ScaledIsEnough(buyAmount, rate);
    var scaled: nat := BuyAmountScaled(buyAmount, rate);
    EnoughExactly(buyAmount, scaled, rate);
    EnoughExactly(buyAmount + 1, scaled, rate);
  }

  /** The fee never exceeds its rate times what the buyer keeps, buying or selling, and leaves nothing negative. */
  lemma FeeWithinRate(bestCaseMaker: nat, worstCaseMaker: nat, rate: real)
    requires rate >= 0.0 && bestCaseMaker >= worstCaseMaker
    ensures 0 <= GetAffiliateFeeAmounts(worstCaseMaker, rate).buyTokenFeeAmount <= worstCaseMaker
    ensures GetAffiliateFeeAmounts(worstCaseMaker, rate).buyTokenFeeAmount as real
         <= rate * QuotedBuyAmount(bestCaseMaker, worstCaseMaker, rate) as real
    ensures GetAffiliateFeeAmounts(worstCaseMaker, rate).sellTokenFeeAmount == 0
    ensures GetAffiliateFeeAmounts(worstCaseMaker, rate).gasCost
         == if GetAffiliateFeeAmounts(worstCaseMaker, rate).buyTokenFeeAmount > 0 then 15000 else 0
  {
    Shares(worstCaseMaker as real, rate);
    NetIsShareRoundedUp(worstCaseMaker, rate);
    var share := BuyerShare(worstCaseMaker as real, rate);
    var kept := QuotedBuyAmount(bestCaseMaker, worstCaseMaker, rate) as real;
    assert share <= kept;
    ScaleAtMost(share, kept, rate);
    assert share >= 0.0;
  }

  lemma ScaleAtMost(a: real, b: real, k: real)
    requires a <= b && k >= 0.0
    ensures a * k <= b * k
  {
  }
}
