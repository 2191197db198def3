/** The credit calculator of components/credit-calculator.tsx: a credit
    amount typed by the user, its range message and the price. `Number(value)`
    is an input: `None` stands for `NaN`. */
module CreditCalculator {
  import opened Wrappers

  /** Rupees per credit (components/credit-calculator.tsx:20). */
  const CreditRate: real := 2.0
  const MinCredits: real := 10.0
  const MaxCredits: real := 50.0
  const MinMessage: string := "Minimum 10 credits required"
  const MaxMessage: string := "Maximum 50 credits allowed"

  /** The message `handleChange` sets for a parsed amount; empty when the
      amount is within range, the bounds included. */
  function RangeMessage(n: real): (m: string)
    ensures m == "" <==> MinCredits <= n <= MaxCredits
    ensures n < MinCredits ==> m == MinMessage
    ensures n > MaxCredits ==> m == MaxMessage
  {
    if n < MinCredits then MinMessage
    else if n > MaxCredits then MaxMessage
    else ""
  }

  /** `total = credits * CREDIT_RATE`: the price, from which the amount can
      be read back. */
  function Total(credits: real): (t: real)
    ensures t / CreditRate == credits
    ensures MinCredits <= credits <= MaxCredits ==> 20.0 <= t <= 100.0
  {
    credits * CreditRate
  }

  class Calculator {
    var credits: real
    var error: string

    /** The price shown next to the amount. */
    function TotalShown(): real
      reads this
    {
      Total(credits)
    }

    constructor ()
      ensures credits == 10.0 && error == "" && TotalShown() == 20.0
    {
      credits := 10.0;
      error := "";
    }

    /** `handleChange`, given `Number(value)`. An unparsable value changes
        nothing; any number is stored as typed, even out of range, and only
        the message reports the range. */
    method HandleChange(parsed: Option<real>)
      modifies this
      ensures parsed.None? ==> credits == old(credits) && error == old(error)
      ensures parsed.Some? ==> credits == parsed.value && error == RangeMessage(parsed.value)
      ensures TotalShown() == Total(credits)
    {
      if parsed.None? {
        return;
      }
      var num := parsed.value;
      if num < 10.0 {
        error := MinMessage;
      } else if num > 50.0 {
        error := MaxMessage;
      } else {
        error := "";
      }
      credits := num;
    }
  }
}
