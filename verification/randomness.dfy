/**
 * `System.Random` as an oracle: the object holds the sequence of raw draws it
 * will hand out, and each call consumes one. Callers rely only on the range
 * each method promises, so whatever they prove holds for every draw sequence,
 * that is, for every seed. The pseudo-random algorithm itself is not modelled.
 */
module Randomness {
  import opened Data

  /** The next raw draw of a tape; an exhausted tape answers 0. */
  function Head(tape: seq<nat>): nat
  {
    if tape == [] then 0 else tape[0]
  }

  /** The tape after one draw. */
  function Tail(tape: seq<nat>): (r: seq<nat>)
    ensures |r| == if tape == [] then 0 else |tape| - 1
  {
    if tape == [] then [] else tape[1..]
  }

  /** What `Next(minValue, maxValue)` makes of the raw draw `d`. */
  function RangeValue(minValue: int, maxValue: int, d: nat): (r: int)
    requires minValue <= maxValue
    ensures minValue == maxValue ==> r == minValue
    ensures minValue < maxValue ==> minValue <= r < maxValue
  {
    if minValue == maxValue then minValue else minValue + d % (maxValue - minValue)
  }

  class Random {
    /** The raw draws still to come; an exhausted tape keeps answering 0. */
    var draws: seq<nat>

    /** `new Random(seed)`: the seed stands for the draw sequence it determines. */
    constructor (seed: seq<nat>)
      ensures draws == seed
    {
      draws := seed;
    }

    /** Consumes one raw draw. */
    method Draw() returns (d: nat)
      modifies this
      ensures d == Head(old(draws)) && draws == Tail(old(draws))
    {
      if draws == [] {
        d := 0;
      } else {
        d := draws[0];
        draws := draws[1..];
      }
    }

    /** `Next(maxValue)`: an index in [0, maxValue), and 0 when `maxValue` is 0. */
    method Next(maxValue: int) returns (r: int)
      requires maxValue >= 0
      modifies this
      ensures maxValue == 0 ==> r == 0
      ensures maxValue > 0 ==> 0 <= r < maxValue
    {
      var d := Draw();
      r := if maxValue == 0 then 0 else d % maxValue;
    }

    /** `Next(minValue, maxValue)`: a value in [minValue, maxValue), and `minValue` when the two are equal. */
    method NextRange(minValue: int, maxValue: int) returns (r: int)
      requires minValue <= maxValue
      modifies this
      ensures r == RangeValue(minValue, maxValue, Head(old(draws))) && draws == Tail(old(draws))
    {
      var d := Draw();
      r := RangeValue(minValue, maxValue, d);
    }

    /**
     * `NextDouble() < p` for a probability `p = num/den`: a draw from den
     * equally likely outcomes, of which `num` count as success.
     */
    method NextDoubleBelow(p: Ratio) returns (b: bool)
      requires p.den > 0
      modifies this
      ensures p.num <= 0 ==> !b
      ensures p.num >= p.den ==> b
    {
      var d := Draw();
      b := d % p.den < p.num;
    }
  }
}
