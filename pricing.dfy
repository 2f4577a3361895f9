/** The cost model, `calculate_price` (testing.py:24-28). */
module Pricing {

  /** `PRICE_PER_UNIT` (testing.py:11): currency per kilowatt-hour. */
  const PricePerUnit: real := 35.0

  /** Cost of drawing `power` watts for one second: kilowatts, then kilowatt-hours, then currency. */
  function Price(power: int): (cost: real)
    ensures cost == (power * 35) as real / 3600000.0
    ensures power >= 0 ==> cost >= 0.0
  {
    var kilowatts := power as real / 1000.0;
    var energy := kilowatts / 3600.0;
    energy * PricePerUnit
  }

  lemma PriceMonotone(p: int, q: int)
    requires p <= q
    ensures Price(p) <= Price(q)
  {
  }

  /** For the simulated draw of 1500 to 3000 watts a second costs between 7/480 and 7/240. */
  lemma PriceInDrawnRange(power: int)
    requires 1500 <= power <= 3000
    ensures Price(1500) == 7.0 / 480.0 && Price(3000) == 7.0 / 240.0
    ensures 7.0 / 480.0 <= Price(power) <= 7.0 / 240.0
  {
    PriceMonotone(1500, power);
    PriceMonotone(power, 3000);
  }

  /** 2000 W for a full 3600-second hour costs 2 kWh at 35, that is 70. */
  lemma FullHourAtTwoKilowatts()
    ensures 3600.0 * Price(2000) == 70.0
  {
  }
}
