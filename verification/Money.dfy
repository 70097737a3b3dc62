/**
 Coin amounts and the rounding every price, cost and hold goes through
 (backend/services/money.py).

 Amounts are whole cents held as `int`; a value still to be rounded is a `real`
 number of cents. Energy is a `real` number of kWh, rates are cents per kWh.
 */
module Money {

  // Largest amount a NUMERIC(12,2) column holds: 9,999,999,999.99 coins.
  const MAX_MONEY: int := 999_999_999_999

  // A value as the rounding helper may meet it: the source also clamps the non-finite floats.
  datatype Number = Finite(cents: real) | NotANumber | PlusInfinity | MinusInfinity

  function Round(x: real): int {
    if x >= 0.0 then (x + 0.5).Floor else -(0.5 - x).Floor
  }

  function Clamp(n: int): int {
    if n > MAX_MONEY then MAX_MONEY else if n < -MAX_MONEY then -MAX_MONEY else n
  }

  function ToMoneyOf(v: Number): int {
    match v
    case NotANumber => 0
    case PlusInfinity => MAX_MONEY
    case MinusInfinity => -MAX_MONEY
    case Finite(x) => Clamp(Round(x))
  }

  function ToMoney(x: real): int {
    ToMoneyOf(Finite(x))
  }

  /** Prices are validated positive and stored as NUMERIC(12,2): rounding one again changes nothing. */
  type Price = n: nat | n <= MAX_MONEY

  /** The exact charge for `energy` at `rate`, before any rounding. */
  function Charge(energy: real, rate: Price): real {
    energy * rate as real
  }

  function EnergyCost(energy: real, rate: Price): int {
    ToMoney(Charge(energy, rate))
  }

  /** Rounding is exactly "nearest cent, and of two nearest the one further from zero". */
  lemma RoundIsNearest(x: real, n: int)
    ensures Round(x) == n <==>
            || -0.5 < n as real - x < 0.5
            || (x >= 0.0 && n as real - x == 0.5)
            || (x < 0.0 && n as real - x == -0.5)
  {
    var r := Round(x);
    assert -0.5 <= r as real - x <= 0.5;
    if n != r {
      assert n as real - r as real >= 1.0 || n as real - r as real <= -1.0;
    }
  }

  /** In range the rounded amount is at most half a cent away; out of range it is the nearer bound. */
  lemma ToMoneyError(x: real)
    ensures -MAX_MONEY <= ToMoney(x) <= MAX_MONEY
    ensures -(MAX_MONEY as real) <= x <= MAX_MONEY as real ==> -0.5 <= ToMoney(x) as real - x <= 0.5
    ensures x > MAX_MONEY as real ==> ToMoney(x) == MAX_MONEY
    ensures x < -(MAX_MONEY as real) ==> ToMoney(x) == -MAX_MONEY
  {
  }

  /** Amounts read back from a money column are left alone. */
  lemma ToMoneyOfCents(n: int)
    ensures ToMoney(n as real) == Clamp(n)
    ensures -MAX_MONEY <= n <= MAX_MONEY ==> ToMoney(n as real) == n
  {
    RoundIsNearest(n as real, n);
  }

  lemma RoundMonotone(x: real, y: real)
    requires x <= y
    ensures Round(x) <= Round(y)
  {
  }

  lemma ToMoneyMonotone(x: real, y: real)
    requires x <= y
    ensures ToMoney(x) <= ToMoney(y)
  {
    RoundMonotone(x, y);
  }

  /** Credits and debits of the same size round to the same size. */
  lemma ToMoneyOdd(x: real)
    ensures ToMoney(-x) == -ToMoney(x)
  {
  }

  function Fraction(x: real): real {
    x - x.Floor as real
  }

  /** The cent by which a rounded sum of two amounts differs from the sum of the rounded amounts. */
  function Carry(x: real, y: real): int {
    var f, g := Fraction(x), Fraction(y);
    if f < 0.5 && g < 0.5 && f + g >= 0.5 then 1
    else if f >= 0.5 && g >= 0.5 && f + g < 1.5 then -1
    else 0
  }

  lemma RoundSum(x: real, y: real)
    requires 0.0 <= x && 0.0 <= y
    ensures Round(x + y) == Round(x) + Round(y) + Carry(x, y)
  {
    var sum := x.Floor + y.Floor + if Fraction(x) + Fraction(y) >= 1.0 then 1 else 0;
    assert (x + y).Floor == sum;
    FloorHalf(x);
    FloorHalf(y);
    FloorHalf(x + y);
  }

  lemma FloorHalf(x: real)
    requires 0.0 <= x
    ensures Round(x) == x.Floor + if Fraction(x) >= 0.5 then 1 else 0
  {
    var r := x.Floor + if Fraction(x) >= 0.5 then 1 else 0;
    assert r as real <= x + 0.5 < (r + 1) as real;
  }

  /** A whole number of cents passes through rounding. */
  lemma RoundShift(x: real, n: nat)
    requires 0.0 <= x
    ensures Round(x + n as real) == Round(x) + n
  {
  }

  /** Clamping each term and the sum loses nothing that clamping the sum alone keeps. */
  lemma ClampSum(a: nat, b: nat)
    ensures Clamp(Clamp(a) + Clamp(b)) == Clamp(a + b)
  {
  }

  lemma ChargeMonotone(e: real, e': real, rate: Price, rate': Price)
    requires 0.0 <= e <= e' && rate <= rate'
    ensures 0.0 <= Charge(e, rate) <= Charge(e', rate')
  {
    var k, k' := rate as real, rate' as real;
    assert e' * k - e * k == (e' - e) * k;
    assert e' * k' - e' * k == e' * (k' - k);
  }

  lemma ChargeSum(e: real, e': real, rate: Price)
    ensures Charge(e + e', rate) == Charge(e, rate) + Charge(e', rate)
  {
  }

  lemma EnergyCostMonotone(e: real, e': real, rate: Price, rate': Price)
    requires 0.0 <= e <= e' && rate <= rate'
    ensures 0 <= EnergyCost(e, rate) <= EnergyCost(e', rate')
  {
    ChargeMonotone(e, e', rate, rate');
    ToMoneyMonotone(0.0, Charge(e, rate));
    ToMoneyMonotone(Charge(e, rate), Charge(e', rate'));
  }

  /**
   The energy is not rounded before the multiplication: 0.333 kWh at 5.00 coins is 1.67,
   where rounding 0.333 to 0.33 first would give 1.65.
   */
  lemma EnergyIsNotRoundedFirst()
    ensures EnergyCost(0.333, 500) == 167
    ensures EnergyCost(0.33, 500) == 165
  {
    assert 0.333 * 500.0 == 166.5;
    assert 0.33 * 500.0 == 165.0;
  }
}
