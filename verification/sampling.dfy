/**
Deterministic sampling on a string property: a polynomial hash masked to 32 bits at every step,
and a rate clamped to the unit range. Rates are reals; floating-point rounding is not modelled.
*/
module Sampling {
  import opened Options

  const TWO_32: int := 0x1_0000_0000

  /** The value of the string read as a number in base 31, without any masking. */
  function Polynomial(s: string): nat {
    if s == "" then 0 else Polynomial(s[..|s| - 1]) * 31 + s[|s| - 1] as int
  }

  function Pow31(n: nat): nat {
    if n == 0 then 1 else Pow31(n - 1) * 31
  }

  function Hash(s: string): nat {
    Polynomial(s) % TWO_32
  }

  lemma DropMultiple(a: int, k: int)
    ensures (a + k * TWO_32) % TWO_32 == a % TWO_32
  {
  }

  /** Masking before a step changes nothing after it. */
  lemma MaskEarly(x: int, c: int)
    ensures ((x % TWO_32) * 31 + c) % TWO_32 == (x * 31 + c) % TWO_32
  {
    DropMultiple((x % TWO_32) * 31 + c, 31 * (x / TWO_32));
  }

  /** `simple_hash`: the loop masks at every step and still computes the polynomial modulo 2^32. */
  method SimpleHash(s: Option<string>) returns (hash: nat)
    ensures hash == if s.None? then 0 else Hash(s.value)
  {
    hash := 0;
    if s.None? {
      return;
    }
    for i := 0 to |s.value|
      invariant hash == Hash(s.value[..i])
    {
      assert s.value[..i + 1][..i] == s.value[..i];
      MaskEarly(Polynomial(s.value[..i]), s.value[i] as int);
      hash := (hash * 31 + s.value[i] as int) % 0x1_0000_0000;
    }
    assert s.value[..|s.value|] == s.value;
  }

  lemma {:induction false} PolynomialConcat(a: string, b: string)
    ensures Polynomial(a + b) == Polynomial(a) * Pow31(|b|) + Polynomial(b)
  {
    if b == "" {
      assert a + b == a;
    } else {
      var front, last := b[..|b| - 1], b[|b| - 1] as int;
      assert (a + b)[..|a + b| - 1] == a + front;
      PolynomialConcat(a, front);
      calc {
        Polynomial(a + b);
        (Polynomial(a) * Pow31(|front|) + Polynomial(front)) * 31 + last;
        Polynomial(a) * Pow31(|front|) * 31 + Polynomial(b);
        { MulAssociates(Polynomial(a), Pow31(|front|), 31); }
        Polynomial(a) * Pow31(|b|) + Polynomial(b);
      }
    }
  }

  lemma MulAssociates(x: int, y: int, z: int)
    ensures x * y * z == x * (y * z)
  {
  }

  lemma MaskProduct(sum: int, x: int, p: int, y: int)
    requires sum == x * p + y
    ensures sum % TWO_32 == ((x % TWO_32) * p + y % TWO_32) % TWO_32
  {
    var q, r := x / TWO_32, x % TWO_32;
    calc {
      x * p;
      (q * TWO_32 + r) * p;
      { Distributes(q * TWO_32, r, p); }
      q * TWO_32 * p + r * p;
      { MulAssociates(q, TWO_32, p); MulAssociates(q, p, TWO_32); }
      (q * p) * TWO_32 + r * p;
    }
    DropMultiple(r * p + y % TWO_32, q * p + y / TWO_32);
  }

  lemma Distributes(x: int, y: int, z: int)
    ensures (x + y) * z == x * z + y * z
  {
  }

  /** The hash of a concatenation follows from the two hashes and the second length. */
  lemma {:induction false} HashConcat(a: string, b: string)
    ensures Hash(a + b) == (Hash(a) * Pow31(|b|) + Hash(b)) % TWO_32
  {
    PolynomialConcat(a, b);
    MaskProduct(Polynomial(a + b), Polynomial(a), Pow31(|b|), Polynomial(b));
  }

  /** The sum of the character codes, the i-th of n weighted by 31 to the power n - 1 - i. */
  function WeightedSum(s: string, n: nat): nat
    requires n <= |s|
  {
    if n == 0 then 0 else WeightedSum(s, n - 1) + s[n - 1] as int * Pow31(|s| - n)
  }

  lemma {:induction false} WeightedSumIsPolynomial(s: string, n: nat)
    requires n <= |s|
    ensures WeightedSum(s, n) == Polynomial(s[..n]) * Pow31(|s| - n)
  {
    if n > 0 {
      WeightedSumIsPolynomial(s, n - 1);
      var front, last, p := Polynomial(s[..n - 1]), s[n - 1] as int, Pow31(|s| - n);
      assert s[..n][..n - 1] == s[..n - 1];
      calc {
        WeightedSum(s, n);
        front * (p * 31) + last * p;
        { MulAssociates(front, 31, p); }
        front * 31 * p + last * p;
        { Distributes(front * 31, last, p); }
        (front * 31 + last) * p;
      }
    }
  }

  /** The hash is that sum modulo 2^32; the empty string and no string hash to 0. */
  lemma HashIsSum(s: string)
    ensures Hash(s) == WeightedSum(s, |s|) % 4_294_967_296
    ensures Hash("") == 0
  {
    WeightedSumIsPolynomial(s, |s|);
    assert s[..|s|] == s && Pow31(0) == 1;
  }

  // ---------------------------------------------------------------------- sampling

  /** A rate as configured: a number, or something that is not one. */
  datatype Rate = Number(value: real) | NotANumber

  /**
   `clamp_to_range`: a lower bound above the upper one gives way, and anything but a number counts as the
   fallback or the upper bound.
   */
  function ClampToRange(value: Rate, min: real, max: real, fallback: Option<real>): real {
    var low := if min > max then max else min;
    var v := if value.Number? then value.value else fallback.GetOr(max);
    if v > max then max else if v < low then low else v
  }

  /** `sample_on_property`: hundredths of the rate, rounded down, against the hash modulo 100. */
  predicate Sampled(property: string, rate: Rate) {
    property == "" || Hash(property) % 100 < (ClampToRange(rate, 0.0, 1.0, None) * 100.0).Floor
  }

  /** Every number is clamped to the nearest value of the range. */
  lemma ClampIsNearest(value: real, min: real, max: real, other: real)
    requires min <= other <= max
    ensures var c := ClampToRange(Number(value), min, max, None);
            && min <= c <= max
            && (if value <= c then c - value else value - c) <=
               (if value <= other then other - value else value - other)
  {
  }

  /** A property sampled at one rate is sampled at every higher one. */
  lemma SamplingIsMonotone(property: string, low: real, high: real)
    requires low <= high && Sampled(property, Number(low))
    ensures Sampled(property, Number(high))
  {
    var a, b := ClampToRange(Number(low), 0.0, 1.0, None), ClampToRange(Number(high), 0.0, 1.0, None);
    assert a * 100.0 <= b * 100.0;
  }

  /** At rate n hundredths exactly the hashes below n modulo 100 are sampled; the empty property always is. */
  lemma SampledShare(property: string, n: nat)
    requires property != "" && n <= 100
    ensures Sampled(property, Number(n as real / 100.0)) <==> Hash(property) % 100 < n
    ensures Sampled(property, NotANumber)
    ensures forall rate :: Sampled("", rate)
  {
    assert n as real / 100.0 * 100.0 == n as real;
  }

  /** A lower bound above the upper one gives way to it; anything but a number counts as the fallback, or as the upper
      bound where there is none. */
  lemma ClampEdges(value: Rate, min: real, max: real, fallback: Option<real>)
    ensures min > max ==> ClampToRange(value, min, max, fallback) == max
    ensures ClampToRange(NotANumber, min, max, None) == max
    ensures fallback.Some? ==>
              ClampToRange(NotANumber, min, max, fallback) == ClampToRange(Number(fallback.value), min, max, None)
  {
  }
}
