/** Numbers as sequences of digits, most significant first. */
module Digits {
  import opened Arith

  ghost predicate AreDigits(ds: seq<nat>, base: nat) {
    forall i | 0 <= i < |ds| :: ds[i] < base
  }

  function Value(ds: seq<nat>, base: nat): nat {
    if ds == [] then 0 else base * Value(ds[..|ds| - 1], base) + ds[|ds| - 1]
  }

  /** The digits of x without leading zeros; none for zero. */
  function DigitsOf(x: nat, base: nat): (ds: seq<nat>)
    requires base > 1
    ensures AreDigits(ds, base)
    ensures ds == [] <==> x == 0
    ensures ds != [] ==> ds[0] != 0
  {
    if x == 0 then []
    else
      assert x / base < x by { Smaller(x, base); }
      DigitsOf(x / base, base) + [x % base]
  }

  lemma Smaller(x: nat, base: nat)
    requires base > 1 && x > 0
    ensures x / base < x && (x / base == 0 ==> x % base == x)
  {
    assert x == base * (x / base) + x % base;
    MulGap(x / base, 1, base);
    assert base * (x / base) == (x / base) * base && (x / base) * 1 == x / base;
  }

  /** The last digit and the ones before it. */
  lemma LastDigit(x: nat, base: nat)
    requires base > 1 && x > 0
    ensures x / base < x && x % base < base && x == base * (x / base) + x % base
    ensures DigitsOf(x, base) == DigitsOf(x / base, base) + [x % base]
  {
    Smaller(x, base);
  }

  lemma ValueOfNext(ds: seq<nat>, d: nat, base: nat, v: nat, x: nat)
    requires v == Value(ds, base) && x == base * v + d
    ensures Value(ds + [d], base) == x
  {
    assert (ds + [d])[..|ds|] == ds;
  }

  lemma {:induction false} ValueOfDigits(x: nat, base: nat)
    requires base > 1
    ensures Value(DigitsOf(x, base), base) == x
  {
    if x == 0 {
    } else {
      hide DigitsOf, Value;
      LastDigit(x, base);
      var q, d := x / base, x % base;
      ValueOfDigits(q, base);
      ValueOfNext(DigitsOf(q, base), d, base, q, x);
    }
  }

  /** Digits that do not start with zero are the digits of their value. */
  lemma {:induction false} DigitsOfValue(ds: seq<nat>, base: nat)
    requires base > 1 && AreDigits(ds, base) && (ds != [] ==> ds[0] != 0)
    ensures DigitsOf(Value(ds, base), base) == ds
    ensures ds != [] ==> Value(ds, base) > 0
  {
    if ds == [] {
    } else {
      var front, d := ds[..|ds| - 1], ds[|ds| - 1];
      DigitsOfValue(front, base);
      var v := Value(front, base);
      if front != [] {
        MulGap(base, 1, v);
      }
      DivModUnique(base * v + d, base, v, d);
      assert front + [d] == ds;
    }
  }

  function Power(base: nat, n: nat): nat {
    if n == 0 then 1 else base * Power(base, n - 1)
  }

  /** A digit in front weighs the base to the number of digits behind it. */
  lemma {:induction false} LeadingDigit(d: nat, ds: seq<nat>, base: nat)
    ensures Value([d] + ds, base) == d * Power(base, |ds|) + Value(ds, base)
  {
    if ds == [] {
      assert ([d] + ds)[..0] == [];
      assert base * 0 == 0;
    } else {
      var front, e := ds[..|ds| - 1], ds[|ds| - 1];
      LeadingDigit(d, front, base);
      assert ([d] + ds)[..|ds|] == [d] + front;
      Distribute(base, d, Power(base, |front|), Value(front, base));
    }
  }

  lemma Distribute(base: nat, d: nat, p: nat, v: nat)
    ensures base * (d * p + v) == d * (base * p) + base * v
  {
  }

  /** A leading zero does not change the value. */
  lemma LeadingZero(ds: seq<nat>, base: nat)
    ensures Value([0] + ds, base) == Value(ds, base)
  {
    hide Value, Power;
    LeadingDigit(0, ds, base);
    assert 0 * Power(base, |ds|) == 0;
  }

  /** The digits without their leading zeros. */
  function Stripped(ds: seq<nat>): (r: seq<nat>)
    ensures |r| <= |ds| && (r != [] ==> r[0] != 0)
    ensures ds == [] || ds[0] != 0 <==> r == ds
    ensures r == ds[|ds| - |r|..]
    ensures forall i | 0 <= i < |ds| - |r| :: ds[i] == 0
  {
    if ds != [] && ds[0] == 0 then Stripped(ds[1..]) else ds
  }

  lemma {:induction false} StrippedValue(ds: seq<nat>, base: nat)
    ensures Value(Stripped(ds), base) == Value(ds, base)
  {
    hide Value;
    if ds == [] || ds[0] != 0 {
    } else {
      StrippedValue(ds[1..], base);
      LeadingZero(ds[1..], base);
      assert [0] + ds[1..] == ds;
    }
  }
}
