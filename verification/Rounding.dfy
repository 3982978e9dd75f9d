/**
 Decimal rounding on the digits a reader sees: half away from zero, with a
 carry through nines.
 */
module Rounding {

  type Digit = d: nat | d < 10

  // A signed decimal as it is printed: at least one whole digit.
  datatype Decimal = Decimal(negative: bool, whole: seq<Digit>, places: seq<Digit>)

  function Pow10(n: nat): (p: nat)
    ensures p > 0
  {
    if n == 0 then 1 else 10 * Pow10(n - 1)
  }

  function ValueOf(digits: seq<Digit>): nat {
    if digits == [] then 0 else 10 * ValueOf(digits[..|digits| - 1]) + digits[|digits| - 1]
  }

  function Signed(negative: bool, magnitude: int): int {
    if negative then -magnitude else magnitude
  }

  // The number of units in the last place.
  function Units(d: Decimal): int {
    Signed(d.negative, ValueOf(d.whole + d.places))
  }

  function Distance(a: int, b: int): nat {
    if a < b then b - a else a - b
  }

  // `rounded * unit` is no further from `units` than `m * unit`, and of two
  // equally near ones the one further from zero.
  ghost predicate AtLeastAsNear(units: int, unit: nat, rounded: int, m: int) {
    && Distance(rounded * unit, units) <= Distance(m * unit, units)
    && (Distance(rounded * unit, units) == Distance(m * unit, units) ==> Distance(m, 0) <= Distance(rounded, 0))
  }

  // Among all multiples of `unit`, `rounded * unit` is the one to choose.
  ghost predicate NearestMultiple(units: int, unit: nat, rounded: int) {
    forall m: int :: AtLeastAsNear(units, unit, rounded, m)
  }

  // ---- Values of digit strings ----

  lemma {:induction false} ValueOfConcat(a: seq<Digit>, b: seq<Digit>)
    ensures ValueOf(a + b) == ValueOf(a) * Pow10(|b|) + ValueOf(b)
  {
    if b == [] {
      assert a + b == a;
    } else {
      var last := |b| - 1;
      assert (a + b)[..|a + b| - 1] == a + b[..last];
      ValueOfConcat(a, b[..last]);
      assert ValueOf(a + b) == 10 * (ValueOf(a) * Pow10(last) + ValueOf(b[..last])) + b[last];
      TenTimes(ValueOf(a), Pow10(last));
    }
  }

  lemma TenTimes(a: nat, p: nat)
    ensures 10 * (a * p) == a * (10 * p)
  {
  }

  lemma {:induction false} ValueIsBounded(digits: seq<Digit>)
    ensures ValueOf(digits) < Pow10(|digits|)
  {
    if digits != [] {
      ValueIsBounded(digits[..|digits| - 1]);
    }
  }

  // Whether the rest is at least one half shows in its first digit.
  lemma FirstDigitDecides(rest: seq<Digit>)
    requires rest != []
    ensures rest[0] >= 5 <==> 2 * ValueOf(rest) >= Pow10(|rest|)
  {
    var q, tail := Pow10(|rest| - 1), rest[1..];
    assert rest == [rest[0]] + tail;
    ValueOfConcat([rest[0]], tail);
    assert ValueOf([rest[0]]) == rest[0];
    ValueIsBounded(tail);
    if rest[0] >= 5 {
      AtLeast(rest[0], 5, q);
    } else {
      AtLeast(4, rest[0], q);
    }
  }

  lemma AtLeast(a: nat, b: nat, q: nat)
    requires a >= b
    ensures a * q >= b * q
  {
  }

  // ---- The carry ----

  // The digits of the next number.
  function Next(digits: seq<Digit>): seq<Digit> {
    if digits == [] then [1]
    else
      var last := |digits| - 1;
      if digits[last] == 9 then Next(digits[..last]) + [0] else digits[..last] + [digits[last] + 1]
  }

  predicate AllNines(digits: seq<Digit>) {
    forall i :: 0 <= i < |digits| ==> digits[i] == 9
  }

  // One more, and one digit longer only when all were nines.
  lemma {:induction false} NextIsOneMore(digits: seq<Digit>)
    ensures ValueOf(Next(digits)) == ValueOf(digits) + 1
    ensures |Next(digits)| == |digits| + if AllNines(digits) then 1 else 0
  {
    NextValue(digits);
    NextLength(digits);
  }

  lemma ValueOfLast(rest: seq<Digit>, last: Digit)
    ensures ValueOf(rest + [last]) == 10 * ValueOf(rest) + last
  {
    assert (rest + [last])[..|rest|] == rest;
  }

  lemma {:induction false} NextValue(digits: seq<Digit>)
    ensures ValueOf(Next(digits)) == ValueOf(digits) + 1
  {
    if digits == [] {
      ValueOfLast([], 1);
      assert [] + [1] == [1 as Digit];
    } else {
      var rest, last := digits[..|digits| - 1], digits[|digits| - 1];
      assert digits == rest + [last];
      ValueOfLast(rest, last);
      if last == 9 {
        NextValue(rest);
        ValueOfLast(Next(rest), 0);
      } else {
        ValueOfLast(rest, last + 1);
      }
    }
  }

  lemma {:induction false} NextLength(digits: seq<Digit>)
    ensures |Next(digits)| == |digits| + if AllNines(digits) then 1 else 0
  {
    if digits != [] {
      var rest, last := digits[..|digits| - 1], digits[|digits| - 1];
      assert digits == rest + [last];
      NextLength(rest);
      assert AllNines(digits) <==> AllNines(rest) && last == 9;
    }
  }

  lemma {:induction false} NextPastNines(digits: seq<Digit>, zeros: seq<Digit>)
    requires |zeros| <= |digits|
    requires forall i :: 0 <= i < |zeros| ==> zeros[i] == 0
    requires forall i :: |digits| - |zeros| <= i < |digits| ==> digits[i] == 9
    ensures Next(digits) == Next(digits[..|digits| - |zeros|]) + zeros
  {
    if zeros == [] {
      assert digits[..|digits|] == digits;
    } else {
      var last := |digits| - 1;
      var rest := digits[..last];
      NextPastNines(rest, zeros[1..]);
      assert rest[..|rest| - |zeros[1..]|] == digits[..|digits| - |zeros|];
      assert zeros == zeros[1..] + [0] by {
        forall i | 0 <= i < |zeros| ensures zeros[i] == (zeros[1..] + [0])[i] {}
      }
    }
  }

  method Carry(digits: seq<Digit>) returns (kept: seq<Digit>)
    ensures kept == Next(digits)
  {
    kept := digits;
    var index := |kept|;
    while true
      invariant 0 <= index <= |kept| == |digits| && kept[..index] == digits[..index]
      invariant forall i :: index <= i < |digits| ==> digits[i] == 9 && kept[i] == 0
      decreases index
    {
      NextPastNines(digits, kept[index..]);
      assert kept == digits[..index] + kept[index..];
      if index == 0 {
        kept := [1] + kept;
        break;
      }
      index := index - 1;
      if kept[index] == 9 {
        kept := kept[index := 0];
      } else {
        assert digits[..index + 1] == digits[..index] + [digits[index]];
        kept := kept[index := kept[index] + 1];
        break;
      }
    }
  }

  // ---- Rounding ----

  lemma KeptAndRest(units: nat, kept: nat, rest: nat, unit: nat)
    requires units == kept * unit + rest && rest < unit
    ensures 2 * rest < unit ==> NearestMultiple(units, unit, kept)
    ensures 2 * rest >= unit ==> NearestMultiple(units, unit, kept + 1)
  {
    var rounded := if 2 * rest < unit then kept else kept + 1;
    assert (kept + 1) * unit == kept * unit + unit;
    forall m: int ensures AtLeastAsNear(units, unit, rounded, m) {
      if m <= kept {
        AtMostTimes(m, kept, unit);
        if m < kept { AtMostTimes(m, kept - 1, unit); }
      } else {
        AtMostTimes(kept + 1, m, unit);
        if m > kept + 1 { AtMostTimes(kept + 2, m, unit); }
      }
    }
  }

  lemma AtMostTimes(a: int, b: int, unit: nat)
    requires a <= b
    ensures a * unit <= b * unit
    ensures (b + 1) * unit == b * unit + unit && (a + 1) * unit == a * unit + unit
    ensures (a - 1) * unit == a * unit - unit && (b - 1) * unit == b * unit - unit
  {
  }

  lemma NegatedNearest(units: int, unit: nat, rounded: int)
    requires NearestMultiple(units, unit, rounded)
    ensures NearestMultiple(-units, unit, -rounded)
  {
    var negated, opposite := -units, -rounded;
    forall m: int ensures AtLeastAsNear(negated, unit, opposite, m) {
      assert (-m) * unit == -(m * unit) && (-rounded) * unit == -(rounded * unit);
      assert AtLeastAsNear(units, unit, rounded, -m);
    }
  }

  // The nearest multiple is one number.
  lemma NearestIsUnique(units: int, unit: nat, a: int, b: int)
    requires unit > 0 && NearestMultiple(units, unit, a) && NearestMultiple(units, unit, b)
    ensures a == b
  {
    assert AtLeastAsNear(units, unit, a, b) && AtLeastAsNear(units, unit, b, a);
    assert Distance(a, 0) == Distance(b, 0);
    if a == -b {
      assert (-b) * unit == -(b * unit);
      assert AtLeastAsNear(units, unit, a, 0);
    }
  }

  // round_decimal on the printed digits; a result of zero loses its sign.
  method RoundDecimal(value: Decimal, digits: nat) returns (rounded: Decimal)
    requires value.whole != []
    ensures |value.places| <= digits ==> rounded == value
    ensures |value.places| > digits ==>
      && rounded.whole != [] && |rounded.places| == digits
      && NearestMultiple(Units(value), Pow10(|value.places| - digits), Units(rounded))
      && (rounded.negative <==> value.negative && Units(rounded) != 0)
      && |value.whole| <= |rounded.whole| <= |value.whole| + 1
      && (|rounded.whole| > |value.whole| ==> value.places[digits] >= 5 && AllNines(value.whole + value.places[..digits]))
  {
    if |value.places| <= digits {
      return value;
    }
    var kept := value.whole + value.places[..digits];
    NextLength(kept);
    RoundsSigned(value, digits, if value.places[digits] >= 5 then Next(kept) else kept);
    if value.places[digits] >= 5 {
      kept := Carry(kept);
    }
    var negative := value.negative && ValueOf(kept) != 0;
    rounded := Decimal(negative, kept[..|kept| - digits], kept[|kept| - digits..]);
    assert rounded.whole + rounded.places == kept;
    assert Units(rounded) == Signed(value.negative, ValueOf(kept));
  }

  lemma RoundsSigned(value: Decimal, digits: nat, kept: seq<Digit>)
    requires digits < |value.places|
    requires var start := value.whole + value.places[..digits];
      kept == if value.places[digits] >= 5 then Next(start) else start
    ensures NearestMultiple(Units(value), Pow10(|value.places| - digits), Signed(value.negative, ValueOf(kept)))
  {
    var start, rest := value.whole + value.places[..digits], value.places[digits..];
    assert value.whole + value.places == start + rest;
    RoundsToNearest(start, rest, kept);
    if value.negative {
      NegatedNearest(ValueOf(start + rest), Pow10(|rest|), ValueOf(kept));
    }
  }

  lemma RoundsToNearest(start: seq<Digit>, rest: seq<Digit>, kept: seq<Digit>)
    requires rest != [] && kept == if rest[0] >= 5 then Next(start) else start
    ensures NearestMultiple(ValueOf(start + rest), Pow10(|rest|), ValueOf(kept))
  {
    NextIsOneMore(start);
    ValueOfConcat(start, rest);
    ValueIsBounded(rest);
    FirstDigitDecides(rest);
    KeptAndRest(ValueOf(start + rest), ValueOf(start), ValueOf(rest), Pow10(|rest|));
  }
}
