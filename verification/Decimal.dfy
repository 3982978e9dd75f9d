/**
 A plain decimal spelling: number texts that read back as the numbers they
 were printed from.
 */
module Decimals {
  import opened Model
  import opened UnboundFormulas
  import opened ParserText
  import opened WrittenTexts
  import opened Projection

  function Digit(d: nat): char
    requires d < 10
  {
    '0' + d as char
  }

  function Decimal(n: nat): string {
    if n < 10 then [Digit(n)] else Decimal(n / 10) + [Digit(n % 10)]
  }

  predicate AllDigits(text: string) {
    forall c :: c in text ==> IsDigit(c)
  }

  function ValueOf(text: string): nat
    requires AllDigits(text)
  {
    if text == [] then 0
    else
      var last := |text| - 1;
      assert text[last] in text;
      ValueOf(text[..last]) * 10 + (text[last] as int - '0' as int)
  }

  function ReadDigits(text: string): Option<Float> {
    if text != [] && AllDigits(text) then Some(Finite(ValueOf(text))) else None
  }

  function ReadSigned(text: string): Option<Float> {
    if StartsWith(text, '-') then
      (match ReadDigits(text[1..])
       case Some(Finite(rank)) => Some(Finite(-rank))
       case _ => None)
    else ReadDigits(text)
  }

  function DecimalSpelling(): Spelling {
    Spelling(
      (n: Number) => if n.rank >= 0 then Decimal(n.rank) else "",
      (text: string) => ReadDigits(text),
      (text: string) => text,
      (n: nat) => Number(n))
  }

  // Rules that read plain decimal texts; the arithmetic is left as it is.
  function DecimalRules(rules: Rules): Rules {
    rules.(parseNumber := (text: string) => ReadSigned(text), parseDate := (text: string) => None)
  }

  lemma {:induction false} DecimalReadsBack(n: nat)
    ensures Decimal(n) != [] && AllDigits(Decimal(n)) && ValueOf(Decimal(n)) == n
  {
    if n < 10 {
      var text := Decimal(n);
      assert text[..0] == [];
      assert ValueOf(text[..0]) == 0;
    } else {
      DecimalReadsBack(n / 10);
      var text, last := Decimal(n), |Decimal(n)| - 1;
      assert text[..last] == Decimal(n / 10) && text[last] == Digit(n % 10);
    }
  }

  lemma {:induction false} DigitsAreDropped(text: string)
    requires AllDigits(text)
    ensures DropDigits(text) == []
  {
    if text != [] {
      assert text[0] in text;
      DigitsAreDropped(text[1..]);
    }
  }

  lemma DigitsAreLiteral(text: string)
    requires text != [] && AllDigits(text)
    ensures IsLiteral(text)
  {
    DigitsAreDropped(text);
  }

  lemma NumberReadsBack(rules: Rules, n: Number)
    ensures DecimalRules(rules).parseNumber(FormatNumber(DecimalSpelling(), n)) == Some(Finite(n.rank))
    ensures n.rank >= 0 ==> IsLiteral(DecimalSpelling().show(n)) && DecimalSpelling().read(DecimalSpelling().show(n)) == Some(Finite(n.rank))
  {
    var text := Decimal(if n.rank < 0 then -n.rank else n.rank);
    DecimalReadsBack(if n.rank < 0 then -n.rank else n.rank);
    DigitsAreLiteral(text);
    if n.rank < 0 {
      var signed := "-" + text;
      assert FormatNumber(DecimalSpelling(), n) == signed && signed[1..] == text;
    } else {
      assert text[0] in text;
      assert FormatNumber(DecimalSpelling(), n) == text;
    }
  }

  lemma SmallDigits(d: nat)
    requires d <= 10
    ensures Decimal(d) == DigitsText(d)
  {
    if d == 10 {
      assert Decimal(10 / 10) == ['1'] && Decimal(10) == ['1'] + ['0'];
    }
  }

  // What the round trips ask of the spellings can be met.
  lemma DecimalIsFaithful(rules: Rules)
    ensures Faithful(DecimalRules(rules), DecimalSpelling()) && DigitsSpelled(DecimalSpelling())
  {
    forall n: Number
      ensures DecimalRules(rules).parseNumber(FormatNumber(DecimalSpelling(), n)) == Some(Finite(n.rank))
      ensures n.rank >= 0 ==>
        && IsLiteral(DecimalSpelling().show(n))
        && DecimalSpelling().read(DecimalSpelling().show(n)) == Some(Finite(n.rank))
    {
      NumberReadsBack(rules, n);
    }
    forall d | 0 <= d <= 10 ensures FormatNumber(DecimalSpelling(), DecimalSpelling().integer(d)) == DigitsText(d) {
      SmallDigits(d);
    }
    assert ReadSigned("") == None;
  }
}
