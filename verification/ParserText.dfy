/** The lexical side of formula parsing: spaces, words, numbers, bracketed text and quotes. */
module ParserText {
  import opened Model
  import opened Criteria
  import opened UnboundFormulas

  predicate IsSpace(c: char) {
    c == ' ' || c == '\t' || c == '\n' || c == '\r' || c == 12 as char
  }

  predicate IsDigit(c: char) {
    '0' <= c <= '9'
  }

  predicate IsLetter(c: char) {
    'a' <= c <= 'z' || 'A' <= c <= 'Z'
  }

  predicate IsWord(c: char) {
    IsLetter(c) || IsDigit(c) || c == '_'
  }

  function SkipSpace(s: string): (r: string)
    ensures |r| <= |s| && (r != [] ==> !IsSpace(r[0]))
  {
    if s != [] && IsSpace(s[0]) then SkipSpace(s[1..]) else s
  }

  predicate StartsWith(s: string, c: char) {
    s != [] && s[0] == c
  }

  // ---- Numbers ----

  function DropDigits(s: string): (r: string)
    ensures |r| <= |s| && (r != [] ==> !IsDigit(r[0]))
  {
    if s != [] && IsDigit(s[0]) then DropDigits(s[1..]) else s
  }

  predicate IsExponentMark(c: char) {
    c == 'e' || c == 'E'
  }

  // What follows the digits and the decimal point of a number.
  function DropMantissa(s: string): (r: string)
    ensures |r| <= |s|
  {
    var whole := DropDigits(s);
    if StartsWith(whole, '.') then DropDigits(whole[1..]) else whole
  }

  predicate HasDigits(s: string) {
    var whole := DropDigits(s);
    |whole| < |s| || (StartsWith(whole, '.') && |DropDigits(whole[1..])| < |whole| - 1)
  }

  function DropSign(s: string): (r: string)
    ensures |r| <= |s|
  {
    if StartsWith(s, '+') || StartsWith(s, '-') then s[1..] else s
  }

  // What follows a numeric literal, if there is one.
  function AfterNumber(s: string): (r: Option<string>)
    ensures r.Some? ==> |r.value| < |s|
  {
    var rest := DropMantissa(s);
    if !HasDigits(s) then None
    else if rest != [] && IsExponentMark(rest[0]) then
      var digits := DropSign(rest[1..]);
      if |DropDigits(digits)| < |digits| then Some(DropDigits(digits)) else None
    else Some(rest)
  }

  predicate IsNumberChar(c: char) {
    IsDigit(c) || c == '.' || IsExponentMark(c) || c == '+' || c == '-'
  }

  // A text that is one whole literal.
  predicate IsLiteral(t: string) {
    AfterNumber(t) == Some([]) && forall c :: c in t ==> IsNumberChar(c)
  }

  predicate ContinuesNumber(s: string) {
    s != [] && (IsDigit(s[0]) || s[0] == '.' || IsExponentMark(s[0]))
  }

  lemma {:induction false} DropDigitsOfConcat(t: string, after: string)
    requires after == [] || !IsDigit(after[0])
    ensures DropDigits(t + after) == DropDigits(t) + after
  {
    if t == [] {
      assert t + after == after;
    } else if IsDigit(t[0]) {
      assert (t + after)[1..] == t[1..] + after;
      DropDigitsOfConcat(t[1..], after);
    }
  }

  lemma MantissaOfConcat(t: string, after: string)
    requires !ContinuesNumber(after)
    ensures DropMantissa(t + after) == DropMantissa(t) + after
    ensures HasDigits(t + after) <==> HasDigits(t)
  {
    DropDigitsOfConcat(t, after);
    var whole := DropDigits(t);
    if StartsWith(whole, '.') {
      assert (whole + after)[1..] == whole[1..] + after;
      DropDigitsOfConcat(whole[1..], after);
    } else if whole == [] {
      assert whole + after == after;
    }
  }

  // A literal is read whole before anything that does not continue it.
  lemma LiteralIsReadWhole(t: string, after: string)
    requires IsLiteral(t) && !ContinuesNumber(after)
    ensures AfterNumber(t + after) == Some(after)
  {
    MantissaOfConcat(t, after);
    var rest := DropMantissa(t);
    if rest == [] {
      assert rest + after == after;
    } else {
      assert IsExponentMark(rest[0]);
      assert (rest + after)[1..] == rest[1..] + after;
      var tail := rest[1..];
      var digits := DropSign(tail);
      assert |DropDigits(digits)| < |digits| && DropDigits(digits) == [];
      assert (tail + after)[0] == tail[0];
      assert tail[0] == '+' || tail[0] == '-' ==> (tail + after)[1..] == tail[1..] + after;
      assert DropSign(tail + after) == digits + after;
      DropDigitsOfConcat(digits, after);
      assert [] + after == after;
    }
  }

  lemma LiteralStart(t: string)
    requires IsLiteral(t)
    ensures t != [] && (IsDigit(t[0]) || t[0] == '.')
  {
  }

  // ---- Words ----

  function TakeWord(s: string): (r: string)
    ensures |r| <= |s| && r == s[..|r|]
  {
    if s != [] && IsWord(s[0]) then [s[0]] + TakeWord(s[1..]) else []
  }

  lemma {:induction false} WordIsTaken(word: string, after: string)
    requires (forall i :: 0 <= i < |word| ==> IsWord(word[i])) && (after == [] || !IsWord(after[0]))
    ensures TakeWord(word + after) == word
  {
    if word == [] {
      assert word + after == after;
    } else {
      assert (word + after)[1..] == word[1..] + after;
      WordIsTaken(word[1..], after);
      assert word == [word[0]] + word[1..];
    }
  }

  function Upper(c: char): char {
    if 'a' <= c <= 'z' then (c as int - 32) as char else c
  }

  function ToUpper(s: string): (r: string)
    ensures |r| == |s| && forall i :: 0 <= i < |s| ==> r[i] == Upper(s[i])
  {
    seq(|s|, i requires 0 <= i < |s| => Upper(s[i]))
  }

  datatype Extended = IfCall | AndCall | OrCall | NotCall | RoundCall | BlankCall

  datatype ConditionalFunction = SumFunction | AverageFunction | CountFunction

  datatype FunctionWord =
    | ExtendedWord(extended: Extended)
    | ConditionalWord(conditional: ConditionalFunction, plural: bool)
    | ExtremeWord(minimum: bool)
    | UnknownWord

  // The function a name calls: any case for the spreadsheet functions, one case
  // throughout for min and max.
  function WordOf(name: string): FunctionWord {
    var upper := ToUpper(name);
    if upper == "IF" then ExtendedWord(IfCall)
    else if upper == "AND" then ExtendedWord(AndCall)
    else if upper == "OR" then ExtendedWord(OrCall)
    else if upper == "NOT" then ExtendedWord(NotCall)
    else if upper == "ROUND" then ExtendedWord(RoundCall)
    else if upper == "ISBLANK" then ExtendedWord(BlankCall)
    else if upper == "SUMIF" then ConditionalWord(SumFunction, false)
    else if upper == "SUMIFS" then ConditionalWord(SumFunction, true)
    else if upper == "AVERAGEIF" then ConditionalWord(AverageFunction, false)
    else if upper == "AVERAGEIFS" then ConditionalWord(AverageFunction, true)
    else if upper == "COUNTIF" then ConditionalWord(CountFunction, false)
    else if upper == "COUNTIFS" then ConditionalWord(CountFunction, true)
    else if name == "min" || name == "MIN" then ExtremeWord(true)
    else if name == "max" || name == "MAX" then ExtremeWord(false)
    else UnknownWord
  }

  lemma ExtendedNames()
    ensures WordOf("IF") == ExtendedWord(IfCall) && WordOf("AND") == ExtendedWord(AndCall) && WordOf("OR") == ExtendedWord(OrCall)
    ensures WordOf("NOT") == ExtendedWord(NotCall) && WordOf("ROUND") == ExtendedWord(RoundCall)
    ensures WordOf("ISBLANK") == ExtendedWord(BlankCall)
  {
    assert ToUpper("IF") == "IF" && ToUpper("AND") == "AND" && ToUpper("OR") == "OR" && ToUpper("NOT") == "NOT";
    assert "OR"[0] != "IF"[0] && "NOT"[0] != "AND"[0];
    assert ToUpper("ROUND") == "ROUND" && ToUpper("ISBLANK") == "ISBLANK";
  }

  lemma ExtremeNames()
    ensures WordOf("min") == ExtremeWord(true) && WordOf("max") == ExtremeWord(false)
  {
    assert ToUpper("min") == "MIN" && ToUpper("max") == "MAX";
    assert "MIN"[0] != "AND"[0] && "MIN"[0] != "NOT"[0] && "MAX"[0] != "AND"[0] && "MAX"[0] != "NOT"[0];
    assert "max"[1] != "min"[1] && "max"[0] != "MIN"[0];
  }

  lemma ConditionalNames()
    ensures WordOf("SUMIFS") == ConditionalWord(SumFunction, true)
    ensures WordOf("AVERAGEIFS") == ConditionalWord(AverageFunction, true)
    ensures WordOf("COUNTIFS") == ConditionalWord(CountFunction, true)
  {
    assert ToUpper("SUMIFS") == "SUMIFS" && ToUpper("AVERAGEIFS") == "AVERAGEIFS" && ToUpper("COUNTIFS") == "COUNTIFS";
  }

  // ---- Bracketed text ----

  function IndexOf(s: string, c: char): (r: Option<nat>)
    ensures r.Some? ==> r.value < |s| && s[r.value] == c
    ensures r.None? ==> c !in s
  {
    if s == [] then None
    else if s[0] == c then Some(0)
    else match IndexOf(s[1..], c)
      case None => None
      case Some(i) => Some(i + 1)
  }

  function LastIndexOf(s: string, c: char): (r: Option<nat>)
    ensures r.Some? ==> r.value < |s| && s[r.value] == c
    ensures r.None? ==> c !in s
    decreases |s|
  {
    if s == [] then None
    else if s[|s| - 1] == c then Some(|s| - 1)
    else
      assert s == s[..|s| - 1] + [s[|s| - 1]];
      LastIndexOf(s[..|s| - 1], c)
  }

  lemma {:induction false} FirstIndex(a: string, c: char, b: string)
    requires c !in a
    ensures IndexOf(a + [c] + b, c) == Some(|a|)
  {
    if a == [] {
      assert a + [c] + b == [c] + b;
    } else {
      assert (a + [c] + b)[1..] == a[1..] + [c] + b;
      FirstIndex(a[1..], c, b);
    }
  }

  lemma {:induction false} LastIndex(a: string, c: char, b: string)
    requires c !in b
    ensures LastIndexOf(a + [c] + b, c) == Some(|a|)
    decreases |b|
  {
    var s := a + [c] + b;
    if b == [] {
      assert s == a + [c];
    } else {
      assert s[..|s| - 1] == a + [c] + b[..|b| - 1];
      LastIndex(a, c, b[..|b| - 1]);
    }
  }

  lemma IdentifierExcludes(s: string, c: char)
    requires IsIdentifier(s) && !IsIdentifierPart(c)
    ensures c !in s
  {
  }

  // An owner and a field around the only dot.
  function SplitAddress(inner: string): (r: Option<Address>)
    ensures r.Some? ==> IsAddress(r.value)
  {
    match IndexOf(inner, '.')
    case None => None
    case Some(dot) =>
      var owner, field := inner[..dot], inner[dot + 1..];
      if IndexOf(field, '.').Some? || !IsIdentifier(owner) || !IsIdentifier(field) then None else Some(Address(owner, field))
  }

  lemma AddressSplits(a: Address)
    requires IsAddress(a)
    ensures SplitAddress(a.owner + "." + a.field) == Some(a)
  {
    IdentifierExcludes(a.owner, '.');
    IdentifierExcludes(a.field, '.');
    FirstIndex(a.owner, '.', a.field);
    var inner := a.owner + "." + a.field;
    assert inner[..|a.owner|] == a.owner && inner[|a.owner| + 1..] == a.field;
  }

  // from_suffix.
  function FromSuffix(suffix: string): Option<ColumnAggregateFunction> {
    if EqualsIgnoringCase(suffix, "average") then Some(Average)
    else if EqualsIgnoringCase(suffix, "count") then Some(Count)
    else if EqualsIgnoringCase(suffix, "min") then Some(Minimum)
    else if EqualsIgnoringCase(suffix, "max") then Some(Maximum)
    else None
  }

  // The reference inside a pair of brackets.
  function ReferenceIn(inner: string): (r: Option<Unbound>)
    ensures r.Some? ==> WellFormed(r.value) && ParserNodes(r.value) == 1
  {
    if StartsWith(inner, '.') then
      if IsIdentifier(inner[1..]) then Some(SameRowReference(inner[1..])) else None
    else match LastIndexOf(inner, ':')
      case None => Addressed(inner, None)
      case Some(colon) =>
        var column, suffix := inner[..colon], inner[colon + 1..];
        if EqualsIgnoringCase(suffix, "total") then Addressed(column, Some(None))
        else if EqualsIgnoringCase(suffix, "column") then None
        else match FromSuffix(suffix)
          case Some(kind) => Addressed(column, Some(Some(kind)))
          case None => Addressed(inner, None)
  }

  function Addressed(text: string, column: Option<Option<ColumnAggregateFunction>>): (r: Option<Unbound>)
    ensures r.Some? ==> WellFormed(r.value) && ParserNodes(r.value) == 1
  {
    match SplitAddress(text)
    case None => None
    case Some(a) =>
      match column
      case None => Some(CellReference(a))
      case Some(None) => Some(TotalOf(a))
      case Some(Some(kind)) => Some(AggregateOf(kind, a))
  }

  // The column of a conditional's column argument.
  function ColumnIn(inner: string): (r: Option<Address>)
    ensures r.Some? ==> IsAddress(r.value)
  {
    match LastIndexOf(inner, ':')
    case None => None
    case Some(colon) => if EqualsIgnoringCase(inner[colon + 1..], "column") then SplitAddress(inner[..colon]) else None
  }

  lemma AddressStart(a: Address)
    requires IsAddress(a)
    ensures !StartsWith(a.owner + "." + a.field, '.') && ':' !in a.owner + "." + a.field && ']' !in a.owner + "." + a.field
  {
    IdentifierExcludes(a.owner, ':');
    IdentifierExcludes(a.field, ':');
    IdentifierExcludes(a.owner, ']');
    IdentifierExcludes(a.field, ']');
  }

  lemma SuffixedAddress(a: Address, suffix: string)
    requires IsAddress(a) && ':' !in suffix
    ensures var inner := a.owner + "." + a.field + ":" + suffix;
      && !StartsWith(inner, '.') && LastIndexOf(inner, ':') == Some(|a.owner + "." + a.field|)
      && inner[..|a.owner + "." + a.field|] == a.owner + "." + a.field
      && inner[|a.owner + "." + a.field| + 1..] == suffix
  {
    AddressStart(a);
    LastIndex(a.owner + "." + a.field, ':', suffix);
  }

  function AggregateText(kind: Option<ColumnAggregateFunction>): string {
    match kind
    case None => "total"
    case Some(f) => Suffix(f)
  }

  lemma SuffixesAreRead(f: ColumnAggregateFunction)
    ensures FromSuffix(Suffix(f)) == Some(f)
    ensures ':' !in Suffix(f) && ']' !in Suffix(f)
    ensures !EqualsIgnoringCase(Suffix(f), "total") && !EqualsIgnoringCase(Suffix(f), "column")
    ensures EqualsIgnoringCase("total", "total") && EqualsIgnoringCase("column", "column")
  {
    assert "min"[1] != "max"[1] && "max"[1] != "min"[1];
    assert AsciiLower("count"[0]) != "total"[0];
  }

  // The text of a reference between its brackets.
  function ReferenceText(e: Unbound): string
    requires e.CellReference? || e.SameRowReference? || e.TotalOf? || e.AggregateOf?
  {
    match e
    case CellReference(a) => a.owner + "." + a.field
    case SameRowReference(field) => "." + field
    case TotalOf(a) => a.owner + "." + a.field + ":" + "total"
    case AggregateOf(f, a) => a.owner + "." + a.field + ":" + Suffix(f)
  }

  lemma CellReads(a: Address)
    requires IsAddress(a)
    ensures var e := CellReference(a); ReferenceIn(ReferenceText(e)) == Some(e) && ']' !in ReferenceText(e)
  {
    AddressStart(a);
    AddressSplits(a);
    var inner := a.owner + "." + a.field;
    assert LastIndexOf(inner, ':') == None;
  }

  lemma SameRowReads(field: string)
    requires IsIdentifier(field)
    ensures var e := SameRowReference(field); ReferenceIn(ReferenceText(e)) == Some(e) && ']' !in ReferenceText(e)
  {
    IdentifierExcludes(field, ']');
    assert ("." + field)[1..] == field;
  }

  lemma TotalReads(a: Address)
    requires IsAddress(a)
    ensures var e := TotalOf(a); ReferenceIn(ReferenceText(e)) == Some(e) && ']' !in ReferenceText(e)
  {
    AddressStart(a);
    AddressSplits(a);
    SuffixedAddress(a, "total");
    SuffixesAreRead(Count);
  }

  lemma AggregateReads(f: ColumnAggregateFunction, a: Address)
    requires IsAddress(a)
    ensures var e := AggregateOf(f, a); ReferenceIn(ReferenceText(e)) == Some(e) && ']' !in ReferenceText(e)
  {
    AddressStart(a);
    AddressSplits(a);
    SuffixesAreRead(f);
    SuffixedAddress(a, Suffix(f));
  }

  lemma ReferenceReads(e: Unbound)
    requires e.CellReference? || e.SameRowReference? || e.TotalOf? || e.AggregateOf?
    requires WellFormed(e)
    ensures ReferenceIn(ReferenceText(e)) == Some(e) && ']' !in ReferenceText(e)
  {
    match e
    case CellReference(a) => CellReads(a);
    case SameRowReference(field) => SameRowReads(field);
    case TotalOf(a) => TotalReads(a);
    case AggregateOf(f, a) => AggregateReads(f, a);
  }

  lemma ColumnReads(a: Address)
    requires IsAddress(a)
    ensures var inner := a.owner + "." + a.field + ":" + "column"; ColumnIn(inner) == Some(a) && ']' !in inner
  {
    AddressStart(a);
    AddressSplits(a);
    SuffixedAddress(a, "column");
    SuffixesAreRead(Count);
  }

  // ---- Quoted text ----

  // A doubled quote stands for one; the text ends at a single quote.
  function Unquote(s: string): (r: Option<(string, string)>)
    ensures r.Some? ==> |r.value.1| < |s|
  {
    if s == [] then None
    else if s[0] == '"' then
      if |s| > 1 && s[1] == '"' then
        match Unquote(s[2..])
        case None => None
        case Some((value, rest)) => Some(("\"" + value, rest))
      else Some(("", s[1..]))
    else match Unquote(s[1..])
      case None => None
      case Some((value, rest)) => Some(([s[0]] + value, rest))
  }

  lemma {:induction false} PlainTextUnquotes(text: string, after: string)
    requires '"' !in text && !StartsWith(after, '"')
    ensures Unquote(text + "\"" + after) == Some((text, after))
  {
    var s := text + "\"" + after;
    if text == [] {
      assert s == "\"" + after;
      assert s[1..] == after;
    } else {
      assert s[1..] == text[1..] + "\"" + after;
      PlainTextUnquotes(text[1..], after);
      assert text == [text[0]] + text[1..];
    }
  }
}
