/** Criteria of conditional aggregates: tests, cells and the index keys of both. */
module Criteria {
  import opened Model

  datatype Operand = NumberOperand(value: Float) | TextOperand | BooleanOperand(boolean: bool) | DateOperand(date: Date)

  // An operator and the operand after it. A value of this type is also its own
  // memo key: equal keys are equal tests.
  datatype CriterionTest = CriterionTest(operator: ComparisonOperator, operand: Operand, text: string)

  datatype CriterionCell = NumberCell(value: Float) | TextCell(text: string) | BooleanCell(boolean: bool) | DateCell(date: Date)

  datatype CriterionKey = NumberKey(value: Float) | TextKey(text: string) | BooleanKey(boolean: bool) | DateKey(date: Date)

  datatype PatternToken = AnyCharacter | Star | Exactly(character: char)

  function Lowercase(rules: Rules, text: string): string {
    if text == [] then [] else rules.lowercase(text[0]) + Lowercase(rules, text[1..])
  }

  predicate IsWildcard(c: char) {
    c == '*' || c == '?' || c == '~'
  }

  predicate HasWildcard(text: string) {
    exists i :: 0 <= i < |text| && IsWildcard(text[i])
  }

  function Literals(text: string): seq<PatternToken> {
    seq(|text|, i requires 0 <= i < |text| => Exactly(text[i]))
  }

  function PatternTokens(rules: Rules, pattern: string): seq<PatternToken> {
    if pattern == [] then []
    else if pattern[0] == '*' then [Star] + PatternTokens(rules, pattern[1..])
    else if pattern[0] == '?' then [AnyCharacter] + PatternTokens(rules, pattern[1..])
    else if pattern[0] == '~' && |pattern| > 1 && IsWildcard(pattern[1]) then
      Literals(rules.lowercase(pattern[1])) + PatternTokens(rules, pattern[2..])
    else Literals(rules.lowercase(pattern[0])) + PatternTokens(rules, pattern[1..])
  }

  // A whole cell against a pattern: `*` any sequence, `?` one character.
  predicate TokensMatch(cell: string, tokens: seq<PatternToken>)
    decreases |cell| + |tokens|
  {
    if tokens == [] then cell == []
    else match tokens[0]
      case Star => TokensMatch(cell, tokens[1..]) || (cell != [] && TokensMatch(cell[1..], tokens))
      case AnyCharacter => cell != [] && TokensMatch(cell[1..], tokens[1..])
      case Exactly(c) => cell != [] && cell[0] == c && TokensMatch(cell[1..], tokens[1..])
  }

  predicate WildcardMatch(rules: Rules, cell: string, pattern: string) {
    TokensMatch(Lowercase(rules, cell), PatternTokens(rules, pattern))
  }

  predicate IsRelational(operator: ComparisonOperator) {
    operator == Less || operator == LessOrEqual || operator == Greater || operator == GreaterOrEqual
  }

  datatype Ordering = Before | Same | After

  function NumberOrdering(left: int, right: int): Ordering {
    if left < right then Before else if left == right then Same else After
  }

  // By year, month and day.
  function DateOrdering(left: Date, right: Date): Ordering {
    if left.year != right.year then NumberOrdering(left.year, right.year)
    else if left.month != right.month then NumberOrdering(left.month, right.month)
    else NumberOrdering(left.day, right.day)
  }

  predicate Compares(operator: ComparisonOperator, ordering: Ordering) {
    match operator
    case Less => ordering == Before
    case LessOrEqual => ordering != After
    case Greater => ordering == After
    case GreaterOrEqual => ordering != Before
    case _ => ordering == Same
  }

  // NaN and infinities never reach a criterion, whose operands and cells are
  // finite; binary64 orders them with nothing.
  predicate MatchesRelational(test: CriterionTest, cell: Option<CriterionCell>) {
    match (cell, test.operand)
    case (Some(NumberCell(left)), NumberOperand(right)) =>
      Canonical(left).Finite? && Canonical(right).Finite?
      && Compares(test.operator, NumberOrdering(Canonical(left).rank, Canonical(right).rank))
    case (Some(DateCell(left)), DateOperand(right)) => Compares(test.operator, DateOrdering(left, right))
    case _ => false
  }

  predicate MatchesEqual(rules: Rules, test: CriterionTest, cell: Option<CriterionCell>) {
    match cell
    case None => test.text == "" && test.operand.TextOperand?
    case Some(NumberCell(number)) => test.operand.NumberOperand? && FloatEquals(number, test.operand.value)
    case Some(TextCell(text)) =>
      if test.operand.NumberOperand? then
        rules.parseNumber(text).Some? && FloatEquals(rules.parseNumber(text).value, test.operand.value)
      else WildcardMatch(rules, text, test.text)
    case Some(BooleanCell(boolean)) => test.operand == BooleanOperand(boolean)
    case Some(DateCell(date)) => test.operand == DateOperand(date)
  }

  predicate Matches(rules: Rules, test: CriterionTest, cell: Option<CriterionCell>) {
    if IsRelational(test.operator) then MatchesRelational(test, cell)
    else if test.operator == NotEqual then !MatchesEqual(rules, test, cell)
    else MatchesEqual(rules, test, cell)
  }

  // Where an index files a cell: under the key of its kind, and numeric text
  // under its number as well.
  function CellKeys(rules: Rules, cell: CriterionCell): seq<CriterionKey> {
    match cell
    case NumberCell(value) => [NumberKey(Canonical(value))]
    case TextCell(text) =>
      [TextKey(Lowercase(rules, text))]
      + (match rules.parseNumber(text) case Some(number) => [NumberKey(Canonical(number))] case None => [])
    case BooleanCell(boolean) => [BooleanKey(boolean)]
    case DateCell(date) => [DateKey(date)]
  }

  // A cell that matches has one of these keys; None when no keys can say which
  // cells match.
  function TestKeys(rules: Rules, test: CriterionTest): Option<seq<CriterionKey>> {
    if test.operator != Equal then None
    else match test.operand
      case NumberOperand(number) => Some([NumberKey(Canonical(number))])
      case TextOperand =>
        if test.text == "" || HasWildcard(test.text) then None else Some([TextKey(Lowercase(rules, test.text))])
      case BooleanOperand(boolean) =>
        if HasWildcard(test.text) then None else Some([BooleanKey(boolean), TextKey(Lowercase(rules, test.text))])
      case DateOperand(date) =>
        if HasWildcard(test.text) then None else Some([DateKey(date), TextKey(Lowercase(rules, test.text))])
  }

  function BlankTest(operator: ComparisonOperator): CriterionTest { CriterionTest(operator, TextOperand, "") }

  function NumberTest(rules: Rules, operator: ComparisonOperator, value: Float): CriterionTest {
    CriterionTest(operator, NumberOperand(value), rules.numberText(value))
  }

  function BooleanTest(boolean: bool): CriterionTest {
    CriterionTest(Equal, BooleanOperand(boolean), if boolean then "true" else "false")
  }

  function DateTest(rules: Rules, date: Date): CriterionTest {
    CriterionTest(Equal, DateOperand(date), rules.dateText(date))
  }

  function AsciiLower(c: char): char {
    if 'A' <= c <= 'Z' then (c as int + 32) as char else c
  }

  predicate EqualsIgnoringCase(text: string, lower: string) {
    |text| == |lower| && forall i :: 0 <= i < |text| ==> AsciiLower(text[i]) == lower[i]
  }

  function Classify(rules: Rules, text: string): Operand {
    if rules.parseNumber(text).Some? then NumberOperand(rules.parseNumber(text).value)
    else if rules.parseDate(text).Some? then DateOperand(rules.parseDate(text).value)
    else if EqualsIgnoringCase(text, "true") then BooleanOperand(true)
    else if EqualsIgnoringCase(text, "false") then BooleanOperand(false)
    else TextOperand
  }

  // The operator a criterion text starts with, and the text after it.
  function SplitOperator(text: string): (ComparisonOperator, string) {
    if ">=" <= text then (GreaterOrEqual, text[2..])
    else if "<=" <= text then (LessOrEqual, text[2..])
    else if "<>" <= text then (NotEqual, text[2..])
    else if ">" <= text then (Greater, text[1..])
    else if "<" <= text then (Less, text[1..])
    else if "=" <= text then (Equal, text[1..])
    else (Equal, text)
  }

  // CriterionTest::parse; None is the refusal of a relational test on text or
  // a boolean.
  function ParseTest(rules: Rules, text: string): Option<CriterionTest> {
    var (operator, remainder) := SplitOperator(text);
    var operand := Classify(rules, remainder);
    if IsRelational(operator) && (operand.TextOperand? || operand.BooleanOperand?) then None
    else Some(CriterionTest(operator, operand, remainder))
  }

  // ---- The key contract of the column index ----

  lemma {:induction false} LiteralTokens(rules: Rules, pattern: string)
    requires !HasWildcard(pattern)
    ensures PatternTokens(rules, pattern) == Literals(Lowercase(rules, pattern))
  {
    if pattern != [] {
      assert !IsWildcard(pattern[0]);
      assert !HasWildcard(pattern[1..]) by {
        forall i | 0 <= i < |pattern[1..]| ensures !IsWildcard(pattern[1..][i]) {
          assert pattern[1..][i] == pattern[i + 1];
        }
      }
      LiteralTokens(rules, pattern[1..]);
      assert PatternTokens(rules, pattern) == Literals(rules.lowercase(pattern[0])) + PatternTokens(rules, pattern[1..]);
    }
  }

  lemma {:induction false} LiteralsMatch(cell: string, text: string)
    ensures TokensMatch(cell, Literals(text)) <==> cell == text
  {
    if text != [] {
      assert Literals(text)[1..] == Literals(text[1..]);
      if cell != [] {
        LiteralsMatch(cell[1..], text[1..]);
        assert cell == [cell[0]] + cell[1..] && text == [text[0]] + text[1..];
      }
    }
  }

  // Without a wildcard a pattern matches exactly the cells with the same fold.
  lemma PlainPattern(rules: Rules, cell: string, pattern: string)
    requires !HasWildcard(pattern)
    ensures WildcardMatch(rules, cell, pattern) <==> Lowercase(rules, cell) == Lowercase(rules, pattern)
  {
    LiteralTokens(rules, pattern);
    LiteralsMatch(Lowercase(rules, cell), Lowercase(rules, pattern));
  }

  // A keyed test never matches a blank, and every cell it matches shares a key.
  lemma KeysNeverMiss(rules: Rules, test: CriterionTest, cell: Option<CriterionCell>)
    requires TestKeys(rules, test).Some? && Matches(rules, test, cell)
    ensures cell.Some?
    ensures exists key :: key in TestKeys(rules, test).value && key in CellKeys(rules, cell.value)
  {
    var keys := TestKeys(rules, test).value;
    match cell.value
    case NumberCell(number) =>
      assert keys[0] in CellKeys(rules, cell.value);
    case TextCell(text) =>
      if test.operand.NumberOperand? {
        var number := rules.parseNumber(text).value;
        assert CellKeys(rules, cell.value)[1] == NumberKey(Canonical(number)) == keys[0];
        assert keys[0] in keys && keys[0] in CellKeys(rules, cell.value);
      } else {
        PlainPattern(rules, text, test.text);
        var key := keys[|keys| - 1];
        assert CellKeys(rules, cell.value)[0] == key;
        assert key in keys && key in CellKeys(rules, cell.value);
      }
    case BooleanCell(boolean) =>
      assert keys[0] in CellKeys(rules, cell.value);
    case DateCell(date) =>
      assert keys[0] in CellKeys(rules, cell.value);
  }

  // A test has at most two keys, and no cell is filed under both.
  lemma KeysAreExclusive(rules: Rules, test: CriterionTest, cell: CriterionCell)
    requires TestKeys(rules, test).Some?
    ensures var keys := TestKeys(rules, test).value;
      && 1 <= |keys| <= 2
      && (|keys| == 2 ==> !(keys[0] in CellKeys(rules, cell) && keys[1] in CellKeys(rules, cell)))
  {
  }
}
