/**
 Which cells a criterion test matches, said about the cells, their order and the
 split of a text into the pieces a pattern asks for.
 */
module Matching {
  import opened Model
  import opened Criteria
  import opened Wildcards

  // The finite value at a position of the order; both zeros are at 0.
  predicate IsAt(f: Float, rank: int) {
    f == Finite(rank) || (f == NegativeZero && rank == 0)
  }

  predicate Earlier(a: Date, b: Date) {
    a.year < b.year || (a.year == b.year && (a.month < b.month || (a.month == b.month && a.day < b.day)))
  }

  // The six tests against one operand, given which of the three outcomes of a
  // comparison the cell and the operand are in.
  ghost predicate TestsFollow(rules: Rules, operand: Operand, text: string, cell: CriterionCell, less: bool, same: bool, more: bool) {
    && (Matches(rules, CriterionTest(Less, operand, text), Some(cell)) <==> less)
    && (Matches(rules, CriterionTest(Equal, operand, text), Some(cell)) <==> same)
    && (Matches(rules, CriterionTest(Greater, operand, text), Some(cell)) <==> more)
    && (Matches(rules, CriterionTest(LessOrEqual, operand, text), Some(cell)) <==> less || same)
    && (Matches(rules, CriterionTest(GreaterOrEqual, operand, text), Some(cell)) <==> more || same)
    && (Matches(rules, CriterionTest(NotEqual, operand, text), Some(cell)) <==> !same)
  }

  // A number cell against a number: the order of the two values decides.
  lemma NumbersStandInOrder(rules: Rules, cell: Float, x: int, operand: Float, y: int, text: string)
    requires IsAt(cell, x) && IsAt(operand, y)
    ensures TestsFollow(rules, NumberOperand(operand), text, NumberCell(cell), x < y, x == y, x > y)
  {
  }

  // A date against a date: by year, then month, then day.
  lemma DatesStandInOrder(rules: Rules, cell: Date, operand: Date, text: string)
    ensures TestsFollow(rules, DateOperand(operand), text, DateCell(cell), Earlier(cell, operand), cell == operand, Earlier(operand, cell))
  {
  }

  // Everything else is in no order: blanks, text, booleans, and a number
  // against a date.
  lemma OnlyNumbersAndDatesAreOrdered(rules: Rules, test: CriterionTest, cell: Option<CriterionCell>)
    requires test.operator in {Less, LessOrEqual, Greater, GreaterOrEqual} && Matches(rules, test, cell)
    ensures cell.Some? && (cell.value.NumberCell? || cell.value.DateCell?)
    ensures cell.value.NumberCell? <==> test.operand.NumberOperand?
    ensures cell.value.DateCell? <==> test.operand.DateOperand?
  {
  }

  // What an equality test matches beside numbers and dates, and its opposite.
  lemma EqualityMeans(rules: Rules, test: CriterionTest, cell: Option<CriterionCell>)
    requires test.operator == Equal
    ensures Matches(rules, test.(operator := NotEqual), cell) <==> !Matches(rules, test, cell)
    ensures cell == None ==> (Matches(rules, test, cell) <==> test.operand.TextOperand? && test.text == "")
    ensures cell.Some? && cell.value.BooleanCell? ==> (Matches(rules, test, cell) <==> test.operand == BooleanOperand(cell.value.boolean))
    ensures cell.Some? && cell.value.NumberCell? && !test.operand.NumberOperand? ==> !Matches(rules, test, cell)
    ensures cell.Some? && cell.value.DateCell? && !test.operand.DateOperand? ==> !Matches(rules, test, cell)
    ensures cell.Some? && cell.value.TextCell? && !test.operand.NumberOperand? ==>
      (Matches(rules, test, cell) <==> IsSplitBy(rules, test.text, Lowercase(rules, cell.value.text)))
  {
    if cell.Some? && cell.value.TextCell? { PatternMeans(rules, cell.value.text, test.text); }
  }

  // A text is equal to a number when it reads as that number.
  lemma NumericText(rules: Rules, test: CriterionTest, text: string, y: int)
    requires test.operator == Equal && test.operand.NumberOperand? && IsAt(test.operand.value, y)
    ensures Matches(rules, test, Some(TextCell(text))) <==>
      rules.parseNumber(text).Some? && IsAt(rules.parseNumber(text).value, y)
  {
  }

  // ---- Patterns ----

  function Joined(pieces: seq<string>): string {
    if pieces == [] then [] else pieces[0] + Joined(pieces[1..])
  }

  // A pattern read as single characters, and a `~` taken with the wildcard
  // character after it.
  ghost predicate AreParts(parts: seq<string>) {
    forall i :: 0 <= i < |parts| ==>
      && (|parts[i]| == 1 || (|parts[i]| == 2 && parts[i][0] == '~' && IsWildcard(parts[i][1])))
      && (parts[i] == "~" && i + 1 < |parts| ==> !OpensWithWildcard(parts[i + 1]))
  }

  predicate OpensWithWildcard(part: string) {
    part != "" && IsWildcard(part[0])
  }

  // What a part of a pattern takes of a text.
  predicate Fits(rules: Rules, part: string, piece: string) {
    if part == "*" then true
    else if part == "?" then |piece| == 1
    else part != "" && piece == rules.lowercase(part[|part| - 1])
  }

  ghost predicate FitAll(rules: Rules, parts: seq<string>, pieces: seq<string>) {
    |parts| == |pieces| && forall i :: 0 <= i < |parts| ==> Fits(rules, parts[i], pieces[i])
  }

  // The text is cut into pieces that fit the parts of the pattern, in order.
  ghost predicate Splits(rules: Rules, pattern: string, text: string, parts: seq<string>, pieces: seq<string>) {
    AreParts(parts) && Joined(parts) == pattern && FitAll(rules, parts, pieces) && Joined(pieces) == text
  }

  ghost predicate IsSplitBy(rules: Rules, pattern: string, text: string) {
    exists parts, pieces :: Splits(rules, pattern, text, parts, pieces)
  }

  // The part a pattern starts with.
  function FirstPart(pattern: string): (part: string)
    requires pattern != []
    ensures part != "" && part <= pattern
  {
    if pattern[0] == '~' && |pattern| > 1 && IsWildcard(pattern[1]) then pattern[..2] else pattern[..1]
  }

  lemma {:induction false} LiteralsTake(cell: string, text: string, rest: seq<PatternToken>)
    ensures TokensMatch(cell, Literals(text) + rest) <==> text <= cell && TokensMatch(cell[|text|..], rest)
  {
    if text == [] {
      assert Literals(text) + rest == rest && cell[0..] == cell;
    } else {
      var tokens := Literals(text) + rest;
      assert tokens[0] == Exactly(text[0]) && tokens[1..] == Literals(text[1..]) + rest;
      if cell != [] {
        LiteralsTake(cell[1..], text[1..], rest);
        if text <= cell { assert cell[1..][|text| - 1..] == cell[|text|..]; }
        assert text <= cell <==> text[0] == cell[0] && text[1..] <= cell[1..] by {
          assert text == [text[0]] + text[1..] && cell == [cell[0]] + cell[1..];
        }
      }
    }
  }

  // The first part takes a piece off the front of the cell.
  lemma FirstPartTakes(rules: Rules, cell: string, pattern: string)
    requires pattern != []
    ensures var part := FirstPart(pattern);
      TokensMatch(cell, PatternTokens(rules, pattern)) <==>
        exists n :: 0 <= n <= |cell| && Fits(rules, part, cell[..n]) && TokensMatch(cell[n..], PatternTokens(rules, pattern[|part|..]))
  {
    var part := FirstPart(pattern);
    var tokens, rest := PatternTokens(rules, pattern), PatternTokens(rules, pattern[|part|..]);
    if part == "*" {
      assert tokens == [Star] + rest && tokens[1..] == rest && tokens[0..] == tokens && cell[0..] == cell;
      StarTakesAny(cell, tokens, 0, 0);
      assert At(cell, tokens, 0, 0) <==> Later(cell, tokens, 0, 1);
      forall k | 0 <= k <= |cell| ensures At(cell, tokens, k, 1) <==> TokensMatch(cell[k..], rest) && Fits(rules, part, cell[..k]) {
      }
    } else if part == "?" {
      assert tokens == [AnyCharacter] + rest && tokens[1..] == rest;
      if cell != [] { assert Fits(rules, part, cell[..1]); }
    } else {
      var literal := rules.lowercase(part[|part| - 1]);
      assert tokens == Literals(literal) + rest;
      LiteralsTake(cell, literal, rest);
      if literal <= cell { assert Fits(rules, part, cell[..|literal|]); }
    }
  }

  lemma PartsStep(parts: seq<string>, pattern: string)
    requires AreParts(parts) && Joined(parts) == pattern && parts != []
    ensures pattern != [] && parts[0] == FirstPart(pattern)
    ensures AreParts(parts[1..]) && Joined(parts[1..]) == pattern[|parts[0]|..]
  {
    forall i | 0 <= i < |parts[1..]|
      ensures |parts[1..][i]| == 1 || (|parts[1..][i]| == 2 && parts[1..][i][0] == '~' && IsWildcard(parts[1..][i][1]))
      ensures parts[1..][i] == "~" && i + 1 < |parts[1..]| ==> !OpensWithWildcard(parts[1..][i + 1])
    {
      assert parts[1..][i] == parts[i + 1];
    }
    if |parts| > 1 {
      assert pattern == parts[0] + (parts[1] + Joined(parts[1..][1..]));
      assert pattern[|parts[0]|] == parts[1][0];
    } else {
      assert Joined(parts[1..]) == [];
    }
  }

  lemma OneMorePart(part: string, parts: seq<string>, pattern: string)
    requires pattern != [] && part == FirstPart(pattern) && AreParts(parts) && Joined(parts) == pattern[|part|..]
    ensures AreParts([part] + parts) && Joined([part] + parts) == pattern
  {
    var more := [part] + parts;
    assert more[1..] == parts && part + pattern[|part|..] == pattern;
    if parts != [] {
      assert parts[0] != "" && Joined(parts)[0] == parts[0][0];
      assert |part| < |pattern| && pattern[|part|] == parts[0][0];
    }
    forall i | 0 <= i < |more|
      ensures |more[i]| == 1 || (|more[i]| == 2 && more[i][0] == '~' && IsWildcard(more[i][1]))
      ensures more[i] == "~" && i + 1 < |more| ==> !OpensWithWildcard(more[i + 1])
    {
      if i > 0 { assert more[i] == parts[i - 1]; }
    }
  }

  lemma {:induction false} MatchingSplits(rules: Rules, cell: string, pattern: string) returns (parts: seq<string>, pieces: seq<string>)
    requires TokensMatch(cell, PatternTokens(rules, pattern))
    ensures Splits(rules, pattern, cell, parts, pieces)
    decreases |pattern|
  {
    if pattern == [] {
      parts, pieces := [], [];
    } else {
      var part := FirstPart(pattern);
      FirstPartTakes(rules, cell, pattern);
      var n :| 0 <= n <= |cell| && Fits(rules, part, cell[..n]) && TokensMatch(cell[n..], PatternTokens(rules, pattern[|part|..]));
      parts, pieces := MatchingSplits(rules, cell[n..], pattern[|part|..]);
      OneMorePiece(rules, pattern, cell, part, n, parts, pieces);
      parts, pieces := [part] + parts, [cell[..n]] + pieces;
    }
  }

  lemma OneMorePiece(rules: Rules, pattern: string, cell: string, part: string, n: nat, parts: seq<string>, pieces: seq<string>)
    requires pattern != [] && part == FirstPart(pattern) && n <= |cell| && Fits(rules, part, cell[..n])
    requires Splits(rules, pattern[|part|..], cell[n..], parts, pieces)
    ensures Splits(rules, pattern, cell, [part] + parts, [cell[..n]] + pieces)
  {
    OneMorePart(part, parts, pattern);
    assert ([cell[..n]] + pieces)[1..] == pieces && cell[..n] + cell[n..] == cell;
  }

  lemma {:induction false} SplitsMatch(rules: Rules, cell: string, pattern: string, parts: seq<string>, pieces: seq<string>)
    requires Splits(rules, pattern, cell, parts, pieces)
    ensures TokensMatch(cell, PatternTokens(rules, pattern))
    decreases |parts|
  {
    if parts != [] {
      PartsStep(parts, pattern);
      var n := |pieces[0]|;
      assert cell == pieces[0] + Joined(pieces[1..]);
      assert cell[..n] == pieces[0] && cell[n..] == Joined(pieces[1..]);
      SplitsMatch(rules, cell[n..], pattern[|parts[0]|..], parts[1..], pieces[1..]);
      FirstPartTakes(rules, cell, pattern);
    }
  }

  // A pattern matches a text just when the folded text splits into pieces that
  // fit it: any piece for `*`, one character for `?`, and the folded character
  // for any other, a `~` making the wildcard after it an ordinary one.
  lemma PatternMeans(rules: Rules, text: string, pattern: string)
    ensures WildcardMatch(rules, text, pattern) <==> IsSplitBy(rules, pattern, Lowercase(rules, text))
  {
    var cell := Lowercase(rules, text);
    if TokensMatch(cell, PatternTokens(rules, pattern)) {
      var parts, pieces := MatchingSplits(rules, cell, pattern);
    }
    if IsSplitBy(rules, pattern, cell) {
      var parts, pieces :| Splits(rules, pattern, cell, parts, pieces);
      SplitsMatch(rules, cell, pattern, parts, pieces);
    }
  }

  // ---- Criterion texts ----

  function Spelled(operator: ComparisonOperator): string {
    match operator
    case Equal => "="
    case NotEqual => "<>"
    case Less => "<"
    case LessOrEqual => "<="
    case Greater => ">"
    case GreaterOrEqual => ">="
  }

  predicate StartsWith(text: string, c: char) {
    text != [] && text[0] == c
  }

  // The operator, spelled or left out, and the text after it.
  predicate IsWrittenAs(text: string, operator: ComparisonOperator, rest: string) {
    || (text == Spelled(operator) + rest && (operator == Less ==> !StartsWith(rest, '=') && !StartsWith(rest, '>'))
          && (operator == Greater ==> !StartsWith(rest, '=')))
    || (text == rest && operator == Equal && !StartsWith(rest, '=') && !StartsWith(rest, '<') && !StartsWith(rest, '>'))
  }

  predicate IsWord(text: string, lower: string, upper: string)
    requires |lower| == |upper|
  {
    |text| == |lower| && forall i :: 0 <= i < |text| ==> text[i] == lower[i] || text[i] == upper[i]
  }

  // A number, else a date, else a truth value, else text.
  predicate IsRead(rules: Rules, text: string, operand: Operand) {
    match rules.parseNumber(text)
    case Some(value) => operand == NumberOperand(value)
    case None =>
      match rules.parseDate(text)
      case Some(date) => operand == DateOperand(date)
      case None =>
        operand == if IsWord(text, "true", "TRUE") then BooleanOperand(true)
          else if IsWord(text, "false", "FALSE") then BooleanOperand(false) else TextOperand
  }

  lemma Words(text: string)
    ensures EqualsIgnoringCase(text, "true") <==> IsWord(text, "true", "TRUE")
    ensures EqualsIgnoringCase(text, "false") <==> IsWord(text, "false", "FALSE")
  {
    SameWord(text, "true", "TRUE");
    SameWord(text, "false", "FALSE");
  }

  lemma SameWord(text: string, lower: string, upper: string)
    requires |lower| == |upper|
    requires forall i :: 0 <= i < |lower| ==> 'a' <= lower[i] <= 'z' && upper[i] as int == lower[i] as int - 32
    ensures EqualsIgnoringCase(text, lower) <==> IsWord(text, lower, upper)
  {
    if |text| == |lower| {
      forall i | 0 <= i < |text| ensures AsciiLower(text[i]) == lower[i] <==> text[i] == lower[i] || text[i] == upper[i] {
      }
    }
  }

  // A criterion text is its operator and what the rest of it reads as; a
  // relational operator on text or a truth value is refused, and nothing else.
  lemma CriterionTextMeans(rules: Rules, text: string, operator: ComparisonOperator, rest: string, operand: Operand)
    requires IsWrittenAs(text, operator, rest) && IsRead(rules, rest, operand)
    ensures ParseTest(rules, text) ==
      if operator in {Less, LessOrEqual, Greater, GreaterOrEqual} && (operand.TextOperand? || operand.BooleanOperand?) then None
      else Some(CriterionTest(operator, operand, rest))
  {
    Words(rest);
    WrittenIsSplit(text, operator, rest);
  }

  lemma WrittenIsSplit(text: string, operator: ComparisonOperator, rest: string)
    requires IsWrittenAs(text, operator, rest)
    ensures SplitOperator(text) == (operator, rest)
  {
    Opens(text, ">=", "=");
    Opens(text, "<=", "=");
    Opens(text, "<>", ">");
    Opens(text, ">", "");
    Opens(text, "<", "");
    Opens(text, "=", "");
    if text == Spelled(operator) + rest {
      var n := |Spelled(operator)|;
      assert text[..n] == Spelled(operator) && text[n..] == rest;
      assert text[1..] == if n == 1 then rest else [Spelled(operator)[1]] + rest;
    }
  }

  lemma Opens(text: string, mark: string, more: string)
    requires mark != [] && more == mark[1..] && |more| <= 1
    ensures mark <= text <==> StartsWith(text, mark[0]) && (more != [] ==> StartsWith(text[1..], more[0]))
  {
    if mark <= text {
      assert text[0] == mark[0];
      if more != [] { assert text[1] == mark[1]; }
    }
  }
}
