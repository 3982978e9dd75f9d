/** How written formulas read from the left: starts, ends, chains of operators, lists and criteria. */
module WrittenTexts {
  import opened Model
  import opened Criteria
  import opened UnboundFormulas
  import opened ParserText
  import opened Writings

  // ---- What the round trip asks of the number spellings ----

  // Printing and reading back a number gives the number, and a printed number
  // is one literal.
  ghost predicate Faithful(rules: Rules, sp: Spelling) {
    && (forall n: Number :: n.rank >= 0 ==> IsLiteral(sp.show(n)) && sp.read(sp.show(n)) == Some(Finite(n.rank)))
    && (forall n: Number :: rules.parseNumber(FormatNumber(sp, n)) == Some(Finite(n.rank)))
    && rules.parseNumber("") == None && rules.parseDate("") == None
  }

  ghost predicate Readable(rules: Rules, w: Writing) {
    Faithful(rules, w.sp) && Legible(w)
  }

  // ---- Texts around a formula ----

  // What may follow a formula.
  predicate Ends(after: string) {
    after == [] || after[0] == ' ' || after[0] == ')' || after[0] == ','
  }

  predicate IsOperatorStart(c: char, level: nat) {
    || (level >= 1 && (c == '*' || c == '/'))
    || (level >= 2 && (c == '+' || c == '-'))
    || (level >= 3 && (c == '<' || c == '>' || c == '='))
  }

  // No operator of this level or a tighter one follows.
  predicate Stops(after: string, level: nat) {
    Ends(after) && (SkipSpace(after) == [] || !IsOperatorStart(SkipSpace(after)[0], level))
  }

  lemma SkipNothing(s: string)
    requires s == [] || !IsSpace(s[0])
    ensures SkipSpace(s) == s
  {
  }

  // ---- How a formula starts ----

  predicate Begins(c: char) {
    !IsSpace(c) && c != ')' && c != '"' && c != '+'
  }

  // The first character tells the kinds of formulas apart.
  ghost predicate StartsAs(e: Unbound, c: char) {
    && Begins(c)
    && (e.NumberLiteral? ==> if e.number.rank < 0 then c == '-' else IsDigit(c) || c == '.')
    && (IsReference(e) ==> c == '[')
    && (e.InfixOf? ==> c == '(')
    && (e.ConditionalOf? || IsCall(e) ==> IsLetter(c))
  }

  lemma NumberStart(rules: Rules, sp: Spelling, e: Unbound)
    requires Faithful(rules, sp) && e.NumberLiteral?
    ensures Format(sp, e) != [] && StartsAs(e, Format(sp, e)[0])
  {
    if e.number.rank >= 0 { LiteralStart(sp.show(e.number)); }
  }

  lemma ReferenceStart(sp: Spelling, e: Unbound)
    requires IsReference(e)
    ensures Format(sp, e) != [] && StartsAs(e, Format(sp, e)[0])
  {
  }

  lemma CallStart(w: Writing, e: Unbound)
    requires Legible(w) && (IsCall(e) || e.ConditionalOf?)
    ensures Text(w, e) != [] && StartsAs(e, Text(w, e)[0])
  {
    assert NameSuits(e, w.style(e).name);
    assert Text(w, e)[0] == w.style(e).name[0];
  }

  lemma TextStart(rules: Rules, w: Writing, e: Unbound)
    requires Readable(rules, w)
    ensures Text(w, e) != [] && StartsAs(e, Text(w, e)[0])
  {
    if e.NumberLiteral? {
      NumberStart(rules, w.sp, e);
    } else if IsReference(e) {
      ReferenceStart(w.sp, e);
    } else if !e.InfixOf? {
      CallStart(w, e);
    }
  }

  lemma {:induction false} TextAtStart(rules: Rules, w: Writing, e: Unbound, level: nat)
    requires Readable(rules, w)
    ensures TextAt(w, e, level) != [] && Begins(TextAt(w, e, level)[0])
  {
    TextStart(rules, w, e);
    if IsBare(w, e, level) {
      TextAtStart(rules, w, e.left, LevelOf(e.operator));
      assert OpenText(w, e)[0] == TextAt(w, e.left, LevelOf(e.operator))[0];
    }
  }

  // ---- Shapes ----

  // A formula as one operand, or an infix operation without its parentheses.
  datatype Shape = Closed(formula: Unbound) | Open(formula: Unbound)

  ghost function ShapeOf(w: Writing, e: Unbound, level: nat): Shape {
    if IsBare(w, e, level) then Open(e) else Closed(e)
  }

  ghost predicate IsShape(s: Shape) {
    WellFormed(s.formula) && (s.Open? ==> s.formula.InfixOf?)
  }

  function ShapeLevel(s: Shape): nat {
    if s.Open? && s.formula.InfixOf? then LevelOf(s.formula.operator) else 0
  }

  ghost function ShapeText(w: Writing, s: Shape): string {
    if s.Open? && s.formula.InfixOf? then OpenText(w, s.formula) else Text(w, s.formula)
  }

  // An open operation spends none of the nesting of its parentheses.
  function ShapeNesting(s: Shape): nat {
    if s.Open? && s.formula.InfixOf? then ParserNesting(s.formula) - 1 else ParserNesting(s.formula)
  }

  lemma ShapeStart(rules: Rules, w: Writing, s: Shape)
    requires Readable(rules, w)
    ensures ShapeText(w, s) != [] && Begins(ShapeText(w, s)[0])
  {
    TextStart(rules, w, s.formula);
    if s.Open? && s.formula.InfixOf? {
      TextAtStart(rules, w, s.formula.left, LevelOf(s.formula.operator));
      assert OpenText(w, s.formula)[0] == TextAt(w, s.formula.left, LevelOf(s.formula.operator))[0];
    }
  }

  lemma OperandsOfInfix(w: Writing, e: Unbound)
    requires e.InfixOf?
    ensures SubFormulas(e) == [e.left, e.right]
    ensures Cost(w, e) == 1 + Cost(w, e.left) + Cost(w, e.right)
    ensures ParserNesting(e) == 1 + Max(ParserNesting(e.left), ParserNesting(e.right))
    ensures WellFormed(e) ==> WellFormed(e.left) && WellFormed(e.right)
  {
    var nodes := SubFormulas(e);
    assert nodes[1..] == [e.right] && nodes[1..][1..] == [];
    assert e.left in nodes && e.right in nodes;
    assert ListCost(w, nodes[1..][1..], e) == 0 && ListCost(w, nodes[1..], e) == Cost(w, e.right);
    assert ListNesting(nodes[1..][1..], e) == 0 && ListNesting(nodes[1..], e) == ParserNesting(e.right);
  }

  // ---- Chains of operators ----

  // An operator of a chain with its right operand.
  datatype Link = Link(operator: InfixOperator, right: Unbound)

  ghost predicate HasLink(s: Shape, level: nat) {
    s.Open? && s.formula.InfixOf? && LevelOf(s.formula.operator) == level
  }

  // The first operand of a chain of operators of one level.
  ghost function Head(w: Writing, s: Shape, level: nat): Shape
    decreases s.formula
  {
    if HasLink(s, level) then Head(w, ShapeOf(w, s.formula.left, level), level) else s
  }

  // Its operators, left to right.
  ghost function Links(w: Writing, s: Shape, level: nat): seq<Link>
    decreases s.formula
  {
    if HasLink(s, level)
    then Links(w, ShapeOf(w, s.formula.left, level), level) + [Link(s.formula.operator, s.formula.right)]
    else []
  }

  // Operators of one level group to the left.
  function Folded(first: Unbound, links: seq<Link>): Unbound
    decreases |links|
  {
    if links == [] then first else Folded(InfixOf(links[0].operator, first, links[0].right), links[1..])
  }

  ghost function LinkText(w: Writing, l: Link, level: nat): string
    requires level >= 1
  {
    " " + (OperatorText(l.operator) + (" " + TextAt(w, l.right, level - 1)))
  }

  ghost function LinksText(w: Writing, links: seq<Link>, level: nat): string
    requires level >= 1
  {
    if links == [] then "" else LinkText(w, links[0], level) + LinksText(w, links[1..], level)
  }

  ghost function LinksCost(w: Writing, links: seq<Link>): nat {
    if links == [] then 0 else 1 + Cost(w, links[0].right) + LinksCost(w, links[1..])
  }

  lemma {:induction false} FoldedOfAppend(first: Unbound, links: seq<Link>, l: Link)
    ensures Folded(first, links + [l]) == InfixOf(l.operator, Folded(first, links), l.right)
    decreases |links|
  {
    if links == [] {
      assert [l][1..] == [];
      assert links + [l] == [l];
    } else {
      assert (links + [l])[1..] == links[1..] + [l];
      FoldedOfAppend(InfixOf(links[0].operator, first, links[0].right), links[1..], l);
    }
  }

  lemma {:induction false} LinksOfAppend(w: Writing, links: seq<Link>, l: Link, level: nat)
    requires level >= 1
    ensures LinksText(w, links + [l], level) == LinksText(w, links, level) + LinkText(w, l, level)
    ensures LinksCost(w, links + [l]) == LinksCost(w, links) + 1 + Cost(w, l.right)
  {
    if links == [] {
      assert [l][1..] == [];
      assert links + [l] == [l];
      assert LinksText(w, [l], level) == LinkText(w, l, level) + "";
    } else {
      assert (links + [l])[1..] == links[1..] + [l];
      LinksOfAppend(w, links[1..], l, level);
    }
  }

  ghost predicate LinkSuits(l: Link, level: nat, depth: nat) {
    LevelOf(l.operator) == level && WellFormed(l.right) && ParserNesting(l.right) <= depth
  }

  ghost predicate LinksSuit(links: seq<Link>, level: nat, depth: nat) {
    forall l :: l in links ==> LinkSuits(l, level, depth)
  }

  // A shape is its first operand and the chain after it.
  ghost predicate IsChain(w: Writing, s: Shape, level: nat)
    requires level >= 1
  {
    var head, links := Head(w, s, level), Links(w, s, level);
    && IsShape(head) && ShapeLevel(head) <= level - 1 && ShapeNesting(head) <= ShapeNesting(s)
    && LinksSuit(links, level, ShapeNesting(s)) && Folded(head.formula, links) == s.formula
    && ShapeText(w, s) == ShapeText(w, head) + LinksText(w, links, level)
    && Cost(w, s.formula) == Cost(w, head.formula) + LinksCost(w, links)
  }

  lemma {:induction false} ShapeIsChain(w: Writing, s: Shape, level: nat)
    requires level >= 1 && IsShape(s) && ShapeLevel(s) <= level
    ensures IsChain(w, s, level)
    decreases s.formula
  {
    if HasLink(s, level) {
      var left := ShapeOf(w, s.formula.left, level);
      OperandsOfInfix(w, s.formula);
      ShapeIsChain(w, left, level);
      ChainGrows(w, s, level, left);
    } else {
      assert ShapeText(w, s) == ShapeText(w, s) + "";
    }
  }

  lemma ChainGrows(w: Writing, s: Shape, level: nat, left: Shape)
    requires level >= 1 && IsShape(s) && HasLink(s, level) && left == ShapeOf(w, s.formula.left, level) && IsChain(w, left, level)
    ensures IsChain(w, s, level)
  {
    var e := s.formula;
    var l := Link(e.operator, e.right);
    var links := Links(w, left, level);
    OperandsOfInfix(w, e);
    FoldedOfAppend(Head(w, left, level).formula, links, l);
    LinksOfAppend(w, links, l, level);
    OpenChain(ShapeText(w, Head(w, left, level)), LinksText(w, links, level), OperatorText(e.operator), TextAt(w, e.right, level - 1));
    assert Links(w, s, level) == links + [l] && Head(w, s, level) == Head(w, left, level);
    assert ShapeText(w, left) == TextAt(w, e.left, level) && ShapeText(w, s) == OpenText(w, e);
    assert ShapeNesting(left) <= ShapeNesting(s);
    forall k | k in links + [l] ensures LinkSuits(k, level, ShapeNesting(s)) {
      if k in links { assert LinkSuits(k, level, ShapeNesting(left)); }
    }
    assert LinksSuit(Links(w, s, level), level, ShapeNesting(s));
    assert ShapeText(w, s) == ShapeText(w, Head(w, s, level)) + LinksText(w, Links(w, s, level), level);
    assert Cost(w, e) == Cost(w, Head(w, s, level).formula) + LinksCost(w, Links(w, s, level));
    assert Folded(Head(w, s, level).formula, Links(w, s, level)) == e;
  }

  lemma OpenChain(head: string, links: string, operator: string, right: string)
    ensures (head + links) + " " + operator + " " + right == head + (links + (" " + (operator + (" " + right))))
  {
  }

  lemma OperatorStart(operator: InfixOperator)
    ensures var text := OperatorText(operator);
      && text != [] && !IsSpace(text[0])
      && forall level :: IsOperatorStart(text[0], level) <==> LevelOf(operator) <= level
  {
  }

  // The next link of a chain, past the space before its operator.
  ghost function AfterOperator(w: Writing, links: seq<Link>, level: nat, after: string): string
    requires level >= 1 && links != []
  {
    " " + (TextAt(w, links[0].right, level - 1) + (LinksText(w, links[1..], level) + after))
  }

  lemma LinkStarts(w: Writing, links: seq<Link>, level: nat, after: string)
    requires level >= 1 && links != [] && LevelOf(links[0].operator) == level
    ensures var operator := OperatorText(links[0].operator);
      && LinksText(w, links, level) + after == " " + (operator + AfterOperator(w, links, level, after))
      && SkipSpace(LinksText(w, links, level) + after) == operator + AfterOperator(w, links, level, after)
    ensures Stops(LinksText(w, links, level) + after, level - 1)
  {
    var operator, right := OperatorText(links[0].operator), TextAt(w, links[0].right, level - 1);
    var rest := LinksText(w, links[1..], level);
    OperatorStart(links[0].operator);
    LinkRegroups(operator, right, rest, after);
    var text := operator + AfterOperator(w, links, level, after);
    assert (" " + text)[1..] == text;
    SkipNothing(text);
  }

  lemma LinkRegroups(operator: string, right: string, rest: string, after: string)
    ensures (" " + (operator + (" " + right))) + rest + after == " " + (operator + (" " + (right + (rest + after))))
  {
  }

  lemma LinksStop(w: Writing, links: seq<Link>, level: nat, depth: nat, after: string)
    requires level >= 1 && Stops(after, level) && LinksSuit(links, level, depth)
    ensures Stops(LinksText(w, links, level) + after, level - 1)
  {
    if links == [] {
      assert LinksText(w, links, level) + after == after;
    } else {
      assert LinkSuits(links[0], level, depth);
      LinkStarts(w, links, level, after);
    }
  }

  // The operand after an operator, past the space.
  lemma RightStarts(rules: Rules, w: Writing, right: Unbound, level: nat, after: string)
    requires Readable(rules, w)
    ensures SkipSpace(" " + (TextAt(w, right, level) + after)) == TextAt(w, right, level) + after
    ensures SkipSpace(TextAt(w, right, level) + after) == TextAt(w, right, level) + after
  {
    TextAtStart(rules, w, right, level);
    var rest := TextAt(w, right, level) + after;
    assert (" " + rest)[1..] == rest;
    SkipNothing(rest);
  }

  // The operand of the next link, and what is left of the chain after it.
  lemma OperandReady(rules: Rules, w: Writing, links: seq<Link>, level: nat, depth: nat, after: string)
    requires Readable(rules, w) && level >= 1 && links != [] && LinksSuit(links, level, depth) && Stops(after, level)
    ensures var shape, rest := ShapeOf(w, links[0].right, level - 1), LinksText(w, links[1..], level) + after;
      && IsShape(shape) && ShapeLevel(shape) <= level - 1 && ShapeNesting(shape) <= depth && Stops(rest, level - 1)
      && SkipSpace(AfterOperator(w, links, level, after)) == ShapeText(w, shape) + rest
    ensures LinksSuit(links[1..], level, depth)
    ensures LinksCost(w, links) == 1 + Cost(w, links[0].right) + LinksCost(w, links[1..])
  {
    assert LinkSuits(links[0], level, depth);
    forall l | l in links[1..] ensures LinkSuits(l, level, depth) { assert l in links; }
    LinksStop(w, links[1..], level, depth, after);
    RightStarts(rules, w, links[0].right, level - 1, LinksText(w, links[1..], level) + after);
    OperandsNesting(links[0].right);
  }

  lemma OperandsNesting(e: Unbound)
    ensures e.InfixOf? ==> ParserNesting(e) >= 1
  {
  }

  // The comparison operator a text starts with: the longest one.
  function ComparisonAt(s: string): Option<ComparisonOperator> {
    if "<=" <= s then Some(LessOrEqual)
    else if ">=" <= s then Some(GreaterOrEqual)
    else if "<>" <= s then Some(NotEqual)
    else if "=" <= s then Some(Equal)
    else if "<" <= s then Some(Less)
    else if ">" <= s then Some(Greater)
    else None
  }

  lemma ComparisonReads(comparison: ComparisonOperator, after: string)
    requires StartsWith(after, ' ')
    ensures ComparisonAt(ComparisonText(comparison) + after) == Some(comparison)
  {
    var s := ComparisonText(comparison) + after;
    assert s[|ComparisonText(comparison)|] == ' ';
    match comparison {
      case Equal => assert s[0] == '=';
      case NotEqual => assert s[0] == '<' && s[1] == '>';
      case Less => assert s[0] == '<' && s[1] == ' ';
      case LessOrEqual => assert s[0] == '<' && s[1] == '=';
      case Greater => assert s[0] == '>' && s[1] == ' ';
      case GreaterOrEqual => assert s[0] == '>' && s[1] == '=';
    }
  }

  // The operator of one level a text starts with.
  function OperatorAt(s: string, level: nat): Option<InfixOperator> {
    if level == 1 then
      if StartsWith(s, '*') then Some(Multiply) else if StartsWith(s, '/') then Some(Divide) else None
    else if level == 2 then
      if StartsWith(s, '+') then Some(Add) else if StartsWith(s, '-') then Some(Subtract) else None
    else match ComparisonAt(s)
      case None => None
      case Some(comparison) => Some(Relation(comparison))
  }

  lemma OperatorStarts(s: string, level: nat)
    requires 1 <= level <= 3
    ensures var operator := OperatorAt(s, level);
      operator.Some? ==>
        s != [] && IsOperatorStart(s[0], level) && OperatorText(operator.value) <= s && LevelOf(operator.value) == level
  {
  }

  lemma OperatorReads(operator: InfixOperator, after: string)
    requires StartsWith(after, ' ')
    ensures OperatorAt(OperatorText(operator) + after, LevelOf(operator)) == Some(operator)
  {
    if operator.Relation? { ComparisonReads(operator.comparison, after); }
  }

  function Negated(n: Number): Number {
    Number(-n.rank)
  }

  predicate IsNegative(e: Unbound) {
    e.NumberLiteral? && e.number.rank < 0
  }

  lemma NegativeDigits(rules: Rules, w: Writing, n: Number, after: string)
    requires Readable(rules, w) && n.rank < 0
    ensures var digits := NumberLiteral(Negated(n));
      && (Text(w, NumberLiteral(n)) + after)[1..] == Text(w, digits) + after
      && SkipSpace(Text(w, digits) + after) == Text(w, digits) + after
      && WellFormed(digits) && Negated(Negated(n)) == n
      && Cost(w, digits) == 1 && ParserNesting(digits) == 0
      && Cost(w, NumberLiteral(n)) == 1 && ParserNesting(NumberLiteral(n)) == 1
  {
    NumberStart(rules, w.sp, NumberLiteral(Negated(n)));
    SkipNothing(Text(w, NumberLiteral(Negated(n))) + after);
  }

  // ---- Texts of primaries ----

  ghost predicate IsSuffix(a: string, s: string) {
    |a| <= |s| && a == s[|s| - |a|..]
  }

  lemma SuffixOfSuffix(a: string, b: string, c: string)
    requires IsSuffix(a, b) && IsSuffix(b, c)
    ensures IsSuffix(a, c)
  {
  }

  lemma {:induction false} DropDigitsIsSuffix(s: string)
    ensures IsSuffix(DropDigits(s), s)
  {
    if s != [] && IsDigit(s[0]) {
      DropDigitsIsSuffix(s[1..]);
      SuffixOfSuffix(DropDigits(s), s[1..], s);
    }
  }

  lemma MantissaIsSuffix(s: string)
    ensures IsSuffix(DropMantissa(s), s)
  {
    var whole := DropDigits(s);
    DropDigitsIsSuffix(s);
    if StartsWith(whole, '.') {
      DropDigitsIsSuffix(whole[1..]);
      SuffixOfSuffix(DropDigits(whole[1..]), whole[1..], whole);
      SuffixOfSuffix(DropDigits(whole[1..]), whole, s);
    }
  }

  // What follows a number is the end of the text it was read from.
  lemma NumberTail(s: string)
    requires AfterNumber(s).Some?
    ensures IsSuffix(AfterNumber(s).value, s)
  {
    var rest := DropMantissa(s);
    MantissaIsSuffix(s);
    if rest != [] && IsExponentMark(rest[0]) {
      var digits := DropSign(rest[1..]);
      DropDigitsIsSuffix(digits);
      SuffixOfSuffix(DropDigits(digits), digits, rest[1..]);
      SuffixOfSuffix(DropDigits(digits), rest[1..], rest);
      SuffixOfSuffix(DropDigits(digits), rest, s);
    }
  }

  lemma TailIsSuffix(text: string, after: string)
    ensures (text + after)[..|text + after| - |after|] == text
  {
  }

  lemma BracketedText(sp: Spelling, e: Unbound)
    requires IsReference(e)
    ensures Format(sp, e) == "[" + ReferenceText(e) + "]"
  {
    match e {
      case CellReference(a) => assert "[" + a.owner + "." + a.field + "]" == "[" + (a.owner + "." + a.field) + "]";
      case SameRowReference(field) => assert "[." + field + "]" == "[" + ("." + field) + "]";
      case TotalOf(a) =>
        assert ":total]" == ":" + "total" + "]";
        assert "[" + a.owner + "." + a.field + ":total]" == "[" + (a.owner + "." + a.field + ":" + "total") + "]";
      case AggregateOf(f, a) =>
        assert "[" + a.owner + "." + a.field + ":" + Suffix(f) + "]" == "[" + (a.owner + "." + a.field + ":" + Suffix(f)) + "]";
    }
  }

  lemma BracketedReference(w: Writing, e: Unbound, after: string)
    requires IsReference(e) && ']' !in ReferenceText(e)
    ensures var rest := (Text(w, e) + after)[1..];
      && IndexOf(rest, ']') == Some(|ReferenceText(e)|)
      && rest[..|ReferenceText(e)|] == ReferenceText(e) && rest[|ReferenceText(e)| + 1..] == after
  {
    BracketedText(w.sp, e);
    InsideBrackets(ReferenceText(e), after);
  }

  lemma InsideBrackets(text: string, after: string)
    requires ']' !in text
    ensures var rest := ("[" + text + "]" + after)[1..];
      && IndexOf(rest, ']') == Some(|text|) && rest[..|text|] == text && rest[|text| + 1..] == after
  {
    FirstIndex(text, ']', after);
    assert ("[" + text + "]" + after)[1..] == text + "]" + after;
  }

  lemma BracketedColumn(a: Address, after: string)
    requires ']' !in a.owner + "." + a.field + ":" + "column"
    ensures var text := a.owner + "." + a.field + ":" + "column";
      var rest := (ColumnText(a) + after)[1..];
      && StartsWith(ColumnText(a) + after, '[') && !IsSpace('[')
      && IndexOf(rest, ']') == Some(|text|) && rest[..|text|] == text && rest[|text| + 1..] == after
  {
    var text := a.owner + "." + a.field + ":" + "column";
    assert ":column]" == ":" + "column" + "]";
    assert ColumnText(a) == "[" + text + "]";
    InsideBrackets(text, after);
  }

  // ---- Texts of parenthesized formulas ----

  lemma ParenthesizedText(rules: Rules, w: Writing, e: Unbound, after: string)
    requires Readable(rules, w) && e.InfixOf?
    ensures var inner := OpenText(w, e) + (")" + after);
      && (Text(w, e) + after)[1..] == inner && SkipSpace(inner) == inner
    ensures Stops(")" + after, 3) && SkipSpace(")" + after) == ")" + after && (")" + after)[1..] == after
  {
    ShapeStart(rules, w, Open(e));
    ClosedText(OpenText(w, e), after);
  }

  lemma ClosedText(text: string, after: string)
    requires text != [] && !IsSpace(text[0])
    ensures var inner := text + (")" + after);
      && ("(" + text + ")" + after)[1..] == inner && SkipSpace(inner) == inner
    ensures Stops(")" + after, 3) && SkipSpace(")" + after) == ")" + after && (")" + after)[1..] == after
  {
    var inner := text + (")" + after);
    assert "(" + text + ")" + after == "(" + inner;
    SkipNothing(inner);
    SkipNothing(")" + after);
  }

  // ---- Texts of calls ----

  // The text between the parentheses of a call.
  ghost function ArgumentText(w: Writing, e: Unbound): string {
    if e.ConditionalOf? then Join(ConditionalItems(w, e)) else ListText(w, SubFormulas(e))
  }

  // A call is its name and its arguments in parentheses.
  lemma CallText(w: Writing, e: Unbound, after: string)
    requires Legible(w) && (IsCall(e) || e.ConditionalOf?)
    ensures var name, rest := w.style(e).name, "(" + (ArgumentText(w, e) + (")" + after));
      && Text(w, e) + after == name + rest && NameSuits(e, name)
      && TakeWord(Text(w, e) + after) == name && (Text(w, e) + after)[|name|..] == rest
  {
    assert NameSuits(e, w.style(e).name);
    if IsCall(e) { JoinedList(w, SubFormulas(e), e); }
    NamedText(w.style(e).name, ArgumentText(w, e), after);
  }

  lemma NamedText(name: string, arguments: string, after: string)
    requires forall i :: 0 <= i < |name| ==> IsWord(name[i])
    ensures var rest := "(" + (arguments + (")" + after));
      var text := name + "(" + arguments + ")" + after;
      text == name + rest && TakeWord(text) == name && text[|name|..] == rest
  {
    var rest := "(" + (arguments + (")" + after));
    assert name + "(" + arguments + ")" + after == name + rest;
    WordIsTaken(name, rest);
  }

  // ---- Lists of formulas ----

  ghost function ListText(w: Writing, formulas: seq<Unbound>): string {
    if formulas == [] then ""
    else if |formulas| == 1 then TextAt(w, formulas[0], 3)
    else TextAt(w, formulas[0], 3) + (", " + ListText(w, formulas[1..]))
  }

  lemma {:induction false} JoinedList(w: Writing, formulas: seq<Unbound>, parent: Unbound)
    requires forall c :: c in formulas ==> c < parent
    ensures Join(ArgumentTexts(w, formulas, parent)) == ListText(w, formulas)
  {
    if formulas != [] {
      assert formulas[0] in formulas && forall c :: c in formulas[1..] ==> c in formulas;
      JoinedList(w, formulas[1..], parent);
      assert ArgumentTexts(w, formulas, parent)[1..] == ArgumentTexts(w, formulas[1..], parent);
    }
  }

  ghost function TotalCost(w: Writing, formulas: seq<Unbound>): nat {
    if formulas == [] then 0 else Cost(w, formulas[0]) + TotalCost(w, formulas[1..])
  }

  lemma {:induction false} TotalIsListCost(w: Writing, formulas: seq<Unbound>, parent: Unbound)
    requires forall c :: c in formulas ==> c < parent
    ensures TotalCost(w, formulas) == ListCost(w, formulas, parent)
  {
    if formulas != [] {
      assert formulas[0] in formulas && forall c :: c in formulas[1..] ==> c in formulas;
      TotalIsListCost(w, formulas[1..], parent);
    }
  }

  // What a call may spend on its arguments.
  lemma CallBudget(w: Writing, e: Unbound)
    requires IsCall(e) && WellFormed(e)
    ensures SubFormulas(e) != [] && Cost(w, e) == 1 + TotalCost(w, SubFormulas(e))
    ensures ParserNesting(e) >= 1
    ensures forall c :: c in SubFormulas(e) ==> WellFormed(c) && ParserNesting(c) <= ParserNesting(e) - 1
  {
    TotalIsListCost(w, SubFormulas(e), e);
    forall c | c in SubFormulas(e) ensures ParserNesting(c) <= ParserNesting(e) - 1 {
      SubFormulaNesting(SubFormulas(e), e, c);
    }
  }

  // What follows the first of a list of arguments.
  ghost function ListTail(w: Writing, formulas: seq<Unbound>, after: string): string
    requires formulas != []
  {
    if |formulas| == 1 then ")" + after else ", " + (ListText(w, formulas[1..]) + (")" + after))
  }

  lemma ThenRest(first: string, rest: string, last: string)
    ensures first + (", " + rest) + last == first + (", " + (rest + last))
  {
  }

  lemma ListSplits(w: Writing, formulas: seq<Unbound>, after: string)
    requires formulas != []
    ensures ListText(w, formulas) + (")" + after) == TextAt(w, formulas[0], 3) + ListTail(w, formulas, after)
    ensures Stops(ListTail(w, formulas, after), 3) && SkipSpace(ListTail(w, formulas, after)) == ListTail(w, formulas, after)
  {
    SkipNothing(ListTail(w, formulas, after));
    if |formulas| > 1 {
      ThenRest(TextAt(w, formulas[0], 3), ListText(w, formulas[1..]), ")" + after);
    }
  }

  // After a comma comes the rest of the list.
  lemma ListContinues(rules: Rules, w: Writing, formulas: seq<Unbound>, after: string)
    requires Readable(rules, w) && |formulas| > 1
    ensures var tail := ListTail(w, formulas, after);
      && StartsWith(tail, ',') && SkipSpace(tail) == tail
      && SkipSpace(tail[1..]) == ListText(w, formulas[1..]) + (")" + after)
    ensures TotalCost(w, formulas) == Cost(w, formulas[0]) + TotalCost(w, formulas[1..])
  {
    var tail, rest := ListTail(w, formulas, after), ListText(w, formulas[1..]) + (")" + after);
    TextAtStart(rules, w, formulas[1], 3);
    assert formulas[1..][0] == formulas[1];
    SkipNothing(tail);
    assert tail[1..] == " " + rest && (" " + rest)[1..] == rest;
    SkipNothing(rest);
  }

  lemma LastOfList(w: Writing, formulas: seq<Unbound>, after: string)
    requires |formulas| == 1
    ensures ListTail(w, formulas, after) == ")" + after && SkipSpace(")" + after) == ")" + after && (")" + after)[1..] == after
    ensures TotalCost(w, formulas) == Cost(w, formulas[0])
  {
    assert formulas[1..] == [];
    SkipNothing(")" + after);
  }

  lemma TwoOfList(w: Writing, formulas: seq<Unbound>)
    requires |formulas| == 2
    ensures formulas == [formulas[0], formulas[1..][0]]
    ensures TotalCost(w, formulas) == Cost(w, formulas[0]) + Cost(w, formulas[1..][0])
  {
    assert formulas[1..][1..] == [];
    assert TotalCost(w, formulas[1..]) == Cost(w, formulas[1..][0]) + TotalCost(w, formulas[1..][1..]);
  }

  lemma ListStart(rules: Rules, w: Writing, formulas: seq<Unbound>, after: string)
    requires Readable(rules, w) && formulas != []
    ensures var text := ListText(w, formulas) + (")" + after);
      text != [] && text[0] != ')' && SkipSpace(text) == text
  {
    TextAtStart(rules, w, formulas[0], 3);
    ListSplits(w, formulas, after);
    SkipNothing(ListText(w, formulas) + (")" + after));
  }

  // The arity check and the formula it admits.
  function BuildExtended(name: Extended, arguments: seq<Unbound>): (r: Option<Unbound>)
    requires forall c :: c in arguments ==> WellFormed(c)
    ensures r.Some? ==> WellFormed(r.value)
  {
    match name
    case IfCall => if |arguments| == 3 then Some(IfOf(arguments[0], arguments[1], arguments[2])) else None
    case AndCall => if arguments != [] then Some(LogicalOf(And, arguments)) else None
    case OrCall => if arguments != [] then Some(LogicalOf(Or, arguments)) else None
    case NotCall => if |arguments| == 1 then Some(NotOf(arguments[0])) else None
    case RoundCall => if |arguments| == 2 then Some(RoundOf(arguments[0], arguments[1])) else None
    case BlankCall => if |arguments| == 1 then Some(BlankOf(arguments[0])) else None
  }

  lemma Rebuilds(e: Unbound)
    requires IsCall(e) && !e.ExtremeOf? && WellFormed(e) && WordFor(e).ExtendedWord?
    ensures forall c :: c in SubFormulas(e) ==> WellFormed(c)
    ensures BuildExtended(WordFor(e).extended, SubFormulas(e)) == Some(e)
  {
  }

  // ---- Texts of conditionals ----

  predicate SoundTest(operator: ComparisonOperator, operand: Option<Unbound>) {
    && (operand.None? ==> operator == Equal || operator == NotEqual)
    && (operand.Some? ==> (operator == Equal || operand.value.NumberLiteral?) && WellFormed(operand.value))
  }

  predicate SoundCriterion(k: UnboundCriterion) {
    IsAddress(k.column) && SoundTest(k.operator, k.operand)
  }

  function CriterionNesting(k: UnboundCriterion): nat {
    if k.operand.Some? then ParserNesting(k.operand.value) else 0
  }

  ghost function CriteriaText(w: Writing, criteria: seq<UnboundCriterion>, parent: Unbound): string
    requires AllBelong(criteria, parent)
  {
    if criteria == [] then ""
    else
      ColumnText(criteria[0].column) + (", " + (TestText(w, criteria[0], parent)
      + if |criteria| == 1 then "" else ", " + CriteriaText(w, criteria[1..], parent)))
  }

  // What follows the first of the criteria; `last` follows them all.
  ghost function CriteriaTail(w: Writing, criteria: seq<UnboundCriterion>, parent: Unbound, last: string): string
    requires criteria != [] && AllBelong(criteria, parent)
  {
    if |criteria| == 1 then last else ", " + (CriteriaText(w, criteria[1..], parent) + last)
  }

  lemma CriteriaSplit(w: Writing, criteria: seq<UnboundCriterion>, parent: Unbound, last: string)
    requires criteria != [] && AllBelong(criteria, parent)
    requires StartsWith(last, ')') || StartsWith(last, ',')
    ensures CriteriaText(w, criteria, parent) + last
         == ColumnText(criteria[0].column) + (", " + (TestText(w, criteria[0], parent) + CriteriaTail(w, criteria, parent, last)))
    ensures var tail := CriteriaTail(w, criteria, parent, last); Stops(tail, 3) && SkipSpace(tail) == tail
    ensures CriteriaCost(w, criteria, parent) == TestCost(w, criteria[0], parent) + CriteriaCost(w, criteria[1..], parent)
  {
    SkipNothing(CriteriaTail(w, criteria, parent, last));
    var rest := if |criteria| == 1 then "" else ", " + CriteriaText(w, criteria[1..], parent);
    assert rest + last == CriteriaTail(w, criteria, parent, last);
    ThenTest(ColumnText(criteria[0].column), TestText(w, criteria[0], parent), rest, last);
  }

  lemma ThenTest(column: string, test: string, rest: string, last: string)
    ensures column + (", " + (test + rest)) + last == column + (", " + (test + (rest + last)))
  {
  }

  lemma CriteriaContinue(w: Writing, criteria: seq<UnboundCriterion>, parent: Unbound, last: string)
    requires |criteria| > 1 && AllBelong(criteria, parent)
    ensures var tail := CriteriaTail(w, criteria, parent, last);
      StartsWith(tail, ',') && SkipSpace(tail[1..]) == CriteriaText(w, criteria[1..], parent) + last
  {
    var rest := CriteriaText(w, criteria[1..], parent) + last;
    CriteriaStart(w, criteria[1..], parent, last);
    SpacedRest(rest);
  }

  lemma CriteriaStart(w: Writing, criteria: seq<UnboundCriterion>, parent: Unbound, last: string)
    requires criteria != [] && AllBelong(criteria, parent)
    ensures var text := CriteriaText(w, criteria, parent) + last; text != [] && text[0] == '['
  {
    assert CriteriaText(w, criteria, parent)[0] == ColumnText(criteria[0].column)[0];
  }

  // A list continues after a comma and a space.
  lemma SpacedRest(rest: string)
    requires rest != [] && !IsSpace(rest[0])
    ensures SkipSpace(rest) == rest && SkipSpace(" " + rest) == rest && (", " + rest)[1..] == " " + rest
  {
    SkipNothing(rest);
    assert (" " + rest)[1..] == rest;
  }

  lemma CriterionStart(rules: Rules, w: Writing, k: UnboundCriterion, parent: Unbound, after: string)
    requires Readable(rules, w) && Belongs(k, parent)
    ensures var text := TestText(w, k, parent) + after;
      && SkipSpace(text) == text && SkipSpace(" " + text) == text
      && (StartsWith(text, '"') <==> IsQuoted(w.style(parent).quotes, k))
  {
    if !IsQuoted(w.style(parent).quotes, k) { TextAtStart(rules, w, k.operand.value, 2); }
    var text := TestText(w, k, parent) + after;
    SkipNothing(text);
    assert (" " + text)[1..] == text;
  }

  lemma NumberHasNoQuote(rules: Rules, sp: Spelling, n: Number)
    requires Faithful(rules, sp)
    ensures var text := FormatNumber(sp, n); '"' !in text && text != [] && (IsDigit(text[0]) || text[0] == '.' || text[0] == '-')
  {
    var digits := sp.show(if n.rank < 0 then Number(-n.rank) else n);
    LiteralStart(digits);
    assert forall c :: c in digits ==> IsNumberChar(c);
  }

  // A quoted test reads back as the operator and operand it was written from.
  lemma QuotedReads(rules: Rules, sp: Spelling, k: UnboundCriterion, after: string)
    requires Faithful(rules, sp) && SoundCriterion(k) && IsQuoted(true, k) && Ends(after)
    ensures Unquote(("\"" + QuotedText(sp, k) + "\"" + after)[1..]) == Some((QuotedText(sp, k), after))
    ensures var test := ParseTest(rules, QuotedText(sp, k));
      && test.Some? && test.value.operator == k.operator
      && (k.operand.None? ==> test.value.operand.TextOperand? && test.value.text == "")
      && (k.operand.Some? ==> test.value.operand == NumberOperand(Finite(k.operand.value.number.rank)))
  {
    var text := QuotedText(sp, k);
    if k.operand.Some? {
      var number := FormatNumber(sp, k.operand.value.number);
      NumberHasNoQuote(rules, sp, k.operand.value.number);
      SplitsNumber(k.operator, number);
    }
    assert "\"" + text + "\"" + after == "\"" + (text + "\"" + after);
    PlainTextUnquotes(text, after);
  }

  lemma SplitsNumber(operator: ComparisonOperator, number: string)
    requires number != [] && (IsDigit(number[0]) || number[0] == '.' || number[0] == '-')
    ensures SplitOperator(ComparisonText(operator) + number) == (operator, number)
  {
    var written := ComparisonText(operator);
    var s := written + number;
    assert s[|written|] == number[0] && s[|written|..] == number;
    match operator {
      case Equal => assert s[0] == '=';
      case NotEqual => assert s[0] == '<' && s[1] == '>';
      case Less => assert s[0] == '<';
      case LessOrEqual => assert s[0] == '<' && s[1] == '=';
      case Greater => assert s[0] == '>';
      case GreaterOrEqual => assert s[0] == '>' && s[1] == '=';
    }
  }

  // A text already read in front of what the rest unquotes to.
  function Prefixed(value: string, rest: Option<(string, string)>): Option<(string, string)> {
    match rest
    case None => None
    case Some((more, after)) => Some((value + more, after))
  }

  lemma PrefixedStep(value: string, next: string, rest: Option<(string, string)>)
    ensures Prefixed(value, Prefixed(next, rest)) == Prefixed(value + next, rest)
  {
    if rest.Some? { assert value + (next + rest.value.0) == (value + next) + rest.value.0; }
  }

  // conditional: the value column defaults to the first criterion's.
  function AggregateFor(called: ConditionalFunction, values: Option<Address>, criteria: seq<UnboundCriterion>): UnboundAggregate
    requires criteria != []
  {
    var column := if values.Some? then values.value else criteria[0].column;
    match called
    case CountFunction => CountMatches
    case AverageFunction => AverageColumn(column)
    case SumFunction => SumColumn(column)
  }

  lemma SoundCriteria(e: Unbound)
    requires e.ConditionalOf? && WellFormed(e)
    ensures WellFormedAggregate(e.aggregate) && 1 <= |e.criteria| <= MAX_CRITERIA
    ensures forall k :: k in e.criteria ==> SoundCriterion(k)
    ensures AllBelong(e.criteria, e)
  {
    CriteriaBelong(e);
    forall k | k in e.criteria && k.operand.Some? ensures WellFormed(k.operand.value) {
      OperandIsListed(e.criteria, k);
    }
  }

  lemma SoundConditional(e: Unbound)
    requires e.ConditionalOf? && WellFormedAggregate(e.aggregate) && 1 <= |e.criteria| <= MAX_CRITERIA
    requires forall k :: k in e.criteria ==> SoundCriterion(k)
    ensures WellFormed(e)
  {
  }

  lemma {:induction false} JoinedCriteria(w: Writing, criteria: seq<UnboundCriterion>, parent: Unbound)
    requires AllBelong(criteria, parent)
    ensures Join(CriterionTexts(w, criteria, parent)) == CriteriaText(w, criteria, parent)
  {
    if criteria != [] {
      JoinedCriteria(w, criteria[1..], parent);
      JoinTwo(ColumnText(criteria[0].column), TestText(w, criteria[0], parent), CriterionTexts(w, criteria[1..], parent));
      assert |criteria| == 1 <==> criteria[1..] == [];
    }
  }

  lemma JoinTwo(a: string, b: string, rest: seq<string>)
    ensures Join([a, b] + rest) == a + (", " + (b + if rest == [] then "" else ", " + Join(rest)))
  {
    var items := [a, b] + rest;
    assert items[1..] == [b] + rest && items[1..][1..] == rest;
    assert Join(items) == a + ", " + Join(items[1..]);
    if rest == [] {
      assert a + ", " + b == a + (", " + (b + ""));
    } else {
      assert Join(items[1..]) == b + ", " + Join(rest);
      assert a + ", " + (b + ", " + Join(rest)) == a + (", " + (b + (", " + Join(rest))));
    }
  }

  lemma {:induction false} JoinLast(items: seq<string>, last: string)
    requires items != []
    ensures Join(items + [last]) == Join(items) + (", " + last)
  {
    var all := items + [last];
    assert all[1..] == items[1..] + [last];
    if |items| > 1 {
      JoinLast(items[1..], last);
      assert items[0] + ", " + (Join(items[1..]) + (", " + last)) == items[0] + ", " + Join(items[1..]) + (", " + last);
    } else {
      assert all[1..] == [last];
      assert items[0] + ", " + last == items[0] + (", " + last);
    }
  }

  // What comes after the criteria of a singular conditional.
  ghost function ValueTail(w: Writing, e: Unbound, after: string): string
    requires e.ConditionalOf?
  {
    if WrittenValues(w, e) == [] then ")" + after else ", " + (ColumnText(e.aggregate.column) + (")" + after))
  }

  // The arguments of a conditional: the value column before the criteria, or
  // after them in the singular.
  lemma ConditionalText(w: Writing, e: Unbound, after: string)
    requires e.ConditionalOf? && e.criteria != [] && AllBelong(e.criteria, e)
    ensures ArgumentText(w, e) + (")" + after) ==
      if IsSingular(w, e) then CriteriaText(w, e.criteria, e) + ValueTail(w, e, after)
      else if e.aggregate.CountMatches? then CriteriaText(w, e.criteria, e) + (")" + after)
      else ColumnText(e.aggregate.column) + (", " + (CriteriaText(w, e.criteria, e) + (")" + after)))
  {
    JoinedCriteria(w, e.criteria, e);
    var values, items := WrittenValues(w, e), CriterionTexts(w, e.criteria, e);
    if values == [] {
      assert values + items == items && items + values == items;
    } else if IsSingular(w, e) {
      JoinLast(items, values[0]);
      assert items + values == items + [values[0]];
      Regroups(Join(items), ", ", values[0], ")" + after);
    } else {
      assert (values + items)[0] == values[0] && (values + items)[1..] == items;
      Regroups(values[0], ", ", Join(items), ")" + after);
    }
  }

  lemma Regroups(a: string, b: string, c: string, d: string)
    ensures a + b + c + d == a + (b + (c + d)) == a + (b + c) + d
  {
  }

  // The one criterion of a singular conditional, and what follows it.
  lemma SingularText(w: Writing, e: Unbound, after: string)
    requires e.ConditionalOf? && WellFormed(e) && IsSingular(w, e) && |e.criteria| == 1
    ensures SoundCriterion(e.criteria[0]) && Belongs(e.criteria[0], e)
    ensures var text, tail := ArgumentText(w, e) + (")" + after), ValueTail(w, e, after);
      && text == ColumnText(e.criteria[0].column) + (", " + (TestText(w, e.criteria[0], e) + tail)) && SkipSpace(text) == text
      && Stops(tail, 3) && SkipSpace(tail) == tail
      && (WrittenValues(w, e) != [] ==>
            StartsWith(tail, ',') && SkipSpace(tail[1..]) == ColumnText(e.aggregate.column) + (")" + after))
    ensures SkipSpace(")" + after) == ")" + after
    ensures Cost(w, e) == 1 + |WrittenValues(w, e)| + TestCost(w, e.criteria[0], e)
    ensures CriterionNesting(e.criteria[0]) <= ParserNesting(e) - 1
    ensures |WrittenValues(w, e)| <= 1 && (!e.aggregate.CountMatches? ==> IsAddress(e.aggregate.column))
    ensures WrittenValues(w, e) == [] ==> e.aggregate.CountMatches? || e.aggregate.column == e.criteria[0].column
  {
    ConditionalBudget(w, e);
    ConditionalText(w, e, after);
    CriteriaSplit(w, e.criteria, e, ValueTail(w, e, after));
    CriteriaStart(w, e.criteria, e, ValueTail(w, e, after));
    SkipNothing(ArgumentText(w, e) + (")" + after));
    SkipNothing(")" + after);
    assert e.criteria[1..] == [];
    if WrittenValues(w, e) != [] {
      SpacedRest(ColumnText(e.aggregate.column) + (")" + after));
    }
  }

  // The arguments of a plural conditional.
  lemma PluralText(w: Writing, e: Unbound, after: string)
    requires e.ConditionalOf? && WellFormed(e) && !IsSingular(w, e)
    ensures AllBelong(e.criteria, e) && 1 <= |e.criteria| <= MAX_CRITERIA
    ensures forall k :: k in e.criteria ==> SoundCriterion(k) && CriterionNesting(k) <= ParserNesting(e) - 1
    ensures var text, rest := ArgumentText(w, e) + (")" + after), CriteriaText(w, e.criteria, e) + (")" + after);
      && SkipSpace(rest) == rest && SkipSpace(" " + rest) == rest && SkipSpace(text) == text
      && text == if e.aggregate.CountMatches? then rest else ColumnText(e.aggregate.column) + (", " + rest)
    ensures SkipSpace(")" + after) == ")" + after
    ensures Cost(w, e) == 1 + (if e.aggregate.CountMatches? then 0 else 1) + CriteriaCost(w, e.criteria, e)
    ensures !e.aggregate.CountMatches? ==> IsAddress(e.aggregate.column)
  {
    ConditionalBudget(w, e);
    ConditionalText(w, e, after);
    CriteriaStart(w, e.criteria, e, ")" + after);
    SpacedRest(CriteriaText(w, e.criteria, e) + (")" + after));
    SkipNothing(ArgumentText(w, e) + (")" + after));
    SkipNothing(")" + after);
  }

  // The value column that was read, or the criterion's, is the conditional's.
  lemma AggregateRebuilds(e: Unbound, values: Option<Address>)
    requires e.ConditionalOf? && e.criteria != []
    requires values.Some? ==> !e.aggregate.CountMatches? && values.value == e.aggregate.column
    requires values.None? ==> e.aggregate.CountMatches? || e.aggregate.column == e.criteria[0].column
    ensures ConditionalOf(AggregateFor(FunctionFor(e.aggregate), values, e.criteria), e.criteria) == e
  {
  }

  // What a conditional may spend on its criteria.
  lemma ConditionalBudget(w: Writing, e: Unbound)
    requires e.ConditionalOf? && WellFormed(e)
    ensures AllBelong(e.criteria, e)
    ensures forall k :: k in e.criteria ==> SoundCriterion(k) && CriterionNesting(k) <= ParserNesting(e) - 1
    ensures Cost(w, e) == 1 + |WrittenValues(w, e)| + CriteriaCost(w, e.criteria, e) && ParserNesting(e) >= 1
    ensures 1 <= |e.criteria| <= MAX_CRITERIA && WellFormedAggregate(e.aggregate)
  {
    SoundCriteria(e);
    forall k | k in e.criteria ensures CriterionNesting(k) <= ParserNesting(e) - 1 {
      if k.operand.Some? {
        OperandIsListed(e.criteria, k);
        SubFormulaNesting(SubFormulas(e), e, k.operand.value);
      }
    }
  }
}
