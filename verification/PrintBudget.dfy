/**
 A formula the parser accepts and whose canonical print it refuses: a quoted
 equality test costs the parser no node, and the print takes the quotes away.
 */
module PrintBudgets {
  import opened Model
  import opened Criteria
  import opened UnboundFormulas
  import opened ParserText
  import opened Writings
  import opened WrittenTexts
  import opened FormulaParser
  import opened Expressions
  import opened Binding
  import opened Projection
  import opened Decimals

  // ---- The formula: COUNTIFS calls joined by `+` ----

  const Five := NumberLiteral(Number(5))
  const Column := Address("s", "f")
  const FiveTest := UnboundCriterion(Column, Equal, Some(Five))

  function Tests(n: nat): (r: seq<UnboundCriterion>)
    ensures |r| == n && forall k :: k in r ==> k == FiveTest
  {
    if n == 0 then [] else [FiveTest] + Tests(n - 1)
  }

  function Counting(n: nat): Unbound {
    ConditionalOf(CountMatches, Tests(n))
  }

  // `e` and then `more` times `+ e`.
  function Chain(e: Unbound, more: nat): Unbound {
    if more == 0 then e else InfixOf(Add, Chain(e, more - 1), e)
  }

  // Eight calls of sixteen criteria each.
  function Crowded(): Unbound {
    Chain(Counting(16), 7)
  }

  // Canonical but for the quotes around equality tests.
  function QuotingWriting(sp: Spelling): Writing {
    Writing(sp, e => Manner(CanonicalName(e), false, true, false))
  }

  lemma QuotingIsLegible(sp: Spelling)
    ensures Legible(QuotingWriting(sp))
  {
    forall e | IsCall(e) || e.ConditionalOf? ensures NameSuits(e, QuotingWriting(sp).style(e).name) {
      NamesAreWords(e);
    }
  }

  // ---- What a chain measures ----

  lemma {:induction false} OperandsOfTests(n: nat)
    ensures |OperandsOf(Tests(n))| == n && forall c :: c in OperandsOf(Tests(n)) ==> c == Five
  {
    if n > 0 {
      OperandsOfTests(n - 1);
      assert Tests(n)[1..] == Tests(n - 1);
    }
  }

  lemma {:induction false} CountOfFives(nodes: seq<Unbound>, parent: Unbound)
    requires Five < parent && forall c :: c in nodes ==> c == Five
    ensures NodeCounts(nodes, parent) == |nodes| && MaxDepth(nodes, parent) <= 1
  {
    if nodes != [] {
      assert nodes[0] in nodes && forall c :: c in nodes[1..] ==> c in nodes;
      CountOfFives(nodes[1..], parent);
    }
  }

  lemma CountingIsSmall(n: nat)
    requires 1 <= n <= MAX_CRITERIA
    ensures WellFormed(Counting(n)) && NodeCount(Counting(n)) == n + 1 && Depth(Counting(n)) <= 2
  {
    var e := Counting(n);
    OperandsOfTests(n);
    assert SubFormulas(e)[0] in SubFormulas(e);
    CountOfFives(SubFormulas(e), e);
    assert IsIdentifier("s") && IsIdentifier("f");
    assert forall c :: c in SubFormulas(e) ==> WellFormed(c);
  }

  lemma {:induction false} ChainIsSmall(e: Unbound, more: nat, nodes: nat)
    requires WellFormed(e) && NodeCount(e) == nodes
    ensures WellFormed(Chain(e, more))
    ensures NodeCount(Chain(e, more)) == nodes + more * (nodes + 1)
    ensures Depth(Chain(e, more)) <= Depth(e) + more
  {
    if more > 0 {
      ChainIsSmall(e, more - 1, nodes);
      SumIsSmall(Chain(e, more - 1), e);
      assert more * (nodes + 1) == (more - 1) * (nodes + 1) + (nodes + 1);
    }
  }

  lemma SumIsSmall(left: Unbound, right: Unbound)
    requires WellFormed(left) && WellFormed(right)
    ensures var e := InfixOf(Add, left, right);
      && WellFormed(e) && NodeCount(e) == 1 + NodeCount(left) + NodeCount(right)
      && Depth(e) == 1 + Max(Depth(left), Depth(right))
  {
    var e := InfixOf(Add, left, right);
    assert SubFormulas(e) == [left, right] && SubFormulas(e)[1..] == [right] && [right][1..] == [];
    assert NodeCounts([], e) == 0 && MaxDepth([], e) == 0;
    assert NodeCounts([right], e) == NodeCount(right) && MaxDepth([right], e) == Max(Depth(right), 0);
  }

  // ---- What the parser counts on both texts ----

  lemma {:induction false} TestsCost(w: Writing, n: nat, parent: Unbound)
    requires Five < parent && w.style(parent).quotes
    ensures AllBelong(Tests(n), parent) && CriteriaCost(w, Tests(n), parent) == n
  {
    if n > 0 {
      TestsCost(w, n - 1, parent);
      assert Tests(n)[1..] == Tests(n - 1);
      assert TestCost(w, FiveTest, parent) == 1;
    }
  }

  lemma {:induction false} TestsNodes(n: nat, parent: Unbound)
    requires Five < parent
    ensures CriteriaNodes(Tests(n), parent) == 2 * n
  {
    if n > 0 {
      TestsNodes(n - 1, parent);
      assert Tests(n)[1..] == Tests(n - 1);
      assert ParserNodes(Five) == 1;
    }
  }

  lemma CountingIsPlural(sp: Spelling, n: nat)
    ensures !IsSingular(QuotingWriting(sp), Counting(n)) && WrittenValues(QuotingWriting(sp), Counting(n)) == []
  {
    ConditionalIsNamed(Counting(n));
  }

  lemma FiveIsPart(n: nat)
    requires n > 0
    ensures Five < Counting(n)
  {
    OperandsOfTests(n);
    assert SubFormulas(Counting(n))[0] in SubFormulas(Counting(n));
  }

  lemma CountingCosts(sp: Spelling, n: nat)
    requires n > 0
    ensures Cost(QuotingWriting(sp), Counting(n)) == n + 1 && ParserNodes(Counting(n)) == 2 * n + 1
  {
    FiveIsPart(n);
    CountingIsPlural(sp, n);
    TestsCost(QuotingWriting(sp), n, Counting(n));
    TestsNodes(n, Counting(n));
  }

  lemma SumCosts(w: Writing, left: Unbound, right: Unbound)
    ensures var e := InfixOf(Add, left, right);
      Cost(w, e) == 1 + Cost(w, left) + Cost(w, right) && ParserNodes(e) == 1 + ParserNodes(left) + ParserNodes(right)
  {
    var e := InfixOf(Add, left, right);
    assert SubFormulas(e) == [left, right] && SubFormulas(e)[1..] == [right] && [right][1..] == [];
    assert ListCost(w, [], e) == 0 && ListNodes([], e) == 0;
    assert ListCost(w, [right], e) == Cost(w, right) && ListNodes([right], e) == ParserNodes(right);
  }

  lemma {:induction false} ChainCosts(w: Writing, e: Unbound, more: nat, cost: nat, nodes: nat)
    requires Cost(w, e) == cost && ParserNodes(e) == nodes
    ensures Cost(w, Chain(e, more)) == cost + more * (cost + 1)
    ensures ParserNodes(Chain(e, more)) == nodes + more * (nodes + 1)
  {
    if more > 0 {
      ChainCosts(w, e, more - 1, cost, nodes);
      SumCosts(w, Chain(e, more - 1), e);
      assert more * (cost + 1) == (more - 1) * (cost + 1) + (cost + 1);
      assert more * (nodes + 1) == (more - 1) * (nodes + 1) + (nodes + 1);
    }
  }

  // ---- How long both texts are ----

  ghost predicate Short(items: seq<string>, length: nat) {
    forall i :: 0 <= i < |items| ==> |items[i]| <= length
  }

  lemma {:induction false} JoinIsShort(items: seq<string>, length: nat)
    requires Short(items, length)
    ensures |Join(items)| <= |items| * (length + 2)
  {
    if items != [] {
      assert items[0] == items[0];
      forall i | 0 <= i < |items[1..]| ensures |items[1..][i]| <= length {
        assert items[1..][i] == items[i + 1];
      }
      JoinIsShort(items[1..], length);
      assert |items| * (length + 2) == |items[1..]| * (length + 2) + (length + 2);
    }
  }

  lemma {:induction false} QuotedTestsAreShort(w: Writing, n: nat, parent: Unbound)
    requires Five < parent && w.style(parent).quotes && |w.sp.show(Number(5))| <= 5
    ensures AllBelong(Tests(n), parent) && Short(CriterionTexts(w, Tests(n), parent), 12)
  {
    if n > 0 {
      QuotedTestsAreShort(w, n - 1, parent);
      assert Tests(n)[1..] == Tests(n - 1);
      assert |ColumnText(Column)| == 12;
      assert |TestText(w, FiveTest, parent)| <= 8;
    }
  }

  lemma {:induction false} PrintedTestsAreShort(sp: Spelling, n: nat, parent: Unbound)
    requires Five < parent && |sp.show(Number(5))| <= 5
    ensures Short(CriteriaItems(sp, Tests(n), parent), 12)
  {
    if n > 0 {
      PrintedTestsAreShort(sp, n - 1, parent);
      assert Tests(n)[1..] == Tests(n - 1);
      assert |ColumnText(Column)| == 12;
      assert FormatCriterion(sp, FiveTest, parent) == Format(sp, Five) == sp.show(Number(5));
    }
  }

  lemma CountingIsShort(sp: Spelling, n: nat)
    requires 0 < n && |sp.show(Number(5))| <= 5
    ensures |Text(QuotingWriting(sp), Counting(n))| <= 28 * n + 10 && |Format(sp, Counting(n))| <= 28 * n + 10
  {
    var w, e := QuotingWriting(sp), Counting(n);
    FiveIsPart(n);
    CountingIsPlural(sp, n);
    QuotedTestsAreShort(w, n, e);
    PrintedTestsAreShort(sp, n, e);
    CriteriaBelong(e);
    JoinIsShort(CriterionTexts(w, Tests(n), e), 12);
    JoinIsShort(CriteriaItems(sp, Tests(n), e), 12);
    assert [] + CriterionTexts(w, Tests(n), e) == CriterionTexts(w, Tests(n), e);
    assert [] + CriteriaItems(sp, Tests(n), e) == CriteriaItems(sp, Tests(n), e);
    assert Format(sp, e) == ConditionalName(CountMatches) + "(" + Join(CriteriaItems(sp, Tests(n), e)) + ")";
    assert w.style(e).name == "COUNTIFS" && ConditionalName(CountMatches) == "COUNTIFS";
  }

  lemma SumIsShort(sp: Spelling, left: Unbound, right: Unbound)
    ensures var w, e := QuotingWriting(sp), InfixOf(Add, left, right);
      && |Text(w, e)| == |Text(w, left)| + |Text(w, right)| + 5
      && |Format(sp, e)| == |Format(sp, left)| + |Format(sp, right)| + 5
  {
    var w, e := QuotingWriting(sp), InfixOf(Add, left, right);
    assert !w.style(left).bare && !w.style(right).bare;
    assert TextAt(w, left, 2) == Text(w, left) && TextAt(w, right, 1) == Text(w, right);
    assert OpenText(w, e) == Text(w, left) + " " + OperatorText(Add) + " " + Text(w, right);
  }

  lemma {:induction false} ChainIsShort(sp: Spelling, e: Unbound, more: nat, length: nat)
    requires |Text(QuotingWriting(sp), e)| <= length && |Format(sp, e)| <= length
    ensures |Text(QuotingWriting(sp), Chain(e, more))| <= length + more * (length + 5)
    ensures |Format(sp, Chain(e, more))| <= length + more * (length + 5)
  {
    if more > 0 {
      ChainIsShort(sp, e, more - 1, length);
      SumIsShort(sp, Chain(e, more - 1), e);
      assert more * (length + 5) == (more - 1) * (length + 5) + (length + 5);
    }
  }

  // ---- Accepted, but not its print ----

  // The quoted text costs 143 nodes, the canonical print 271.
  lemma CrowdedMeasures(sp: Spelling, e: Unbound, n: nat)
    requires e == Counting(n) && n == 16
    ensures var w, all := QuotingWriting(sp), Chain(e, 7);
      WellFormed(all) && Cost(w, all) == 143 && NodeCount(all) == 143 && ParserNodes(all) == 271 && Depth(all) <= 9
  {
    CountingIsSmall(n);
    ChainIsSmall(e, 7, 17);
    CountingCosts(sp, n);
    ChainCosts(QuotingWriting(sp), e, 7, 17, 33);
  }

  lemma CrowdedFits(sp: Spelling, e: Unbound, n: nat)
    requires e == Counting(n) && n == 16 && |sp.show(Number(5))| <= 5
    ensures WritingFits(QuotingWriting(sp), Chain(e, 7)) && !PrintFits(sp, Chain(e, 7))
  {
    CrowdedMeasures(sp, e, n);
    CountingIsShort(sp, n);
    ChainIsShort(sp, e, 7, 458);
    assert !QuotingWriting(sp).style(Chain(e, 7)).bare;
  }

  // The parser accepts the quoted text, and refuses the canonical print of what
  // it accepted.
  method PrintIsRefused(rules: Rules, sp: Spelling, input: string) returns (first: Parsed<Unbound>, second: Parsed<Unbound>)
    requires Faithful(rules, sp) && |sp.show(Number(5))| <= 5
    requires input == TextAt(QuotingWriting(sp), Crowded(), 3)
    ensures first == Success(Crowded()) && second == ParseError
  {
    QuotingIsLegible(sp);
    CrowdedMeasures(sp, Counting(16), 16);
    CrowdedFits(sp, Counting(16), 16);
    first := ParseExpression(rules, sp, input, QuotingWriting(sp), Some(Crowded()));
    second := PrintAndParse(rules, sp, Crowded());
  }

  // ---- The same formula bound in a document ----

  function BoundTests(k: ColumnRef, n: nat): (r: seq<ColumnCriterion>)
    ensures |r| == n && forall c :: c in r ==> c == ColumnCriterion(k, Equal, Some(Literal(Number(5))))
  {
    if n == 0 then [] else [ColumnCriterion(k, Equal, Some(Literal(Number(5))))] + BoundTests(k, n - 1)
  }

  function BoundCounting(k: ColumnRef, n: nat): Expression {
    ColumnConditional(CountRows, BoundTests(k, n))
  }

  function BoundChain(e: Expression, more: nat): Expression {
    if more == 0 then e else Binary(Plus, BoundChain(e, more - 1), e)
  }

  lemma {:induction false} TestsBind(
    sp: Spelling, document: Document, index: AddressIndex, owner: FieldRef, k: ColumnRef, n: nat, known: Option<SchemaId>,
    parent: Unbound
  )
    requires BindCriterionColumn(document, index, Column) == Bound(k) && (known.Some? ==> known.value == k.schema)
    requires Five < parent
    ensures BindCriteria(sp, document, index, owner, Tests(n), known, parent) == Bound(BoundTests(k, n))
  {
    if n > 0 {
      TestsBind(sp, document, index, owner, k, n - 1, Some(k.schema), parent);
      assert Tests(n)[0] == FiveTest && Tests(n)[1..] == Tests(n - 1);
      assert BindTestOperand(sp, document, index, owner, Some(Five), parent) == Bound(Some(Literal(Number(5))));
    }
  }

  lemma {:induction false} TestsUnbind(sp: Spelling, document: Document, owner: FieldRef, k: ColumnRef, n: nat, parent: Expression)
    requires ColumnAddressOf(document, k) == Column && Literal(Number(5)) < parent
    ensures UnbindCriteria(sp, document, owner, BoundTests(k, n), parent) == Tests(n)
  {
    if n > 0 {
      TestsUnbind(sp, document, owner, k, n - 1, parent);
      assert BoundTests(k, n)[1..] == BoundTests(k, n - 1);
      assert UnbindCriterion(sp, document, owner, BoundTests(k, n)[0], parent) == FiveTest;
    }
  }

  lemma CountingBinds(sp: Spelling, document: Document, index: AddressIndex, owner: FieldRef, k: ColumnRef, n: nat)
    requires BindCriterionColumn(document, index, Column) == Bound(k) && ColumnAddressOf(document, k) == Column && n > 0
    ensures BindNode(sp, document, index, owner, Counting(n)) == Bound(BoundCounting(k, n))
    ensures Unbind(sp, document, owner, BoundCounting(k, n)) == Counting(n)
    ensures TypeOf(BoundCounting(k, n)) == Some(NumberResult)
  {
    var e := BoundCounting(k, n);
    FiveIsPart(n);
    TestsBind(sp, document, index, owner, k, n, None, Counting(n));
    assert e.criteria[0].operand == Some(Literal(Number(5)));
    assert Literal(Number(5)) in Children(e);
    TestsUnbind(sp, document, owner, k, n, e);
    forall c | c in Operands(e.criteria) ensures TypeOf(c) == Some(NumberResult) {
      var i :| 0 <= i < |e.criteria| && e.criteria[i].operand == Some(c);
      assert e.criteria[i] in e.criteria;
    }
  }

  lemma {:induction false} ChainBinds(
    sp: Spelling, document: Document, index: AddressIndex, owner: FieldRef, u: Unbound, e: Expression, more: nat
  )
    requires BindNode(sp, document, index, owner, u) == Bound(e) && Unbind(sp, document, owner, e) == u
    requires TypeOf(e) == Some(NumberResult)
    ensures BindNode(sp, document, index, owner, Chain(u, more)) == Bound(BoundChain(e, more))
    ensures Unbind(sp, document, owner, BoundChain(e, more)) == Chain(u, more)
    ensures TypeOf(BoundChain(e, more)) == Some(NumberResult)
  {
    if more > 0 {
      ChainBinds(sp, document, index, owner, u, e, more - 1);
    }
  }

  // A document that has the column, under unique identifiers.
  ghost predicate HasColumn(document: Document, k: ColumnRef) {
    && UniqueKeys(document) && ScalarColumn(document, k) && ColumnAddressAt(document, k) == Column
  }

  lemma ColumnBinds(document: Document, index: AddressIndex, k: ColumnRef)
    requires HasColumn(document, k) && Indexed(document, index)
    ensures BindCriterionColumn(document, index, Column) == Bound(k) && ColumnAddressOf(document, k) == Column
  {
    ColumnResolvesBack(document, index, k);
  }

  // The text parses and binds; the projection of what it bound to, parsed, is
  // refused.
  method ProjectionIsRefused(rules: Rules, sp: Spelling, document: Document, owner: FieldRef, input: string, ghost k: ColumnRef)
      returns (parsed: Parsed<Unbound>, first: Bound<Expression>, second: Option<Bound<Expression>>)
    requires Faithful(rules, sp) && DigitsSpelled(sp) && |sp.show(Number(5))| <= 5
    requires HasColumn(document, k) && input == TextAt(QuotingWriting(sp), Crowded(), 3)
    ensures parsed == Success(Crowded()) && first.Bound? && second == None
  {
    var printed;
    parsed, printed := PrintIsRefused(rules, sp, input);
    var index := Build(document);
    ghost var counting, e := BoundCounting(k, 16), BoundChain(BoundCounting(k, 16), 7);
    ColumnBinds(document, index.value, k);
    CountingBinds(sp, document, index.value, owner, k, 16);
    ChainBinds(sp, document, index.value, owner, Counting(16), counting, 7);
    CrowdedMeasures(sp, Counting(16), 16);
    CrowdedFits(sp, Counting(16), 16);
    first := BindExpression(sp, document, index.value, owner, Crowded());
    assert first == Bound(e);
    BoundIsAuthored(sp, document, index.value, owner, Crowded());
    assert NamesIdentifiers(sp, document, owner, e);
    second := ProjectParseBind(rules, sp, document, owner, first.value);
  }

  // There are spellings and documents for which this happens.
  lemma DecimalPrintIsShort(rules: Rules)
    ensures Faithful(DecimalRules(rules), DecimalSpelling()) && DigitsSpelled(DecimalSpelling())
    ensures |DecimalSpelling().show(Number(5))| <= 5
  {
    DecimalIsFaithful(rules);
  }

  const OneColumn := Document(map[0 := Schema("s", map[0 := FieldDefinition("f", NumberType, false)])], map[])

  lemma OneColumnHasIt()
    ensures HasColumn(OneColumn, ColumnRef(0, 0))
  {
    assert IsIdentifier("s") && IsIdentifier("f");
  }
}
