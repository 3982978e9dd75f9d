/** The greedy wildcard matcher against the recursive meaning of a pattern. */
module Wildcards {
  import opened Model
  import opened Criteria

  // The rest of the cell from `c` matches the rest of the pattern from `t`.
  predicate At(cell: string, tokens: seq<PatternToken>, c: nat, t: nat)
    requires c <= |cell| && t <= |tokens|
  {
    TokensMatch(cell[c..], tokens[t..])
  }

  // Some later position of the cell matches from `t`.
  ghost predicate Later(cell: string, tokens: seq<PatternToken>, from: nat, t: nat)
    requires t <= |tokens|
  {
    exists k :: from <= k <= |cell| && At(cell, tokens, k, t)
  }

  predicate IsPlain(tokens: seq<PatternToken>, t: nat, n: nat)
    requires t + n <= |tokens|
  {
    forall i :: t <= i < t + n ==> tokens[i] != Star
  }

  predicate Takes(token: PatternToken, c: char) {
    token == AnyCharacter || token == Exactly(c)
  }

  lemma PlainStep(cell: string, tokens: seq<PatternToken>, c: nat, t: nat)
    requires c <= |cell| && t < |tokens| && tokens[t] != Star
    ensures At(cell, tokens, c, t) <==> c < |cell| && Takes(tokens[t], cell[c]) && At(cell, tokens, c + 1, t + 1)
  {
    assert tokens[t..][1..] == tokens[t + 1..];
    if c < |cell| {
      assert cell[c..][1..] == cell[c + 1..];
    }
  }

  // A run without stars takes one character a token.
  lemma {:induction false} PlainRun(cell: string, tokens: seq<PatternToken>, c: nat, t: nat, n: nat)
    requires c <= |cell| && t + n <= |tokens| && IsPlain(tokens, t, n) && At(cell, tokens, c, t)
    ensures c + n <= |cell| && At(cell, tokens, c + n, t + n)
    decreases n
  {
    if n > 0 {
      PlainStep(cell, tokens, c, t);
      PlainRun(cell, tokens, c + 1, t + 1, n - 1);
    }
  }

  // A star takes any number of characters.
  lemma {:induction false} StarTakesAny(cell: string, tokens: seq<PatternToken>, c: nat, t: nat)
    requires c <= |cell| && t < |tokens| && tokens[t] == Star
    ensures At(cell, tokens, c, t) <==> Later(cell, tokens, c, t + 1)
    decreases |cell| - c
  {
    assert tokens[t..][0] == Star && tokens[t..][1..] == tokens[t + 1..];
    if c < |cell| {
      assert cell[c..][1..] == cell[c + 1..];
      StarTakesAny(cell, tokens, c + 1, t);
      assert Later(cell, tokens, c, t + 1) <==> At(cell, tokens, c, t + 1) || Later(cell, tokens, c + 1, t + 1);
    } else {
      assert At(cell, tokens, c, t) <==> At(cell, tokens, c, t + 1);
    }
  }

  lemma PatternEnds(cell: string, tokens: seq<PatternToken>, c: nat)
    requires c <= |cell|
    ensures At(cell, tokens, c, |tokens|) <==> c == |cell|
  {
    assert tokens[|tokens|..] == [];
  }

  // Where the match stands: nothing starred yet, or the last star and the
  // position its current attempt started from.
  ghost predicate Matching(
    cell: string, tokens: seq<PatternToken>, c: nat, t: nat, star: Option<nat>, starred: nat, answer: bool
  ) {
    && c <= |cell| && t <= |tokens|
    && match star
       case None => answer <==> At(cell, tokens, c, t)
       case Some(s) =>
         && s < t && starred <= c && c - starred == t - (s + 1)
         && tokens[s] == Star && IsPlain(tokens, s + 1, t - (s + 1))
         && (At(cell, tokens, starred, s + 1) <==> At(cell, tokens, c, t))
         && (answer <==> Later(cell, tokens, starred, s + 1))
  }

  lemma TakeCharacter(cell: string, tokens: seq<PatternToken>, c: nat, t: nat, star: Option<nat>, starred: nat, answer: bool)
    requires Matching(cell, tokens, c, t, star, starred, answer)
    requires c < |cell| && t < |tokens| && tokens[t] != Star && Takes(tokens[t], cell[c])
    ensures Matching(cell, tokens, c + 1, t + 1, star, starred, answer)
  {
    PlainStep(cell, tokens, c, t);
  }

  // Only the last star ever needs another attempt.
  lemma TakeStar(cell: string, tokens: seq<PatternToken>, c: nat, t: nat, star: Option<nat>, starred: nat, answer: bool)
    requires Matching(cell, tokens, c, t, star, starred, answer) && t < |tokens| && tokens[t] == Star
    ensures Matching(cell, tokens, c, t + 1, Some(t), c, answer)
  {
    StarTakesAny(cell, tokens, c, t);
    if star.Some? && answer {
      var k :| starred <= k <= |cell| && At(cell, tokens, k, star.value + 1);
      var n := t - (star.value + 1);
      PlainRun(cell, tokens, k, star.value + 1, n);
      StarTakesAny(cell, tokens, k + n, t);
      var j :| k + n <= j <= |cell| && At(cell, tokens, j, t + 1);
      assert Later(cell, tokens, c, t + 1);
    }
  }

  lemma Refuse(cell: string, tokens: seq<PatternToken>, c: nat, t: nat, star: Option<nat>, starred: nat, answer: bool)
    requires Matching(cell, tokens, c, t, star, starred, answer) && c < |cell|
    requires t < |tokens| ==> tokens[t] != Star && !Takes(tokens[t], cell[c])
    ensures star == None ==> !answer
    ensures star.Some? ==> Matching(cell, tokens, starred + 1, star.value + 1, star, starred + 1, answer)
  {
    if t < |tokens| { PlainStep(cell, tokens, c, t); } else { PatternEnds(cell, tokens, c); }
    if star.Some? {
      assert Later(cell, tokens, starred, star.value + 1)
        <==> At(cell, tokens, starred, star.value + 1) || Later(cell, tokens, starred + 1, star.value + 1);
    }
  }

  // At the end of the cell only stars may be left.
  lemma CellEnds(cell: string, tokens: seq<PatternToken>, t: nat, star: Option<nat>, starred: nat, answer: bool)
    requires Matching(cell, tokens, |cell|, t, star, starred, answer)
    ensures answer <==> At(cell, tokens, |cell|, t)
  {
    if star.Some? && answer {
      var k :| starred <= k <= |cell| && At(cell, tokens, k, star.value + 1);
      PlainRun(cell, tokens, k, star.value + 1, t - (star.value + 1));
    }
  }

  // wildcard_match.
  method GreedyMatch(rules: Rules, cell: string, pattern: string) returns (matched: bool)
    ensures matched == WildcardMatch(rules, cell, pattern)
  {
    var folded, tokens := Lowercase(rules, cell), PatternTokens(rules, pattern);
    ghost var answer := TokensMatch(folded, tokens);
    var c: nat, t: nat := 0, 0;
    var star: Option<nat>, starred: nat := None, 0;
    assert folded[0..] == folded && tokens[0..] == tokens;
    while c < |folded|
      invariant Matching(folded, tokens, c, t, star, starred, answer)
      decreases if star.Some? then |tokens| - star.value else |tokens| + 1, |folded| - starred, |folded| - c
    {
      if t < |tokens| && tokens[t] != Star && Takes(tokens[t], folded[c]) {
        TakeCharacter(folded, tokens, c, t, star, starred, answer);
        c, t := c + 1, t + 1;
      } else if t < |tokens| && tokens[t] == Star {
        TakeStar(folded, tokens, c, t, star, starred, answer);
        star, starred, t := Some(t), c, t + 1;
      } else {
        Refuse(folded, tokens, c, t, star, starred, answer);
        if star == None {
          return false;
        }
        starred := starred + 1;
        c, t := starred, star.value + 1;
      }
    }
    CellEnds(folded, tokens, t, star, starred, answer);
    while t < |tokens| && tokens[t] == Star
      invariant t <= |tokens| && (answer <==> At(folded, tokens, |folded|, t))
    {
      StarTakesAny(folded, tokens, |folded|, t);
      t := t + 1;
    }
    if t == |tokens| { PatternEnds(folded, tokens, |folded|); } else { PlainStep(folded, tokens, |folded|, t); }
    matched := t == |tokens|;
  }
}
