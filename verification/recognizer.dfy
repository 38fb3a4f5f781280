/** The table-driven recogniser: a pushdown automaton whose stack starts as
    `$` under the start symbol and which reads the word one character at a
    time, emitting exactly one verdict. */
module Recognizer {
  import opened Wrappers
  import opened Grammars
  import opened ParseTables
  import opened Derivations

  /** The four messages the recogniser can end with. */
  datatype Verdict =
    | Produced
    | NotProduced
    | UnexpectedToken(token: char)
    | UnexpectedTokenFor(token: char, nonterminal: char)

  /** The state of a run: the stack, with its top at the end, and the index
      of the current input token. */
  datatype Config = Config(stack: seq<char>, pos: nat)

  /** The outcome of one step: carry on from a new state, or stop with a
      verdict. */
  datatype Move = Next(next: Config) | Stop(verdict: Verdict)

  /** The current token: the character at `pos`, or `$` once the input is
      exhausted. */
  function Token(word: string, pos: nat): char {
    if pos < |word| then word[pos] else EndMarker
  }

  /** `$` stays at the bottom of the stack. */
  predicate Valid(c: Config) {
    |c.stack| >= 1 && c.stack[0] == EndMarker
  }

  /** The loop stops, reporting success, once only `$` is left. */
  predicate Accepting(c: Config) {
    c.stack == [EndMarker]
  }

  function Init(g: Grammar): (c: Config)
    ensures Valid(c) && !Accepting(c)
  {
    Config([EndMarker, g.start], 0)
  }

  /** Every nonterminal has a row, as it has once the table is built. */
  predicate RowsFor(g: Grammar, tbl: Table) {
    g.rules.Keys <= tbl.Keys
  }

  function Reverse(s: string): (r: string)
    ensures |r| == |s|
    ensures forall i | 0 <= i < |s| :: r[i] == s[|s| - 1 - i]
  {
    if |s| == 0 then [] else Reverse(s[1..]) + [s[0]]
  }

  /** One iteration of the recognition loop. A terminal on top is matched
      against the current token; a nonterminal on top is replaced by the
      production its row holds for the current token, pushed so that its
      leftmost symbol ends up on top (`/` pushes nothing). A top symbol that
      is neither a terminal nor a nonterminal leaves the state as it is, and
      so does an empty production: splitting it yields one empty token,
      which is pushed in place of the nonterminal and is neither, so the
      loop spins from then on. */
  function Step(g: Grammar, tbl: Table, word: string, c: Config): (r: Move)
    requires Valid(c) && !Accepting(c) && RowsFor(g, tbl)
    ensures r.Next? ==> Valid(r.next)
    ensures r.Next? ==> r.next.pos == c.pos || r.next.pos == c.pos + 1
    ensures r.Stop? ==> r.verdict != Produced
    ensures r.Stop? && r.verdict.UnexpectedTokenFor? ==>
              var a := r.verdict.nonterminal;
              a == c.stack[|c.stack| - 1] && a in g.rules && r.verdict.token !in tbl[a]
    ensures r == Stop(NotProduced) ==> Token(word, c.pos) == EndMarker
  {
    var n := |c.stack|;
    var top := c.stack[n - 1];
    var tok := Token(word, c.pos);
    if top in Terminals(g) then
      if top == tok then Next(Config(c.stack[..n - 1], c.pos + 1))
      else if tok == EndMarker then Stop(NotProduced)
      else Stop(UnexpectedToken(tok))
    else if top in g.rules then
      if tok in tbl[top] then
        var p := tbl[top][tok];
        if p == [Epsilon] then Next(Config(c.stack[..n - 1], c.pos))
        else if p == [] then Next(c)
        else Next(Config(c.stack[..n - 1] + Reverse(p), c.pos))
      else Stop(UnexpectedTokenFor(tok, top))
    else Next(c)
  }

  /** The recognition loop, bounded by `fuel` steps: `Produced` as soon as
      only `$` is left on the stack, whatever input remains unread. */
  function Run(g: Grammar, tbl: Table, word: string, c: Config, fuel: nat): (r: Option<Verdict>)
    requires Valid(c) && RowsFor(g, tbl)
    ensures r.Some? && r.value.UnexpectedTokenFor? ==>
              r.value.nonterminal in g.rules && r.value.token !in tbl[r.value.nonterminal]
    decreases fuel
  {
    if Accepting(c) then Some(Produced)
    else if fuel == 0 then None
    else
      match Step(g, tbl, word, c)
      case Stop(v) => Some(v)
      case Next(d) => Run(g, tbl, word, d, fuel - 1)
  }

  /** Building the table, then recognising `word` from the start symbol. */
  function Analyze(g: Grammar, word: string, fuel: nat): (r: Option<Verdict>)
    requires |word| > 0
    ensures r.Some? ==> BuildTable(g, fuel).Some?
    ensures r.Some? && r.value.UnexpectedTokenFor? ==>
              var a := r.value.nonterminal;
              a in g.rules && r.value.token !in BuildTable(g, fuel).value[a]
  {
    match BuildTable(g, fuel)
    case None => None
    case Some(tbl) => Run(g, tbl, word, Init(g), fuel)
  }

  /** A terminal on top is either matched, popping it and moving to the next
      token, or ends the run: with "does not produce" when the input is
      exhausted, with an unexpected token otherwise. */
  lemma TerminalOnTop(g: Grammar, tbl: Table, word: string, c: Config)
    requires Valid(c) && !Accepting(c) && RowsFor(g, tbl)
    requires c.stack[|c.stack| - 1] in Terminals(g)
    ensures var top, tok, r := c.stack[|c.stack| - 1], Token(word, c.pos), Step(g, tbl, word, c);
            && (r.Next? <==> top == tok)
            && (r.Next? ==> r.next.stack == c.stack[..|c.stack| - 1] && r.next.pos == c.pos + 1)
            && (r.Stop? ==> r.verdict == if tok == EndMarker then NotProduced else UnexpectedToken(tok))
  {
  }

  /** Expanding the nonterminal on top pops it and, unless the production is
      `/`, pushes the production so that reading the new part of the stack
      from the top down spells it, its leftmost symbol on top; the rest of
      the stack and the input position stay as they were. An empty
      production leaves the state unchanged, the loop's spin. */
  lemma ExpandPushesProduction(g: Grammar, tbl: Table, word: string, c: Config)
    requires Valid(c) && !Accepting(c) && RowsFor(g, tbl)
    requires c.stack[|c.stack| - 1] !in Terminals(g) && c.stack[|c.stack| - 1] in g.rules
    requires Token(word, c.pos) in tbl[c.stack[|c.stack| - 1]]
    ensures var n, p := |c.stack|, tbl[c.stack[|c.stack| - 1]][Token(word, c.pos)];
            var r := Step(g, tbl, word, c);
            && r.Next? && r.next.pos == c.pos
            && r.next.stack[..n - 1] == c.stack[..n - 1]
            && (p == [Epsilon] ==> |r.next.stack| == n - 1)
            && (p == [] ==> r.next == c)
            && (p != [Epsilon] && p != [] ==> Reverse(r.next.stack[n - 1..]) == p)
            && (p != [Epsilon] && p != [] ==> r.next.stack[|r.next.stack| - 1] == p[0])
  {
    var n, p := |c.stack|, tbl[c.stack[|c.stack| - 1]][Token(word, c.pos)];
    var d := Step(g, tbl, word, c).next;
    if p != [Epsilon] && p != [] {
      assert d.stack[n - 1..] == Reverse(p);
      ReverseReverse(p);
    }
  }

  /** A step that leaves the state unchanged, as an unknown top symbol or
      an empty production does, repeats for ever: no amount of fuel yields
      a verdict. */
  lemma {:induction false} SpinNeverEnds(g: Grammar, tbl: Table, word: string, c: Config, fuel: nat)
    requires Valid(c) && !Accepting(c) && RowsFor(g, tbl)
    requires Step(g, tbl, word, c) == Next(c)
    ensures Run(g, tbl, word, c, fuel) == None
    decreases fuel
  {
    if fuel > 0 {
      SpinNeverEnds(g, tbl, word, c, fuel - 1);
    }
  }

  /** Once the input is exhausted, a nonterminal on top of the stack always
      ends the run with an unexpected `$`: the built table of a grammar
      without `$` in its productions has no `$` column. */
  lemma EndOfInputRejects(g: Grammar, fuel: nat, word: string, c: Config)
    requires KeysUpper(g) && EndMarkerFree(g) && BuildTable(g, fuel).Some?
    requires Valid(c) && !Accepting(c) && c.pos >= |word|
    requires c.stack[|c.stack| - 1] in g.rules
    ensures Step(g, BuildTable(g, fuel).value, word, c) == Stop(UnexpectedTokenFor(EndMarker, c.stack[|c.stack| - 1]))
  {
    var a, tbl := c.stack[|c.stack| - 1], BuildTable(g, fuel).value;
    NoEndMarkerColumn(g, fuel, a);
    TerminalsExactly(g, a);
    NoColumnStops(g, tbl, word, c);
  }

  /** A nonterminal on top whose row has no column for the current token
      stops the run, naming both. */
  lemma NoColumnStops(g: Grammar, tbl: Table, word: string, c: Config)
    requires Valid(c) && !Accepting(c) && RowsFor(g, tbl)
    requires c.stack[|c.stack| - 1] !in Terminals(g) && c.stack[|c.stack| - 1] in g.rules
    requires Token(word, c.pos) !in tbl[c.stack[|c.stack| - 1]]
    ensures Step(g, tbl, word, c) == Stop(UnexpectedTokenFor(Token(word, c.pos), c.stack[|c.stack| - 1]))
  {
  }

  /** Every stack symbol above `$` is a terminal or a nonterminal with a
      rule. */
  predicate Classified(g: Grammar, c: Config) {
    forall i | 1 <= i < |c.stack| :: c.stack[i] in Terminals(g) || c.stack[i] in g.rules
  }

  /** For a well-formed grammar the stack only ever holds terminals and
      nonterminals above `$`, so every step that carries on either matches a
      terminal or expands a nonterminal: the branch that leaves the state
      unchanged for an unknown symbol is never taken. */
  lemma StepKeepsClassified(g: Grammar, tbl: Table, word: string, c: Config)
    requires WellFormed(g) && Valid(c) && !Accepting(c) && RowsFor(g, tbl) && Sound(g, tbl)
    requires Classified(g, c)
    ensures Step(g, tbl, word, c).Next? ==> Classified(g, Step(g, tbl, word, c).next)
    ensures Step(g, tbl, word, c).Next? ==>
              var top := c.stack[|c.stack| - 1];
              (top in Terminals(g) && Step(g, tbl, word, c).next.pos == c.pos + 1)
              || (top in g.rules && Token(word, c.pos) in tbl[top])
  {
    var n := |c.stack|;
    var top := c.stack[n - 1];
    var tok := Token(word, c.pos);
    if top !in Terminals(g) && top in g.rules && tok in tbl[top] {
      var p := tbl[top][tok];
      var d := Step(g, tbl, word, c).next;
      assert p in g.rules[top];
      assert ProductionOk(g, p);
      forall i | 1 <= i < |d.stack|
        ensures d.stack[i] in Terminals(g) || d.stack[i] in g.rules
      {
        if i >= n - 1 {
          var k := |p| - 1 - (i - (n - 1));
          assert d.stack[i] == p[k];
          if !IsUpper(p[k]) {
            ProductionSymbolIsTerminal(g, top, p, k);
          } else {
            assert p[k] in p;
          }
        }
      }
    }
  }

  /** The state the loop starts from is classified. */
  lemma InitClassified(g: Grammar)
    requires WellFormed(g)
    ensures Classified(g, Init(g))
  {
  }

  /** The state the loop has reached after `k` steps from `c`, unless it
      stopped or accepted before. */
  function Reach(g: Grammar, tbl: Table, word: string, c: Config, k: nat): (r: Option<Config>)
    requires Valid(c) && RowsFor(g, tbl)
    ensures r.Some? ==> Valid(r.value) && r.value.pos <= c.pos + k
    decreases k
  {
    if k == 0 then Some(c)
    else if Accepting(c) then None
    else
      match Step(g, tbl, word, c)
      case Stop(_) => None
      case Next(d) => Reach(g, tbl, word, d, k - 1)
  }

  /** On a well-formed grammar every state the loop reaches from a
      classified one is classified, so whenever it has not accepted, the
      symbol on top is a terminal or a nonterminal with a rule: the branch
      for an unknown symbol, which would spin forever, is never taken. */
  lemma {:induction false} ReachClassified(g: Grammar, tbl: Table, word: string, c: Config, k: nat)
    requires WellFormed(g) && Valid(c) && RowsFor(g, tbl) && Sound(g, tbl) && Classified(g, c)
    requires Reach(g, tbl, word, c, k).Some?
    ensures Classified(g, Reach(g, tbl, word, c, k).value)
    ensures var d := Reach(g, tbl, word, c, k).value;
            !Accepting(d) ==> d.stack[|d.stack| - 1] in Terminals(g) || d.stack[|d.stack| - 1] in g.rules
    decreases k
  {
    if k > 0 {
      StepKeepsClassified(g, tbl, word, c);
      ReachClassified(g, tbl, word, Step(g, tbl, word, c).next, k - 1);
    }
    var d := Reach(g, tbl, word, c, k).value;
    assert |d.stack| == 1 ==> d.stack == [EndMarker];
  }

  /** The same for the analysis: every state reached from the initial one
      on a well-formed grammar has a terminal or a nonterminal on top. */
  lemma AnalyzeNeverStalls(g: Grammar, word: string, fuel: nat, k: nat)
    requires WellFormed(g) && BuildTable(g, fuel).Some?
    requires Reach(g, BuildTable(g, fuel).value, word, Init(g), k).Some?
    ensures var d := Reach(g, BuildTable(g, fuel).value, word, Init(g), k).value;
            !Accepting(d) ==> d.stack[|d.stack| - 1] in Terminals(g) || d.stack[|d.stack| - 1] in g.rules
  {
    InitClassified(g);
    ReachClassified(g, BuildTable(g, fuel).value, word, Init(g), k);
  }

  lemma ReverseAppend(a: string, b: string)
    ensures Reverse(a + b) == Reverse(b) + Reverse(a)
  {
  }

  lemma ReverseReverse(a: string)
    ensures Reverse(Reverse(a)) == a
  {
  }

  /** The sentential form a state stands for: the tokens read so far, then
      the stack read from the top down to just above `$`. */
  function Form(word: string, c: Config): string
    requires Valid(c) && c.pos <= |word|
  {
    word[..c.pos] + Reverse(c.stack[1..])
  }

  /** Every step keeps the sentential form or rewrites one of its
      nonterminals by a production of that nonterminal, provided the
      table only holds productions of its rows and `$` is not a terminal. */
  lemma StepSound(g: Grammar, tbl: Table, word: string, c: Config)
    requires Valid(c) && !Accepting(c) && RowsFor(g, tbl) && Sound(g, tbl)
    requires EndMarker !in Terminals(g) && c.pos <= |word|
    requires Step(g, tbl, word, c).Next?
    ensures Step(g, tbl, word, c).next.pos <= |word|
    ensures Form(word, Step(g, tbl, word, c).next) == Form(word, c)
            || Rewrites(g, Form(word, c), Form(word, Step(g, tbl, word, c).next))
  {
    var d := Step(g, tbl, word, c).next;
    var n := |c.stack|;
    var top := c.stack[n - 1];
    var tok := Token(word, c.pos);
    if top in Terminals(g) {
      assert d == Config(c.stack[..n - 1], c.pos + 1);
      assert c.pos < |word| && word[c.pos] == top;
      MatchKeepsForm(word, c, d);
    } else if top in g.rules {
      var p := tbl[top][tok];
      if p != [] {
        assert p in g.rules[top];
        assert Reverse(Yield(p)) == if p == [Epsilon] then [] else Reverse(p);
        assert d.stack == c.stack[..n - 1] + Reverse(Yield(p));
        ExpandRewritesForm(g, word, c, d, p);
      }
    }
  }

  /** Matching the top terminal against the current token moves it from
      the stack to the read part of the form, which stays the same. */
  lemma MatchKeepsForm(word: string, c: Config, d: Config)
    requires Valid(c) && |c.stack| >= 2 && c.pos < |word|
    requires word[c.pos] == c.stack[|c.stack| - 1]
    requires d == Config(c.stack[..|c.stack| - 1], c.pos + 1)
    ensures Valid(d) && d.pos <= |word| && Form(word, d) == Form(word, c)
  {
    var n := |c.stack|;
    var top, below := c.stack[n - 1], c.stack[1..n - 1];
    assert c.stack[1..] == below + [top];
    ReverseAppend(below, [top]);
    assert d.stack[1..] == below;
    assert word[..c.pos + 1] == word[..c.pos] + [top];
  }

  /** Replacing the top nonterminal by a production of its rule rewrites
      that nonterminal in the form. */
  lemma ExpandRewritesForm(g: Grammar, word: string, c: Config, d: Config, p: string)
    requires Valid(c) && |c.stack| >= 2 && c.pos <= |word|
    requires c.stack[|c.stack| - 1] in g.rules && p in g.rules[c.stack[|c.stack| - 1]]
    requires d == Config(c.stack[..|c.stack| - 1] + Reverse(Yield(p)), c.pos)
    ensures Valid(d) && Rewrites(g, Form(word, c), Form(word, d))
  {
    var n := |c.stack|;
    var top, below, yp := c.stack[n - 1], c.stack[1..n - 1], Yield(p);
    var read, rb := word[..c.pos], Reverse(below);
    assert c.stack[1..] == below + [top];
    ReverseAppend(below, [top]);
    assert d.stack[1..] == below + Reverse(yp);
    ReverseAppend(below, Reverse(yp));
    ReverseReverse(yp);
    var x, y := Form(word, c), Form(word, d);
    assert x == read + [top] + rb;
    assert y == read + yp + rb;
    assert x[..c.pos] == read && x[c.pos] == top && x[c.pos + 1..] == rb;
    assert RewriteAt(g, x, y, c.pos, p);
  }

  /** Whenever the run reports `Produced`, some prefix of the word (not
      necessarily all of it) is derivable from the start symbol. */
  lemma {:induction false} RunSound(g: Grammar, tbl: Table, word: string, c: Config, fuel: nat, forms: seq<string>)
    requires Valid(c) && RowsFor(g, tbl) && Sound(g, tbl)
    requires EndMarker !in Terminals(g) && c.pos <= |word|
    requires DerivationOf(g, forms, Form(word, c))
    requires Run(g, tbl, word, c, fuel) == Some(Produced)
    ensures GeneratesPrefix(g, word)
    decreases fuel
  {
    if Accepting(c) {
      AcceptedPrefix(g, word, c, forms);
    } else {
      var m := Step(g, tbl, word, c);
      assert fuel > 0 && m.Next?;
      var d := m.next;
      assert Run(g, tbl, word, d, fuel - 1) == Some(Produced);
      StepSound(g, tbl, word, c);
      var x, y := Form(word, c), Form(word, d);
      if y == x {
        RunSound(g, tbl, word, d, fuel - 1, forms);
      } else {
        DerivationSnoc(g, forms, x, y);
        RunSound(g, tbl, word, d, fuel - 1, forms + [y]);
      }
    }
  }

  /** Some prefix of `word`, possibly all of it, is in the language. */
  ghost predicate GeneratesPrefix(g: Grammar, word: string) {
    exists k | 0 <= k <= |word| :: Generates(g, word[..k])
  }

  /** Once only `$` is left, the sentential form is the part of the word
      read so far. */
  lemma AcceptedPrefix(g: Grammar, word: string, c: Config, forms: seq<string>)
    requires Valid(c) && Accepting(c) && c.pos <= |word|
    requires DerivationOf(g, forms, Form(word, c))
    ensures GeneratesPrefix(g, word)
  {
    assert Form(word, c) == word[..c.pos];
    assert Generates(g, word[..c.pos]);
  }

  /** Soundness of the whole analysis for a grammar without `$` in its
      productions: a `Produced` verdict means that some prefix of the word
      is in the language of the grammar. */
  lemma AnalyzeSound(g: Grammar, word: string, fuel: nat)
    requires |word| > 0 && EndMarker !in Terminals(g)
    requires Analyze(g, word, fuel) == Some(Produced)
    ensures exists k | 0 <= k <= |word| :: Generates(g, word[..k])
  {
    var tbl := BuildTable(g, fuel).value;
    var c := Init(g);
    assert Form(word, c) == [g.start];
    assert DerivationOf(g, [[g.start]], Form(word, c));
    RunSound(g, tbl, word, c, fuel, [[g.start]]);
  }

  /** The loop with the acceptance test it evidently intends: once only `$`
      is left, the word is produced only if it has been read completely,
      and otherwise the first unread character is unexpected. */
  function RunComplete(g: Grammar, tbl: Table, word: string, c: Config, fuel: nat): (r: Option<Verdict>)
    requires Valid(c) && RowsFor(g, tbl)
    ensures r.Some? && r.value.UnexpectedTokenFor? ==>
              r.value.nonterminal in g.rules && r.value.token !in tbl[r.value.nonterminal]
    decreases fuel
  {
    if Accepting(c) then Some(if c.pos >= |word| then Produced else UnexpectedToken(word[c.pos]))
    else if fuel == 0 then None
    else
      match Step(g, tbl, word, c)
      case Stop(v) => Some(v)
      case Next(d) => RunComplete(g, tbl, word, d, fuel - 1)
  }

  function AnalyzeComplete(g: Grammar, word: string, fuel: nat): (r: Option<Verdict>)
    requires |word| > 0
    ensures r.Some? ==> BuildTable(g, fuel).Some?
  {
    match BuildTable(g, fuel)
    case None => None
    case Some(tbl) => RunComplete(g, tbl, word, Init(g), fuel)
  }

  /** With the complete-input test, `Produced` means the whole word is
      derivable from the start symbol. */
  lemma {:induction false} RunCompleteSound(g: Grammar, tbl: Table, word: string, c: Config, fuel: nat, forms: seq<string>)
    requires Valid(c) && RowsFor(g, tbl) && Sound(g, tbl)
    requires EndMarker !in Terminals(g) && c.pos <= |word|
    requires DerivationOf(g, forms, Form(word, c))
    requires RunComplete(g, tbl, word, c, fuel) == Some(Produced)
    ensures Generates(g, word)
    decreases fuel
  {
    if Accepting(c) {
      assert c.pos == |word|;
      assert Form(word, c) == word;
    } else {
      var m := Step(g, tbl, word, c);
      assert fuel > 0 && m.Next?;
      var d := m.next;
      assert RunComplete(g, tbl, word, d, fuel - 1) == Some(Produced);
      StepSound(g, tbl, word, c);
      var x, y := Form(word, c), Form(word, d);
      if y == x {
        RunCompleteSound(g, tbl, word, d, fuel - 1, forms);
      } else {
        DerivationSnoc(g, forms, x, y);
        RunCompleteSound(g, tbl, word, d, fuel - 1, forms + [y]);
      }
    }
  }

  lemma AnalyzeCompleteSound(g: Grammar, word: string, fuel: nat)
    requires |word| > 0 && EndMarker !in Terminals(g)
    requires AnalyzeComplete(g, word, fuel) == Some(Produced)
    ensures Generates(g, word)
  {
    var tbl := BuildTable(g, fuel).value;
    var c := Init(g);
    assert Form(word, c) == [g.start];
    assert DerivationOf(g, [[g.start]], Form(word, c));
    RunCompleteSound(g, tbl, word, c, fuel, [[g.start]]);
  }

  /** The two loops take the same steps and differ only in the verdict on
      reaching `$`: where the loop as written reports `Produced` the
      corrected one reports `Produced` or an unexpected token, and
      elsewhere they agree. */
  lemma {:induction false} RunCompleteAgrees(g: Grammar, tbl: Table, word: string, c: Config, fuel: nat)
    requires Valid(c) && RowsFor(g, tbl)
    ensures Run(g, tbl, word, c, fuel) != Some(Produced) ==>
              RunComplete(g, tbl, word, c, fuel) == Run(g, tbl, word, c, fuel)
    ensures Run(g, tbl, word, c, fuel) == Some(Produced) ==>
              RunComplete(g, tbl, word, c, fuel).Some?
              && (RunComplete(g, tbl, word, c, fuel).value == Produced
                  || RunComplete(g, tbl, word, c, fuel).value.UnexpectedToken?)
    decreases fuel
  {
    if !Accepting(c) && fuel > 0 && Step(g, tbl, word, c).Next? {
      RunCompleteAgrees(g, tbl, word, Step(g, tbl, word, c).next, fuel - 1);
    }
  }
}
