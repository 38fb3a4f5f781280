/** Concrete grammars on which the parser's behaviour departs from the
    textbook construction. */
module Examples {
  import opened Wrappers
  import opened Grammars
  import opened FirstSets
  import opened FollowSets
  import opened ParseTables
  import opened Recognizer
  import opened Derivations

  /** S -> a */
  function Single(): Grammar {
    Grammar('S', map['S' := ["a"]])
  }

  lemma SingleTerminals()
    ensures Terminals(Single()) == {'a'}
  {
    var g := Single();
    forall c
      ensures c in Terminals(g) <==> c == 'a'
    {
      TerminalsExactly(g, c);
      assert g.rules.Keys == {'S'} && g.rules['S'] == ["a"];
      assert "a" in g.rules['S'] && "a"[0] == 'a';
      if c in Terminals(g) {
        var a, p :| a in g.rules && p in g.rules[a] && c in p;
        assert a == 'S' && p == "a";
        assert c == 'a';
      }
      if c == 'a' {
        assert !IsUpper(c);
        assert 'S' in g.rules && "a" in g.rules['S'] && c in "a";
        assert c in Terminals(g);
      }
    }
  }

  /** The table of S -> a has the single cell (S, a) holding `a`. */
  lemma SingleTable(fuel: nat)
    ensures BuildTable(Single(), fuel) == Some(map['S' := map['a' := "a"]])
  {
    var g := Single();
    SingleTerminals();
    assert Cell(g, 'S', 'a', fuel) == Some(Some("a"));
    assert AllCellsCompute(g, fuel);
    assert Row(g, 'S', fuel) == map['a' := "a"];
    assert RowKeys(g) == {'S'};
    assert BuildTable(g, fuel).value == map['S' := Row(g, 'S', fuel)];
  }

  /** Acceptance ignores unread input: S -> a accepts "aa", because the
      stack is down to `$` after the first `a`, though "aa" is not in the
      language of the grammar. */
  lemma TrailingInputAccepted()
    ensures Analyze(Single(), "aa", 2) == Some(Produced)
    ensures !Generates(Single(), "aa")
  {
    SingleTable(2);
    SingleTerminals();
    SingleRuns(Single(), map['S' := map['a' := "a"]]);
    SingleNotAa();
  }

  /** The runs on "aa", by the loop as written and by the corrected one. */
  lemma SingleRuns(g: Grammar, tbl: Table)
    requires g == Single() && tbl == map['S' := map['a' := "a"]] && Terminals(g) == {'a'}
    ensures RowsFor(g, tbl)
    ensures Run(g, tbl, "aa", Init(g), 2) == Some(Produced)
    ensures RunComplete(g, tbl, "aa", Init(g), 2) == Some(UnexpectedToken('a'))
  {
    assert g.rules.Keys == {'S'} && g.start == 'S';
    var c0, c1, c2 := Init(g), Config(['$', 'a'], 0), Config(['$'], 1);
    assert c0.stack == ['$', 'S'];
    assert Reverse("a") == "a";
    assert Step(g, tbl, "aa", c0) == Next(c1);
    assert Step(g, tbl, "aa", c1) == Next(c2);
  }

  /** Every sentential form derived from S in S -> a is `S` or `a`. */
  lemma {:induction false} SingleForms(forms: seq<string>, i: nat)
    requires IsDerivation(Single(), forms) && forms[0] == "S" && i < |forms|
    ensures forms[i] == "S" || forms[i] == "a"
    decreases i
  {
    if i > 0 {
      SingleForms(forms, i - 1);
      var g, x := Single(), forms[i - 1];
      assert Rewrites(g, x, forms[i]);
      var j, p :| RewriteAt(g, x, forms[i], j, p);
      assert x[j] in g.rules && x == "S" && j == 0;
      assert p == "a" && Yield(p) == "a";
      assert forms[i] == [] + "a" + [];
    }
  }

  /** The grammar S -> a does not generate "aa". */
  lemma SingleNotAa()
    ensures !Generates(Single(), "aa")
  {
    if Generates(Single(), "aa") {
      var forms :| DerivationOf(Single(), forms, "aa");
      SingleForms(forms, |forms| - 1);
    }
  }

  /** With the complete-input test the same word is rejected at its second
      `a`. */
  lemma TrailingInputRejected()
    ensures AnalyzeComplete(Single(), "aa", 2) == Some(UnexpectedToken('a'))
  {
    SingleTable(2);
    SingleTerminals();
    SingleRuns(Single(), map['S' := map['a' := "a"]]);
  }

  /** S -> aA, A -> bA | / : an `a` followed by any number of `b`s. */
  function Repeat(): Grammar {
    Grammar('S', map['S' := ["aA"], 'A' := ["bA", "/"]])
  }

  lemma RepeatTerminals()
    ensures Terminals(Repeat()) == {'a', 'b', '/'}
  {
    var g := Repeat();
    assert g.rules.Keys == {'S', 'A'} && g.rules['S'] == ["aA"] && g.rules['A'] == ["bA", "/"];
    forall c
      ensures c in Terminals(g) <==> c in {'a', 'b', '/'}
    {
      TerminalsExactly(g, c);
      if c in Terminals(g) {
        var a, p :| a in g.rules && p in g.rules[a] && c in p;
        assert !IsUpper(c);
        if a == 'S' {
          assert p == "aA";
          assert c == 'a' || c == 'A';
        } else {
          assert a == 'A';
          assert p == "bA" || p == "/";
          assert c == 'b' || c == 'A' || c == '/';
        }
      }
      if c == 'a' {
        assert 'S' in g.rules && "aA" in g.rules['S'] && c in "aA" && !IsUpper(c);
      } else if c == 'b' {
        assert 'A' in g.rules && "bA" in g.rules['A'] && c in "bA" && !IsUpper(c);
      } else if c == '/' {
        assert 'A' in g.rules && "/" in g.rules['A'] && c in "/" && !IsUpper(c);
      }
    }
  }

  lemma RepeatFirst()
    ensures First(Repeat(), "A", 1) == Some({'b', '/'})
    ensures First(Repeat(), "S", 1) == Some({'a'})
    ensures First(Repeat(), "bA", 1) == Some({'b'})
    ensures First(Repeat(), "/", 1) == Some({'/'})
    ensures First(Repeat(), "aA", 1) == Some({'a'})
  {
    var g := Repeat();
    var pa, ps, pe := ["bA", "/"], ["aA"], ["/"];
    assert First(g, "/", 0) == Some({'/'});
    assert First(g, "bA", 0) == Some({'b'});
    assert First(g, "aA", 0) == Some({'a'});
    assert FirstOfAll(g, [], 0) == Some({});
    assert pe[0] == "/" && pe[1..] == [];
    assert FirstOfAll(g, pe, 0).Some? && FirstOfAll(g, pe, 0).value == {'/'};
    assert pa[0] == "bA" && pa[1..] == pe;
    assert FirstOfAll(g, pa, 0).Some? && FirstOfAll(g, pa, 0).value == {'b', '/'};
    assert ps[0] == "aA" && ps[1..] == [];
    assert FirstOfAll(g, ps, 0).Some? && FirstOfAll(g, ps, 0).value == {'a'};
    assert g.rules['A'] == pa && g.rules['S'] == ps;
    assert "A"[1..] == "";
  }

  lemma RepeatOrder()
    ensures Ascending(Repeat().rules.Keys) == ['A', 'S']
  {
    assert Repeat().rules.Keys == {'A', 'S'};
    AscendingPair(Repeat().rules.Keys, 'A', 'S');
  }

  /** A two-element set is listed smaller element first. */
  lemma AscendingPair(s: set<char>, x: char, y: char)
    requires s == {x, y} && x < y
    ensures Ascending(s) == [x, y]
  {
    var r := Ascending(s);
    assert |r| == 2 && r[0] in s && r[1] in s && r[0] < r[1];
  }

  /** FOLLOW of A holds `a` and even `/`: the trailing A of `bA` and of `aA`
      adds FIRST of the left-hand sides A and S, not their FOLLOW sets. */
  lemma RepeatFollowA()
    ensures Follow(Repeat(), 'A', 1) == Some({'a', 'b', '/'})
  {
    var g := Repeat();
    var pa, ps := ["bA", "/"], ["aA"];
    assert g.rules['A'] == pa && g.rules['S'] == ps;
    RepeatOrder();
    RepeatFirst();
    RepeatFollowAProds(g);
    var lhss := ['A', 'S'];
    assert lhss[0] == 'A' && lhss[1..][0] == 'S' && lhss[1..][1..] == [];
    assert FollowRules(g, 'A', lhss[1..], {'b', '/'}, 1) == Some({'a', 'b', '/'});
    assert FollowRules(g, 'A', lhss, {}, 1) == Some({'a', 'b', '/'});
  }

  lemma RepeatFollowAProds(g: Grammar)
    requires g == Repeat()
    ensures FollowProds(g, 'A', 'A', ["bA", "/"], {}, 1) == Some({'b', '/'})
    ensures FollowProds(g, 'A', 'S', ["aA"], {'b', '/'}, 1) == Some({'a', 'b', '/'})
  {
    var pa, ps := ["bA", "/"], ["aA"];
    RepeatFollowASteps(g);
    assert pa[0] == "bA" && pa[1..][0] == "/" && pa[1..][1..] == [] && ps[0] == "aA" && ps[1..] == [];
    FollowProdsCons(g, 'A', 'A', pa, {}, 1, {'b', '/'});
    FollowProdsCons(g, 'A', 'A', pa[1..], {'b', '/'}, 1, {'b', '/'});
    FollowProdsCons(g, 'A', 'S', ps, {'b', '/'}, 1, {'a', 'b', '/'});
  }

  /** One production of a rule, then the rest. */
  lemma FollowProdsCons(g: Grammar, n: char, lhs: char, ps: seq<string>, acc: set<char>, fuel: nat, acc': set<char>)
    requires |ps| > 0 && FollowStep(g, n, lhs, ps[0], acc, fuel) == Some(acc')
    ensures FollowProds(g, n, lhs, ps, acc, fuel) == FollowProds(g, n, lhs, ps[1..], acc', fuel)
    ensures FollowProds(g, n, lhs, [], acc', fuel) == Some(acc')
  {
  }

  lemma RepeatFollowASteps(g: Grammar)
    requires g == Repeat()
    ensures FollowStep(g, 'A', 'A', "bA", {}, 1) == Some({'b', '/'})
    ensures FollowStep(g, 'A', 'A', "/", {'b', '/'}, 1) == Some({'b', '/'})
    ensures FollowStep(g, 'A', 'S', "aA", {'b', '/'}, 1) == Some({'a', 'b', '/'})
  {
    RepeatFirst();
    TrailingStep(g, 'A', 'A', 'b', {}, 1);
    assert First(g, ['A'], 1) == Some({'b', '/'});
    var e: set<char> := {};
    assert e + {'b', '/'} == {'b', '/'};
    assert FollowStep(g, 'A', 'A', ['b', 'A'], e, 1) == Some({'b', '/'});
    assert "bA" == ['b', 'A'];
    FollowStepAbsent(g, 'A', 'A', "/", {'b', '/'}, 1);
    TrailingStep(g, 'A', 'S', 'a', {'b', '/'}, 1);
    assert First(g, ['S'], 1) == Some({'a'});
    assert {'b', '/'} + {'a'} == {'a', 'b', '/'};
    assert FollowStep(g, 'A', 'S', ['a', 'A'], {'b', '/'}, 1) == Some({'a', 'b', '/'});
    assert "aA" == ['a', 'A'];
  }

  /** A two-symbol production `x n` adds FIRST of its left-hand side. */
  lemma TrailingStep(g: Grammar, n: char, lhs: char, x: char, acc: set<char>, fuel: nat)
    requires x != n
    ensures FollowStep(g, n, lhs, [x, n], acc, fuel) ==
              match First(g, [lhs], fuel)
              case None => None
              case Some(fl) => Some(acc + fl)
  {
    FollowStepAt(g, n, lhs, [x], [], acc, fuel);
    assert [x] + [n] + [] == [x, n];
  }

  /** FOLLOW of the start symbol S is just `$`: S occurs in no production. */
  lemma RepeatFollowS()
    ensures Follow(Repeat(), 'S', 1) == Some({'$'})
  {
    var g := Repeat();
    var pa, ps := ["bA", "/"], ["aA"];
    assert g.rules['A'] == pa && g.rules['S'] == ps;
    RepeatOrder();
    RepeatFollowSProds(g);
    var lhss := ['A', 'S'];
    assert lhss[0] == 'A' && lhss[1..][0] == 'S' && lhss[1..][1..] == [];
    assert FollowRules(g, 'S', lhss[1..], {'$'}, 1) == Some({'$'});
    assert FollowRules(g, 'S', lhss, {'$'}, 1) == Some({'$'});
  }

  lemma RepeatFollowSProds(g: Grammar)
    requires g == Repeat()
    ensures FollowProds(g, 'S', 'A', ["bA", "/"], {'$'}, 1) == Some({'$'})
    ensures FollowProds(g, 'S', 'S', ["aA"], {'$'}, 1) == Some({'$'})
  {
    var pa, ps := ["bA", "/"], ["aA"];
    assert forall p | p in pa :: |p| > 0 && 'S' !in p;
    assert forall p | p in ps :: |p| > 0 && 'S' !in p;
    FollowProdsAbsent(g, 'S', 'A', pa, {'$'}, 1);
    FollowProdsAbsent(g, 'S', 'S', ps, {'$'}, 1);
  }

  /** The table of the grammar: row A holds `/` in every column, because for
      column `b` the later production `/` overwrites `bA`, and there is no
      column for `$`. */
  lemma RepeatTable()
    ensures BuildTable(Repeat(), 1) == Some(RepeatTableValue())
  {
    var g := Repeat();
    RepeatRowKeys(g);
    RepeatTerminals();
    RepeatCellsS(g);
    RepeatCellsA(g);
    RepeatTableFromCells(g, 1);
  }

  // The lemmas from here to `RowOfCells` each establish one piece of the
  // table above: its rows, one row, or how the rows are assembled from the
  // cells. They take the grammar, the fuel, the table and the terminal set
  // as parameters constrained to their values rather than writing the
  // literals out, which keeps each proof obligation small enough for the
  // solver; none of them states anything beyond `RepeatTable`.

  lemma RepeatRowKeys(g: Grammar)
    requires g == Repeat()
    ensures RowKeys(g) == {'A', 'S'}
  {
    assert g.rules.Keys == {'A', 'S'} && g.start == 'S';
  }

  /** Assembling the table from its six cells. */
  lemma RepeatTableFromCells(g: Grammar, fuel: nat)
    requires RowKeys(g) == {'A', 'S'} && Terminals(g) == {'a', 'b', '/'}
    requires Cell(g, 'S', 'a', fuel) == Some(Some("aA"))
    requires Cell(g, 'S', 'b', fuel) == Some(None)
    requires Cell(g, 'S', '/', fuel) == Some(None)
    requires Cell(g, 'A', 'a', fuel) == Some(Some("/"))
    requires Cell(g, 'A', 'b', fuel) == Some(Some("/"))
    requires Cell(g, 'A', '/', fuel) == Some(Some("/"))
    ensures BuildTable(g, fuel) == Some(RepeatTableValue())
  {
    var tbl := RepeatTableValue();
    RepeatTablePieces(g, fuel, tbl, Terminals(g));
    BuildTableExactly(g, fuel, tbl);
  }

  lemma RepeatTablePieces(g: Grammar, fuel: nat, tbl: Table, ts: set<char>)
    requires tbl == RepeatTableValue() && ts == {'a', 'b', '/'}
    requires Cell(g, 'S', 'a', fuel) == Some(Some("aA"))
    requires Cell(g, 'S', 'b', fuel) == Some(None)
    requires Cell(g, 'S', '/', fuel) == Some(None)
    requires Cell(g, 'A', 'a', fuel) == Some(Some("/"))
    requires Cell(g, 'A', 'b', fuel) == Some(Some("/"))
    requires Cell(g, 'A', '/', fuel) == Some(Some("/"))
    ensures tbl.Keys == {'A', 'S'}
    ensures forall a | a in tbl :: tbl[a].Keys <= ts
    ensures forall a, t | a in tbl && t in ts ::
              Cell(g, a, t, fuel) == Some(if t in tbl[a] then Some(tbl[a][t]) else None)
  {
    RepeatTableRows(tbl);
    RepeatRowS(g, fuel, tbl['S'], ts);
    RepeatRowA(g, fuel, tbl['A'], ts);
    RepeatTableCells(g, fuel, tbl, ts);
  }

  function RepeatTableValue(): Table {
    map['S' := map['a' := "aA"], 'A' := map['a' := "/", 'b' := "/", '/' := "/"]]
  }

  lemma RepeatTableCells(g: Grammar, fuel: nat, tbl: Table, ts: set<char>)
    requires tbl.Keys == {'A', 'S'} && tbl['S'].Keys <= ts && tbl['A'].Keys <= ts
    requires forall t | t in ts :: Cell(g, 'S', t, fuel) == Some(if t in tbl['S'] then Some(tbl['S'][t]) else None)
    requires forall t | t in ts :: Cell(g, 'A', t, fuel) == Some(if t in tbl['A'] then Some(tbl['A'][t]) else None)
    ensures forall a | a in tbl :: tbl[a].Keys <= ts
    ensures forall a, t | a in tbl && t in ts ::
              Cell(g, a, t, fuel) == Some(if t in tbl[a] then Some(tbl[a][t]) else None)
  {
  }

  lemma RepeatRowS(g: Grammar, fuel: nat, row: map<char, string>, ts: set<char>)
    requires row == map['a' := "aA"] && ts == {'a', 'b', '/'}
    requires Cell(g, 'S', 'a', fuel) == Some(Some("aA"))
    requires Cell(g, 'S', 'b', fuel) == Some(None)
    requires Cell(g, 'S', '/', fuel) == Some(None)
    ensures row.Keys <= ts
    ensures forall t | t in ts :: Cell(g, 'S', t, fuel) == Some(if t in row then Some(row[t]) else None)
  {
    assert row.Keys == {'a'} && row['a'] == "aA";
    RowOfCells(g, 'S', fuel, row, ts);
  }

  lemma RepeatRowA(g: Grammar, fuel: nat, row: map<char, string>, ts: set<char>)
    requires row == map['a' := "/", 'b' := "/", '/' := "/"] && ts == {'a', 'b', '/'}
    requires Cell(g, 'A', 'a', fuel) == Some(Some("/"))
    requires Cell(g, 'A', 'b', fuel) == Some(Some("/"))
    requires Cell(g, 'A', '/', fuel) == Some(Some("/"))
    ensures row.Keys <= ts
    ensures forall t | t in ts :: Cell(g, 'A', t, fuel) == Some(if t in row then Some(row[t]) else None)
  {
    assert row.Keys == ts && row['a'] == "/" && row['b'] == "/" && row['/'] == "/";
    RowOfCells(g, 'A', fuel, row, ts);
  }

  lemma RepeatTableRows(tbl: Table)
    requires tbl == RepeatTableValue()
    ensures tbl.Keys == {'A', 'S'}
    ensures tbl['S'] == map['a' := "aA"]
    ensures tbl['A'] == map['a' := "/", 'b' := "/", '/' := "/"]
  {
  }

  /** A row agrees with the cells computed for its columns. */
  lemma RowOfCells(g: Grammar, a: char, fuel: nat, row: map<char, string>, ts: set<char>)
    requires row.Keys <= ts
    requires forall t | t in row :: Cell(g, a, t, fuel) == Some(Some(row[t]))
    requires forall t | t in ts && t !in row :: Cell(g, a, t, fuel) == Some(None)
    ensures forall t | t in ts :: Cell(g, a, t, fuel) == Some(if t in row then Some(row[t]) else None)
  {
  }

  lemma RepeatCellsS(g: Grammar)
    requires g == Repeat()
    ensures Cell(g, 'S', 'a', 1) == Some(Some("aA"))
    ensures Cell(g, 'S', 'b', 1) == Some(None)
    ensures Cell(g, 'S', '/', 1) == Some(None)
  {
    RepeatCellS(g, 'a');
    RepeatCellS(g, 'b');
    RepeatCellS(g, '/');
  }

  lemma RepeatCellS(g: Grammar, t: char)
    requires g == Repeat()
    ensures Cell(g, 'S', t, 1) == Some(if t == 'a' then Some("aA") else None)
  {
    RepeatCellSByFollow(g, t);
    RepeatChooseS(g, t);
  }

  lemma RepeatCellSByFollow(g: Grammar, t: char)
    requires g == Repeat()
    ensures Cell(g, 'S', t, 1) == Choose(g, ["aA"], t, {'$'}, 1, None)
  {
    var ps := ["aA"];
    assert g.rules['S'] == ps && [t] != ps[0];
    RepeatFollowS();
    CellByFollow(g, 'S', t, 1, {'$'});
  }

  lemma RepeatChooseS(g: Grammar, t: char)
    requires g == Repeat()
    ensures Choose(g, ["aA"], t, {'$'}, 1, None) == Some(if t == 'a' then Some("aA") else None)
  {
    RepeatFirst();
    var ps := ["aA"];
    assert ps[0] == "aA" && ps[1..] == [];
    ChooseStep(g, ps, t, {'$'}, 1, None, {'a'});
  }

  lemma RepeatCellsA(g: Grammar)
    requires g == Repeat()
    ensures Cell(g, 'A', 'a', 1) == Some(Some("/"))
    ensures Cell(g, 'A', 'b', 1) == Some(Some("/"))
    ensures Cell(g, 'A', '/', 1) == Some(Some("/"))
  {
    RepeatCellAByFollow(g, 'a');
    RepeatCellAByFollow(g, 'b');
    RepeatChooseA(g, 'a');
    RepeatChooseA(g, 'b');
    assert g.rules['A'] == ["bA", "/"] && ['/'] in g.rules['A'];
  }

  lemma RepeatCellAByFollow(g: Grammar, t: char)
    requires g == Repeat() && t != '/'
    ensures Cell(g, 'A', t, 1) == Choose(g, ["bA", "/"], t, {'a', 'b', '/'}, 1, None)
  {
    RepeatRuleA(g, t);
    RepeatFollowA();
    CellByFollow(g, 'A', t, 1, {'a', 'b', '/'});
  }

  lemma RepeatRuleA(g: Grammar, t: char)
    requires g == Repeat() && t != '/'
    ensures 'A' in g.rules && g.rules['A'] == ["bA", "/"] && [t] !in g.rules['A']
  {
    var pa := ["bA", "/"];
    assert g.rules['A'] == pa && [t] != pa[0] && [t] != pa[1];
  }

  /** Column `b` of row A: `bA` is selected first, and then `/` overwrites
      it, since `b` also follows A. */
  lemma RepeatChooseA(g: Grammar, t: char)
    requires g == Repeat() && t in {'a', 'b'}
    ensures Choose(g, ["bA", "/"], t, {'a', 'b', '/'}, 1, None) == Some(Some("/"))
  {
    RepeatFirst();
    var pa := ["bA", "/"];
    var fa := {'a', 'b', '/'};
    assert pa[0] == "bA" && pa[1..][0] == "/" && pa[1..][1..] == [];
    ChooseStep(g, pa, t, fa, 1, None, {'b'});
    ChooseStep(g, pa[1..], t, fa, 1, if t == 'b' then Some("bA") else None, {'/'});
  }

  /** The runs on the grammar S -> aA, A -> bA | /, from the table above. */
  lemma RepeatRuns(g: Grammar, tbl: Table)
    requires g == Repeat() && tbl == RepeatTableValue() && Terminals(g) == {'a', 'b', '/'}
    ensures RowsFor(g, tbl)
    ensures Run(g, tbl, "ab", Init(g), 3) == Some(Produced)
    ensures Run(g, tbl, "a", Init(g), 3) == Some(UnexpectedTokenFor('$', 'A'))
    ensures Run(g, tbl, "ac", Init(g), 3) == Some(UnexpectedTokenFor('c', 'A'))
  {
    assert g.rules.Keys == {'A', 'S'} && g.start == 'S';
    RepeatTableRows(tbl);
    assert Reverse("aA") == "Aa";
    var c0, c1, c2 := Init(g), Config(['$', 'A', 'a'], 0), Config(['$', 'A'], 1);
    assert c0.stack == ['$', 'S'];
    assert Step(g, tbl, "ab", c0) == Next(c1);
    assert Step(g, tbl, "ab", c1) == Next(c2);
    assert Step(g, tbl, "ab", c2) == Next(Config(['$'], 1));
    assert Step(g, tbl, "a", c0) == Next(c1);
    assert Step(g, tbl, "a", c1) == Next(c2);
    assert Step(g, tbl, "a", c2) == Stop(UnexpectedTokenFor('$', 'A'));
    assert Step(g, tbl, "ac", c0) == Next(c1);
    assert Step(g, tbl, "ac", c1) == Next(c2);
    assert Step(g, tbl, "ac", c2) == Stop(UnexpectedTokenFor('c', 'A'));
  }

  /** "ab" is accepted, though only its `a` is derived: for the token `b`
      the cell of A holds `/`, which empties the stack. The word "a" itself,
      which the grammar generates, is rejected, since the cell of A for `$`
      does not exist; and "ac" stops at A with the unexpected `c`. */
  lemma RepeatAnalyze()
    ensures Analyze(Repeat(), "ab", 3) == Some(Produced)
    ensures Analyze(Repeat(), "a", 3) == Some(UnexpectedTokenFor('$', 'A'))
    ensures Analyze(Repeat(), "ac", 3) == Some(UnexpectedTokenFor('c', 'A'))
  {
    var g := Repeat();
    RepeatTable();
    BuildTableMonotone(g, 1, 3);
    RepeatTerminals();
    RepeatRuns(g, RepeatTableValue());
  }
}
