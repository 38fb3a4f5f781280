/** The grammar model of the LL(1) parser: symbols are single characters,
    a grammar maps each nonterminal to its ordered list of productions,
    and the terminal alphabet is derived from the productions. */
module Grammars {

  /** A nonterminal is an upper-case letter; every other character is a
      terminal symbol (an abstraction of `Character.isUpperCase`). */
  predicate IsUpper(c: char) {
    'A' <= c <= 'Z'
  }

  /** The production `/` stands for the empty string. */
  const Epsilon: char := '/'

  /** The end-of-input marker, also the bottom of the recogniser's stack. */
  const EndMarker: char := '$'

  /** A grammar: a start symbol and, for every nonterminal, its productions
      in the order the grammar lists them. */
  datatype Grammar = Grammar(start: char, rules: map<char, seq<string>>)

  /** The conditions some lemmas assume of a grammar (the loader checks
      none of them): rules only for nonterminals, a rule for the start
      symbol and for every nonterminal a production mentions, no empty
      production and no end-of-input marker inside a production. */
  predicate WellFormed(g: Grammar) {
    && g.start in g.rules
    && KeysUpper(g)
    && forall a, p | a in g.rules && p in g.rules[a] :: ProductionOk(g, p)
  }

  predicate KeysUpper(g: Grammar) {
    forall a | a in g.rules :: IsUpper(a)
  }

  /** No production mentions the end-of-input marker. */
  predicate EndMarkerFree(g: Grammar) {
    forall a, p | a in g.rules && p in g.rules[a] :: EndMarker !in p
  }

  predicate ProductionOk(g: Grammar, p: string) {
    && |p| > 0
    && EndMarker !in p
    && forall c | c in p && IsUpper(c) :: c in g.rules
  }

  /** The terminal alphabet: every non-upper-case character occurring in some
      production (so `/` is a terminal as soon as some rule has an empty
      alternative). */
  function Terminals(g: Grammar): set<char> {
    set a, p, c | a in g.rules && p in g.rules[a] && c in p && !IsUpper(c) :: c
  }

  /** The terminals contributed by the rules of the nonterminals in `done`. */
  ghost function TerminalsOf(g: Grammar, done: set<char>): set<char> {
    set a, p, c | a in done && a in g.rules && p in g.rules[a] && c in p && !IsUpper(c) :: c
  }

  /** The non-upper-case characters of a list of productions. */
  ghost function LowerIn(ps: seq<string>): set<char> {
    set p, c | p in ps && c in p && !IsUpper(c) :: c
  }

  /** Membership in the terminal alphabet, stated without the comprehension. */
  lemma TerminalsExactly(g: Grammar, c: char)
    ensures c in Terminals(g) <==> !IsUpper(c) && exists a, p :: a in g.rules && p in g.rules[a] && c in p
  {
  }

  /** Every non-upper-case symbol of every production is a terminal. */
  lemma ProductionSymbolIsTerminal(g: Grammar, a: char, p: string, i: nat)
    requires a in g.rules && p in g.rules[a] && i < |p| && !IsUpper(p[i])
    ensures p[i] in Terminals(g)
  {
    assert p[i] in p;
  }

  /** The end marker is not a terminal of a grammar whose productions never
      mention it. */
  lemma EndMarkerNotTerminal(g: Grammar)
    requires EndMarkerFree(g)
    ensures EndMarker !in Terminals(g)
  {
  }

  /** A well-formed grammar never mentions the end marker. */
  lemma WellFormedEndMarkerFree(g: Grammar)
    requires WellFormed(g)
    ensures EndMarkerFree(g)
  {
    forall a, p | a in g.rules && p in g.rules[a]
      ensures EndMarker !in p
    {
      assert ProductionOk(g, p);
    }
  }

  lemma LowerInSnoc(ps: seq<string>, p: string, j: nat)
    requires j < |p|
    ensures LowerIn(ps + [p[..j + 1]]) == LowerIn(ps + [p[..j]]) + (if IsUpper(p[j]) then {} else {p[j]})
  {
    var l := LowerIn(ps + [p[..j + 1]]);
    var r := LowerIn(ps + [p[..j]]) + (if IsUpper(p[j]) then {} else {p[j]});
    forall c | c in l
      ensures c in r
    {
      var q :| q in ps + [p[..j + 1]] && c in q && !IsUpper(c);
      if q in ps {
        assert q in ps + [p[..j]];
      } else {
        assert q == p[..j + 1];
        var k :| 0 <= k <= j && q[k] == c;
        if k < j {
          assert p[..j][k] == c;
          assert p[..j] in ps + [p[..j]];
        } else {
          assert c == p[j];
        }
      }
    }
    forall c | c in r
      ensures c in l
    {
      if c in LowerIn(ps + [p[..j]]) {
        var q :| q in ps + [p[..j]] && c in q && !IsUpper(c);
        if q in ps {
          assert q in ps + [p[..j + 1]];
        } else {
          var k :| 0 <= k < j && q[k] == c;
          assert p[..j + 1][k] == c;
          assert p[..j + 1] in ps + [p[..j + 1]];
        }
      } else {
        assert p[..j + 1][j] == c;
        assert p[..j + 1] in ps + [p[..j + 1]];
      }
    }
  }

  lemma LowerInNext(ps: seq<string>, i: nat)
    requires i < |ps|
    ensures LowerIn(ps[..i + 1]) == LowerIn(ps[..i] + [ps[i][..|ps[i]|]])
  {
    assert ps[i][..|ps[i]|] == ps[i];
    assert ps[..i + 1] == ps[..i] + [ps[i]];
  }

  lemma TerminalsOfAdd(g: Grammar, done: set<char>, a: char)
    requires a in g.rules
    ensures TerminalsOf(g, done + {a}) == TerminalsOf(g, done) + LowerIn(g.rules[a])
  {
  }

  /** The loops of the terminal computation: every character of every
      production of every rule, keeping the non-upper-case ones. */
  method CalculateTerminals(g: Grammar) returns (terms: set<char>)
    ensures terms == Terminals(g)
  {
    terms := {};
    var todo := g.rules.Keys;
    while todo != {}
      invariant todo <= g.rules.Keys
      invariant terms == TerminalsOf(g, g.rules.Keys - todo)
      decreases todo
    {
      var a :| a in todo;
      var prods := g.rules[a];
      var i := 0;
      while i < |prods|
        invariant 0 <= i <= |prods|
        invariant terms == TerminalsOf(g, g.rules.Keys - todo) + LowerIn(prods[..i])
      {
        var p := prods[i];
        var j := 0;
        while j < |p|
          invariant 0 <= j <= |p|
          invariant terms == TerminalsOf(g, g.rules.Keys - todo) + LowerIn(prods[..i] + [p[..j]])
        {
          LowerInSnoc(prods[..i], p, j);
          if !IsUpper(p[j]) {
            terms := terms + {p[j]};
          }
          j := j + 1;
        }
        LowerInNext(prods, i);
        i := i + 1;
      }
      assert prods[..|prods|] == prods;
      TerminalsOfAdd(g, g.rules.Keys - todo, a);
      assert (g.rules.Keys - todo) + {a} == g.rules.Keys - (todo - {a});
      todo := todo - {a};
    }
  }

  /** Some element of a non-empty set of characters is below all others. */
  lemma {:induction false} MinimumExists(s: set<char>)
    requires s != {}
    ensures exists m :: m in s && forall x | x in s :: m <= x
  {
    var y :| y in s;
    if s - {y} != {} {
      MinimumExists(s - {y});
      var m :| m in s - {y} && forall x | x in s - {y} :: m <= x;
      if y < m {
        forall x | x in s
          ensures y <= x
        {
          if x != y {
            assert x in s - {y};
          }
        }
      } else {
        forall x | x in s
          ensures m <= x
        {
          if x != y {
            assert x in s - {y};
          }
        }
        assert m in s;
      }
    } else {
      assert s == {y};
    }
  }

  /** `r` lists the members of `s`, each once, in strictly ascending order. */
  predicate SortedListing(r: seq<char>, s: set<char>) {
    && |r| == |s|
    && (forall c :: c in r <==> c in s)
    && (forall i, j | 0 <= i < j < |r| :: r[i] < r[j])
  }

  /** The least member followed by a sorted listing of the others. */
  lemma ListingCons(m: char, s: set<char>, rest: seq<char>)
    requires m in s && forall x | x in s :: m <= x
    requires SortedListing(rest, s - {m})
    ensures SortedListing([m] + rest, s)
  {
    var r := [m] + rest;
    assert |s - {m}| == |s| - 1;
    forall c
      ensures c in r <==> c in s
    {
      assert c in r <==> c == m || c in rest;
    }
    forall i, j | 0 <= i < j < |r|
      ensures r[i] < r[j]
    {
      assert r[j] == rest[j - 1];
      if i > 0 {
        assert r[i] == rest[i - 1];
      } else {
        assert rest[j - 1] in s - {m};
      }
    }
  }

  /** The keys of a sorted map in iteration order. */
  function Ascending(s: set<char>): (r: seq<char>)
    ensures SortedListing(r, s)
    decreases |s|
  {
    if s == {} then []
    else
      MinimumExists(s);
      var m :| m in s && forall x | x in s :: m <= x;
      ListingCons(m, s, Ascending(s - {m}));
      [m] + Ascending(s - {m})
  }

  /** The position of the first occurrence of `c` in `p`, or -1 when `c`
      does not occur (as `String.indexOf` reports it). */
  function IndexOf(p: string, c: char): (r: int)
    ensures -1 <= r < |p|
    ensures r == -1 <==> c !in p
    ensures 0 <= r ==> p[r] == c && c !in p[..r]
  {
    if |p| == 0 then -1
    else if p[0] == c then 0
    else
      var k := IndexOf(p[1..], c);
      if k < 0 then -1
      else
        assert p[..k + 1] == [p[0]] + p[1..][..k];
        k + 1
  }
}
