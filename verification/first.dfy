/** FIRST sets, computed by plain recursion over the symbol string without
    memoisation, so left recursion never terminates; fuel bounds the depth
    of nonterminal expansions. */
module FirstSets {
  import opened Wrappers
  import opened Grammars

  /** No nonterminal is a member of the set. */
  predicate NoUpper(s: set<char>) {
    forall c | c in s :: !IsUpper(c)
  }

  /** Every non-upper-case symbol of `s` is a terminal of `g`; true of every
      production and every suffix of one. */
  predicate OverTerminals(g: Grammar, s: string) {
    forall i | 0 <= i < |s| && !IsUpper(s[i]) :: s[i] in Terminals(g)
  }

  /** The empty marker can begin `s` only when `s` is empty, starts with `/`,
      or starts with a nonterminal and the rest can again begin with it. */
  predicate CanVanish(s: string) {
    |s| == 0 || s[0] == Epsilon || (IsUpper(s[0]) && CanVanish(s[1..]))
  }

  lemma ProductionsOverTerminals(g: Grammar, a: char)
    requires a in g.rules
    ensures forall p | p in g.rules[a] :: OverTerminals(g, p)
  {
    forall p, i | p in g.rules[a] && 0 <= i < |p| && !IsUpper(p[i])
      ensures p[i] in Terminals(g)
    {
      ProductionSymbolIsTerminal(g, a, p, i);
    }
  }

  lemma OverTerminalsSuffix(g: Grammar, s: string, k: nat)
    requires k <= |s|
    ensures OverTerminals(g, s) ==> OverTerminals(g, s[k..])
  {
    forall i | OverTerminals(g, s) && 0 <= i < |s[k..]| && !IsUpper(s[k..][i])
      ensures s[k..][i] in Terminals(g)
    {
      assert s[k..][i] == s[k + i];
    }
  }

  /** FIRST of a symbol string: `{/}` for the empty string, `{c}` for a
      string led by a terminal `c`, and for a leading nonterminal the union of
      FIRST over its productions, where a `/` in that union is traded for
      FIRST of the remaining string. `None` when a nonterminal has no rule
      or the fuel runs out. */
  function First(g: Grammar, s: string, fuel: nat): (r: Option<set<char>>)
    ensures r.Some? ==> NoUpper(r.value)
    ensures r.Some? && Epsilon in r.value ==> CanVanish(s)
    decreases fuel, 0
  {
    if |s| == 0 then Some({Epsilon})
    else if !IsUpper(s[0]) then Some({s[0]})
    else if s[0] !in g.rules || fuel == 0 then None
    else
      match FirstOfAll(g, g.rules[s[0]], fuel - 1)
      case None => None
      case Some(u) =>
        if Epsilon in u then
          match First(g, s[1..], fuel - 1)
          case None => None
          case Some(rest) => Some((u - {Epsilon}) + rest)
        else Some(u)
  }

  /** The union of FIRST over a list of productions, failing when any of
      them fails. */
  function FirstOfAll(g: Grammar, ps: seq<string>, fuel: nat): (r: Option<set<char>>)
    ensures r.Some? <==> forall i | 0 <= i < |ps| :: First(g, ps[i], fuel).Some?
    ensures r.Some? ==> forall i | 0 <= i < |ps| :: First(g, ps[i], fuel).Some? && First(g, ps[i], fuel).value <= r.value
    ensures r.Some? ==> NoUpper(r.value)
    decreases fuel, 1, |ps|
  {
    if |ps| == 0 then Some({})
    else
      match First(g, ps[0], fuel)
      case None => None
      case Some(f) =>
        match FirstOfAll(g, ps[1..], fuel)
        case None => None
        case Some(u) =>
          assert forall i | 1 <= i < |ps| :: ps[i] == ps[1..][i - 1];
          Some(f + u)
  }

  /** FIRST of a string whose symbols are nonterminals or terminals of the
      grammar lies within the terminals and `/`. */
  lemma {:induction false} FirstWithin(g: Grammar, s: string, fuel: nat)
    requires OverTerminals(g, s) && First(g, s, fuel).Some?
    ensures First(g, s, fuel).value <= Terminals(g) + {Epsilon}
    decreases fuel, 0
  {
    if |s| > 0 && IsUpper(s[0]) {
      var ps := g.rules[s[0]];
      ProductionsOverTerminals(g, s[0]);
      FirstOfAllWithin(g, ps, fuel - 1);
      if Epsilon in FirstOfAll(g, ps, fuel - 1).value {
        OverTerminalsSuffix(g, s, 1);
        FirstWithin(g, s[1..], fuel - 1);
      }
    }
  }

  lemma {:induction false} FirstOfAllWithin(g: Grammar, ps: seq<string>, fuel: nat)
    requires forall p | p in ps :: OverTerminals(g, p)
    requires FirstOfAll(g, ps, fuel).Some?
    ensures FirstOfAll(g, ps, fuel).value <= Terminals(g) + {Epsilon}
    decreases fuel, 1, |ps|
  {
    if |ps| > 0 {
      FirstWithin(g, ps[0], fuel);
      assert forall p | p in ps[1..] :: p in ps;
      FirstOfAllWithin(g, ps[1..], fuel);
    }
  }

  /** Every member of the union over a list of productions comes from FIRST
      of one of them. */
  lemma {:induction false} FirstOfAllMember(g: Grammar, ps: seq<string>, fuel: nat, c: char)
    requires FirstOfAll(g, ps, fuel).Some? && c in FirstOfAll(g, ps, fuel).value
    ensures exists i | 0 <= i < |ps| :: First(g, ps[i], fuel).Some? && c in First(g, ps[i], fuel).value
    decreases |ps|
  {
    var f := First(g, ps[0], fuel).value;
    if c !in f {
      FirstOfAllMember(g, ps[1..], fuel, c);
      var i :| 0 <= i < |ps[1..]| && First(g, ps[1..][i], fuel).Some? && c in First(g, ps[1..][i], fuel).value;
      assert ps[1..][i] == ps[i + 1];
    }
  }

  /** The base cases: FIRST of the empty string and of `/` is `{/}`, a
      string led by a terminal has exactly that terminal as FIRST whatever
      follows, and a leading nonterminal without a rule is a failure, for
      every amount of fuel. */
  lemma FirstBaseCases(g: Grammar, s: string, fuel: nat)
    ensures First(g, [], fuel) == Some({Epsilon})
    ensures First(g, [Epsilon], fuel) == Some({Epsilon})
    ensures |s| > 0 && !IsUpper(s[0]) ==> First(g, s, fuel) == Some({s[0]})
    ensures |s| > 0 && IsUpper(s[0]) && s[0] !in g.rules ==> First(g, s, fuel) == None
  {
  }

  /** A leading nonterminal `x`: a symbol begins `x` followed by `rest`
      exactly when it is not `/` and begins one of the productions of `x`,
      or when some production of `x` can begin with `/` and the symbol
      begins `rest`. */
  lemma FirstLeadingNonterminal(g: Grammar, x: char, rest: string, fuel: nat, c: char)
    requires IsUpper(x) && First(g, [x] + rest, fuel).Some?
    ensures fuel > 0 && x in g.rules
    ensures c in First(g, [x] + rest, fuel).value <==>
              (c != Epsilon && exists p | p in g.rules[x] :: First(g, p, fuel - 1).Some? && c in First(g, p, fuel - 1).value)
              || ((exists p | p in g.rules[x] :: First(g, p, fuel - 1).Some? && Epsilon in First(g, p, fuel - 1).value)
                  && First(g, rest, fuel - 1).Some? && c in First(g, rest, fuel - 1).value)
  {
    var s := [x] + rest;
    assert s[0] == x && s[1..] == rest;
    var ps := g.rules[x];
    var u := FirstOfAll(g, ps, fuel - 1).value;
    if c in First(g, s, fuel).value {
      if c in u && c != Epsilon {
        FirstOfAllMember(g, ps, fuel - 1, c);
        var i :| 0 <= i < |ps| && First(g, ps[i], fuel - 1).Some? && c in First(g, ps[i], fuel - 1).value;
        assert ps[i] in ps;
      } else {
        FirstOfAllMember(g, ps, fuel - 1, Epsilon);
        var i :| 0 <= i < |ps| && First(g, ps[i], fuel - 1).Some? && Epsilon in First(g, ps[i], fuel - 1).value;
        assert ps[i] in ps;
      }
    }
    if exists p | p in ps :: First(g, p, fuel - 1).Some? && Epsilon in First(g, p, fuel - 1).value {
      var p :| p in ps && First(g, p, fuel - 1).Some? && Epsilon in First(g, p, fuel - 1).value;
      var i :| 0 <= i < |ps| && ps[i] == p;
      assert Epsilon in u;
    }
    if c != Epsilon && (exists p | p in ps :: First(g, p, fuel - 1).Some? && c in First(g, p, fuel - 1).value) {
      var p :| p in ps && First(g, p, fuel - 1).Some? && c in First(g, p, fuel - 1).value;
      var i :| 0 <= i < |ps| && ps[i] == p;
      assert c in u;
    }
  }

  /** More fuel never changes a FIRST set that was already computed. */
  lemma {:induction false} FirstMonotone(g: Grammar, s: string, f1: nat, f2: nat)
    requires f1 <= f2 && First(g, s, f1).Some?
    ensures First(g, s, f2) == First(g, s, f1)
    decreases f1, 0
  {
    if |s| > 0 && IsUpper(s[0]) {
      var ps := g.rules[s[0]];
      FirstOfAllMonotone(g, ps, f1 - 1, f2 - 1);
      if Epsilon in FirstOfAll(g, ps, f1 - 1).value {
        FirstMonotone(g, s[1..], f1 - 1, f2 - 1);
      }
      FirstUnfold(g, s, f1);
      FirstUnfold(g, s, f2);
    }
  }

  /** One unfolding of FIRST at a leading nonterminal, stated in terms of the
      sub-results alone. */
  lemma FirstUnfold(g: Grammar, s: string, f: nat)
    requires |s| > 0 && IsUpper(s[0]) && s[0] in g.rules && f > 0
    ensures First(g, s, f) ==
              match FirstOfAll(g, g.rules[s[0]], f - 1)
              case None => None
              case Some(u) =>
                if Epsilon in u then
                  match First(g, s[1..], f - 1)
                  case None => None
                  case Some(rest) => Some((u - {Epsilon}) + rest)
                else Some(u)
  {
  }

  lemma {:induction false} FirstOfAllMonotone(g: Grammar, ps: seq<string>, f1: nat, f2: nat)
    requires f1 <= f2 && FirstOfAll(g, ps, f1).Some?
    ensures FirstOfAll(g, ps, f2) == FirstOfAll(g, ps, f1)
    decreases f1, 1, |ps|
  {
    if |ps| > 0 {
      FirstMonotone(g, ps[0], f1, f2);
      FirstOfAllMonotone(g, ps[1..], f1, f2);
    }
  }
}
