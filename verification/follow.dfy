/** FOLLOW sets as the parser computes them: one pass over the rules in
    ascending order of their nonterminal and over each rule's productions in
    list order, looking only at the first occurrence of the nonterminal in a
    production, and recursing into FOLLOW of the left-hand side without
    memoisation; fuel bounds the depth of those nested FOLLOW calls. */
module FollowSets {
  import opened Wrappers
  import opened Grammars
  import opened FirstSets

  /** What a FOLLOW set can hold: terminals, the empty marker and the end
      marker. */
  function FollowRange(g: Grammar): set<char> {
    Terminals(g) + {Epsilon, EndMarker}
  }

  /** FOLLOW of nonterminal `n`: `$` for the start symbol, then every
      production of every rule, in order, updates the set. */
  function Follow(g: Grammar, n: char, fuel: nat): (r: Option<set<char>>)
    ensures r.Some? && n == g.start ==> EndMarker in r.value
    decreases fuel, 4
  {
    FollowRules(g, n, Ascending(g.rules.Keys), if n == g.start then {EndMarker} else {}, fuel)
  }

  /** The pass over the rules whose left-hand sides are listed in `lhss`. */
  function FollowRules(g: Grammar, n: char, lhss: seq<char>, acc: set<char>, fuel: nat): (r: Option<set<char>>)
    requires forall a | a in lhss :: a in g.rules
    ensures r.Some? ==> acc - {Epsilon} <= r.value
    decreases fuel, 3, |lhss|
  {
    if |lhss| == 0 then Some(acc)
    else
      match FollowProds(g, n, lhss[0], g.rules[lhss[0]], acc, fuel)
      case None => None
      case Some(acc') => FollowRules(g, n, lhss[1..], acc', fuel)
  }

  /** The pass over the productions `ps` of the rule for `lhs`. */
  function FollowProds(g: Grammar, n: char, lhs: char, ps: seq<string>, acc: set<char>, fuel: nat): (r: Option<set<char>>)
    ensures r.Some? ==> acc - {Epsilon} <= r.value
    decreases fuel, 2, |ps|
  {
    if |ps| == 0 then Some(acc)
    else
      match FollowStep(g, n, lhs, ps[0], acc, fuel)
      case None => None
      case Some(acc') => FollowProds(g, n, lhs, ps[1..], acc', fuel)
  }

  /** The update of the FOLLOW set of `n` by one production `p` of `lhs`:
      an occurrence of `n` before the last position adds FIRST of what comes
      after it and, when that can begin with `/`, drops `/` from the whole
      set and adds FOLLOW of `lhs`; an occurrence in the last position adds
      FIRST of `lhs`. */
  function FollowStep(g: Grammar, n: char, lhs: char, p: string, acc: set<char>, fuel: nat): (r: Option<set<char>>)
    ensures r.Some? ==> acc - {Epsilon} <= r.value
    decreases fuel, 1
  {
    var index := IndexOf(p, n);
    if 0 <= index < |p| - 1 then FollowAfter(g, lhs, p[index + 1..], acc, fuel)
    else if index == |p| - 1 then
      match First(g, [lhs], fuel)
      case None => None
      case Some(fl) => Some(acc + fl)
    else Some(acc)
  }

  /** The update by the non-empty string `v` that follows the occurrence. */
  function FollowAfter(g: Grammar, lhs: char, v: string, acc: set<char>, fuel: nat): (r: Option<set<char>>)
    ensures r.Some? ==> acc - {Epsilon} <= r.value
    decreases fuel, 0
  {
    match First(g, v, fuel)
    case None => None
    case Some(fs) =>
      if Epsilon !in fs then Some(acc + fs)
      else if fuel == 0 then None
      else
        match Follow(g, lhs, fuel - 1)
        case None => None
        case Some(fl) => Some(((acc + fs) - {Epsilon}) + fl)
  }

  /** On a grammar whose rules are all for nonterminals, FOLLOW holds only
      terminals, `/` and `$`. */
  lemma {:induction false} FollowWithin(g: Grammar, n: char, fuel: nat)
    requires KeysUpper(g) && Follow(g, n, fuel).Some?
    ensures Follow(g, n, fuel).value <= FollowRange(g)
    decreases fuel, 4
  {
    FollowRulesWithin(g, n, Ascending(g.rules.Keys), if n == g.start then {EndMarker} else {}, fuel);
  }

  lemma {:induction false} FollowRulesWithin(g: Grammar, n: char, lhss: seq<char>, acc: set<char>, fuel: nat)
    requires forall a | a in lhss :: a in g.rules
    requires KeysUpper(g) && acc <= FollowRange(g) && FollowRules(g, n, lhss, acc, fuel).Some?
    ensures FollowRules(g, n, lhss, acc, fuel).value <= FollowRange(g)
    decreases fuel, 3, |lhss|
  {
    if |lhss| > 0 {
      var ps := g.rules[lhss[0]];
      ProductionsOverTerminals(g, lhss[0]);
      FollowProdsWithin(g, n, lhss[0], ps, acc, fuel);
      FollowRulesWithin(g, n, lhss[1..], FollowProds(g, n, lhss[0], ps, acc, fuel).value, fuel);
    }
  }

  lemma {:induction false} FollowProdsWithin(g: Grammar, n: char, lhs: char, ps: seq<string>, acc: set<char>, fuel: nat)
    requires KeysUpper(g) && lhs in g.rules && forall p | p in ps :: OverTerminals(g, p)
    requires acc <= FollowRange(g) && FollowProds(g, n, lhs, ps, acc, fuel).Some?
    ensures FollowProds(g, n, lhs, ps, acc, fuel).value <= FollowRange(g)
    decreases fuel, 2, |ps|
  {
    if |ps| > 0 {
      FollowStepWithin(g, n, lhs, ps[0], acc, fuel);
      assert forall p | p in ps[1..] :: p in ps;
      FollowProdsWithin(g, n, lhs, ps[1..], FollowStep(g, n, lhs, ps[0], acc, fuel).value, fuel);
    }
  }

  lemma {:induction false} FollowStepWithin(g: Grammar, n: char, lhs: char, p: string, acc: set<char>, fuel: nat)
    requires KeysUpper(g) && lhs in g.rules && OverTerminals(g, p)
    requires acc <= FollowRange(g) && FollowStep(g, n, lhs, p, acc, fuel).Some?
    ensures FollowStep(g, n, lhs, p, acc, fuel).value <= FollowRange(g)
    decreases fuel, 1
  {
    var index := IndexOf(p, n);
    if 0 <= index < |p| - 1 {
      OverTerminalsSuffix(g, p, index + 1);
      FollowAfterWithin(g, lhs, p[index + 1..], acc, fuel);
    } else if index == |p| - 1 {
      assert OverTerminals(g, [lhs]);
      FirstWithin(g, [lhs], fuel);
    }
  }

  lemma {:induction false} FollowAfterWithin(g: Grammar, lhs: char, v: string, acc: set<char>, fuel: nat)
    requires KeysUpper(g) && OverTerminals(g, v)
    requires acc <= FollowRange(g) && FollowAfter(g, lhs, v, acc, fuel).Some?
    ensures FollowAfter(g, lhs, v, acc, fuel).value <= FollowRange(g)
    decreases fuel, 0
  {
    FirstWithin(g, v, fuel);
    if Epsilon in First(g, v, fuel).value {
      FollowWithin(g, lhs, fuel - 1);
    }
  }

  /** `indexOf` finds the first occurrence: the one right after a prefix
      free of `n`. */
  lemma IndexOfFirstOccurrence(u: string, n: char, v: string)
    requires n !in u
    ensures IndexOf(u + [n] + v, n) == |u|
  {
    var p := u + [n] + v;
    var r := IndexOf(p, n);
    assert p[|u|] == n;
    assert forall i | 0 <= i < |u| :: p[i] == u[i];
    assert forall k | |u| < k <= |p| :: p[..k][|u|] == n;
  }

  /** A production `u n v` whose prefix `u` does not mention `n` updates
      FOLLOW of `n` through this first occurrence alone: by FIRST of `v`
      (trading a `/` in it for FOLLOW of `lhs`, after dropping `/` from the
      whole set) when `v` is not empty, and by FIRST of `lhs` when it is,
      whatever further occurrences of `n` the suffix `v` holds. */
  lemma FollowStepAt(g: Grammar, n: char, lhs: char, u: string, v: string, acc: set<char>, fuel: nat)
    requires n !in u
    ensures FollowStep(g, n, lhs, u + [n] + v, acc, fuel) ==
              if |v| > 0 then
                match First(g, v, fuel)
                case None => None
                case Some(fs) =>
                  if Epsilon !in fs then Some(acc + fs)
                  else if fuel == 0 then None
                  else
                    match Follow(g, lhs, fuel - 1)
                    case None => None
                    case Some(fl) => Some(((acc + fs) - {Epsilon}) + fl)
              else
                match First(g, [lhs], fuel)
                case None => None
                case Some(fl) => Some(acc + fl)
  {
    IndexOfFirstOccurrence(u, n, v);
    assert (u + [n] + v)[|u| + 1..] == v;
  }

  /** A non-empty production that does not mention `n` leaves FOLLOW of `n`
      unchanged. */
  lemma FollowStepAbsent(g: Grammar, n: char, lhs: char, p: string, acc: set<char>, fuel: nat)
    requires |p| > 0 && n !in p
    ensures FollowStep(g, n, lhs, p, acc, fuel) == Some(acc)
  {
  }

  /** A rule none of whose productions mentions `n` (and none of which is
      empty) leaves FOLLOW of `n` unchanged. */
  lemma {:induction false} FollowProdsAbsent(g: Grammar, n: char, lhs: char, ps: seq<string>, acc: set<char>, fuel: nat)
    requires forall p | p in ps :: |p| > 0 && n !in p
    ensures FollowProds(g, n, lhs, ps, acc, fuel) == Some(acc)
    decreases |ps|
  {
    if |ps| > 0 {
      FollowStepAbsent(g, n, lhs, ps[0], acc, fuel);
      assert forall p | p in ps[1..] :: p in ps;
      FollowProdsAbsent(g, n, lhs, ps[1..], acc, fuel);
    }
  }

  /** What production `p` of `lhs` puts into FOLLOW of `n`, for a symbol
      `c` other than `/`: an occurrence of `n` before the last position,
      with no earlier occurrence, contributes FIRST of what comes after it
      and, when that can begin with `/`, FOLLOW of `lhs`; an occurrence in
      the last position with no earlier one contributes FIRST of `lhs`, and
      so does an empty production, whose `indexOf` is -1, one less than its
      length. */
  ghost predicate Contributes(g: Grammar, n: char, lhs: char, p: string, c: char, fuel: nat) {
    || (exists i | 0 <= i < |p| - 1 && p[i] == n && n !in p[..i] :: AfterContributes(g, lhs, p[i + 1..], c, fuel))
    || ((|p| == 0 || (p[|p| - 1] == n && n !in p[..|p| - 1]))
        && First(g, [lhs], fuel).Some? && c in First(g, [lhs], fuel).value)
  }

  /** `c` begins `v`, or `v` can begin with `/` and `c` follows `lhs`. */
  ghost predicate AfterContributes(g: Grammar, lhs: char, v: string, c: char, fuel: nat) {
    && First(g, v, fuel).Some?
    && (|| c in First(g, v, fuel).value
        || (&& Epsilon in First(g, v, fuel).value
            && fuel > 0 && Follow(g, lhs, fuel - 1).Some? && c in Follow(g, lhs, fuel - 1).value))
  }

  /** The symbols other than `/` in FOLLOW of `n` are `$` for the start
      symbol and whatever some production of some rule contributes; which
      order the rules and productions are visited in does not matter for
      them. */
  lemma FollowMembers(g: Grammar, n: char, fuel: nat, c: char)
    requires Follow(g, n, fuel).Some? && c != Epsilon
    ensures c in Follow(g, n, fuel).value <==>
              (n == g.start && c == EndMarker)
              || exists lhs, p | lhs in g.rules && p in g.rules[lhs] :: Contributes(g, n, lhs, p, c, fuel)
  {
    var lhss := Ascending(g.rules.Keys);
    FollowRulesMembers(g, n, lhss, if n == g.start then {EndMarker} else {}, fuel, c);
  }

  lemma {:induction false} FollowRulesMembers(g: Grammar, n: char, lhss: seq<char>, acc: set<char>, fuel: nat, c: char)
    requires forall a | a in lhss :: a in g.rules
    requires FollowRules(g, n, lhss, acc, fuel).Some? && c != Epsilon
    ensures c in FollowRules(g, n, lhss, acc, fuel).value <==>
              c in acc || exists lhs, p | lhs in lhss && p in g.rules[lhs] :: Contributes(g, n, lhs, p, c, fuel)
    decreases |lhss|
  {
    if |lhss| > 0 {
      var a := lhss[0];
      var acc' := FollowProds(g, n, a, g.rules[a], acc, fuel).value;
      FollowProdsMembers(g, n, a, g.rules[a], acc, fuel, c);
      FollowRulesMembers(g, n, lhss[1..], acc', fuel, c);
      assert forall b | b in lhss :: b == a || b in lhss[1..];
    }
  }

  lemma {:induction false} FollowProdsMembers(g: Grammar, n: char, lhs: char, ps: seq<string>, acc: set<char>, fuel: nat, c: char)
    requires FollowProds(g, n, lhs, ps, acc, fuel).Some? && c != Epsilon
    ensures c in FollowProds(g, n, lhs, ps, acc, fuel).value <==>
              c in acc || exists p | p in ps :: Contributes(g, n, lhs, p, c, fuel)
    decreases |ps|
  {
    if |ps| > 0 {
      var acc' := FollowStep(g, n, lhs, ps[0], acc, fuel).value;
      FollowStepMembers(g, n, lhs, ps[0], acc, fuel, c);
      FollowProdsMembers(g, n, lhs, ps[1..], acc', fuel, c);
      assert forall p | p in ps :: p == ps[0] || p in ps[1..];
    }
  }

  lemma FollowStepMembers(g: Grammar, n: char, lhs: char, p: string, acc: set<char>, fuel: nat, c: char)
    requires FollowStep(g, n, lhs, p, acc, fuel).Some? && c != Epsilon
    ensures c in FollowStep(g, n, lhs, p, acc, fuel).value <==> c in acc || Contributes(g, n, lhs, p, c, fuel)
  {
    var index := IndexOf(p, n);
    if 0 <= index < |p| - 1 {
      ContributesBefore(g, n, lhs, p, c, fuel);
      FollowAfterMembers(g, lhs, p[index + 1..], acc, fuel, c);
    } else if index == |p| - 1 {
      ContributesLast(g, n, lhs, p, c, fuel);
    } else {
      ContributesNothing(g, n, lhs, p, c, fuel);
    }
  }

  /** The first occurrence is the only position holding `n` with no `n`
      before it. */
  lemma FirstOccurrenceUnique(p: string, n: char, i: nat)
    requires i < |p| && p[i] == n && n !in p[..i]
    ensures i == IndexOf(p, n)
  {
    var index := IndexOf(p, n);
    assert p[i] in p;
    assert forall j | 0 <= j < i :: p[..i][j] == p[j];
    assert forall j | 0 <= j < index :: p[..index][j] == p[j];
  }

  lemma ContributesBefore(g: Grammar, n: char, lhs: char, p: string, c: char, fuel: nat)
    requires 0 <= IndexOf(p, n) < |p| - 1
    ensures Contributes(g, n, lhs, p, c, fuel) <==> AfterContributes(g, lhs, p[IndexOf(p, n) + 1..], c, fuel)
  {
    var index := IndexOf(p, n);
    assert p[..|p| - 1][index] == n;
    forall i | 0 <= i < |p| - 1 && p[i] == n && n !in p[..i]
      ensures i == index
    {
      FirstOccurrenceUnique(p, n, i);
    }
    assert p[index] == n && n !in p[..index];
  }

  lemma ContributesLast(g: Grammar, n: char, lhs: char, p: string, c: char, fuel: nat)
    requires IndexOf(p, n) == |p| - 1
    ensures Contributes(g, n, lhs, p, c, fuel) <==> First(g, [lhs], fuel).Some? && c in First(g, [lhs], fuel).value
  {
    forall i | 0 <= i < |p| - 1 && p[i] == n && n !in p[..i]
      ensures false
    {
      FirstOccurrenceUnique(p, n, i);
    }
  }

  lemma ContributesNothing(g: Grammar, n: char, lhs: char, p: string, c: char, fuel: nat)
    requires |p| > 0 && IndexOf(p, n) == -1
    ensures !Contributes(g, n, lhs, p, c, fuel)
  {
    assert forall i | 0 <= i < |p| :: p[i] in p;
  }

  lemma FollowAfterMembers(g: Grammar, lhs: char, v: string, acc: set<char>, fuel: nat, c: char)
    requires FollowAfter(g, lhs, v, acc, fuel).Some? && c != Epsilon
    ensures c in FollowAfter(g, lhs, v, acc, fuel).value <==> c in acc || AfterContributes(g, lhs, v, c, fuel)
  {
  }

  /** More fuel never changes a FOLLOW set that was already computed. */
  lemma {:induction false} FollowMonotone(g: Grammar, n: char, f1: nat, f2: nat)
    requires f1 <= f2 && Follow(g, n, f1).Some?
    ensures Follow(g, n, f2) == Follow(g, n, f1)
    decreases f1, 4
  {
    FollowRulesMonotone(g, n, Ascending(g.rules.Keys), if n == g.start then {EndMarker} else {}, f1, f2);
  }

  lemma {:induction false} FollowRulesMonotone(g: Grammar, n: char, lhss: seq<char>, acc: set<char>, f1: nat, f2: nat)
    requires forall a | a in lhss :: a in g.rules
    requires f1 <= f2 && FollowRules(g, n, lhss, acc, f1).Some?
    ensures FollowRules(g, n, lhss, acc, f2) == FollowRules(g, n, lhss, acc, f1)
    decreases f1, 3, |lhss|
  {
    if |lhss| > 0 {
      var ps := g.rules[lhss[0]];
      FollowProdsMonotone(g, n, lhss[0], ps, acc, f1, f2);
      var acc' := FollowProds(g, n, lhss[0], ps, acc, f1).value;
      FollowRulesMonotone(g, n, lhss[1..], acc', f1, f2);
    }
  }

  lemma {:induction false} FollowProdsMonotone(g: Grammar, n: char, lhs: char, ps: seq<string>, acc: set<char>, f1: nat, f2: nat)
    requires f1 <= f2 && FollowProds(g, n, lhs, ps, acc, f1).Some?
    ensures FollowProds(g, n, lhs, ps, acc, f2) == FollowProds(g, n, lhs, ps, acc, f1)
    decreases f1, 2, |ps|
  {
    if |ps| > 0 {
      FollowStepMonotone(g, n, lhs, ps[0], acc, f1, f2);
      var acc' := FollowStep(g, n, lhs, ps[0], acc, f1).value;
      FollowProdsMonotone(g, n, lhs, ps[1..], acc', f1, f2);
    }
  }

  lemma {:induction false} FollowStepMonotone(g: Grammar, n: char, lhs: char, p: string, acc: set<char>, f1: nat, f2: nat)
    requires f1 <= f2 && FollowStep(g, n, lhs, p, acc, f1).Some?
    ensures FollowStep(g, n, lhs, p, acc, f2) == FollowStep(g, n, lhs, p, acc, f1)
    decreases f1, 1
  {
    var index := IndexOf(p, n);
    if 0 <= index < |p| - 1 {
      FollowAfterMonotone(g, lhs, p[index + 1..], acc, f1, f2);
    } else if index == |p| - 1 {
      FirstMonotone(g, [lhs], f1, f2);
    }
  }

  lemma {:induction false} FollowAfterMonotone(g: Grammar, lhs: char, v: string, acc: set<char>, f1: nat, f2: nat)
    requires f1 <= f2 && FollowAfter(g, lhs, v, acc, f1).Some?
    ensures FollowAfter(g, lhs, v, acc, f2) == FollowAfter(g, lhs, v, acc, f1)
    decreases f1, 0
  {
    FirstMonotone(g, v, f1, f2);
    var fs := First(g, v, f1).value;
    if Epsilon in fs {
      var k1, k2 := f1 - 1, f2 - 1;
      var fl := Follow(g, lhs, k1).value;
      FollowMonotone(g, lhs, k1, k2);
      FollowAfterVanishes(g, lhs, v, acc, k1, fs, fl);
      FollowAfterVanishes(g, lhs, v, acc, k2, fs, fl);
    }
  }

  /** When FIRST of `v` can begin with `/`, the update trades it for
      FOLLOW of the left-hand side. */
  lemma FollowAfterVanishes(g: Grammar, lhs: char, v: string, acc: set<char>, k: nat, fs: set<char>, fl: set<char>)
    requires First(g, v, k + 1) == Some(fs) && Epsilon in fs && Follow(g, lhs, k) == Some(fl)
    ensures FollowAfter(g, lhs, v, acc, k + 1) == Some(((acc + fs) - {Epsilon}) + fl)
  {
  }
}
