/** The language of a grammar, as the recogniser reads productions: a
    production `/` rewrites its nonterminal to nothing, every other one to
    its own symbols. */
module Derivations {
  import opened Grammars

  function Yield(p: string): string {
    if p == [Epsilon] then [] else p
  }

  /** `y` is `x` with the nonterminal at position `i` replaced by production
      `p` of its rule. */
  ghost predicate RewriteAt(g: Grammar, x: string, y: string, i: int, p: string) {
    && 0 <= i < |x|
    && x[i] in g.rules
    && p in g.rules[x[i]]
    && y == x[..i] + Yield(p) + x[i + 1..]
  }

  ghost predicate Rewrites(g: Grammar, x: string, y: string) {
    exists i, p :: RewriteAt(g, x, y, i, p)
  }

  /** A sequence of sentential forms, each rewriting one nonterminal of the
      one before. */
  ghost predicate IsDerivation(g: Grammar, forms: seq<string>) {
    && |forms| >= 1
    && forall i | 0 <= i < |forms| - 1 :: Rewrites(g, forms[i], forms[i + 1])
  }

  /** A derivation of `w` from the start symbol. */
  ghost predicate DerivationOf(g: Grammar, forms: seq<string>, w: string) {
    && IsDerivation(g, forms)
    && forms[0] == [g.start]
    && forms[|forms| - 1] == w
  }

  ghost predicate Generates(g: Grammar, w: string) {
    exists forms :: DerivationOf(g, forms, w)
  }

  /** Extending a derivation by one more rewrite. */
  lemma DerivationSnoc(g: Grammar, forms: seq<string>, w: string, w': string)
    requires DerivationOf(g, forms, w) && Rewrites(g, w, w')
    ensures DerivationOf(g, forms + [w'], w')
  {
    var fs := forms + [w'];
    forall i | 0 <= i < |fs| - 1
      ensures Rewrites(g, fs[i], fs[i + 1])
    {
      if i < |forms| - 1 {
        assert fs[i] == forms[i] && fs[i + 1] == forms[i + 1];
      } else {
        assert fs[i] == w && fs[i + 1] == w';
      }
    }
  }
}
