/** The LL(1) parse table: one row per nonterminal, one column per terminal,
    each cell holding at most one production. */
module ParseTables {
  import opened Wrappers
  import opened Grammars
  import opened FirstSets
  import opened FollowSets

  /** Row nonterminal, then column terminal, to the production to expand. */
  type Table = map<char, map<char, string>>

  /** The selection rule of a production for column `t`: `t` begins it, or it
      can begin with `/` and `t` follows the nonterminal. */
  predicate Selects(fs: set<char>, fl: set<char>, t: char) {
    t in fs || (Epsilon in fs && t in fl)
  }

  /** Production `ps[i]` is selected for `t`, and no later one is. */
  ghost predicate LastSelected(g: Grammar, ps: seq<string>, i: int, t: char, fl: set<char>, fuel: nat)
    requires 0 <= i < |ps|
  {
    && First(g, ps[i], fuel).Some?
    && Selects(First(g, ps[i], fuel).value, fl, t)
    && forall j | i < j < |ps| :: First(g, ps[j], fuel).Some? && !Selects(First(g, ps[j], fuel).value, fl, t)
  }

  /** No production of the list is selected for `t`. */
  ghost predicate NoneSelected(g: Grammar, ps: seq<string>, t: char, fl: set<char>, fuel: nat) {
    forall i | 0 <= i < |ps| :: First(g, ps[i], fuel).Some? && !Selects(First(g, ps[i], fuel).value, fl, t)
  }

  /** The loop over the productions of a row that writes every selected one
      into the cell, so that the last write wins; `cell` is the cell before
      the remaining productions `ps` are visited. */
  function Choose(g: Grammar, ps: seq<string>, t: char, fl: set<char>, fuel: nat, cell: Option<string>): (r: Option<Option<string>>)
    ensures r.Some? <==> forall i | 0 <= i < |ps| :: First(g, ps[i], fuel).Some?
    ensures r.Some? && NoneSelected(g, ps, t, fl, fuel) ==> r.value == cell
    ensures r.Some? && !NoneSelected(g, ps, t, fl, fuel) ==>
              exists i | 0 <= i < |ps| :: r.value == Some(ps[i]) && LastSelected(g, ps, i, t, fl, fuel)
    decreases |ps|
  {
    if |ps| == 0 then Some(cell)
    else
      match First(g, ps[0], fuel)
      case None => None
      case Some(fs) =>
        SelectedShift(g, ps, t, fl, fuel);
        Choose(g, ps[1..], t, fl, fuel, if Selects(fs, fl, t) then Some(ps[0]) else cell)
  }

  /** How the selection facts of a list relate to those of its tail. */
  lemma SelectedShift(g: Grammar, ps: seq<string>, t: char, fl: set<char>, fuel: nat)
    requires |ps| > 0
    ensures forall i | 0 <= i < |ps| - 1 :: LastSelected(g, ps[1..], i, t, fl, fuel) ==> LastSelected(g, ps, i + 1, t, fl, fuel)
    ensures forall i | 0 <= i < |ps| - 1 :: ps[1..][i] == ps[i + 1]
    ensures NoneSelected(g, ps, t, fl, fuel) <==>
              First(g, ps[0], fuel).Some? && !Selects(First(g, ps[0], fuel).value, fl, t) && NoneSelected(g, ps[1..], t, fl, fuel)
    ensures First(g, ps[0], fuel).Some? && Selects(First(g, ps[0], fuel).value, fl, t) && NoneSelected(g, ps[1..], t, fl, fuel) ==>
              LastSelected(g, ps, 0, t, fl, fuel)
  {
    assert forall j | 1 <= j < |ps| :: ps[1..][j - 1] == ps[j];
  }

  /** The cell of row `a` and column `t`: a production that is exactly `t`
      goes in directly; otherwise FOLLOW of `a` is computed and the last
      selected production wins. The outer `None` is a failed computation
      (no rule for `a`, or a FIRST or FOLLOW that ran out of fuel), the inner
      one an empty cell. */
  function Cell(g: Grammar, a: char, t: char, fuel: nat): (r: Option<Option<string>>)
    ensures r.Some? ==> a in g.rules
    ensures r.Some? && r.value.Some? ==> r.value.value in g.rules[a]
  {
    if a !in g.rules then None
    else if [t] in g.rules[a] then Some(Some([t]))
    else
      match Follow(g, a, fuel)
      case None => None
      case Some(fl) => Choose(g, g.rules[a], t, fl, fuel, None)
  }

  /** One step of the selection loop, and a cell that is not filled by the
      fast path. */
  lemma ChooseStep(g: Grammar, ps: seq<string>, t: char, fl: set<char>, fuel: nat, cell: Option<string>, fs: set<char>)
    requires |ps| > 0 && First(g, ps[0], fuel) == Some(fs)
    ensures Choose(g, ps, t, fl, fuel, cell) == Choose(g, ps[1..], t, fl, fuel, if Selects(fs, fl, t) then Some(ps[0]) else cell)
  {
  }

  lemma CellByFollow(g: Grammar, a: char, t: char, fuel: nat, fl: set<char>)
    requires a in g.rules && [t] !in g.rules[a] && Follow(g, a, fuel) == Some(fl)
    ensures Cell(g, a, t, fuel) == Choose(g, g.rules[a], t, fl, fuel, None)
  {
  }

  /** The rows the table is built for: every nonterminal with a rule, and
      the start symbol, which is put first in the list whether or not it has
      a rule. */
  function RowKeys(g: Grammar): set<char> {
    g.rules.Keys + {g.start}
  }

  /** Every cell of every row computes. */
  predicate AllCellsCompute(g: Grammar, fuel: nat) {
    forall a, t | a in RowKeys(g) && t in Terminals(g) :: Cell(g, a, t, fuel).Some?
  }

  /** Every stored production belongs to the rule of its row. */
  ghost predicate Sound(g: Grammar, tbl: Table) {
    forall a, t | a in tbl && t in tbl[a] :: a in g.rules && tbl[a][t] in g.rules[a]
  }

  /** Building the table: a row for every nonterminal and a column for every
      terminal, so never one for `$` unless `$` occurs in a production. `None`
      when some cell fails to compute. */
  function BuildTable(g: Grammar, fuel: nat): (r: Option<Table>)
    ensures r.Some? <==> AllCellsCompute(g, fuel)
    ensures r.Some? ==> r.value.Keys == RowKeys(g)
    ensures r.Some? ==> forall a | a in r.value :: r.value[a].Keys <= Terminals(g)
    ensures r.Some? ==> Sound(g, r.value)
  {
    if AllCellsCompute(g, fuel) then
      Some(map a | a in RowKeys(g) :: Row(g, a, fuel))
    else None
  }

  /** One row: the non-empty cells of `a` over the terminal alphabet. */
  function Row(g: Grammar, a: char, fuel: nat): (row: map<char, string>)
    requires a in RowKeys(g) && AllCellsCompute(g, fuel)
    ensures row.Keys <= Terminals(g)
    ensures forall t | t in row :: a in g.rules && row[t] in g.rules[a]
  {
    map t | t in Terminals(g) && Cell(g, a, t, fuel).value.Some? :: Cell(g, a, t, fuel).value.value
  }

  /** A table is the one built exactly when it has the rows of the grammar
      and every one of its cells is what the cell computation yields. */
  lemma BuildTableExactly(g: Grammar, fuel: nat, tbl: Table)
    requires tbl.Keys == RowKeys(g)
    requires forall a | a in tbl :: tbl[a].Keys <= Terminals(g)
    requires forall a, t | a in tbl && t in Terminals(g) ::
               Cell(g, a, t, fuel) == Some(if t in tbl[a] then Some(tbl[a][t]) else None)
    ensures BuildTable(g, fuel) == Some(tbl)
  {
    assert AllCellsCompute(g, fuel);
    forall a | a in tbl
      ensures Row(g, a, fuel) == tbl[a]
    {
      assert Row(g, a, fuel).Keys == tbl[a].Keys;
    }
    assert BuildTable(g, fuel).value == tbl;
  }

  /** The content of a cell of a built table: a one-symbol production equal
      to the column goes in directly; otherwise the cell holds the last
      production, in list order, selected for the column through FIRST of the
      production or, when that can begin with `/`, through FOLLOW of the row,
      and is absent when no production is selected. */
  lemma TableCell(g: Grammar, fuel: nat, a: char, t: char)
    requires BuildTable(g, fuel).Some? && a in g.rules && t in Terminals(g)
    ensures [t] in g.rules[a] ==> t in BuildTable(g, fuel).value[a] && BuildTable(g, fuel).value[a][t] == [t]
    ensures [t] !in g.rules[a] ==> Follow(g, a, fuel).Some?
    ensures [t] !in g.rules[a] ==>
              var ps, row, fl := g.rules[a], BuildTable(g, fuel).value[a], Follow(g, a, fuel).value;
              && (t in row <==> !NoneSelected(g, ps, t, fl, fuel))
              && (t in row ==> exists i | 0 <= i < |ps| :: row[t] == ps[i] && LastSelected(g, ps, i, t, fl, fuel))
  {
    assert a in RowKeys(g);
    assert Cell(g, a, t, fuel).Some?;
    assert BuildTable(g, fuel).value[a] == Row(g, a, fuel);
  }

  /** With no rule for the start symbol, the table only builds when there
      are no terminals at all: otherwise the start row looks up a missing
      rule. */
  lemma StartWithoutRule(g: Grammar, fuel: nat)
    requires BuildTable(g, fuel).Some? && g.start !in g.rules
    ensures Terminals(g) == {}
    ensures BuildTable(g, fuel).value[g.start] == map[]
  {
    assert g.start in RowKeys(g);
    assert forall t | t in Terminals(g) :: Cell(g, g.start, t, fuel).None?;
  }

  /** In a grammar whose productions never mention `$`, `$` is never a
      column, whatever the row. */
  lemma NoEndMarkerColumn(g: Grammar, fuel: nat, a: char)
    requires EndMarkerFree(g) && BuildTable(g, fuel).Some? && a in BuildTable(g, fuel).value
    ensures EndMarker !in Terminals(g)
    ensures EndMarker !in BuildTable(g, fuel).value[a]
  {
    EndMarkerNotTerminal(g);
  }

  /** More fuel never changes a cell that was already computed. */
  lemma {:induction false} ChooseMonotone(g: Grammar, ps: seq<string>, t: char, fl: set<char>, f1: nat, f2: nat, cell: Option<string>)
    requires f1 <= f2 && Choose(g, ps, t, fl, f1, cell).Some?
    ensures Choose(g, ps, t, fl, f2, cell) == Choose(g, ps, t, fl, f1, cell)
    decreases |ps|
  {
    if |ps| > 0 {
      FirstMonotone(g, ps[0], f1, f2);
      var fs := First(g, ps[0], f1).value;
      ChooseMonotone(g, ps[1..], t, fl, f1, f2, if Selects(fs, fl, t) then Some(ps[0]) else cell);
    }
  }

  lemma CellMonotone(g: Grammar, a: char, t: char, f1: nat, f2: nat)
    requires f1 <= f2 && Cell(g, a, t, f1).Some?
    ensures Cell(g, a, t, f2) == Cell(g, a, t, f1)
  {
    if [t] !in g.rules[a] {
      FollowMonotone(g, a, f1, f2);
      ChooseMonotone(g, g.rules[a], t, Follow(g, a, f1).value, f1, f2, None);
    }
  }

  /** More fuel never changes a table that was already built. */
  lemma BuildTableMonotone(g: Grammar, f1: nat, f2: nat)
    requires f1 <= f2 && BuildTable(g, f1).Some?
    ensures BuildTable(g, f2) == BuildTable(g, f1)
  {
    forall a, t | a in RowKeys(g) && t in Terminals(g)
      ensures Cell(g, a, t, f2) == Cell(g, a, t, f1)
    {
      CellMonotone(g, a, t, f1, f2);
    }
    assert AllCellsCompute(g, f2);
    forall a | a in RowKeys(g)
      ensures BuildTable(g, f1).value[a] == BuildTable(g, f2).value[a]
    {
      assert Row(g, a, f1) == Row(g, a, f2);
    }
    assert BuildTable(g, f1).value == BuildTable(g, f2).value;
  }

  /** Building the table again, with whatever fuel lets it complete, yields
      the same table. */
  lemma BuildTableDeterministic(g: Grammar, f1: nat, f2: nat)
    requires BuildTable(g, f1).Some? && BuildTable(g, f2).Some?
    ensures BuildTable(g, f1) == BuildTable(g, f2)
  {
    if f1 <= f2 {
      BuildTableMonotone(g, f1, f2);
    } else {
      BuildTableMonotone(g, f2, f1);
    }
  }
}
