/** The filter of a search as the ORM query object holds it (db.Query):
    a list of where-conditions, each attached to the previous one by AND or
    OR, where a condition is a full-text leaf or a parenthesised group. */
module Query {

  import opened Json

  /** The PostgreSQL function that turns the search text into a tsquery. */
  datatype TsFunction = ToTsQuery | PhraseToTsQuery

  /** `to_tsvector([analyzer,] document->'field') @@ fn([analyzer,] 'text')`. */
  datatype Leaf = Leaf(fn: TsFunction, field: string, analyzer: Option<string>, text: string)

  datatype Conj = And | Or

  /** `Where(leaf)` is attached with AND; `Group(And, ..)` is `WhereGroup`,
      `Group(Or, ..)` is `WhereOrGroup`. */
  datatype Clause = Where(leaf: Leaf) | Group(conj: Conj, body: seq<Clause>)

  /** The word that attaches a clause to the one before it. */
  function Joiner(c: Clause): Conj
  {
    match c
    case Where(_) => And
    case Group(conj, _) => conj
  }

  /** Truth of a where-list for one row, given the truth `sat` of each
      full-text leaf on that row.  The joiner of the first clause is not
      written; AND binds tighter than OR, as in SQL.  A list with no clause
      filters nothing. */
  predicate Holds(cs: seq<Clause>, sat: Leaf -> bool)
    decreases cs
  {
    if cs == [] then true else Chain(cs[1..], sat, false, HoldsClause(cs[0], sat))
  }

  predicate HoldsClause(c: Clause, sat: Leaf -> bool)
    decreases c
  {
    match c
    case Where(leaf) => sat(leaf)
    case Group(_, body) => Holds(body, sat)
  }

  /** Left-to-right evaluation: `done` is the disjunction of the finished
      AND-runs, `cur` the value of the run in progress. */
  predicate Chain(rest: seq<Clause>, sat: Leaf -> bool, done: bool, cur: bool)
    decreases rest
  {
    if rest == [] then done || cur
    else if Joiner(rest[0]) == And then Chain(rest[1..], sat, done, cur && HoldsClause(rest[0], sat))
    else Chain(rest[1..], sat, done || cur, HoldsClause(rest[0], sat))
  }

  predicate AllAnd(cs: seq<Clause>)
  {
    forall k :: 0 <= k < |cs| ==> Joiner(cs[k]) == And
  }

  lemma {:induction false} ChainOfAnds(rest: seq<Clause>, sat: Leaf -> bool, cur: bool)
    requires AllAnd(rest)
    ensures Chain(rest, sat, false, cur) <==> cur && forall k :: 0 <= k < |rest| ==> HoldsClause(rest[k], sat)
    decreases rest
  {
    if rest != [] {
      assert AllAnd(rest[1..]) by {
        forall k | 0 <= k < |rest[1..]| ensures Joiner(rest[1..][k]) == And {
          assert rest[1..][k] == rest[k + 1];
        }
      }
      ChainOfAnds(rest[1..], sat, cur && HoldsClause(rest[0], sat));
      forall k | 0 <= k < |rest[1..]| ensures rest[1..][k] == rest[k + 1] { }
      if cur && HoldsClause(rest[0], sat) && (forall k :: 0 <= k < |rest[1..]| ==> HoldsClause(rest[1..][k], sat)) {
        forall k | 0 <= k < |rest| ensures HoldsClause(rest[k], sat) {
          if k > 0 { assert rest[k] == rest[1..][k - 1]; }
        }
      }
    }
  }

  /** A list whose clauses are all AND-attached holds exactly when every
      clause holds: the conjunction that `Where` and `WhereGroup` promise. */
  lemma HoldsAllAnd(cs: seq<Clause>, sat: Leaf -> bool)
    requires AllAnd(cs)
    ensures Holds(cs, sat) <==> forall k :: 0 <= k < |cs| ==> HoldsClause(cs[k], sat)
  {
    if cs != [] {
      assert AllAnd(cs[1..]) by {
        forall k | 0 <= k < |cs[1..]| ensures Joiner(cs[1..][k]) == And {
          assert cs[1..][k] == cs[k + 1];
        }
      }
      ChainOfAnds(cs[1..], sat, HoldsClause(cs[0], sat));
      if Holds(cs, sat) {
        forall k | 0 <= k < |cs| ensures HoldsClause(cs[k], sat) {
          if k > 0 { assert cs[k] == cs[1..][k - 1]; }
        }
      }
    }
  }

  /** A group attached with OR after an AND group: the rows of either. */
  lemma AndGroupThenOrGroup(a: seq<Clause>, b: seq<Clause>, sat: Leaf -> bool)
    ensures Holds([Group(And, a), Group(Or, b)], sat) <==> Holds(a, sat) || Holds(b, sat)
  {
    var cs := [Group(And, a), Group(Or, b)];
    var rest := [Group(Or, b)];
    assert cs[1..] == rest && rest[1..] == [];
    assert HoldsClause(cs[0], sat) == Holds(a, sat);
    assert HoldsClause(rest[0], sat) == Holds(b, sat);
    assert Chain(rest, sat, false, Holds(a, sat)) == Chain([], sat, Holds(a, sat), Holds(b, sat));
  }

  /** An OR group written first and an AND group after it: SQL reads
      `(b) AND (a)`, so the OR does not widen the result. */
  lemma OrGroupThenAndGroup(a: seq<Clause>, b: seq<Clause>, sat: Leaf -> bool)
    ensures Holds([Group(Or, b), Group(And, a)], sat) <==> Holds(a, sat) && Holds(b, sat)
  {
    var cs := [Group(Or, b), Group(And, a)];
    var rest := [Group(And, a)];
    assert cs[1..] == rest && rest[1..] == [];
    assert HoldsClause(cs[0], sat) == Holds(b, sat);
    assert HoldsClause(rest[0], sat) == Holds(a, sat);
    assert Chain(rest, sat, false, Holds(b, sat)) == Chain([], sat, false, Holds(b, sat) && Holds(a, sat));
  }

  /** The ORM query object a search is compiled into: the table it reads
      and a where-list that grows in place.  A group is built on the same
      object: the current list is set aside, the group's conditions are
      added to an empty list, and the saved list comes back with the group
      attached at its end. */
  class Builder {
    const table: string
    var where: seq<Clause>

    /** `Model().Table(table)`: no condition yet. */
    constructor(table: string)
      ensures this.table == table && where == []
    {
      this.table := table;
      where := [];
    }

    /** `Where(cond)`: one condition attached with AND. */
    method Where(leaf: Leaf)
      modifies this
      ensures where == old(where) + [Clause.Where(leaf)]
    {
      where := where + [Clause.Where(leaf)];
    }

    /** Start of `WhereGroup`/`WhereOrGroup`: the list so far is handed back
        and the object starts collecting the group's conditions. */
    method BeginGroup() returns (saved: seq<Clause>)
      modifies this
      ensures saved == old(where) && where == []
    {
      saved := where;
      where := [];
    }

    /** End of the group: the collected conditions become one group attached
        with `conj` after the saved list. */
    method EndGroup(conj: Conj, saved: seq<Clause>)
      modifies this
      ensures where == saved + [Group(conj, old(where))]
    {
      where := saved + [Group(conj, where)];
    }
  }
}
