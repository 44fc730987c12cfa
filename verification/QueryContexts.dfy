/**
 * The object a statement is written into: text in pieces, values pushed, aliases claimed, and fragments sharing both.
 */
module QueryContexts {
  import opened Options
  import opened Values
  import opened SqlText
  import opened Aliases
  import opened LikePatterns
  import opened WhereText
  import Filters

  /** The values a statement and every fragment of it bind, one list they all push to. */
  class Params {
    var values: seq<Value>

    constructor ()
      ensures values == []
    {
      values := [];
    }
  }

  class SqlQueryContext {
    const dialect: Dialect
    const params: Params
    const statement: SqlQueryContext?
    const inlineValues: bool
    var sqlChunks: seq<Tokens>
    var tableAliases: set<string>

    /** A fragment belongs to a statement, never to another fragment, and binds where its statement does. */
    predicate Valid() {
      statement != null ==> statement.statement == null && statement.params == params
    }

    function Root(): SqlQueryContext {
      if statement == null then this else statement
    }

    function TheMode(): Mode {
      Mode(dialect, inlineValues)
    }

    function Sql(): Tokens
      reads this`sqlChunks
    {
      Flat(sqlChunks)
    }

    constructor (dialect: Dialect, params: Params, statement: SqlQueryContext?, inlineValues: bool)
      requires statement != null ==> statement.statement == null && statement.params == params
      ensures Valid() && sqlChunks == [] && tableAliases == {}
      ensures this.dialect == dialect && this.params == params && this.statement == statement
      ensures this.inlineValues == inlineValues
    {
      this.dialect := dialect;
      this.params := params;
      this.statement := statement;
      this.inlineValues := inlineValues;
      sqlChunks := [];
      tableAliases := {};
    }

    /** A part of the same statement, binding into the same list and naming tables beside it. */
    method CreateFragment() returns (f: SqlQueryContext)
      requires Valid()
      ensures fresh(f) && f.Valid() && f.Sql() == []
      ensures f.params == params && f.Root() == Root() && f.TheMode() == TheMode()
    {
      f := new SqlQueryContext(dialect, params, Root(), inlineValues);
    }

    method Append(sql: Tokens)
      modifies this`sqlChunks
      ensures Sql() == old(Sql()) + sql
    {
      if sql != [] {
        FlatAppends(sqlChunks, sql);
        sqlChunks := sqlChunks + [sql];
      }
    }

    /** A value bound as the statement's next, or written where it stands; SQL where it stands. */
    method AddValue(alias: string, x: Filters.Operand) returns (text: Tokens)
      modifies params
      ensures text == ValueText(TheMode(), alias, x, |old(params.values)|).text
      ensures params.values == old(params.values) + ValueText(TheMode(), alias, x, |old(params.values)|).values
    {
      match x
      case Ref(c) => text := [Column(alias, c)];
      case Given(v) =>
        if inlineValues {
          text := [Literal(Normalize(dialect, v))];
        } else {
          params.values := params.values + [Normalize(dialect, v)];
          text := [Placeholder(|params.values|)];
        }
    }

    /**
     * The first of `name`, `name_2`, `name_3` and on that no table of the statement is called, nor `parent`, in any
     * case.
     */
    method ClaimAlias(name: string, parent: Option<string>) returns (alias: string)
      requires Valid()
      modifies Root()`tableAliases
      ensures alias == Claimed(name, parent, old(Root().tableAliases))
      ensures Root().tableAliases == old(Root().tableAliases) + {CaseFolded(alias)}
      decreases statement != null
    {
      if statement != null {
        alias := statement.ClaimAlias(name, parent);
        return;
      }
      alias := FirstFreeAlias(name, parent);
      tableAliases := tableAliases + {CaseFolded(alias)};
    }

    method FirstFreeAlias(name: string, parent: Option<string>) returns (alias: string)
      ensures alias == Claimed(name, parent, tableAliases)
    {
      ghost var free := FirstFree(name, Barred(tableAliases, parent), 1);
      alias := name;
      var n := 2;
      while CaseFolded(alias) in tableAliases || (parent.Some? && CaseFolded(alias) == CaseFolded(parent.value))
        invariant 2 <= n <= free + 1 && alias == Candidate(name, n - 1)
        decreases free + 1 - n
      {
        alias := name + "_" + Decimal(n);
        n := n + 1;
      }
    }
  }

  lemma {:induction false} FlatAppends(chunks: seq<Tokens>, t: Tokens)
    ensures Flat(chunks + [t]) == Flat(chunks) + t
  {
    if chunks == [] {
      assert chunks + [t] == [t];
      assert Flat([t]) == t + Flat([]);
    } else {
      FlatAppends(chunks[1..], t);
      assert (chunks + [t])[1..] == chunks[1..] + [t];
    }
  }

  // ----- runs of claims -----

  /** The aliases a run of claims is given, from any fragments of one statement, and in any order of them. */
  function ClaimedInTurn(claims: seq<(string, Option<string>)>, taken: set<string>): seq<string> {
    if claims == [] then []
    else
      var alias := Claimed(claims[0].0, claims[0].1, taken);
      [alias] + ClaimedInTurn(claims[1..], taken + {CaseFolded(alias)})
  }

  /**
   * No two are the same name whatever its case, none is one taken before the run, and none the parent it may not be.
   */
  lemma {:induction false} ClaimsAreDistinct(claims: seq<(string, Option<string>)>, taken: set<string>)
    ensures var given := ClaimedInTurn(claims, taken);
            && |given| == |claims|
            && (forall i, j :: 0 <= i < j < |given| ==> CaseFolded(given[i]) != CaseFolded(given[j]))
            && (forall i :: 0 <= i < |given| ==> CaseFolded(given[i]) !in taken)
            && (forall i :: 0 <= i < |given| && claims[i].1.Some? ==>
                  CaseFolded(given[i]) != CaseFolded(claims[i].1.value))
    decreases |claims|
  {
    if claims != [] {
      var alias := Claimed(claims[0].0, claims[0].1, taken);
      ClaimsAreDistinct(claims[1..], taken + {CaseFolded(alias)});
      var given := ClaimedInTurn(claims, taken);
      var more := ClaimedInTurn(claims[1..], taken + {CaseFolded(alias)});
      assert given == [alias] + more;
      assert forall i :: 1 <= i < |given| ==> given[i] == more[i - 1] && claims[i] == claims[1..][i - 1];
    }
  }
}
