/**
 * The query grammar of the Caché dialect.  The dialect has no
 * OFFSET/FETCH clause, so a select with an offset is wrapped as
 *
 *     select *, %vid from (<inner query>) where %vid <row constraint>
 *
 * where %vid is the row position the dialect gives the rows of the
 * subquery, the inner query selects `top all` rows and is ordered by the
 * first column when the caller gave no ordering.  Identifier quoting is a
 * no-op.  What the base (SQL Server) grammar compiles is an input here:
 * its output for a select without an offset, and the clauses its
 * compileComponents produces.
 */
module QueryGrammar {
  import opened Php
  import opened Exceptions

  /** `$query->limit`: not set, a number of rows, or the `'all'` sentinel. */
  datatype Limit = Unset | Rows(n: int) | All

  /** PHP truthiness of the limit (`'all'` is truthy; only unset and 0 are falsy). */
  predicate LimitIsSet(limit: Limit) {
    match limit
    case Unset => false
    case Rows(n) => n != 0
    case All => true
  }

  /**
   * The compiled clauses of a select, as the base grammar's
   * compileComponents returns them, in the order concatenation joins
   * them (the SQL Server grammar's select components: offset before
   * limit); an absent clause is the empty string.
   */
  datatype Components = Components(
    aggregate: string, columns: string, from: string, joins: string,
    wheres: string, groups: string, havings: string, orders: string,
    offset: string, limit: string, lock: string)

  /** Two clauses joined by a space, leaving out an empty one. */
  function Glue(a: string, b: string): string {
    if a == "" then b else if b == "" then a else a + " " + b
  }

  /** The base grammar's concatenate: the non-empty clauses, in order, joined by single spaces. */
  function Concatenate(c: Components): (r: string)
    ensures r == "" <==> c == Components("", "", "", "", "", "", "", "", "", "", "")
  {
    Glue(c.aggregate, Glue(c.columns, Glue(c.from, Glue(c.joins, Glue(c.wheres, Glue(c.groups,
      Glue(c.havings, Glue(c.orders, Glue(c.offset, Glue(c.limit, c.lock))))))))))
  }

  /** A clause kept by `array_filter(..., fn ($v) => (string) $v !== '')`: none, or itself. */
  function Kept(clause: string): (r: seq<string>)
    ensures forall k :: 0 <= k < |r| ==> r[k] != ""
  {
    if clause == "" then [] else [clause]
  }

  /** The clauses the base grammar's concatenate keeps, in their order. */
  function NonEmptyClauses(c: Components): seq<string> {
    Kept(c.aggregate) + (Kept(c.columns) + (Kept(c.from) + (Kept(c.joins) + (Kept(c.wheres) + (Kept(c.groups)
      + (Kept(c.havings) + (Kept(c.orders) + (Kept(c.offset) + (Kept(c.limit) + Kept(c.lock))))))))))
  }

  lemma ImplodeHead(glue: string, parts: seq<string>)
    requires parts != [] && parts[0] != ""
    ensures Implode(glue, parts) != ""
  {
  }

  /** Gluing one more clause in front of an implosion of non-empty clauses implodes the longer list. */
  lemma GlueImplode(a: string, parts: seq<string>)
    requires forall k :: 0 <= k < |parts| ==> parts[k] != ""
    ensures Glue(a, Implode(" ", parts)) == Implode(" ", Kept(a) + parts)
  {
    if a == "" {
      assert Kept(a) + parts == parts;
    } else if parts == [] {
      assert Kept(a) + parts == [a];
    } else {
      ImplodeHead(" ", parts);
      assert (Kept(a) + parts)[1..] == parts;
    }
  }

  /**
   * The Glue chain is the base grammar's own definition: implode with a
   * space of the clauses that are not the empty string.
   */
  lemma ConcatenateIsImplode(c: Components)
    ensures Concatenate(c) == Implode(" ", NonEmptyClauses(c))
  {
    var t := Kept(c.lock);
    assert Implode(" ", t) == c.lock;
    GlueImplode(c.limit, t);
    t := Kept(c.limit) + t;
    GlueImplode(c.offset, t);
    t := Kept(c.offset) + t;
    GlueImplode(c.orders, t);
    t := Kept(c.orders) + t;
    GlueImplode(c.havings, t);
    t := Kept(c.havings) + t;
    GlueImplode(c.groups, t);
    t := Kept(c.groups) + t;
    GlueImplode(c.wheres, t);
    t := Kept(c.wheres) + t;
    GlueImplode(c.joins, t);
    t := Kept(c.joins) + t;
    GlueImplode(c.from, t);
    t := Kept(c.from) + t;
    GlueImplode(c.columns, t);
    t := Kept(c.columns) + t;
    GlueImplode(c.aggregate, t);
  }

  /** PHP's `empty()` on a compiled clause. */
  predicate EmptyClause(s: string) {
    s == "" || s == "0"
  }

  /** Identifier quoting of the dialect: none. */
  function WrapValue(value: string): (r: string)
    ensures r == value
  {
    value
  }

  /**
   * The column list, each column wrapped, joined by ", ".  With quoting a
   * no-op the columns appear as written.
   */
  function Columnize(columns: seq<string>): (r: string)
    ensures r == Implode(", ", columns)
    ensures columns == [] ==> r == ""
    ensures |columns| == 1 ==> r == columns[0]
  {
    var wrapped := seq(|columns|, k requires 0 <= k < |columns| => WrapValue(columns[k]));
    assert wrapped == columns;
    Implode(", ", wrapped)
  }

  /** The columns clause of the inner query. */
  function CompileOver(orderings: string): (r: string)
    ensures |r| == 15 + |orderings| && r[15..] == orderings
    ensures r[..15] == "select top all "
  {
    "select top all " + orderings
  }

  /** Which %vid values the wrapped query keeps. */
  datatype RowWindow = Between(start: int, finish: int) | From(start: int)

  /**
   * compileRowConstraint: the window starts at offset + 1; with a
   * positive limit it ends at offset + limit, otherwise it is open-ended.
   * The `'all'` sentinel takes the open-ended branch.
   */
  function RowConstraint(offset: int, limit: Limit): (w: RowWindow)
    ensures w.start == offset + 1
    ensures w.Between? <==> limit.Rows? && limit.n > 0
    ensures w.Between? ==> w.finish == offset + limit.n && w.finish - w.start + 1 == limit.n
  {
    if limit.Rows? && limit.n > 0 then Between(offset + 1, offset + limit.n) else From(offset + 1)
  }

  /** What the model says in place of PHP's TypeError message, whose text is not modelled. */
  const NonNumericOperand := "non-numeric operand"

  /**
   * compileRowConstraint as PHP 8 evaluates it.  `$query->limit > 0`
   * compares the `'all'` sentinel with 0 as strings, and "all" > "0"
   * holds, so `'all'` takes the bounded branch, where
   * `$query->offset + $query->limit` raises a TypeError for the
   * non-numeric string.  An unset limit (null) is not greater than 0.
   */
  function RowConstraintAsWritten(offset: int, limit: Limit): (r: Result<RowWindow>)
    ensures limit == All ==> r == Err(TypeError(NonNumericOperand))
    ensures limit != All ==> r == Ok(RowConstraint(offset, limit))
  {
    match limit
    case All => Err(TypeError(NonNumericOperand))
    case Rows(n) => if n > 0 then Ok(Between(offset + 1, offset + n)) else Ok(From(offset + 1))
    case Unset => Ok(From(offset + 1))
  }

  /**
   * Since compileAnsiOffset turns an unset or zero limit into `'all'`,
   * every offset query without a limit raises as written, where the
   * builder tests expect the open window `>= offset+1`.
   */
  lemma OffsetWithoutLimitRaises(offset: int, limit: Limit)
    requires !LimitIsSet(limit)
    ensures RowConstraintAsWritten(offset, OffsetLimit(limit)).Err?
    ensures RowConstraint(offset, OffsetLimit(limit)) == From(offset + 1)
  {
  }

  /** The constraint text of compileRowConstraint. */
  function ConstraintText(w: RowWindow): string {
    match w
    case Between(s, f) => "between " + IntToString(s) + " and " + IntToString(f)
    case From(s) => ">= " + IntToString(s)
  }

  /** `>= n` names its bound in decimal: PHP's `(int)` cast reads it back. */
  lemma FromReadsBack(s: int)
    ensures var r := ConstraintText(From(s));
      |r| > 3 && r[..3] == ">= " && IntCast(r[3..]) == s
  {
    var r := ConstraintText(From(s));
    assert r[3..] == IntToString(s) + [];
    IntCastPrefix(s, []);
  }

  /** The two bounds of `between a and b`, each read back by the cast. */
  lemma BetweenReadsBack(s: int, f: int)
    ensures var r := ConstraintText(Between(s, f)); var k := |r| - |IntToString(f)|;
      8 < k - 5 && r[..8] == "between " && IntCast(r[8..]) == s
        && r[k - 5..k] == " and " && IntCast(r[k..]) == f
  {
    var a, b := IntToString(s), IntToString(f);
    var r := ConstraintText(Between(s, f));
    assert r == "between " + a + " and " + b;
    BetweenShape(a, b);
    var k := |r| - |b|;
    IntCastPrefix(s, " and " + b);
    assert IntCast(r[8..]) == s;
    IntCastPrefix(f, []);
    assert IntCast(r[k..]) == f;
  }

  /** Where the pieces of `between a and b` stand. */
  lemma BetweenShape(a: string, b: string)
    requires a != []
    ensures var r := "between " + a + " and " + b; var k := |r| - |b|;
      8 < k - 5 && r[..8] == "between " && r[8..] == a + (" and " + b)
        && r[k - 5..k] == " and " && r[k..] == b + []
  {
    var r := "between " + a + " and " + b;
    ThreeParts("between " + a, " and ", b);
    assert r[8..] == a + (" and " + b);
  }

  /** compileTableExpression: the wrapping select over the inner query. */
  function TableExpression(sql: string, offset: int, limit: Limit): string {
    "select *, %vid from (" + sql + ") where %vid " + ConstraintText(RowConstraint(offset, limit))
  }

  /**
   * The inner query stands verbatim inside the parentheses of the
   * wrapping select, and the row constraint closes the text.
   */
  lemma TableExpressionEmbeds(sql: string, offset: int, limit: Limit)
    ensures var r := TableExpression(sql, offset, limit);
      var tail := ") where %vid " + ConstraintText(RowConstraint(offset, limit));
      |r| == 21 + |sql| + |tail| && r[..21] == "select *, %vid from (" && r[21..21 + |sql|] == sql
      && r[21 + |sql|..] == tail
  {
    var tail := ") where %vid " + ConstraintText(RowConstraint(offset, limit));
    var head := "select *, %vid from (";
    assert |head| == 21;
    assert TableExpression(sql, offset, limit) == head + sql + tail;
    ThreeParts(head, sql, tail);
  }

  lemma ThreeParts(head: string, middle: string, tail: string)
    ensures var r := head + middle + tail;
      |r| == |head| + |middle| + |tail| && r[..|head|] == head
      && r[|head|..|head| + |middle|] == middle && r[|head| + |middle|..] == tail
  {
  }

  /** The limit compileAnsiOffset leaves on the query: unset and 0 become `'all'`. */
  function OffsetLimit(limit: Limit): (r: Limit)
    ensures LimitIsSet(r)
    ensures LimitIsSet(limit) ==> r == limit
    ensures !LimitIsSet(limit) ==> r == All
  {
    if LimitIsSet(limit) then limit else All
  }

  /**
   * The clauses of the inner query: without an ordering, `order by 1` is
   * put in and the limit and offset clauses are dropped; the columns
   * clause always becomes `select top all <columns>`.
   */
  function InnerComponents(c: Components, columns: seq<string>): (r: Components)
    ensures r.columns == CompileOver(Columnize(columns))
    ensures EmptyClause(c.orders) ==> r.orders == "order by 1" && r.limit == "" && r.offset == ""
    ensures !EmptyClause(c.orders) ==> r.orders == c.orders && r.limit == c.limit && r.offset == c.offset
    ensures r.(columns := c.columns, orders := c.orders, limit := c.limit, offset := c.offset) == c
  {
    var ordered := if EmptyClause(c.orders) then c.(orders := "order by 1", offset := "", limit := "") else c;
    ordered.(columns := CompileOver(Columnize(columns)))
  }

  /** What compileAnsiOffset returns, from the query as it stood before the call. */
  function AnsiOffsetSql(columns: seq<string>, offset: int, limit: Limit, c: Components): string {
    TableExpression(Concatenate(InnerComponents(c, columns)), offset, OffsetLimit(limit))
  }

  /** `$query->columns`, where `None` is PHP's null. */
  function DefaultColumns(columns: Option<seq<string>>): (r: seq<string>)
    ensures columns.Some? ==> r == columns.value
    ensures columns.None? ==> r == ["*"]
  {
    if columns.Some? then columns.value else ["*"]
  }

  /**
   * What compileSelect returns: the base grammar's select when the offset
   * is 0 or absent, the wrapped query otherwise.
   */
  function SelectSql(columns: Option<seq<string>>, offset: int, limit: Limit,
                     parentSql: string, c: Components): string
  {
    if offset == 0 then parentSql else AnsiOffsetSql(DefaultColumns(columns), offset, limit, c)
  }

  /** The parts of the query builder the grammar reads and writes. */
  class Builder {
    var columns: Option<seq<string>>
    var offset: int
    var limit: Limit

    constructor (columns: Option<seq<string>>, offset: int, limit: Limit)
      ensures this.columns == columns && this.offset == offset && this.limit == limit
    {
      this.columns := columns;
      this.offset := offset;
      this.limit := limit;
    }
  }

  /** compileAnsiOffset: called by compileSelect once the columns are set. */
  method CompileAnsiOffset(query: Builder, components: Components) returns (sql: string)
    requires query.columns.Some?
    modifies query
    ensures query.limit == OffsetLimit(old(query.limit))
    ensures query.columns == old(query.columns) && query.offset == old(query.offset)
    ensures sql == AnsiOffsetSql(old(query.columns).value, old(query.offset), old(query.limit), components)
  {
    if !LimitIsSet(query.limit) {
      query.limit := All;
    }
    var parts := components;
    if EmptyClause(parts.orders) {
      parts := parts.(orders := "order by 1");
      parts := parts.(offset := "");
      parts := parts.(limit := "");
    }
    parts := parts.(columns := CompileOver(Columnize(query.columns.value)));
    var inner := Concatenate(parts);
    sql := TableExpression(inner, query.offset, query.limit);
  }

  /**
   * compileSelect.  `parentSql` is what the base grammar's compileSelect
   * returns for the query, `components` what its compileComponents
   * returns once the columns are defaulted.
   */
  method CompileSelect(query: Builder, parentSql: string, components: Components) returns (sql: string)
    modifies query
    ensures sql == SelectSql(old(query.columns), old(query.offset), old(query.limit), parentSql, components)
    ensures old(query.offset) == 0 ==> query.columns == old(query.columns) && query.limit == old(query.limit)
    ensures old(query.offset) != 0 ==>
      query.columns == Some(DefaultColumns(old(query.columns))) && query.limit == OffsetLimit(old(query.limit))
    ensures query.offset == old(query.offset)
  {
    if query.offset == 0 {
      return parentSql;
    }
    if query.columns.None? {
      query.columns := Some(["*"]);
    }
    sql := CompileAnsiOffset(query, components);
  }

  // ---------------------------------------------------------------------
  // Properties

  /** Without an offset the base grammar's text is returned untouched. */
  lemma NoOffsetIsParent(columns: Option<seq<string>>, limit: Limit, parentSql: string, c: Components)
    ensures SelectSql(columns, 0, limit, parentSql, c) == parentSql
  {
  }

  /** With an offset the text is exactly the wrapping select over the inner query. */
  lemma OffsetIsWrapped(columns: Option<seq<string>>, offset: int, limit: Limit, parentSql: string, c: Components)
    requires offset != 0
    ensures var inner := Concatenate(InnerComponents(c, DefaultColumns(columns)));
      SelectSql(columns, offset, limit, parentSql, c)
        == "select *, %vid from (" + inner + ") where %vid " + ConstraintText(RowConstraint(offset, OffsetLimit(limit)))
  {
  }

  /** The positive-limit constraint names both ends of the window. */
  lemma BoundedConstraintText(offset: int, n: int)
    requires n > 0
    ensures ConstraintText(RowConstraint(offset, OffsetLimit(Rows(n))))
      == "between " + IntToString(offset + 1) + " and " + IntToString(offset + n)
  {
  }

  /** Without a limit the constraint is open-ended. */
  lemma UnboundedConstraintText(offset: int)
    ensures ConstraintText(RowConstraint(offset, OffsetLimit(Unset))) == ">= " + IntToString(offset + 1)
    ensures ConstraintText(RowConstraint(offset, OffsetLimit(Rows(0)))) == ">= " + IntToString(offset + 1)
  {
  }

  /** Without an ordering, the limit and offset clauses do not reach the inner query. */
  lemma UnorderedIgnoresLimitClauses(columns: seq<string>, offset: int, limit: Limit, c: Components,
                                     limitText: string, offsetText: string)
    requires EmptyClause(c.orders)
    ensures AnsiOffsetSql(columns, offset, limit, c)
         == AnsiOffsetSql(columns, offset, limit, c.(limit := limitText, offset := offsetText))
  {
    assert InnerComponents(c, columns) == InnerComponents(c.(limit := limitText, offset := offsetText), columns);
  }

  /** The base grammar's columns clause is always replaced. */
  lemma ColumnsClauseReplaced(columns: seq<string>, offset: int, limit: Limit, c: Components, columnsText: string)
    ensures AnsiOffsetSql(columns, offset, limit, c)
         == AnsiOffsetSql(columns, offset, limit, c.(columns := columnsText))
  {
    assert InnerComponents(c, columns) == InnerComponents(c.(columns := columnsText), columns);
  }

  // ---------------------------------------------------------------------
  // What the %vid filter selects

  predicate Admits(w: RowWindow, vid: int) {
    match w
    case Between(s, f) => s <= vid <= f
    case From(s) => s <= vid
  }

  /** The rows, numbered from vid on, that the window keeps, in order. */
  function WindowFrom<T>(rows: seq<T>, w: RowWindow, vid: int): seq<T> {
    if rows == [] then []
    else (if Admits(w, vid) then [rows[0]] else []) + WindowFrom(rows[1..], w, vid + 1)
  }

  /** `where %vid <constraint>` over rows whose %vid counts from 1. */
  function Window<T>(rows: seq<T>, w: RowWindow): seq<T> {
    WindowFrom(rows, w, 1)
  }

  function Clamp(x: int, n: nat): (r: nat)
    ensures r <= n
  {
    if x < 0 then 0 else if x > n then n else x
  }

  /** Dropping the first row moves every clamped bound past it down by one. */
  lemma ClampStep(x: int, n: nat)
    requires n > 0
    ensures x >= 1 ==> Clamp(x, n) == Clamp(x - 1, n - 1) + 1
    ensures x < 1 ==> Clamp(x, n) == 0 && Clamp(x - 1, n - 1) == 0
  {
  }

  /** The rows numbered from vid on that lie between s and f, as one slice. */
  function BetweenSlice<T>(rows: seq<T>, s: int, f: int, vid: int): seq<T> {
    var lo := Clamp(s - vid, |rows|);
    var hi := Clamp(f - vid + 1, |rows|);
    rows[lo..if hi < lo then lo else hi]
  }

  lemma BetweenSliceAdmitted<T>(rows: seq<T>, s: int, f: int, vid: int)
    requires rows != [] && s <= vid <= f
    ensures BetweenSlice(rows, s, f, vid) == [rows[0]] + BetweenSlice(rows[1..], s, f, vid + 1)
  {
    ClampStep(s - vid, |rows|);
    ClampStep(f - vid + 1, |rows|);
    var hi := Clamp(f - vid + 1, |rows|);
    assert rows[0..hi] == [rows[0]] + rows[1..][0..hi - 1];
  }

  lemma BetweenSliceBefore<T>(rows: seq<T>, s: int, f: int, vid: int)
    requires rows != [] && vid < s
    ensures BetweenSlice(rows, s, f, vid) == BetweenSlice(rows[1..], s, f, vid + 1)
  {
    ClampStep(s - vid, |rows|);
    ClampStep(f - vid + 1, |rows|);
    var lo, hi := Clamp(s - vid, |rows|), Clamp(f - vid + 1, |rows|);
    if lo < hi {
      assert rows[lo..hi] == rows[1..][lo - 1..hi - 1];
    }
  }

  lemma BetweenSliceAfter<T>(rows: seq<T>, s: int, f: int, vid: int)
    requires rows != [] && f < vid
    ensures BetweenSlice(rows, s, f, vid) == [] && BetweenSlice(rows[1..], s, f, vid + 1) == []
  {
    ClampStep(f - vid + 1, |rows|);
  }

  lemma {:induction false} WindowFromBetween<T>(rows: seq<T>, s: int, f: int, vid: int)
    ensures WindowFrom(rows, Between(s, f), vid) == BetweenSlice(rows, s, f, vid)
  {
    if rows != [] {
      WindowFromBetween(rows[1..], s, f, vid + 1);
      if s <= vid <= f {
        BetweenSliceAdmitted(rows, s, f, vid);
      } else if vid < s {
        BetweenSliceBefore(rows, s, f, vid);
      } else {
        BetweenSliceAfter(rows, s, f, vid);
      }
    }
  }

  lemma {:induction false} WindowFromOpen<T>(rows: seq<T>, s: int, vid: int)
    ensures WindowFrom(rows, From(s), vid) == rows[Clamp(s - vid, |rows|)..]
  {
    if rows != [] {
      var rest := rows[1..];
      WindowFromOpen(rest, s, vid + 1);
      if Admits(From(s), vid) {
        assert Clamp(s - vid, |rows|) == 0 && Clamp(s - vid - 1, |rest|) == 0;
        assert rows == [rows[0]] + rest;
      } else {
        assert Clamp(s - vid, |rows|) == Clamp(s - vid - 1, |rest|) + 1;
      }
    }
  }

  /**
   * The wrapped query keeps exactly the rows an OFFSET/LIMIT clause would:
   * with a positive limit, the rows at positions offset .. offset+limit-1
   * (cut at the end of the result), otherwise every row from position
   * offset on.
   */
  lemma WindowIsOffsetLimit<T>(rows: seq<T>, offset: int, limit: Limit)
    ensures var lo := Clamp(offset, |rows|);
      Window(rows, RowConstraint(offset, OffsetLimit(limit)))
        == if limit.Rows? && limit.n > 0 then rows[lo..Clamp(offset + limit.n, |rows|)] else rows[lo..]
  {
    var w := RowConstraint(offset, OffsetLimit(limit));
    if w.Between? {
      WindowFromBetween(rows, w.start, w.finish, 1);
    } else {
      WindowFromOpen(rows, w.start, 1);
    }
  }

  // ---------------------------------------------------------------------
  // The texts the builder tests pin, for `select * from users`

  /** The clauses the base grammar compiles for `select * from users`. */
  const UsersClauses := Components("", "select *", "from users", "", "", "", "", "", "", "", "")

  lemma UsersInnerClauses()
    ensures InnerComponents(UsersClauses, ["*"])
         == Components("", "select top all *", "from users", "", "", "", "", "order by 1", "", "", "")
  {
    assert Columnize(["*"]) == "*";
  }

  lemma UsersInnerPieces()
    ensures "select top all *" + " " + ("from users" + " " + "order by 1") == "select top all * from users order by 1"
  {
    assert "from users" + " " + "order by 1" == "from users order by 1";
    assert "select top all *" + " " == "select top all * ";
  }

  /** The inner query the offset tests expect. */
  lemma UsersInnerQuery()
    ensures Concatenate(InnerComponents(UsersClauses, ["*"])) == "select top all * from users order by 1"
  {
    UsersInnerClauses();
    var c := Components("", "select top all *", "from users", "", "", "", "", "order by 1", "", "", "");
    assert Glue(c.orders, Glue(c.offset, Glue(c.limit, c.lock))) == "order by 1";
    assert Concatenate(c) == "select top all *" + " " + ("from users" + " " + "order by 1");
    UsersInnerPieces();
  }

  lemma SmallNumbers()
    ensures IntToString(2) == "2" && IntToString(6) == "6" && IntToString(11) == "11"
    ensures IntToString(15) == "15" && IntToString(16) == "16" && IntToString(30) == "30"
  {
    assert NatToString(1) == "1" && NatToString(3) == "3";
  }

  /**
   * The wrapped users query with the given constraint text.  The expected
   * texts below are the builder tests' strings, cut where the wrapping
   * select, the inner query and the constraint meet.
   */
  lemma UsersSelect(offset: int, limit: Limit, parentSql: string, constraint: string)
    requires offset != 0
    requires ConstraintText(RowConstraint(offset, OffsetLimit(limit))) == constraint
    ensures SelectSql(Some(["*"]), offset, limit, parentSql, UsersClauses)
         == "select *, %vid from (" + "select top all * from users order by 1" + ") where %vid " + constraint
    ensures SelectSql(None, offset, limit, parentSql, UsersClauses)
         == "select *, %vid from (" + "select top all * from users order by 1" + ") where %vid " + constraint
  {
    UsersInnerQuery();
  }

  /** `offset(10)`. */
  lemma OffsetOnlyExample(parentSql: string)
    ensures SelectSql(None, 10, Unset, parentSql, UsersClauses)
         == "select *, %vid from (" + "select top all * from users order by 1" + ") where %vid " + ">= 11"
  {
    SmallNumbers();
    UsersSelect(10, Unset, parentSql, ">= 11");
  }

  /** `offset(5)->limit(10)`. */
  lemma OffsetAndLimitExample(parentSql: string)
    ensures SelectSql(Some(["*"]), 5, Rows(10), parentSql, UsersClauses)
         == "select *, %vid from (" + "select top all * from users order by 1" + ") where %vid " + "between 6 and 15"
  {
    SmallNumbers();
    UsersSelect(5, Rows(10), parentSql, "between 6 and 15");
  }

  /** `forPage(2, 15)`: offset 15, limit 15. */
  lemma SecondPageExample(parentSql: string)
    ensures SelectSql(Some(["*"]), 15, Rows(15), parentSql, UsersClauses)
         == "select *, %vid from (" + "select top all * from users order by 1" + ") where %vid " + "between 16 and 30"
  {
    SmallNumbers();
    UsersSelect(15, Rows(15), parentSql, "between 16 and 30");
  }

  /** `offset(1)->limit(1)`. */
  lemma PaginateOneExample(parentSql: string)
    ensures SelectSql(Some(["*"]), 1, Rows(1), parentSql, UsersClauses)
         == "select *, %vid from (" + "select top all * from users order by 1" + ") where %vid " + "between 2 and 2"
  {
    SmallNumbers();
    UsersSelect(1, Rows(1), parentSql, "between 2 and 2");
  }

  /** Reserved words are emitted as they are. */
  lemma ReservedWordsUnquoted()
    ensures Columnize(["exists", "drop", "group"]) == "exists, drop, group"
  {
    var cols := ["exists", "drop", "group"];
    var wrapped := seq(|cols|, k requires 0 <= k < |cols| => WrapValue(cols[k]));
    assert wrapped == cols;
    assert cols[1..] == ["drop", "group"] && cols[1..][1..] == ["group"];
  }
}
