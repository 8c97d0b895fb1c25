/** The two queries of the item listing, as token sequences with parameters, and what a database
    makes of them. ILIKE is any relation between a pattern and a text. */
module QueryBuilder {
  import opened Results
  import opened Items
  import opened Decimal
  import U = Uuid
  import T = TimeUtils

  datatype Filter = Filter(
    search: Option<string>, category: Option<U.Uuid>, status: Option<Status>,
    minStock: Option<int>, maxPrice: Option<int>, page: int, pageSize: int)

  datatype Column = Name | Sku | Category | StatusOf | StockQuantity | UnitPriceAmount

  datatype Token =
    | SelectItems | SelectCount | WhereTrue          // ... FROM items, WHERE 1=1
    | And | Or | Open | Close
    | Col(column: Column) | ILike | Equals | AtMost
    | Param(n: nat)                                  // $n
    | OrderByCreatedDesc | Limit | Offset

  datatype Query = Query(sql: seq<Token>, params: seq<string>)

  type Like = (string, string) -> bool

  // ---- The builders ----

  predicate HasSearch(f: Filter) { f.search.Some? && f.search.value != "" }

  predicate HasCategory(f: Filter) { f.category.Some? && U.IsValid(f.category.value) }

  function Pattern(s: string): string { "%" + s + "%" }

  /** A 32-bit int as two's complement machines compute it; the language itself leaves an overflow
      undefined. */
  function AsInt(n: int): int { (n + 0x8000_0000) % 0x1_0000_0000 - 0x8000_0000 }

  function OffsetOf(f: Filter): int { AsInt((f.page - 1) * f.pageSize) }

  /** The offset is an int that differs from the product by a multiple of 2^32, and so is that of the
      page exactly if the product fits. */
  lemma OffsetExactIff(f: Filter)
    ensures OffsetOf(f) == (f.page - 1) * f.pageSize <==> -0x8000_0000 <= (f.page - 1) * f.pageSize < 0x8000_0000
    ensures -0x8000_0000 <= OffsetOf(f) < 0x8000_0000 && (OffsetOf(f) - (f.page - 1) * f.pageSize) % 0x1_0000_0000 == 0
  {
    var n := (f.page - 1) * f.pageSize;
    var q := (n + 0x8000_0000) / 0x1_0000_0000;
    assert OffsetOf(f) - n == -q * 0x1_0000_0000;
  }

  function AddParam(q: Query, clause: seq<Token>, value: string): Query {
    Query(q.sql + clause + [Param(|q.params| + 1)], q.params + [value])
  }

  function AddSearch(q: Query, pattern: string): Query {
    var r := AddParam(AddParam(q, [And, Open, Col(Name), ILike], pattern), [Or, Col(Sku), ILike], pattern);
    r.(sql := r.sql + [Close])
  }

  function AddWhen(q: Query, present: bool, column: Column, op: Token, value: string): Query {
    if present then AddParam(q, [And, Col(column), op], value) else q
  }

  /** The conditions, in the order in which both builders append them. */
  function AddConditions(q: Query, f: Filter): Query {
    var q1 := if HasSearch(f) then AddSearch(q, Pattern(f.search.value)) else q;
    var q2 := AddWhen(q1, HasCategory(f), Category, Equals, if HasCategory(f) then U.ToString(f.category.value) else "");
    var q3 := AddWhen(q2, f.status.Some?, StatusOf, Equals, if f.status.Some? then StatusToString(f.status.value) else "");
    var q4 := AddWhen(q3, f.minStock.Some?, StockQuantity, AtMost, if f.minStock.Some? then IntText(f.minStock.value) else "");
    AddWhen(q4, f.maxPrice.Some?, UnitPriceAmount, AtMost, if f.maxPrice.Some? then IntText(f.maxPrice.value) else "")
  }

  function AddPaging(q: Query, f: Filter): Query {
    AddParam(AddParam(q, [OrderByCreatedDesc, Limit], IntText(f.pageSize)), [Offset], IntText(OffsetOf(f)))
  }

  function FindAllQuery(f: Filter): Query { AddPaging(AddConditions(Query([SelectItems, WhereTrue], []), f), f) }

  function CountQuery(f: Filter): Query { AddConditions(Query([SelectCount, WhereTrue], []), f) }

  /** The search condition, appended piece by piece. */
  method AppendSearch(q: Query, pattern: string) returns (r: Query)
    ensures r == AddSearch(q, pattern)
  {
    var sql, params := q.sql, q.params;
    sql := sql + [And, Open];
    params := params + [pattern];
    sql := sql + [Col(Name), ILike, Param(|params|)];
    sql := sql + [Or];
    params := params + [pattern];
    sql := sql + [Col(Sku), ILike, Param(|params|)];
    sql := sql + [Close];
    r := Query(sql, params);
    assert sql == AddSearch(q, pattern).sql;
  }

  /** Order, limit and offset. */
  method AppendPaging(q: Query, f: Filter) returns (r: Query)
    ensures r == AddPaging(q, f)
  {
    var sql, params := q.sql, q.params;
    sql := sql + [OrderByCreatedDesc];
    params := params + [IntText(f.pageSize)];
    sql := sql + [Limit, Param(|params|)];
    params := params + [IntText(OffsetOf(f))];
    sql := sql + [Offset, Param(|params|)];
    r := Query(sql, params);
    assert sql == AddPaging(q, f).sql;
  }

  method BuildFindAllQuery(f: Filter) returns (q: Query)
    ensures q == FindAllQuery(f)
  {
    hide AddParam;
    hide AddSearch;
    hide AddPaging;
    hide U.ToString;
    q := Query([SelectItems, WhereTrue], []);
    if HasSearch(f) {
      q := AppendSearch(q, Pattern(f.search.value));
    }
    if HasCategory(f) {
      q := AddParam(q, [And, Col(Category), Equals], U.ToString(f.category.value));
    }
    if f.status.Some? {
      q := AddParam(q, [And, Col(StatusOf), Equals], StatusToString(f.status.value));
    }
    if f.minStock.Some? {
      q := AddParam(q, [And, Col(StockQuantity), AtMost], IntText(f.minStock.value));
    }
    if f.maxPrice.Some? {
      q := AddParam(q, [And, Col(UnitPriceAmount), AtMost], IntText(f.maxPrice.value));
    }
    q := AppendPaging(q, f);
  }

  method BuildCountQuery(f: Filter) returns (q: Query)
    ensures q == CountQuery(f)
  {
    hide AddParam;
    hide AddSearch;
    hide U.ToString;
    q := Query([SelectCount, WhereTrue], []);
    if HasSearch(f) {
      q := AppendSearch(q, Pattern(f.search.value));
    }
    if HasCategory(f) {
      q := AddParam(q, [And, Col(Category), Equals], U.ToString(f.category.value));
    }
    if f.status.Some? {
      q := AddParam(q, [And, Col(StatusOf), Equals], StatusToString(f.status.value));
    }
    if f.minStock.Some? {
      q := AddParam(q, [And, Col(StockQuantity), AtMost], IntText(f.minStock.value));
    }
    if f.maxPrice.Some? {
      q := AddParam(q, [And, Col(UnitPriceAmount), AtMost], IntText(f.maxPrice.value));
    }
  }

  // ---- What a database makes of the text ----

  /** One comparison of a column with a parameter; None is an SQL error. */
  function Compare(c: Column, op: Token, r: Row, p: string, like: Like): Option<bool> {
    match (c, op)
    case (Name, ILike) => Some(like(p, r.name))
    case (Sku, ILike) => Some(like(p, r.sku))
    case (Category, Equals) => Some(r.category == p)
    case (StatusOf, Equals) => Some(r.status == p)
    case (StockQuantity, AtMost) => if ParseInt(p).Some? then Some(r.stockQuantity <= ParseInt(p).value) else None
    case (UnitPriceAmount, AtMost) => if ParseInt(p).Some? then Some(r.priceAmount <= ParseInt(p).value) else None
    case _ => None
  }

  /** column op $n */
  function Atom(ts: seq<Token>, ps: seq<string>, r: Row, like: Like): (a: Option<(bool, seq<Token>)>)
    ensures a.Some? ==> |a.value.1| < |ts|
  {
    if |ts| >= 3 && ts[0].Col? && ts[2].Param? && 1 <= ts[2].n <= |ps| then
      match Compare(ts[0].column, ts[1], r, ps[ts[2].n - 1], like)
      case None => None
      case Some(b) => Some((b, ts[3..]))
    else None
  }

  /** atom OR atom ... ) */
  function Disjunction(ts: seq<Token>, ps: seq<string>, r: Row, like: Like): (a: Option<(bool, seq<Token>)>)
    ensures a.Some? ==> |a.value.1| < |ts|
    decreases |ts|
  {
    match Atom(ts, ps, r, like)
    case None => None
    case Some((b, rest)) =>
      if rest != [] && rest[0].Close? then Some((b, rest[1..]))
      else if rest != [] && rest[0].Or? then
        match Disjunction(rest[1..], ps, r, like)
        case None => None
        case Some((c, after)) => Some((b || c, after))
      else None
  }

  function Group(ts: seq<Token>, ps: seq<string>, r: Row, like: Like): (a: Option<(bool, seq<Token>)>)
    ensures a.Some? ==> |a.value.1| < |ts|
  {
    if ts != [] && ts[0].Open? then Disjunction(ts[1..], ps, r, like) else Atom(ts, ps, r, like)
  }

  /** AND group AND group ..., and what follows. */
  function Conjunction(ts: seq<Token>, ps: seq<string>, r: Row, like: Like): Option<(bool, seq<Token>)>
    decreases |ts|
  {
    if ts == [] || !ts[0].And? then Some((true, ts))
    else
      match Group(ts[1..], ps, r, like)
      case None => None
      case Some((b, rest)) =>
        match Conjunction(rest, ps, r, like)
        case None => None
        case Some((c, after)) => Some((b && c, after))
  }

  /** The rows for which the condition holds; the condition must be all of the tokens. */
  function Selected(ts: seq<Token>, ps: seq<string>, table: seq<Row>, like: Like): Option<seq<Row>> {
    if table == [] then Some([])
    else
      match Conjunction(ts, ps, table[0], like)
      case None => None
      case Some((b, after)) =>
        if after != [] then None
        else
          match Selected(ts, ps, table[1..], like)
          case None => None
          case Some(rows) => Some((if b then [table[0]] else []) + rows)
  }

  function Min(a: int, b: int): int { if a < b then a else b }

  /** LIMIT and OFFSET over a fixed order. */
  function Slice<T>(rows: seq<T>, limit: nat, offset: nat): (s: seq<T>)
    ensures |s| <= limit
  {
    rows[Min(offset, |rows|)..Min(offset + limit, |rows|)]
  }

  /** Runs an item query over the rows in an order that ORDER BY allows; None is an SQL error, also
      for a negative limit or offset. */
  function RunItems(q: Query, ordered: seq<Row>, like: Like): Option<seq<Row>> {
    var n := |q.sql|;
    if n >= 7 && q.sql[..2] == [SelectItems, WhereTrue] && q.sql[n - 5] == OrderByCreatedDesc
       && q.sql[n - 4] == Limit && q.sql[n - 3].Param? && 1 <= q.sql[n - 3].n <= |q.params|
       && q.sql[n - 2] == Offset && q.sql[n - 1].Param? && 1 <= q.sql[n - 1].n <= |q.params|
    then
      var limit, offset := ParseInt(q.params[q.sql[n - 3].n - 1]), ParseInt(q.params[q.sql[n - 1].n - 1]);
      var rows := Selected(q.sql[2..n - 5], q.params, ordered, like);
      if rows.None? || limit.None? || offset.None? || limit.value < 0 || offset.value < 0 then None
      else Some(Slice(rows.value, limit.value, offset.value))
    else None
  }

  function RunCount(q: Query, table: seq<Row>, like: Like): Option<nat> {
    if |q.sql| >= 2 && q.sql[..2] == [SelectCount, WhereTrue] then
      match Selected(q.sql[2..], q.params, table, like)
      case None => None
      case Some(rows) => Some(|rows|)
    else None
  }

  // ---- What the filter means ----

  /** The filter, read directly. What is called min_stock is an upper bound. */
  predicate Matches(f: Filter, i: Item, like: Like) {
    && (f.search.Some? && f.search.value != "" ==>
          like("%" + f.search.value + "%", i.name) || like("%" + f.search.value + "%", i.sku))
    && (f.category.Some? && f.category.value != U.Uuid(0, 0) ==> i.category == f.category.value)
    && (f.status.Some? ==> i.status == f.status.value)
    && (f.minStock.Some? ==> i.stock.value <= f.minStock.value)
    && (f.maxPrice.Some? ==> i.price.amount <= f.maxPrice.value)
  }

  // ---- Appending a condition ----

  lemma AtomExtends(ts: seq<Token>, ps: seq<string>, more: seq<Token>, extra: seq<string>, r: Row, like: Like)
    requires Atom(ts, ps, r, like).Some?
    ensures var a := Atom(ts, ps, r, like).value;
      Atom(ts + more, ps + extra, r, like) == Some((a.0, a.1 + more))
  {
    assert (ts + more)[3..] == ts[3..] + more;
  }

  lemma {:induction false} DisjunctionExtends(
    ts: seq<Token>, ps: seq<string>, more: seq<Token>, extra: seq<string>, r: Row, like: Like)
    requires Disjunction(ts, ps, r, like).Some?
    ensures var a := Disjunction(ts, ps, r, like).value;
      Disjunction(ts + more, ps + extra, r, like) == Some((a.0, a.1 + more))
    decreases |ts|
  {
    AtomExtends(ts, ps, more, extra, r, like);
    var rest := Atom(ts, ps, r, like).value.1;
    assert (rest + more)[1..] == rest[1..] + more;
    if rest[0].Or? {
      DisjunctionExtends(rest[1..], ps, more, extra, r, like);
    }
  }

  lemma GroupExtends(ts: seq<Token>, ps: seq<string>, more: seq<Token>, extra: seq<string>, r: Row, like: Like)
    requires Group(ts, ps, r, like).Some?
    ensures var a := Group(ts, ps, r, like).value;
      Group(ts + more, ps + extra, r, like) == Some((a.0, a.1 + more))
  {
    if ts[0].Open? {
      assert (ts + more)[1..] == ts[1..] + more;
      DisjunctionExtends(ts[1..], ps, more, extra, r, like);
    } else {
      AtomExtends(ts, ps, more, extra, r, like);
    }
  }

  /** A condition followed by another is their conjunction; parameters may have been added. */
  lemma {:induction false} ConjunctionAppends(
    ts: seq<Token>, ps: seq<string>, more: seq<Token>, extra: seq<string>, r: Row, like: Like, b: bool, c: bool)
    requires Conjunction(ts, ps, r, like) == Some((b, []))
    requires Conjunction(more, ps + extra, r, like) == Some((c, []))
    ensures Conjunction(ts + more, ps + extra, r, like) == Some((b && c, []))
    decreases |ts|
  {
    if ts == [] {
      assert ts + more == more;
    } else {
      var g := Group(ts[1..], ps, r, like).value;
      GroupExtends(ts[1..], ps, more, extra, r, like);
      assert (ts + more)[1..] == ts[1..] + more;
      var d := Conjunction(g.1, ps, r, like).value.0;
      ConjunctionAppends(g.1, ps, more, extra, r, like, d, c);
    }
  }

  /** The condition part of a query evaluates to b on the row. */
  predicate Says(q: Query, r: Row, like: Like, b: bool) {
    |q.sql| >= 2 && Conjunction(q.sql[2..], q.params, r, like) == Some((b, []))
  }

  /** A condition on one column, with the last parameter, by itself. */
  lemma FieldClause(column: Column, op: Token, ps: seq<string>, r: Row, like: Like, c: bool)
    requires ps != [] && Compare(column, op, r, ps[|ps| - 1], like) == Some(c)
    ensures Conjunction([And, Col(column), op, Param(|ps|)], ps, r, like) == Some((c, []))
  {
    hide Compare;
    var atom := [Col(column), op, Param(|ps|)];
    assert [And, Col(column), op, Param(|ps|)][1..] == atom && atom[3..] == [];
    assert Group(atom, ps, r, like) == Some((c, []));
    assert Conjunction([], ps, r, like) == Some((true, []));
  }

  lemma AddWhenSays(q: Query, present: bool, column: Column, op: Token, value: string, r: Row, like: Like, b: bool, c: bool)
    requires Says(q, r, like, b) && (present ==> Compare(column, op, r, value, like) == Some(c))
    ensures Says(AddWhen(q, present, column, op, value), r, like, b && (present ==> c))
  {
    if present {
      hide Compare;
      hide Conjunction;
      hide AddParam;
      ParamShape(q, column, op, value);
      var ps := q.params + [value];
      var clause := [And, Col(column), op, Param(|ps|)];
      FieldClause(column, op, ps, r, like, c);
      ConjunctionAppends(q.sql[2..], q.params, clause, [value], r, like, b, c);
    }
  }

  lemma ParamShape(q: Query, column: Column, op: Token, value: string)
    requires |q.sql| >= 2
    ensures var s := AddParam(q, [And, Col(column), op], value);
      |s.sql| >= 2 && s.sql[2..] == q.sql[2..] + [And, Col(column), op, Param(|q.params| + 1)] && s.params == q.params + [value]
  {
  }

  /** The parenthesised search condition by itself. */
  lemma SearchClause(n: nat, ps: seq<string>, pattern: string, r: Row, like: Like)
    requires |ps| == n + 2 && ps[n] == pattern && ps[n + 1] == pattern
    ensures var clause := [And, Open, Col(Name), ILike, Param(n + 1), Or, Col(Sku), ILike, Param(n + 2), Close];
      Conjunction(clause, ps, r, like) == Some((like(pattern, r.name) || like(pattern, r.sku), []))
  {
    var second := [Col(Sku), ILike, Param(n + 2), Close];
    assert second[3..] == [Close] && [Close][1..] == [];
    assert Atom(second, ps, r, like) == Some((like(pattern, r.sku), [Close]));
    assert Disjunction(second, ps, r, like) == Some((like(pattern, r.sku), []));
    var first := [Col(Name), ILike, Param(n + 1), Or, Col(Sku), ILike, Param(n + 2), Close];
    var after := [Or, Col(Sku), ILike, Param(n + 2), Close];
    assert first[3..] == after && after[1..] == second;
    assert Atom(first, ps, r, like) == Some((like(pattern, r.name), after));
    var c := like(pattern, r.name) || like(pattern, r.sku);
    assert Disjunction(first, ps, r, like) == Some((c, []));
    var clause := [And, Open, Col(Name), ILike, Param(n + 1), Or, Col(Sku), ILike, Param(n + 2), Close];
    assert clause[1..][1..] == first;
    assert Group(clause[1..], ps, r, like) == Some((c, []));
    assert Conjunction([], ps, r, like) == Some((true, []));
  }

  lemma AddSearchSays(q: Query, pattern: string, r: Row, like: Like, b: bool)
    requires Says(q, r, like, b)
    ensures Says(AddSearch(q, pattern), r, like, b && (like(pattern, r.name) || like(pattern, r.sku)))
  {
    var n := |q.params|;
    var ps := q.params + [pattern, pattern];
    var clause := [And, Open, Col(Name), ILike, Param(n + 1), Or, Col(Sku), ILike, Param(n + 2), Close];
    var c := like(pattern, r.name) || like(pattern, r.sku);
    SearchClause(n, ps, pattern, r, like);
    ConjunctionAppends(q.sql[2..], q.params, clause, [pattern, pattern], r, like, b, c);
    SearchShape(q, pattern, clause);
  }

  lemma SearchShape(q: Query, pattern: string, clause: seq<Token>)
    requires |q.sql| >= 2
    requires clause == [And, Open, Col(Name), ILike, Param(|q.params| + 1), Or, Col(Sku), ILike, Param(|q.params| + 2), Close]
    ensures var s := AddSearch(q, pattern);
      s.params == q.params + [pattern, pattern] && |s.sql| >= 2 && s.sql[2..] == q.sql[2..] + clause && s.sql[..2] == q.sql[..2]
  {
  }

  // ---- Main results about the builders ----

  /** Evaluating the text of the conditions with their parameters on the row of any item gives the
      direct conjunction of the filter's present fields. */
  lemma ConditionsMeanFilter(select: Token, f: Filter, i: Item, like: Like)
    ensures Says(AddConditions(Query([select, WhereTrue], []), f), Encode(i), like, Matches(f, i, like))
  {
    var q, r := Query([select, WhereTrue], []), Encode(i);
    assert q.sql[2..] == [];
    var b := true;
    if HasSearch(f) {
      AddSearchSays(q, Pattern(f.search.value), r, like, b);
      b := like(Pattern(f.search.value), i.name) || like(Pattern(f.search.value), i.sku);
    }
    var q1 := if HasSearch(f) then AddSearch(q, Pattern(f.search.value)) else q;
    FieldsMeanFilter(q1, f, i, like, b);
  }

  lemma CategoryText(a: U.Uuid, b: U.Uuid)
    ensures U.ToString(a) == U.ToString(b) <==> a == b
  {
    if U.ToString(a) == U.ToString(b) {
      U.TextIsInjective(a, b);
    }
  }

  lemma StatusText(a: Status, b: Status)
    ensures StatusToString(a) == StatusToString(b) <==> a == b
  {
    StatusRoundTrip(a);
    StatusRoundTrip(b);
  }

  /** What each present field compares in the row of an item. */
  lemma FieldComparisons(f: Filter, i: Item, like: Like)
    ensures HasCategory(f) ==>
      Compare(Category, Equals, Encode(i), U.ToString(f.category.value), like) == Some(i.category == f.category.value)
    ensures f.status.Some? ==>
      Compare(StatusOf, Equals, Encode(i), StatusToString(f.status.value), like) == Some(i.status == f.status.value)
    ensures f.minStock.Some? ==>
      Compare(StockQuantity, AtMost, Encode(i), IntText(f.minStock.value), like) == Some(i.stock.value <= f.minStock.value)
    ensures f.maxPrice.Some? ==>
      Compare(UnitPriceAmount, AtMost, Encode(i), IntText(f.maxPrice.value), like) == Some(i.price.amount <= f.maxPrice.value)
  {
    hide U.ToString;
    hide T.Format;
    hide StatusToString;
    hide IntText;
    hide ParseInt;
    if HasCategory(f) {
      CategoryText(i.category, f.category.value);
    }
    if f.status.Some? {
      StatusText(i.status, f.status.value);
    }
    if f.minStock.Some? {
      IntRoundTrip(f.minStock.value);
    }
    if f.maxPrice.Some? {
      IntRoundTrip(f.maxPrice.value);
    }
  }

  lemma FieldsMeanFilter(q: Query, f: Filter, i: Item, like: Like, b: bool)
    requires Says(q, Encode(i), like, b)
    requires b == (HasSearch(f) ==> like(Pattern(f.search.value), i.name) || like(Pattern(f.search.value), i.sku))
    ensures var q2 := AddWhen(q, HasCategory(f), Category, Equals, if HasCategory(f) then U.ToString(f.category.value) else "");
      var q3 := AddWhen(q2, f.status.Some?, StatusOf, Equals, if f.status.Some? then StatusToString(f.status.value) else "");
      var q4 := AddWhen(q3, f.minStock.Some?, StockQuantity, AtMost, if f.minStock.Some? then IntText(f.minStock.value) else "");
      var q5 := AddWhen(q4, f.maxPrice.Some?, UnitPriceAmount, AtMost, if f.maxPrice.Some? then IntText(f.maxPrice.value) else "");
      Says(q5, Encode(i), like, Matches(f, i, like))
  {
    hide U.ToString;
    hide StatusToString;
    hide IntText;
    hide Encode;
    hide Compare;
    hide Says;
    hide AddWhen;
    FieldComparisons(f, i, like);
    var r := Encode(i);
    var t2 := if HasCategory(f) then U.ToString(f.category.value) else "";
    var c2 := HasCategory(f) && i.category == f.category.value;
    AddWhenSays(q, HasCategory(f), Category, Equals, t2, r, like, b, c2);
    var q2 := AddWhen(q, HasCategory(f), Category, Equals, t2);
    var b2 := b && (HasCategory(f) ==> c2);

    var t3 := if f.status.Some? then StatusToString(f.status.value) else "";
    var c3 := f.status.Some? && i.status == f.status.value;
    AddWhenSays(q2, f.status.Some?, StatusOf, Equals, t3, r, like, b2, c3);
    var q3 := AddWhen(q2, f.status.Some?, StatusOf, Equals, t3);
    var b3 := b2 && (f.status.Some? ==> c3);

    var t4 := if f.minStock.Some? then IntText(f.minStock.value) else "";
    var c4 := f.minStock.Some? && i.stock.value <= f.minStock.value;
    AddWhenSays(q3, f.minStock.Some?, StockQuantity, AtMost, t4, r, like, b3, c4);
    var q4 := AddWhen(q3, f.minStock.Some?, StockQuantity, AtMost, t4);
    var b4 := b3 && (f.minStock.Some? ==> c4);

    var t5 := if f.maxPrice.Some? then IntText(f.maxPrice.value) else "";
    var c5 := f.maxPrice.Some? && i.price.amount <= f.maxPrice.value;
    AddWhenSays(q4, f.maxPrice.Some?, UnitPriceAmount, AtMost, t5, r, like, b4, c5);
  }

  /** The numbers of the placeholders, in the order of the text. */
  function Placeholders(sql: seq<Token>): seq<nat> {
    if sql == [] then [] else (if sql[0].Param? then [sql[0].n] else []) + Placeholders(sql[1..])
  }

  lemma {:induction false} PlaceholdersAppend(a: seq<Token>, b: seq<Token>)
    ensures Placeholders(a + b) == Placeholders(a) + Placeholders(b)
  {
    if a == [] {
      assert a + b == b;
    } else {
      var first := if a[0].Param? then [a[0].n] else [];
      assert (a + b)[0] == a[0] && (a + b)[1..] == a[1..] + b;
      PlaceholdersAppend(a[1..], b);
      assert first + (Placeholders(a[1..]) + Placeholders(b)) == (first + Placeholders(a[1..])) + Placeholders(b);
    }
  }

  function OneTo(n: nat): (s: seq<nat>)
    ensures |s| == n
  {
    seq(n, i requires 0 <= i => i + 1)
  }

  /** Placeholders are $1 to $n in order, with n the number of parameters. */
  predicate Numbered(q: Query) { Placeholders(q.sql) == OneTo(|q.params|) }

  lemma {:induction false} NoPlaceholders(ts: seq<Token>)
    requires forall i | 0 <= i < |ts| :: !ts[i].Param?
    ensures Placeholders(ts) == []
  {
    if ts != [] {
      NoPlaceholders(ts[1..]);
    }
  }

  lemma AddParamNumbered(q: Query, clause: seq<Token>, value: string)
    requires Numbered(q) && forall i | 0 <= i < |clause| :: !clause[i].Param?
    ensures Numbered(AddParam(q, clause, value))
  {
    var n := |q.params| + 1;
    NoPlaceholders(clause);
    PlaceholdersAppend(q.sql, clause);
    PlaceholdersAppend(q.sql + clause, [Param(n)]);
    assert Placeholders([Param(n)]) == [n] + Placeholders([Param(n)][1..]) == [n];
    assert OneTo(n) == OneTo(|q.params|) + [n];
  }

  lemma AddConditionsNumbered(q: Query, f: Filter)
    requires Numbered(q)
    ensures Numbered(AddConditions(q, f))
  {
    hide Numbered;
    hide U.ToString;
    var q1 := if HasSearch(f) then AddSearch(q, Pattern(f.search.value)) else q;
    if HasSearch(f) {
      AddSearchNumbered(q, Pattern(f.search.value));
    }
    var t2 := if HasCategory(f) then U.ToString(f.category.value) else "";
    AddWhenNumbered(q1, HasCategory(f), Category, Equals, t2);
    var q2 := AddWhen(q1, HasCategory(f), Category, Equals, t2);
    var t3 := if f.status.Some? then StatusToString(f.status.value) else "";
    AddWhenNumbered(q2, f.status.Some?, StatusOf, Equals, t3);
    var q3 := AddWhen(q2, f.status.Some?, StatusOf, Equals, t3);
    var t4 := if f.minStock.Some? then IntText(f.minStock.value) else "";
    AddWhenNumbered(q3, f.minStock.Some?, StockQuantity, AtMost, t4);
    var q4 := AddWhen(q3, f.minStock.Some?, StockQuantity, AtMost, t4);
    var t5 := if f.maxPrice.Some? then IntText(f.maxPrice.value) else "";
    AddWhenNumbered(q4, f.maxPrice.Some?, UnitPriceAmount, AtMost, t5);
  }

  lemma AddWhenNumbered(q: Query, present: bool, column: Column, op: Token, value: string)
    requires Numbered(q) && !op.Param?
    ensures Numbered(AddWhen(q, present, column, op, value))
  {
    if present {
      AddParamNumbered(q, [And, Col(column), op], value);
    }
  }

  lemma AddSearchNumbered(q: Query, pattern: string)
    requires Numbered(q)
    ensures Numbered(AddSearch(q, pattern))
  {
    AddParamNumbered(q, [And, Open, Col(Name), ILike], pattern);
    var q1 := AddParam(q, [And, Open, Col(Name), ILike], pattern);
    AddParamNumbered(q1, [Or, Col(Sku), ILike], pattern);
    var q2 := AddParam(q1, [Or, Col(Sku), ILike], pattern);
    NoPlaceholders([Close]);
    PlaceholdersAppend(q2.sql, [Close]);
  }

  /** Both queries number their placeholders from one up to the number of parameters. */
  lemma PlaceholdersInOrder(f: Filter)
    ensures Placeholders(FindAllQuery(f).sql) == OneTo(|FindAllQuery(f).params|)
    ensures Placeholders(CountQuery(f).sql) == OneTo(|CountQuery(f).params|)
  {
    var a, b := Query([SelectItems, WhereTrue], []), Query([SelectCount, WhereTrue], []);
    NoPlaceholders(a.sql);
    NoPlaceholders(b.sql);
    assert OneTo(0) == [];
    AddConditionsNumbered(a, f);
    AddConditionsNumbered(b, f);
    AddPagingNumbered(AddConditions(a, f), f);
  }

  lemma AddPagingNumbered(q: Query, f: Filter)
    requires Numbered(q)
    ensures Numbered(AddPaging(q, f))
  {
    AddParamNumbered(q, [OrderByCreatedDesc, Limit], IntText(f.pageSize));
    AddParamNumbered(AddParam(q, [OrderByCreatedDesc, Limit], IntText(f.pageSize)), [Offset], IntText(OffsetOf(f)));
  }

  /** Two queries with the same parameters and the same tokens after the first. */
  predicate SameButSelect(a: Query, b: Query) {
    |a.sql| >= 2 && |b.sql| >= 2 && a.sql[1..] == b.sql[1..] && a.params == b.params
  }

  lemma AddParamSame(a: Query, b: Query, clause: seq<Token>, value: string)
    requires SameButSelect(a, b)
    ensures SameButSelect(AddParam(a, clause, value), AddParam(b, clause, value))
    ensures AddParam(a, clause, value).sql[..2] == a.sql[..2] && AddParam(b, clause, value).sql[..2] == b.sql[..2]
  {
    var tail := clause + [Param(|a.params| + 1)];
    assert AddParam(a, clause, value).sql[1..] == a.sql[1..] + tail;
    assert AddParam(b, clause, value).sql[1..] == b.sql[1..] + tail;
  }

  predicate SameAs(a: Query, b: Query, a0: Query, b0: Query) {
    SameButSelect(a, b) && |a0.sql| >= 2 && |b0.sql| >= 2 && a.sql[..2] == a0.sql[..2] && b.sql[..2] == b0.sql[..2]
  }

  lemma AddWhenSame(a: Query, b: Query, a0: Query, b0: Query, present: bool, column: Column, op: Token, value: string)
    requires SameAs(a, b, a0, b0)
    ensures SameAs(AddWhen(a, present, column, op, value), AddWhen(b, present, column, op, value), a0, b0)
  {
    if present {
      AddParamSame(a, b, [And, Col(column), op], value);
    }
  }

  lemma AddSearchSame(a: Query, b: Query, pattern: string)
    requires SameButSelect(a, b)
    ensures SameAs(AddSearch(a, pattern), AddSearch(b, pattern), a, b)
  {
    var n := |a.params|;
    var clause := [And, Open, Col(Name), ILike, Param(n + 1), Or, Col(Sku), ILike, Param(n + 2), Close];
    SearchShape(a, pattern, clause);
    SearchShape(b, pattern, clause);
    assert AddSearch(a, pattern).sql == a.sql + clause && AddSearch(b, pattern).sql == b.sql + clause;
    assert (a.sql + clause)[1..] == a.sql[1..] + clause && (b.sql + clause)[1..] == b.sql[1..] + clause;
  }

  lemma AddConditionsSame(a: Query, b: Query, f: Filter)
    requires SameButSelect(a, b)
    ensures SameAs(AddConditions(a, f), AddConditions(b, f), a, b)
  {
    hide SameAs;
    hide U.ToString;
    hide AddWhen;
    var a1 := if HasSearch(f) then AddSearch(a, Pattern(f.search.value)) else a;
    var b1 := if HasSearch(f) then AddSearch(b, Pattern(f.search.value)) else b;
    if HasSearch(f) {
      AddSearchSame(a, b, Pattern(f.search.value));
    } else {
      SameAsItself(a, b);
    }
    var t2 := if HasCategory(f) then U.ToString(f.category.value) else "";
    AddWhenSame(a1, b1, a, b, HasCategory(f), Category, Equals, t2);
    var a2, b2 := AddWhen(a1, HasCategory(f), Category, Equals, t2), AddWhen(b1, HasCategory(f), Category, Equals, t2);
    var t3 := if f.status.Some? then StatusToString(f.status.value) else "";
    AddWhenSame(a2, b2, a, b, f.status.Some?, StatusOf, Equals, t3);
    var a3, b3 := AddWhen(a2, f.status.Some?, StatusOf, Equals, t3), AddWhen(b2, f.status.Some?, StatusOf, Equals, t3);
    var t4 := if f.minStock.Some? then IntText(f.minStock.value) else "";
    AddWhenSame(a3, b3, a, b, f.minStock.Some?, StockQuantity, AtMost, t4);
    var a4, b4 := AddWhen(a3, f.minStock.Some?, StockQuantity, AtMost, t4), AddWhen(b3, f.minStock.Some?, StockQuantity, AtMost, t4);
    var t5 := if f.maxPrice.Some? then IntText(f.maxPrice.value) else "";
    AddWhenSame(a4, b4, a, b, f.maxPrice.Some?, UnitPriceAmount, AtMost, t5);
  }

  lemma SameAsItself(a: Query, b: Query)
    requires SameButSelect(a, b)
    ensures SameAs(a, b, a, b)
  {
  }

  /** The count query has the conditions of the item query, and its parameters are those of the
      item query without the last two, which are the page size and the offset. */
  lemma BuildersAgree(f: Filter)
    ensures var a, b := FindAllQuery(f), CountQuery(f);
      && |a.params| == |b.params| + 2 && a.params == b.params + [IntText(f.pageSize), IntText(OffsetOf(f))]
      && |a.sql| == |b.sql| + 5 && |b.sql| >= 2
      && a.sql[..2] == [SelectItems, WhereTrue] && b.sql[..2] == [SelectCount, WhereTrue]
      && a.sql[2..|a.sql| - 5] == b.sql[2..]
      && a.sql[|a.sql| - 5..] == [OrderByCreatedDesc, Limit, Param(|b.params| + 1), Offset, Param(|b.params| + 2)]
  {
    var a0, b0 := Query([SelectItems, WhereTrue], []), Query([SelectCount, WhereTrue], []);
    AddConditionsSame(a0, b0, f);
    PagingShape(AddConditions(a0, f), f);
    var c, d := AddConditions(a0, f), AddConditions(b0, f);
    assert c.sql[2..] == c.sql[1..][1..] && d.sql[2..] == d.sql[1..][1..];
  }

  lemma PagingShape(q: Query, f: Filter)
    requires |q.sql| >= 2
    ensures var r := AddPaging(q, f); var n := |q.params|;
      && r.params == q.params + [IntText(f.pageSize), IntText(OffsetOf(f))]
      && r.sql == q.sql + [OrderByCreatedDesc, Limit, Param(n + 1), Offset, Param(n + 2)]
      && |r.sql| == |q.sql| + 5 && r.sql[..2] == q.sql[..2] && r.sql[2..|q.sql|] == q.sql[2..]
      && r.sql[|q.sql|..] == [OrderByCreatedDesc, Limit, Param(n + 1), Offset, Param(n + 2)]
  {
  }

  // ---- Running them on a table of items ----

  function Rows(items: seq<Item>): (rows: seq<Row>)
    ensures |rows| == |items|
  {
    if items == [] then [] else [Encode(items[0])] + Rows(items[1..])
  }

  function Matching(f: Filter, items: seq<Item>, like: Like): seq<Item> {
    if items == [] then [] else (if Matches(f, items[0], like) then [items[0]] else []) + Matching(f, items[1..], like)
  }

  lemma {:induction false} RowsAppend(a: seq<Item>, b: seq<Item>)
    ensures Rows(a + b) == Rows(a) + Rows(b)
  {
    hide Encode;
    if a == [] {
      assert a + b == b;
    } else {
      assert (a + b)[1..] == a[1..] + b;
      RowsAppend(a[1..], b);
    }
  }

  lemma {:induction false} SelectedAreMatching(q: Query, f: Filter, items: seq<Item>, like: Like)
    requires |q.sql| >= 2
    requires forall i | i in items :: Says(q, Encode(i), like, Matches(f, i, like))
    ensures Selected(q.sql[2..], q.params, Rows(items), like) == Some(Rows(Matching(f, items, like)))
  {
    hide Encode;
    hide Matches;
    if items != [] {
      var r := Encode(items[0]);
      assert Says(q, r, like, Matches(f, items[0], like));
      assert Rows(items)[0] == r && Rows(items)[1..] == Rows(items[1..]);
      SelectedAreMatching(q, f, items[1..], like);
      RowsAppend(if Matches(f, items[0], like) then [items[0]] else [], Matching(f, items[1..], like));
    }
  }

  lemma ConditionsSelect(select: Token, f: Filter, items: seq<Item>, like: Like)
    ensures var q := AddConditions(Query([select, WhereTrue], []), f);
      |q.sql| >= 2 && Selected(q.sql[2..], q.params, Rows(items), like) == Some(Rows(Matching(f, items, like)))
  {
    var q0 := Query([select, WhereTrue], []);
    var q := AddConditions(q0, f);
    assert |q.sql| >= 2 by {
      AddConditionsSame(q0, q0, f);
    }
    forall i | i in items
      ensures Says(q, Encode(i), like, Matches(f, i, like))
    {
      ConditionsMeanFilter(select, f, i, like);
    }
    SelectedAreMatching(q, f, items, like);
  }

  /** The count query counts the matching items. */
  lemma CountRuns(f: Filter, items: seq<Item>, like: Like)
    ensures RunCount(CountQuery(f), Rows(items), like) == Some(|Matching(f, items, like)|)
  {
    ConditionsSelect(SelectCount, f, items, like);
    BuildersAgree(f);
  }

  /** Parameters that no placeholder uses do not matter. */
  lemma {:induction false} ExtraParams(ts: seq<Token>, ps: seq<string>, extra: seq<string>, rows: seq<Row>, like: Like)
    requires Selected(ts, ps, rows, like).Some?
    ensures Selected(ts, ps + extra, rows, like) == Selected(ts, ps, rows, like)
  {
    if rows != [] {
      var b := Conjunction(ts, ps, rows[0], like).value.0;
      assert Conjunction([], ps + extra, rows[0], like) == Some((true, []));
      ConjunctionAppends(ts, ps, [], extra, rows[0], like, b, true);
      assert ts + [] == ts;
      ExtraParams(ts, ps, extra, rows[1..], like);
    }
  }

  /** Running an item query whose conditions select the given rows. */
  lemma PagedRun(q: Query, ordered: seq<Row>, like: Like, k: nat, limit: int, offset: int, rows: seq<Row>)
    requires |q.sql| >= 7 && q.sql[..2] == [SelectItems, WhereTrue] && |q.params| == k + 2
    requires q.sql[|q.sql| - 5..] == [OrderByCreatedDesc, Limit, Param(k + 1), Offset, Param(k + 2)]
    requires ParseInt(q.params[k]) == Some(limit) && ParseInt(q.params[k + 1]) == Some(offset)
    requires Selected(q.sql[2..|q.sql| - 5], q.params, ordered, like) == Some(rows)
    ensures RunItems(q, ordered, like) == if limit < 0 || offset < 0 then None else Some(Slice(rows, limit, offset))
  {
    var n := |q.sql|;
    var tail := q.sql[n - 5..];
    assert q.sql[n - 5] == tail[0] && q.sql[n - 4] == tail[1] && q.sql[n - 3] == tail[2]
        && q.sql[n - 2] == tail[3] && q.sql[n - 1] == tail[4];
  }

  /** The item query delivers the page of the matching items, or fails if the limit or the offset
      is negative. */
  lemma FindAllRuns(f: Filter, ordered: seq<Item>, like: Like)
    ensures RunItems(FindAllQuery(f), Rows(ordered), like) ==
      if f.pageSize < 0 || OffsetOf(f) < 0 then None
      else Some(Slice(Rows(Matching(f, ordered, like)), f.pageSize, OffsetOf(f)))
  {
    hide RunItems;
    hide Selected;
    hide Rows;
    hide Matching;
    hide FindAllQuery;
    hide AddConditions;
    hide IntText;
    hide ParseInt;
    hide OffsetOf;
    hide Slice;
    var q, c := FindAllQuery(f), CountQuery(f);
    BuildersAgree(f);
    ConditionsSelect(SelectCount, f, ordered, like);
    assert Selected(c.sql[2..], c.params, Rows(ordered), like) == Some(Rows(Matching(f, ordered, like)));
    ExtraParams(c.sql[2..], c.params, [IntText(f.pageSize), IntText(OffsetOf(f))], Rows(ordered), like);
    IntRoundTrip(f.pageSize);
    IntRoundTrip(OffsetOf(f));
    PagedRun(q, Rows(ordered), like, |c.params|, f.pageSize, OffsetOf(f), Rows(Matching(f, ordered, like)));
  }
}
