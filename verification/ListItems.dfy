/** The listing use case: one page of the matching items, their number and the number of pages. */
module ListItems {
  import opened Results
  import opened Items
  import opened QueryBuilder
  import opened PageCount
  import U = Uuid

  /** What the use case returns. The number of pages is missing where the source's conversion to
      int has no defined result. */
  datatype ResultSet = ResultSet(items: seq<Item>, totalCount: nat, page: int, pageSize: int, totalPages: Option<int>)

  function Decoded(rows: seq<Row>): seq<Item>
    requires forall r | r in rows :: Readable(r)
  {
    if rows == [] then [] else [Decode(rows[0])] + Decoded(rows[1..])
  }

  /** `ListItemsUseCase::execute` over the rows in one order that ORDER BY created_at DESC allows. */
  function Execute(f: Filter, ordered: seq<Row>, like: Like): Result<ResultSet> {
    match RunItems(FindAllQuery(f), ordered, like)
    case None => Err(Error.Database)
    case Some(rows) =>
      if exists r :: r in rows && !Readable(r) then Err(Internal)
      else
        match RunCount(CountQuery(f), ordered, like)
        case None => Err(Error.Database)
        case Some(count) =>
          Ok(ResultSet(Decoded(rows), count, f.page, f.pageSize,
                       if f.pageSize < 0 then None else TotalPages(count, f.pageSize)))
  }

  /** Items as they come out of the table. */
  predicate AllStored(items: seq<Item>) { forall i | i in items :: WellFormed(i) && Stored(i) == i }

  /** Rows as every run of the store leaves them. */
  ghost predicate AllSound(rows: seq<Row>) { forall r | r in rows :: Sound(r) }

  lemma {:induction false} MatchingIn(f: Filter, items: seq<Item>, like: Like)
    ensures forall i :: i in Matching(f, items, like) ==> i in items
  {
    hide Matches;
    if items != [] {
      MatchingIn(f, items[1..], like);
    }
  }

  lemma {:induction false} RowsAt(items: seq<Item>, k: nat)
    requires k < |items|
    ensures Rows(items)[k] == Encode(items[k])
  {
    hide Encode;
    if k > 0 {
      RowsAt(items[1..], k - 1);
    }
  }

  lemma RowsSlice(items: seq<Item>, a: nat, b: nat)
    requires a <= b <= |items|
    ensures Rows(items)[a..b] == Rows(items[a..b])
  {
    hide Encode;
    forall k | 0 <= k < b - a
      ensures Rows(items)[a..b][k] == Rows(items[a..b])[k]
    {
      RowsAt(items, a + k);
      RowsAt(items[a..b], k);
    }
  }

  lemma {:induction false} DecodedRows(items: seq<Item>)
    requires AllStored(items)
    ensures forall r | r in Rows(items) :: Readable(r)
    ensures Decoded(Rows(items)) == items
  {
    hide Encode;
    hide Decode;
    hide Readable;
    if items != [] {
      EncodedIsReadable(items[0]);
      DecodedRows(items[1..]);
      assert Rows(items) == [Encode(items[0])] + Rows(items[1..]);
    }
  }

  lemma EncodedIsReadable(i: Item)
    requires WellFormed(i) && Stored(i) == i
    ensures Readable(Encode(i)) && Decode(Encode(i)) == i
  {
    hide Encode;
    hide Decode;
    hide Readable;
    hide Stored;
    EncodedIsSound(i);
    SoundMeans(Encode(i));
  }

  /** Sound rows are the rows of the items they decode to. */
  lemma {:induction false} RowsOfDecoded(rows: seq<Row>)
    requires AllSound(rows)
    ensures forall r | r in rows :: Readable(r)
    ensures Rows(Decoded(rows)) == rows && AllStored(Decoded(rows))
  {
    hide Encode;
    hide Decode;
    hide Readable;
    hide Sound;
    hide Stored;
    hide WellFormed;
    if rows != [] {
      SoundMeans(rows[0]);
      RowsOfDecoded(rows[1..]);
      var items := Decoded(rows);
      assert items[0] == Decode(rows[0]) && items[1..] == Decoded(rows[1..]);
      assert Rows(items) == [Encode(items[0])] + Rows(items[1..]);
    }
  }

  lemma ExecuteOnItems(f: Filter, ordered: seq<Item>, like: Like)
    requires AllStored(ordered)
    ensures var all := Matching(f, ordered, like);
      Execute(f, Rows(ordered), like) ==
        if f.pageSize < 0 || OffsetOf(f) < 0 then Err(Error.Database)
        else Ok(ResultSet(Slice(all, f.pageSize, OffsetOf(f)), |all|, f.page, f.pageSize, TotalPages(|all|, f.pageSize)))
  {
    hide RunItems;
    hide RunCount;
    hide FindAllQuery;
    hide CountQuery;
    hide Readable;
    hide Decode;
    hide Encode;
    hide Rows;
    hide Slice;
    hide OffsetOf;
    hide Matching;
    hide TotalPages;
    var all := Matching(f, ordered, like);
    FindAllRuns(f, ordered, like);
    CountRuns(f, ordered, like);
    if f.pageSize >= 0 && OffsetOf(f) >= 0 {
      MatchingIn(f, ordered, like);
      SliceDecodes(all, f.pageSize, OffsetOf(f));
    }
  }

  /** What one call returns over the rows of the table: the requested slice of the matching items,
      decoded without loss, their number and the number of pages; or a database error for a negative
      limit or offset. */
  lemma ExecuteReturns(f: Filter, ordered: seq<Row>, like: Like)
    requires AllSound(ordered)
    ensures forall r | r in ordered :: Readable(r)
    ensures var all := Matching(f, Decoded(ordered), like);
      Execute(f, ordered, like) ==
        if f.pageSize < 0 || OffsetOf(f) < 0 then Err(Error.Database)
        else Ok(ResultSet(Slice(all, f.pageSize, OffsetOf(f)), |all|, f.page, f.pageSize, TotalPages(|all|, f.pageSize)))
  {
    hide *;
    RowsOfDecoded(ordered);
    ExecuteOnItems(f, Decoded(ordered), like);
  }

  lemma SliceDecodes(all: seq<Item>, limit: nat, offset: nat)
    requires AllStored(all)
    ensures var rows := Slice(Rows(all), limit, offset);
      (forall r | r in rows :: Readable(r)) && Decoded(rows) == Slice(all, limit, offset)
  {
    hide Readable;
    hide Encode;
    hide Decode;
    var a, b := Min(offset, |all|), Min(offset + limit, |all|);
    RowsSlice(all, a, b);
    DecodedRows(all[a..b]);
  }

  // ---- Pages ----

  lemma OffsetIsNatural(p: nat, size: nat)
    ensures p * size >= 0
  {
  }

  /** Page number p, from 1. */
  function PageOf<T>(all: seq<T>, size: nat, p: nat): (s: seq<T>)
    requires p >= 1
    ensures |s| <= size
  {
    OffsetIsNatural(p - 1, size);
    Slice(all, size, (p - 1) * size)
  }

  /** The items of pages 1 to n, one page after the other. */
  function Pages<T>(all: seq<T>, size: nat, n: nat): seq<T> {
    if n == 0 then [] else Pages(all, size, n - 1) + PageOf(all, size, n)
  }

  lemma {:induction false} PagesAreAPrefix<T>(all: seq<T>, size: nat, n: nat)
    ensures n * size >= 0 && Pages(all, size, n) == all[..Min(n * size, |all|)]
  {
    OffsetIsNatural(n, size);
    if n > 0 {
      PagesAreAPrefix(all, size, n - 1);
      assert n * size == (n - 1) * size + size;
      var a, b := Min((n - 1) * size, |all|), Min(n * size, |all|);
      assert all[..a] + all[a..b] == all[..b];
    }
  }

  /** A page before the last is full, the last is not empty, one after the last is. */
  lemma PageLength<T>(all: seq<T>, size: nat, p: nat)
    requires size >= 1 && p >= 1
    ensures var n := CeilDiv(|all|, size);
      && (p < n ==> |PageOf(all, size, p)| == size)
      && (p == n ==> PageOf(all, size, p) != [])
      && (p > n ==> PageOf(all, size, p) == [])
  {
    hide CeilDiv;
    OffsetBounds(|all|, size, p);
  }

  lemma OffsetBounds(a: nat, size: nat, p: nat)
    requires size >= 1 && p >= 1
    ensures var n, offset := CeilDiv(a, size), (p - 1) * size;
      && offset >= 0
      && (p < n ==> offset + size < a)
      && (p == n ==> offset < a)
      && (p > n ==> offset >= a)
  {
    var n := CeilDiv(a, size);
    CeilBounds(a, size);
    hide CeilDiv;
    OffsetIsNatural(p - 1, size);
    assert p * size == (p - 1) * size + size;
    if p < n {
      MulMono(size, p, n - 1);
    } else if p > n {
      MulMono(size, n, p - 1);
    }
  }

  /** Consecutive pages partition the list: together they are all of it, every page but the last is
      full, the last is not empty, and pages after the last are. */
  lemma PagesPartition<T>(all: seq<T>, size: nat)
    requires size >= 1
    ensures var n := CeilDiv(|all|, size);
      && n >= 0 && Pages(all, size, n) == all
      && (forall p: nat | 1 <= p < n :: |PageOf(all, size, p)| == size)
      && (n >= 1 ==> PageOf(all, size, n) != [])
      && (forall p: nat | p > n && p >= 1 :: PageOf(all, size, p) == [])
  {
    var n := CeilDiv(|all|, size);
    CeilBounds(|all|, size);
    PagesAreAPrefix(all, size, n);
    assert all[..|all|] == all;
    forall p: nat | p >= 1
      ensures p < n ==> |PageOf(all, size, p)| == size
      ensures p == n ==> PageOf(all, size, p) != []
      ensures p > n ==> PageOf(all, size, p) == []
    {
      PageLength(all, size, p);
    }
  }

  lemma CeilBounds(a: nat, b: nat)
    requires b >= 1
    ensures var q := CeilDiv(a, b); q >= 0 && a <= q * b && (q >= 1 ==> (q - 1) * b < a)
  {
    var q := CeilDiv(a, b);
    assert q * b == (a + b - 1) - (a + b - 1) % b;
    assert (q - 1) * b == q * b - b;
  }

  /** The filter asking for page p. */
  function AtPage(f: Filter, p: int): Filter { f.(page := p) }

  /** The items that the use case returns for pages 1 to n, one call after the other. */
  function Listed(f: Filter, ordered: seq<Row>, like: Like, n: nat): seq<Item> {
    if n == 0 then []
    else
      var r := Execute(AtPage(f, n), ordered, like);
      Listed(f, ordered, like, n - 1) + (if r.Ok? then r.value.items else [])
  }

  lemma {:induction false} SameMatching(f: Filter, p: int, items: seq<Item>, like: Like)
    ensures Matching(AtPage(f, p), items, like) == Matching(f, items, like)
  {
    if items != [] {
      SameMatching(f, p, items[1..], like);
    }
  }

  lemma PageReturns(f: Filter, ordered: seq<Item>, like: Like, p: nat)
    requires AllStored(ordered) && f.pageSize >= 1 && p >= 1 && (p - 1) * f.pageSize < 0x8000_0000
    ensures var all := Matching(f, ordered, like);
      Execute(AtPage(f, p), Rows(ordered), like)
        == Ok(ResultSet(PageOf(all, f.pageSize, p), |all|, p, f.pageSize, TotalPages(|all|, f.pageSize)))
  {
    hide Execute;
    hide Matching;
    hide Rows;
    hide TotalPages;
    hide Slice;
    OffsetIsNatural(p - 1, f.pageSize);
    OffsetExactIff(AtPage(f, p));
    ExecuteOnItems(AtPage(f, p), ordered, like);
    SameMatching(f, p, ordered, like);
  }

  lemma {:induction false} ListedArePages(f: Filter, ordered: seq<Item>, like: Like, n: nat)
    requires AllStored(ordered) && f.pageSize >= 1 && (n - 1) * f.pageSize < 0x8000_0000
    ensures Listed(f, Rows(ordered), like, n) == Pages(Matching(f, ordered, like), f.pageSize, n)
  {
    hide Execute;
    hide Matching;
    hide Rows;
    hide PageOf;
    if n > 0 {
      assert (n - 2) * f.pageSize == (n - 1) * f.pageSize - f.pageSize;
      ListedArePages(f, ordered, like, n - 1);
      PageReturns(f, ordered, like, n);
    }
  }

  /** Paging through the listing. For every filter with a positive page size, over one order of the
      table's rows: every page reports the exact number of matching items and of pages, and calling
      for pages 1 to that number returns every matching item once, in order. The last page number
      and its offset must fit an int, as the source computes both in one. */
  lemma ListingIsComplete(f: Filter, ordered: seq<Row>, like: Like)
    requires AllSound(ordered) && 1 <= f.pageSize < 0x8000_0000
    requires forall r | r in ordered :: Readable(r)
    requires CeilDiv(|Matching(f, Decoded(ordered), like)|, f.pageSize) < 0x8000_0000
    requires (CeilDiv(|Matching(f, Decoded(ordered), like)|, f.pageSize) - 1) * f.pageSize < 0x8000_0000
    ensures var all := Matching(f, Decoded(ordered), like);
      var first := Execute(AtPage(f, 1), ordered, like);
      && first.Ok? && first.value.totalCount == |all|
      && first.value.totalPages == Some(CeilDiv(|all|, f.pageSize))
      && CeilDiv(|all|, f.pageSize) >= 0
      && Listed(f, ordered, like, CeilDiv(|all|, f.pageSize)) == all
  {
    hide Execute;
    hide Matching;
    hide Rows;
    hide PageOf;
    hide TotalPages;
    hide Sound;
    hide Readable;
    hide Decoded;
    hide Listed;
    RowsOfDecoded(ordered);
    var items := Decoded(ordered);
    var all := Matching(f, items, like);
    PageReturns(f, items, like, 1);
    PagesPartition(all, f.pageSize);
    CountFits(|all|, f.pageSize);
    PageCountExact(|all|, f.pageSize);
    ListedArePages(f, items, like, CeilDiv(|all|, f.pageSize));
  }

  lemma CountFits(n: nat, size: nat)
    requires 1 <= size < 0x8000_0000 && (CeilDiv(n, size) - 1) * size < 0x8000_0000
    ensures n <= P53
  {
    CeilBounds(n, size);
    var q := CeilDiv(n, size);
    assert q * size == (q - 1) * size + size;
  }

  lemma OffsetWraps(f: Filter)
    requires f.pageSize == 0x1_0000
    ensures OffsetOf(AtPage(f, 1)) == 0 && OffsetOf(AtPage(f, 0x1_0001)) == 0
  {
  }

  /** Where the offset does not fit, wrapping around brings an earlier page: with 65536 items a page,
      asking for page 65537 returns the items of page 1, however few there are. */
  lemma PageWrapsAround(f: Filter, ordered: seq<Row>, like: Like)
    requires AllSound(ordered) && f.pageSize == 0x1_0000
    ensures var first, far := Execute(AtPage(f, 1), ordered, like), Execute(AtPage(f, 0x1_0001), ordered, like);
      first.Ok? && far.Ok? && far.value.items == first.value.items
  {
    hide Execute;
    hide Matching;
    hide TotalPages;
    hide Sound;
    hide Readable;
    hide Decoded;
    hide OffsetOf;
    hide Slice;
    OffsetWraps(f);
    RowsOfDecoded(ordered);
    ExecuteReturns(AtPage(f, 1), ordered, like);
    ExecuteReturns(AtPage(f, 0x1_0001), ordered, like);
    SameMatching(f, 1, Decoded(ordered), like);
    SameMatching(f, 0x1_0001, Decoded(ordered), like);
  }

  // ---- What a search finds ----

  predicate OccursAt(text: string, s: string, k: nat) { k + |s| <= |text| && text[k..k + |s|] == s }

  predicate Contains(text: string, s: string) { exists k: nat :: k <= |text| && OccursAt(text, s, k) }

  /** The items whose name or sku contains s and that have the given other properties. */
  function Found(items: seq<Item>, s: string, category: Option<U.Uuid>, status: Option<Status>,
                 maxStock: Option<int>, maxPrice: Option<int>): seq<Item> {
    if items == [] then []
    else
      var i := items[0];
      (if && (Contains(i.name, s) || Contains(i.sku, s))
          && (category.None? || i.category == category.value)
          && (status.None? || i.status == status.value)
          && (maxStock.None? || i.stock.value <= maxStock.value)
          && (maxPrice.None? || i.price.amount <= maxPrice.value)
       then [i] else []) + Found(items[1..], s, category, status, maxStock, maxPrice)
  }

  lemma {:induction false} MatchingIsFound(f: Filter, items: seq<Item>, like: Like, s: string, category: Option<U.Uuid>)
    requires s == if f.search.Some? then f.search.value else ""
    requires category == if f.category == Some(U.Uuid(0, 0)) then None else f.category
    requires s != "" ==> forall t: string :: like("%" + s + "%", t) <==> Contains(t, s)
    ensures Matching(f, items, like) == Found(items, s, category, f.status, f.minStock, f.maxPrice)
  {
    if items != [] {
      var i := items[0];
      if s == "" {
        assert OccursAt(i.name, s, 0);
      }
      MatchingIsFound(f, items[1..], like, s, category);
    }
  }

  /** What a filter finds. Wherever the database's ILIKE finds a text between two percent signs
      exactly in what contains it, one call counts and lists exactly the items whose name or sku
      contains the search text and that have the other properties asked for. No text and an empty
      one restrict nothing, as every item contains it; nor does the nil category. */
  lemma SearchFinds(f: Filter, ordered: seq<Row>, like: Like, s: string, category: Option<U.Uuid>)
    requires AllSound(ordered) && f.pageSize >= 0 && OffsetOf(f) >= 0
    requires s == if f.search.Some? then f.search.value else ""
    requires category == if f.category == Some(U.Uuid(0, 0)) then None else f.category
    requires s != "" ==> forall t: string :: like("%" + s + "%", t) <==> Contains(t, s)
    ensures forall r | r in ordered :: Readable(r)
    ensures var found := Found(Decoded(ordered), s, category, f.status, f.minStock, f.maxPrice);
      var r := Execute(f, ordered, like);
      r.Ok? && r.value.totalCount == |found| && r.value.items == Slice(found, f.pageSize, OffsetOf(f))
  {
    hide Execute;
    hide Matching;
    hide TotalPages;
    hide Sound;
    hide Readable;
    hide Decoded;
    hide OffsetOf;
    hide Slice;
    hide Found;
    ExecuteReturns(f, ordered, like);
    MatchingIsFound(f, Decoded(ordered), like, s, category);
  }
}
