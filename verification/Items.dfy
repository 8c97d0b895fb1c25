/** Items, the rows they are stored as, and the update of an item field by field. */
module Items {
  import opened Results
  import U = Uuid
  import T = TimeUtils

  datatype Money = Money(amount: int, currency: string)

  datatype Quantity = Quantity(value: int, unit: string)

  datatype Status = Active | Inactive | Discontinued | OutOfStock

  datatype Item = Item(
    id: U.Uuid, sku: string, name: string, description: string,
    category: U.Uuid, supplier: U.Uuid,
    price: Money, stock: Quantity, minStock: Quantity,
    status: Status, createdAt: T.TimePoint, updatedAt: T.TimePoint)

  function CreateMoney(amount: int, currency: string): Result<Money> {
    if amount < 0 then Err(Validation)
    else if |currency| != 3 then Err(Validation)
    else Ok(Money(amount, currency))
  }

  function CreateQuantity(value: int, unit: string): Result<Quantity> {
    if value < 0 then Err(Validation) else Ok(Quantity(value, unit))
  }

  function ValueOr<T>(r: Result<T>, default: T): T { if r.Ok? then r.value else default }

  // ---- Rows ----

  /** A row of the items table; empty text stands for NULL in the two references. Times are the text
      that was written. */
  datatype Row = Row(
    id: string, sku: string, name: string, description: string,
    category: string, supplier: string,
    priceAmount: int, priceCurrency: string,
    stockQuantity: int, stockUnit: string, minStockQuantity: int,
    status: string, createdAt: string, updatedAt: string)

  function StatusToString(s: Status): string {
    match s
    case Active => "active"
    case Inactive => "inactive"
    case Discontinued => "discontinued"
    case OutOfStock => "out_of_stock"
  }

  function StringToStatus(s: string): Status {
    if s == "active" then Active
    else if s == "inactive" then Inactive
    else if s == "discontinued" then Discontinued
    else if s == "out_of_stock" then OutOfStock
    else Active
  }

  /** The parameters of the INSERT. Only the unit of the stock is stored. */
  function Encode(i: Item): Row {
    Row(U.ToString(i.id), i.sku, i.name, i.description, U.ToString(i.category), U.ToString(i.supplier),
        i.price.amount, i.price.currency, i.stock.value, i.stock.unit, i.minStock.value,
        StatusToString(i.status), T.Format(i.createdAt), T.Format(i.updatedAt))
  }

  predicate Readable(r: Row) {
    && U.Readable(r.id) && U.Readable(r.category) && U.Readable(r.supplier)
    && T.IsTime(r.createdAt) && T.IsTime(r.updatedAt)
  }

  function Reference(s: string): U.Uuid
    requires U.Readable(s)
  {
    if s == "" then U.NIL else U.FromString(s)
  }

  /** `row_to_item`, with its fallbacks. */
  function Decode(r: Row): Item
    requires Readable(r)
  {
    Item(U.FromString(r.id), r.sku, r.name, r.description, Reference(r.category), Reference(r.supplier),
         ValueOr(CreateMoney(r.priceAmount, r.priceCurrency), Money(0, "IDR")),
         ValueOr(CreateQuantity(r.stockQuantity, r.stockUnit), Quantity(0, "pcs")),
         ValueOr(CreateQuantity(r.minStockQuantity, r.stockUnit), Quantity(0, "pcs")),
         StringToStatus(r.status), T.FromText(r.createdAt), T.FromText(r.updatedAt))
  }

  predicate WellFormed(i: Item) {
    && i.price.amount >= 0 && |i.price.currency| == 3
    && i.stock.value >= 0 && i.minStock.value >= 0
    && i.minStock.unit == i.stock.unit
  }

  lemma ReferenceRoundTrip(u: U.Uuid)
    ensures U.Readable(U.ToString(u)) && Reference(U.ToString(u)) == u && U.FromString(U.ToString(u)) == u
  {
    U.RoundTrip(u);
  }

  lemma StatusRoundTrip(s: Status)
    ensures StringToStatus(StatusToString(s)) == s
  {
  }

  lemma KeyColumns(i: Item)
    ensures Encode(i).id == U.ToString(i.id) && Encode(i).sku == i.sku
  {
    hide U.ToString;
    hide T.Format;
  }

  /** The item as it comes back from the database: its times are cut to milliseconds. */
  function Stored(i: Item): Item {
    i.(createdAt := T.Truncated(i.createdAt), updatedAt := T.Truncated(i.updatedAt))
  }

  lemma TimesRoundTrip(i: Item)
    ensures T.IsTime(T.Format(i.createdAt)) && T.FromText(T.Format(i.createdAt)) == T.Truncated(i.createdAt)
    ensures T.IsTime(T.Format(i.updatedAt)) && T.FromText(T.Format(i.updatedAt)) == T.Truncated(i.updatedAt)
  {
    T.TimePointRoundTrip(i.createdAt);
    T.TimePointRoundTrip(i.updatedAt);
    hide T.Parse;
    hide T.Format;
  }

  /** Storing and reading back loses nothing but fractions of milliseconds exactly if the item is
      well formed: amounts not negative, a currency of three letters, one unit for stock and minimum.
      It returns the item itself exactly if its times are also whole milliseconds. */
  lemma DecodeEncodeIff(i: Item)
    ensures Readable(Encode(i))
    ensures Decode(Encode(i)) == Stored(i) <==> WellFormed(i)
    ensures Decode(Encode(i)) == i <==>
      WellFormed(i) && i.createdAt % 1_000_000 == 0 && i.updatedAt % 1_000_000 == 0
  {
    ReferenceRoundTrip(i.id);
    ReferenceRoundTrip(i.category);
    ReferenceRoundTrip(i.supplier);
    StatusRoundTrip(i.status);
    TimesRoundTrip(i);
    hide U.ToString;
    hide U.FromString;
    hide U.Readable;
    hide Reference;
    hide StatusToString;
    hide StringToStatus;
    hide T.Format;
    hide T.IsTime;
    hide T.FromText;
  }

  /** A row that came from a well-formed item: it decodes without any fallback, and encoding what
      was decoded gives the row again. */
  predicate Sound(r: Row) { Readable(r) && WellFormed(Decode(r)) && Encode(Decode(r)) == r }

  lemma EncodedIsSound(i: Item)
    requires WellFormed(i)
    ensures Sound(Encode(i)) && Decode(Encode(i)) == Stored(i)
  {
    DecodeEncodeIff(i);
    StoredIsEncodedAlike(i);
    hide Encode;
    hide Decode;
    hide Readable;
  }

  lemma StoredIsEncodedAlike(i: Item)
    ensures Encode(Stored(i)) == Encode(i)
  {
    T.TruncatedText(i.createdAt);
    T.TruncatedText(i.updatedAt);
    hide T.Format;
    hide T.Truncated;
    hide U.ToString;
  }

  /** What was read from a sound row has whole milliseconds. */
  lemma SoundIsStored(r: Row)
    requires Sound(r)
    ensures Stored(Decode(r)) == Decode(r)
  {
    EncodedIsSound(Decode(r));
    hide Encode;
    hide Decode;
    hide Stored;
    hide Readable;
    hide WellFormed;
  }

  /** What soundness gives its users. */
  lemma SoundMeans(r: Row)
    requires Sound(r)
    ensures Readable(r) && WellFormed(Decode(r)) && Stored(Decode(r)) == Decode(r) && Encode(Decode(r)) == r
  {
    hide Encode;
    hide Decode;
    hide Readable;
    hide Stored;
    SoundIsStored(r);
  }

  /** A sound row stays sound with another one's creation time, and decodes to the item with it. */
  lemma SoundWithCreationOf(r: Row, other: Row)
    requires Sound(r) && Sound(other)
    ensures Sound(Overwritten(other, r))
    ensures Decode(Overwritten(other, r)) == Decode(r).(createdAt := Decode(other).createdAt)
  {
    hide Encode;
    hide Decode;
    SoundIsStored(r);
    SoundIsStored(other);
    WithCreationOf(Decode(r), Decode(other));
  }

  lemma WithCreationOf(i: Item, j: Item)
    requires WellFormed(i) && Stored(i) == i && Stored(j) == j
    ensures var r := Overwritten(Encode(j), Encode(i)); Sound(r) && Decode(r) == i.(createdAt := j.createdAt)
  {
    hide Encode;
    hide Decode;
    hide Sound;
    CreationColumn(i, j);
    EncodedIsSound(i.(createdAt := j.createdAt));
  }

  lemma CreationColumn(i: Item, j: Item)
    ensures Encode(i.(createdAt := j.createdAt)) == Overwritten(Encode(j), Encode(i))
  {
    hide T.Format;
    hide U.ToString;
  }

  /** Every fallback of the decoder, on any row it can read. */
  lemma Fallbacks(r: Row)
    requires Readable(r)
    ensures var i := Decode(r);
      && i.price == (if r.priceAmount < 0 || |r.priceCurrency| != 3 then Money(0, "IDR")
                     else Money(r.priceAmount, r.priceCurrency))
      && i.stock == (if r.stockQuantity < 0 then Quantity(0, "pcs") else Quantity(r.stockQuantity, r.stockUnit))
      && i.minStock == (if r.minStockQuantity < 0 then Quantity(0, "pcs") else Quantity(r.minStockQuantity, r.stockUnit))
      && (i.status == Inactive <==> r.status == "inactive")
      && (i.status == Discontinued <==> r.status == "discontinued")
      && (i.status == OutOfStock <==> r.status == "out_of_stock")
      && (i.status == Active <==> r.status !in ["inactive", "discontinued", "out_of_stock"])
      && (r.category == "" ==> i.category == U.Uuid(0, 0)) && (r.supplier == "" ==> i.supplier == U.Uuid(0, 0))
  {
    hide U.FromString;
    hide T.FromText;
    hide T.IsTime;
  }

  /** In a sound row no fallback of the decoder is used. */
  lemma SoundUsesNoFallback(r: Row)
    requires Sound(r)
    ensures CreateMoney(r.priceAmount, r.priceCurrency).Ok?
    ensures CreateQuantity(r.stockQuantity, r.stockUnit).Ok? && CreateQuantity(r.minStockQuantity, r.stockUnit).Ok?
    ensures r.status == StatusToString(StringToStatus(r.status)) && r.category != "" && r.supplier != ""
    ensures |U.Stripped(r.id)| == 32 && |U.Stripped(r.category)| == 32 && |U.Stripped(r.supplier)| == 32
  {
    var i := Decode(r);
    TextHas32Digits(i.id);
    TextHas32Digits(i.category);
    TextHas32Digits(i.supplier);
  }

  lemma TextHas32Digits(u: U.Uuid)
    ensures |U.Stripped(U.ToString(u))| == 32
  {
    U.TextIsGroupedDigits(u);
    U.StrippedGrouped(U.Hex(u.hi, 16) + U.Hex(u.lo, 16));
  }

  // ---- Requests ----

  datatype CreateRequest = CreateRequest(
    sku: string, name: string, description: string, category: U.Uuid, supplier: U.Uuid,
    priceAmount: int, currency: string, stockQuantity: int, minStockQuantity: int, stockUnit: string)

  /** The item a request asks for, or the first validation that fails. */
  function NewItem(req: CreateRequest, id: U.Uuid, now: T.TimePoint): (r: Result<Item>)
    ensures r.Ok? <==>
      req.priceAmount >= 0 && |req.currency| == 3 && req.stockQuantity >= 0 && req.minStockQuantity >= 0
    ensures r.Ok? ==> WellFormed(r.value) && r.value.id == id && r.value.sku == req.sku
  {
    var price := CreateMoney(req.priceAmount, req.currency);
    if price.Err? then Err(price.error)
    else
      var stock := CreateQuantity(req.stockQuantity, req.stockUnit);
      if stock.Err? then Err(stock.error)
      else
        var minStock := CreateQuantity(req.minStockQuantity, req.stockUnit);
        if minStock.Err? then Err(minStock.error)
        else Ok(Item(id, req.sku, req.name, req.description, req.category, req.supplier,
                     price.value, stock.value, minStock.value, Active, now, now))
  }

  datatype UpdateRequest = UpdateRequest(
    id: U.Uuid, name: Option<string>, description: Option<string>, category: Option<U.Uuid>,
    supplier: Option<U.Uuid>, priceAmount: Option<int>, stockQuantity: Option<int>,
    minStockQuantity: Option<int>, status: Option<Status>)

  function OrElse<T>(o: Option<T>, default: T): T { if o.Some? then o.value else default }

  predicate Acceptable(req: UpdateRequest, currency: string) {
    && (req.name.Some? ==> req.name.value != "")
    && (req.priceAmount.Some? ==> req.priceAmount.value >= 0 && |currency| == 3)
    && (req.stockQuantity.Some? ==> req.stockQuantity.value >= 0)
    && (req.minStockQuantity.Some? ==> req.minStockQuantity.value >= 0)
  }

  /** The item after the setters: a field is the request's if it is there, else the item's own. */
  function Merged(i: Item, req: UpdateRequest, now: T.TimePoint): Item {
    i.(name := OrElse(req.name, i.name),
       description := OrElse(req.description, i.description),
       category := OrElse(req.category, i.category),
       supplier := OrElse(req.supplier, i.supplier),
       price := i.price.(amount := OrElse(req.priceAmount, i.price.amount)),
       stock := i.stock.(value := OrElse(req.stockQuantity, i.stock.value)),
       minStock := Quantity(OrElse(req.minStockQuantity, i.minStock.value),
                            if req.minStockQuantity.Some? then i.stock.unit else i.minStock.unit),
       status := OrElse(req.status, i.status),
       updatedAt := now)
  }

  /** The four fields that are set first. */
  function Texts(i: Item, req: UpdateRequest): Item {
    i.(name := OrElse(req.name, i.name),
       description := OrElse(req.description, i.description),
       category := OrElse(req.category, i.category),
       supplier := OrElse(req.supplier, i.supplier))
  }

  function Updated(i: Item, req: UpdateRequest, now: T.TimePoint): Result<Item> {
    if Acceptable(req, i.price.currency) then Ok(Merged(i, req, now)) else Err(Validation)
  }

  /** The use case's body between reading and writing: setters on a local item, leaving at the
      first value that is not allowed. First the texts and references, then the amounts. */
  method ApplyRequest(read: Item, req: UpdateRequest, now: T.TimePoint) returns (r: Result<Item>)
    ensures r == Updated(read, req, now)
    ensures r == Err(Validation) <==>
      || req.name == Some("")
      || (req.priceAmount.Some? && (req.priceAmount.value < 0 || |read.price.currency| != 3))
      || (req.stockQuantity.Some? && req.stockQuantity.value < 0)
      || (req.minStockQuantity.Some? && req.minStockQuantity.value < 0)
    ensures r != Err(Validation) ==> r.Ok?
    ensures r.Ok? && req.minStockQuantity.Some? ==>
      r.value.minStock == Quantity(req.minStockQuantity.value, read.stock.unit)
    ensures r.Ok? && req.minStockQuantity.None? ==> r.value.minStock == read.minStock
  {
    if req.name.Some? && req.name.value == "" {
      return Err(Validation);
    }
    var item := ApplyTexts(read, req);
    r := ApplyAmounts(item, req);
    if r.Err? {
      return;
    }
    item := r.value;
    if req.status.Some? {
      item := item.(status := req.status.value);
    }
    item := item.(updatedAt := now);
    r := Ok(item);
  }

  method ApplyTexts(read: Item, req: UpdateRequest) returns (item: Item)
    ensures item == Texts(read, req)
  {
    item := read;
    if req.name.Some? {
      item := item.(name := req.name.value);
    }
    if req.description.Some? {
      item := item.(description := req.description.value);
    }
    if req.category.Some? {
      item := item.(category := req.category.value);
    }
    if req.supplier.Some? {
      item := item.(supplier := req.supplier.value);
    }
  }

  /** The three amounts as the setters leave them. */
  function Amounts(i: Item, req: UpdateRequest): Item {
    i.(price := i.price.(amount := OrElse(req.priceAmount, i.price.amount)),
       stock := i.stock.(value := OrElse(req.stockQuantity, i.stock.value)),
       minStock := Quantity(OrElse(req.minStockQuantity, i.minStock.value),
                            if req.minStockQuantity.Some? then i.stock.unit else i.minStock.unit))
  }

  method ApplyAmounts(read: Item, req: UpdateRequest) returns (r: Result<Item>)
    ensures r ==
      if && (req.priceAmount.Some? ==> req.priceAmount.value >= 0 && |read.price.currency| == 3)
         && (req.stockQuantity.Some? ==> req.stockQuantity.value >= 0)
         && (req.minStockQuantity.Some? ==> req.minStockQuantity.value >= 0)
      then Ok(Amounts(read, req)) else Err(Validation)
  {
    var item := read;
    if req.priceAmount.Some? {
      var price := CreateMoney(req.priceAmount.value, item.price.currency);
      if price.Err? {
        return Err(price.error);
      }
      item := item.(price := price.value);
    }
    if req.stockQuantity.Some? {
      var qty := CreateQuantity(req.stockQuantity.value, item.stock.unit);
      if qty.Err? {
        return Err(qty.error);
      }
      item := item.(stock := qty.value);
    }
    if req.minStockQuantity.Some? {
      var qty := CreateQuantity(req.minStockQuantity.value, item.stock.unit);
      if qty.Err? {
        return Err(qty.error);
      }
      item := item.(minStock := qty.value);
    }
    return Ok(item);
  }

  lemma UpdatedIsWellFormed(i: Item, req: UpdateRequest, now: T.TimePoint)
    requires WellFormed(i) && Updated(i, req, now).Ok?
    ensures var u := Updated(i, req, now).value;
      WellFormed(u) && u.id == i.id && u.sku == i.sku && u.createdAt == i.createdAt
      && u.price.currency == i.price.currency && u.stock.unit == i.stock.unit
  {
  }

  /** The row of a new item holds what was asked for, column by column. */
  lemma CreatedRow(req: CreateRequest, id: U.Uuid, now: T.TimePoint)
    requires NewItem(req, id, now).Ok?
    ensures var r := Encode(NewItem(req, id, now).value);
      && r.id == U.ToString(id) && r.sku == req.sku && r.name == req.name && r.description == req.description
      && r.category == U.ToString(req.category) && r.supplier == U.ToString(req.supplier)
      && r.priceAmount == req.priceAmount && r.priceCurrency == req.currency
      && r.stockQuantity == req.stockQuantity && r.minStockQuantity == req.minStockQuantity
      && r.stockUnit == req.stockUnit && r.status == "active" && r.createdAt == r.updatedAt == T.Format(now)
  {
  }

  /** Decoding a stored row, merging a request and encoding again changes exactly the columns the
      request names, and the update time. */
  lemma UpdatedColumns(row: Row, req: UpdateRequest, now: T.TimePoint)
    requires Sound(row) && Updated(Decode(row), req, now).Ok?
    ensures var r := Encode(Updated(Decode(row), req, now).value);
      && r.id == row.id && r.sku == row.sku && r.createdAt == row.createdAt && r.updatedAt == T.Format(now)
      && r.name == (if req.name.Some? then req.name.value else row.name)
      && r.description == (if req.description.Some? then req.description.value else row.description)
      && r.category == (if req.category.Some? then U.ToString(req.category.value) else row.category)
      && r.supplier == (if req.supplier.Some? then U.ToString(req.supplier.value) else row.supplier)
      && r.priceAmount == (if req.priceAmount.Some? then req.priceAmount.value else row.priceAmount)
      && r.stockQuantity == (if req.stockQuantity.Some? then req.stockQuantity.value else row.stockQuantity)
      && r.minStockQuantity == (if req.minStockQuantity.Some? then req.minStockQuantity.value else row.minStockQuantity)
      && r.priceCurrency == row.priceCurrency && r.stockUnit == row.stockUnit
      && r.status == (if req.status.Some? then StatusToString(req.status.value) else row.status)
  {
    var item := Decode(row);
    assert Encode(item) == row && WellFormed(item);
    hide Sound;
    hide Decode;
    hide U.ToString;
  }

  // ---- Read, modify, write ----

  /** The row the UPDATE statement leaves: everything but the creation time is overwritten. */
  function Overwritten(current: Row, written: Row): Row { written.(createdAt := current.createdAt) }

  /** Two items agree in all that a request does not set. */
  predicate AgreeOutside(a: Item, b: Item, req: UpdateRequest) {
    && a.id == b.id && a.sku == b.sku && a.price.currency == b.price.currency && a.stock.unit == b.stock.unit
    && (req.name.None? ==> a.name == b.name)
    && (req.description.None? ==> a.description == b.description)
    && (req.category.None? ==> a.category == b.category)
    && (req.supplier.None? ==> a.supplier == b.supplier)
    && (req.priceAmount.None? ==> a.price.amount == b.price.amount)
    && (req.stockQuantity.None? ==> a.stock.value == b.stock.value)
    && (req.minStockQuantity.None? ==> a.minStock.value == b.minStock.value)
    && (req.status.None? ==> a.status == b.status)
  }

  lemma MergedAgreeIff(read: Item, current: Item, req: UpdateRequest, now: T.TimePoint)
    requires WellFormed(read) && WellFormed(current)
    ensures Merged(read, req, now).(createdAt := current.createdAt) == Merged(current, req, now)
      <==> AgreeOutside(read, current, req)
  {
  }

  /** Two well-formed items updated at the same time and created at the same time are stored alike
      only if they are the same. */
  lemma EncodedAlike(a: Item, b: Item)
    requires WellFormed(a) && WellFormed(b) && a.createdAt == b.createdAt && a.updatedAt == b.updatedAt
    requires Encode(a) == Encode(b)
    ensures a == b
  {
    hide Encode;
    hide Decode;
    hide Sound;
    EncodedIsSound(a);
    EncodedIsSound(b);
    assert Stored(a) == Stored(b);
  }

  /** Written over the same row, the updates of two items leave the same row exactly if the two
      agree in all that the request does not set. */
  lemma SameUpdateIff(read: Item, current: Item, req: UpdateRequest, now: T.TimePoint)
    requires WellFormed(read) && WellFormed(current) && Updated(read, req, now).Ok?
    ensures Updated(current, req, now).Ok?
    ensures Overwritten(Encode(current), Encode(Updated(read, req, now).value))
         == Overwritten(Encode(current), Encode(Updated(current, req, now).value))
      <==> AgreeOutside(read, current, req)
  {
    var a, b := Updated(read, req, now).value, Updated(current, req, now).value;
    var c := a.(createdAt := current.createdAt);
    hide Encode;
    MergedAgreeIff(read, current, req, now);
    CreationColumn(a, current);
    CreationColumn(b, current);
    assert b.(createdAt := current.createdAt) == b;
    hide AgreeOutside;
    if Encode(c) == Encode(b) {
      EncodedAlike(c, b);
    }
  }
}
