/** The repository and the three writing use cases as code, one call at a time. What goes wrong
    with a connection or a statement is a parameter of each call. */
module ItemRepository {
  import opened Results
  import opened Items
  import opened ItemStore
  import U = Uuid
  import T = TimeUtils

  lemma WrittenInv(t: Table, p: Phase)
    requires TableInv(t) && PhaseSound(p)
    ensures Written(t, p).Ok? ==> TableInv(Written(t, p).value)
  {
    hide Sound;
    WrittenKeyed(t, p);
    WrittenSound(t, p);
  }

  /** The row found under an id decodes to the item with that id. */
  lemma FoundItem(t: Table, id: U.Uuid)
    requires TableInv(t) && U.ToString(id) in t
    ensures var row := t[U.ToString(id)];
      Sound(row) && Readable(row) && WellFormed(Decode(row)) && Encode(Decode(row)) == row
      && Stored(Decode(row)) == Decode(row) && Decode(row).id == id
  {
    hide U.ToString;
    hide Readable;
    hide Decode;
    hide Stored;
    var row := t[U.ToString(id)];
    SoundMeans(row);
    var item := Decode(row);
    assert Encode(item).id == U.ToString(item.id);
    U.TextIsInjective(item.id, id);
  }

  /** The row that UPDATE returns. */
  lemma ReturnedRow(t: Table, item: Item)
    requires TableInv(t) && WellFormed(item) && Encode(item).id in t
    ensures var row := t[Encode(item).id];
      Readable(row) && Readable(Overwritten(row, Encode(item)))
      && Decode(Overwritten(row, Encode(item))) == Stored(item).(createdAt := Decode(row).createdAt)
  {
    hide Readable;
    hide Encode;
    hide Decode;
    hide Sound;
    var row := t[Encode(item).id];
    EncodedIsSound(item);
    SoundMeans(row);
    SoundWithCreationOf(Encode(item), row);
    SoundMeans(Overwritten(row, Encode(item)));
  }

  /** The item is the one stored under the request's id, merged with the request, its times cut. */
  ghost predicate ReturnsUpdated(t: Table, req: UpdateRequest, now: T.TimePoint, item: Item) {
    var key := U.ToString(req.id);
    key in t && Readable(t[key]) && item == Stored(Merged(Decode(t[key]), req, now))
  }

  /** The row under the request's id becomes that of its item merged with the request. */
  ghost predicate WritesUpdated(t: Table, req: UpdateRequest, now: T.TimePoint, after: Table) {
    var key := U.ToString(req.id);
    key in t && Readable(t[key]) && after == t[key := Encode(Merged(Decode(t[key]), req, now))]
  }

  /** A row is added for the item that was asked for. */
  ghost predicate StoresNew(t: Table, req: CreateRequest, id: U.Uuid, now: T.TimePoint, after: Table) {
    var item := NewItem(req, id, now);
    item.Ok? && after == t[U.ToString(id) := Encode(item.value)]
  }

  class Repository {
    var rows: Table

    constructor ()
      ensures rows == map[]
    {
      rows := map[];
    }

    /** `save`: the row comes back from the INSERT and is decoded to what was saved, its times cut to
        milliseconds. */
    method Save(item: Item, outcome: Outcome) returns (r: Result<Item>)
      requires TableInv(rows) && WellFormed(item)
      modifies this
      ensures TableInv(rows)
      ensures var key := U.ToString(item.id);
        var rejected := key in old(rows) || exists k :: k in old(rows) && old(rows)[k].sku == item.sku;
        && rows == (if outcome.Fails? || rejected then old(rows) else old(rows)[key := Encode(item)])
        && r == (if outcome.Normal? && !rejected then Ok(Stored(item)) else Err(Error.Database))
    {
      hide Encode;
      hide Decode;
      hide Sound;
      hide Readable;
      hide U.ToString;
      var row := Encode(item);
      KeyColumns(item);
      EncodedIsSound(item);
      SoundMeans(row);
      WrittenInv(rows, Creating(row));
      if outcome.Fails? || row.id in rows || SkuTaken(rows, row.sku) {
        return Err(Error.Database);
      }
      rows := rows[row.id := row];
      if outcome.InDoubt? {
        return Err(Error.Database);
      }
      return Ok(Decode(row));
    }

    /** `update`: what comes back has the creation time of the row that was there. */
    method Update(item: Item, outcome: Outcome) returns (r: Result<Item>)
      requires TableInv(rows) && WellFormed(item)
      modifies this
      ensures TableInv(rows)
      ensures var w := Overwrite(old(rows), Encode(item));
        rows == if outcome.Fails? || w.Err? then old(rows) else w.value
      ensures var reply := Reply(old(rows), Updating(Encode(item)), outcome);
        && (reply.Err? ==> r == Err(reply.error))
        && (reply.Ok? ==> Encode(item).id in old(rows) && Readable(old(rows)[Encode(item).id]))
        && (reply.Ok? ==> r == Ok(Stored(item).(createdAt := Decode(old(rows)[Encode(item).id]).createdAt)))
    {
      hide Encode;
      hide Decode;
      hide Sound;
      hide Readable;
      var row := Encode(item);
      EncodedIsSound(item);
      WrittenInv(rows, Updating(row));
      if outcome.Fails? {
        return Err(Error.Database);
      }
      if row.id !in rows {
        return Err(NotFound);
      }
      if exists k :: k in rows && k != row.id && rows[k].sku == row.sku {
        return Err(Error.Database);
      }
      ReturnedRow(rows, item);
      row := Overwritten(rows[row.id], row);
      rows := rows[Encode(item).id := row];
      if outcome.InDoubt? {
        return Err(Error.Database);
      }
      return Ok(Decode(row));
    }

    /** `remove` */
    method Remove(id: U.Uuid, outcome: Outcome) returns (r: Result<()>)
      requires TableInv(rows)
      modifies this
      ensures TableInv(rows)
      ensures rows == if outcome.Fails? then old(rows) else old(rows) - {U.ToString(id)}
      ensures r ==
        if outcome.Fails? then Err(Error.Database)
        else if U.ToString(id) !in old(rows) then Err(NotFound)
        else if outcome.InDoubt? then Err(Error.Database)
        else Ok(())
    {
      hide Sound;
      hide U.ToString;
      var key := U.ToString(id);
      WrittenInv(rows, Phase.Deleting(key));
      if outcome.Fails? {
        return Err(Error.Database);
      }
      if key !in rows {
        return Err(NotFound);
      }
      rows := rows - {key};
      return if outcome.InDoubt? then Err(Error.Database) else Ok(());
    }

    /** `find_by_id` */
    method FindById(id: U.Uuid, fails: bool) returns (r: Result<Item>)
      requires TableInv(rows)
      ensures fails ==> r == Err(Error.Database)
      ensures !fails && U.ToString(id) !in rows ==> r == Err(NotFound)
      ensures !fails && U.ToString(id) in rows ==> r.Ok?
      ensures r.Ok? ==> U.ToString(id) in rows && Readable(rows[U.ToString(id)]) && r.value == Decode(rows[U.ToString(id)])
      ensures r.Ok? ==> r.value.id == id && Encode(r.value) == rows[U.ToString(id)] && WellFormed(r.value) && Stored(r.value) == r.value
    {
      hide U.ToString;
      hide Encode;
      hide Decode;
      hide Readable;
      if fails {
        return Err(Error.Database);
      }
      var key := U.ToString(id);
      if key !in rows {
        return Err(NotFound);
      }
      FoundItem(rows, id);
      return Ok(Decode(rows[key]));
    }

    /** `CreateItemUseCase::execute`: the item that was asked for is stored and returned, or nothing
        changes and the error says why. A look-up that fails is taken for "not there". An error may
        hide a change only if the commit was in doubt. */
    method CreateItem(req: CreateRequest, id: U.Uuid, now: T.TimePoint, lookupFails: bool, outcome: Outcome)
      returns (r: Result<Item>)
      requires TableInv(rows)
      modifies this
      ensures TableInv(rows)
      ensures var valid := req.priceAmount >= 0 && |req.currency| == 3 && req.stockQuantity >= 0 && req.minStockQuantity >= 0;
        var taken := exists k :: k in old(rows) && old(rows)[k].sku == req.sku;
        && (!valid ==> r == Err(Validation))
        && (valid && taken ==> r == Err(if lookupFails then Error.Database else Conflict))
        && (r.Ok? <==> valid && !taken && U.ToString(id) !in old(rows) && outcome.Normal?)
        && (valid && !taken && r.Err? ==> r == Err(Error.Database))
        && (if valid && !taken && U.ToString(id) !in old(rows) && !outcome.Fails?
            then StoresNew(old(rows), req, id, now, rows) else rows == old(rows))
      ensures r.Ok? ==> NewItem(req, id, now).Ok? && r == Ok(Stored(NewItem(req, id, now).value))
      ensures r.Err? && !outcome.InDoubt? ==> rows == old(rows)
    {
      hide U.ToString;
      hide Encode;
      hide Sound;
      hide Stored;
      var item := NewItem(req, id, now);
      if item.Err? {
        return Err(item.error);
      }
      if !lookupFails && SkuTaken(rows, req.sku) {
        return Err(Conflict);
      }
      CreatedRow(req, id, now);
      StoredIsEncodedAlike(item.value);
      r := Save(item.value, outcome);
    }

    /** `UpdateItemUseCase::execute`: the row becomes that of the merged item, or nothing changes;
        an error may hide a change only if the commit was in doubt. */
    method UpdateItem(req: UpdateRequest, now: T.TimePoint, lookupFails: bool, outcome: Outcome) returns (r: Result<Item>)
      requires TableInv(rows)
      modifies this
      ensures TableInv(rows)
      ensures lookupFails ==> r == Err(Error.Database)
      ensures !lookupFails && U.ToString(req.id) !in old(rows) ==> r == Err(NotFound)
      ensures !lookupFails && U.ToString(req.id) in old(rows) ==>
        (r == Err(Validation) <==>
          || req.name == Some("")
          || (req.priceAmount.Some? && req.priceAmount.value < 0)
          || (req.stockQuantity.Some? && req.stockQuantity.value < 0)
          || (req.minStockQuantity.Some? && req.minStockQuantity.value < 0))
      ensures !lookupFails && U.ToString(req.id) in old(rows) && r != Err(Validation) ==>
        if outcome.Normal? then r.Ok? else r == Err(Error.Database)
      ensures r.Ok? ==> ReturnsUpdated(old(rows), req, now, r.value)
      ensures !lookupFails && U.ToString(req.id) in old(rows) && r != Err(Validation) && !outcome.Fails? ==>
        WritesUpdated(old(rows), req, now, rows)
      ensures r.Err? && !outcome.InDoubt? ==> rows == old(rows)
    {
      hide U.ToString;
      hide Encode;
      hide Decode;
      hide Sound;
      hide Readable;
      var found := FindById(req.id, lookupFails);
      if found.Err? {
        return Err(found.error);
      }
      FoundItem(rows, req.id);
      var item := ApplyRequest(found.value, req, now);
      if item.Err? {
        return Err(item.error);
      }
      UpdatedIsWellFormed(found.value, req, now);
      UpdatedColumns(rows[U.ToString(req.id)], req, now);
      StoredIsEncodedAlike(item.value);
      r := Update(item.value, outcome);
    }

    /** `DeleteItemUseCase::execute` */
    method DeleteItem(id: U.Uuid, lookupFails: bool, outcome: Outcome) returns (r: Result<()>)
      requires TableInv(rows)
      modifies this
      ensures TableInv(rows)
      ensures id == U.Uuid(0, 0) ==> r == Err(Validation)
      ensures id != U.Uuid(0, 0) && lookupFails ==> r == Err(Error.Database)
      ensures id != U.Uuid(0, 0) && !lookupFails && U.ToString(id) !in old(rows) ==> r == Err(NotFound)
      ensures r.Ok? <==> id != U.Uuid(0, 0) && !lookupFails && U.ToString(id) in old(rows) && outcome.Normal?
      ensures id != U.Uuid(0, 0) && !lookupFails && !outcome.Fails? ==> rows == old(rows) - {U.ToString(id)}
      ensures r.Err? && !outcome.InDoubt? ==> rows == old(rows)
    {
      hide U.ToString;
      hide Encode;
      hide Decode;
      hide Readable;
      hide Sound;
      if !U.IsValid(id) {
        return Err(Validation);
      }
      var found := FindById(id, lookupFails);
      if found.Err? {
        return Err(found.error);
      }
      r := Remove(id, outcome);
    }
  }
}
