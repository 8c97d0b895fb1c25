/** The items table under concurrent create, update and delete use cases. Each use case reads in
    one transaction and writes in another; any transaction may fail. */
module ItemStore {
  import opened Results
  import opened Items
  import U = Uuid
  import T = TimeUtils

  type Table = map<string, Row>   // by the text of the primary key

  // ---- The statements, each one transaction ----

  predicate SkuTaken(t: Table, sku: string) { exists k :: k in t && t[k].sku == sku }

  /** INSERT: the primary key and the UNIQUE constraint on sku reject. */
  function Insert(t: Table, r: Row): Result<Table> {
    if r.id in t || SkuTaken(t, r.sku) then Err(Error.Database) else Ok(t[r.id := r])
  }

  /** UPDATE ... WHERE id: no such row, or another row has the sku, or all columns but the creation
      time are overwritten. */
  function Overwrite(t: Table, r: Row): Result<Table> {
    if r.id !in t then Err(NotFound)
    else if exists k :: k in t && k != r.id && t[k].sku == r.sku then Err(Error.Database)
    else Ok(t[r.id := Overwritten(t[r.id], r)])
  }

  function Delete(t: Table, id: string): Result<Table> {
    if id in t then Ok(t - {id}) else Err(NotFound)
  }

  // ---- The use cases as steps ----

  /** What a client holds between its two transactions: the parameters of the second. */
  datatype Phase = Outside | Creating(row: Row) | Updating(row: Row) | Deleting(id: string)

  /** How a transaction that changes rows ends. In doubt: it is committed, but the client sees an error,
      because the answer was lost or reading the returned row throws. */
  datatype Outcome = Normal | Fails | InDoubt

  datatype State = State(table: Table, clients: seq<Phase>)

  datatype Step =
    /** Validation and look-up of the sku. A look-up that fails is taken for "not there". */
    | BeginCreate(c: nat, create: CreateRequest, id: U.Uuid, now: T.TimePoint, lookupFails: bool)
    /** Reading the item and merging the request into it. */
    | BeginUpdate(c: nat, update: UpdateRequest, now: T.TimePoint, lookupFails: bool)
    | BeginDelete(c: nat, id: U.Uuid, lookupFails: bool)
    /** The second transaction. */
    | Finish(c: nat, outcome: Outcome)

  predicate Enabled(s: State, step: Step) {
    step.c < |s.clients| &&
    match step
    case Finish(c, _) => !s.clients[c].Outside?
    case _ => s.clients[step.c].Outside?
  }

  predicate AllReadable(t: Table) { forall k | k in t :: Readable(t[k]) }

  /** What a client holds after its first transaction; nothing if it is refused. */
  function CreateBegun(t: Table, req: CreateRequest, id: U.Uuid, now: T.TimePoint, lookupFails: bool): Phase {
    var item := NewItem(req, id, now);
    if item.Err? || (!lookupFails && SkuTaken(t, req.sku)) then Outside else Creating(Encode(item.value))
  }

  function UpdateBegun(t: Table, req: UpdateRequest, now: T.TimePoint, lookupFails: bool): Phase
    requires AllReadable(t)
  {
    var id := U.ToString(req.id);
    if lookupFails || id !in t then Outside
    else
      var item := Updated(Decode(t[id]), req, now);
      if item.Err? then Outside else Updating(Encode(item.value))
  }

  function DeleteBegun(t: Table, id: U.Uuid, lookupFails: bool): Phase {
    if !U.IsValid(id) || lookupFails || U.ToString(id) !in t then Outside else Deleting(U.ToString(id))
  }

  function Do(s: State, step: Step): (d: State)
    requires Enabled(s, step) && AllReadable(s.table)
    ensures |d.clients| == |s.clients|
  {
    match step
    case BeginCreate(c, req, id, now, lookupFails) =>
      s.(clients := s.clients[c := CreateBegun(s.table, req, id, now, lookupFails)])
    case BeginUpdate(c, req, now, lookupFails) =>
      s.(clients := s.clients[c := UpdateBegun(s.table, req, now, lookupFails)])
    case BeginDelete(c, id, lookupFails) =>
      s.(clients := s.clients[c := DeleteBegun(s.table, id, lookupFails)])
    case Finish(c, outcome) =>
      var r := if outcome.Fails? then Err(Error.Database) else Written(s.table, s.clients[c]);
      State(if r.Ok? then r.value else s.table, s.clients[c := Outside])
  }

  /** The table after a client's second transaction. */
  function Written(t: Table, p: Phase): Result<Table> {
    match p
    case Outside => Ok(t)
    case Creating(r) => Insert(t, r)
    case Updating(r) => Overwrite(t, r)
    case Deleting(id) => Delete(t, id)
  }

  /** What the client is told at the end. */
  function Reply(t: Table, p: Phase, outcome: Outcome): Result<()> {
    if outcome.Fails? then Err(Error.Database)
    else
      match Written(t, p)
      case Err(e) => Err(e)
      case Ok(_) => if outcome.InDoubt? then Err(Error.Database) else Ok(())
  }

  /** When each of the three statements is rejected, and what it leaves otherwise. */
  lemma Statements(t: Table, r: Row, id: string)
    ensures Insert(t, r) ==
      if r.id in t || (exists k :: k in t && t[k].sku == r.sku) then Err(Error.Database) else Ok(t[r.id := r])
    ensures Overwrite(t, r) ==
      if r.id !in t then Err(NotFound)
      else if exists k :: k in t && k != r.id && t[k].sku == r.sku then Err(Error.Database)
      else Ok(t[r.id := r.(createdAt := t[r.id].createdAt)])
    ensures Delete(t, id) == if id !in t then Err(NotFound) else Ok(t - {id})
  {
  }

  function Init(clients: nat): State { State(map[], seq(clients, _ => Outside)) }

  predicate Legal(s: State, run: seq<Step>)
    decreases |run|
  {
    run == [] || (AllReadable(s.table) && Enabled(s, run[0]) && Legal(Do(s, run[0]), run[1..]))
  }

  function Exec(s: State, run: seq<Step>): State
    requires Legal(s, run)
    decreases |run|
  {
    if run == [] then s else Exec(Do(s, run[0]), run[1..])
  }

  /** Which calls get to their second transaction. */
  lemma SecondTransactionIff(t: Table, create: CreateRequest, update: UpdateRequest, id: U.Uuid, now: T.TimePoint, fails: bool)
    requires AllReadable(t)
    ensures CreateBegun(t, create, id, now, fails) == Outside <==>
      || create.priceAmount < 0 || |create.currency| != 3 || create.stockQuantity < 0 || create.minStockQuantity < 0
      || (!fails && exists k :: k in t && t[k].sku == create.sku)
    ensures UpdateBegun(t, update, now, fails) == Outside <==>
      || fails || U.ToString(update.id) !in t
      || Updated(Decode(t[U.ToString(update.id)]), update, now).Err?
    ensures DeleteBegun(t, id, fails) == Outside <==> id == U.Uuid(0, 0) || fails || U.ToString(id) !in t
    ensures !DeleteBegun(t, id, fails).Outside? ==> DeleteBegun(t, id, fails) == Phase.Deleting(U.ToString(id))
  {
    hide Encode;
    hide Decode;
    hide Readable;
    hide U.ToString;
    hide Updated;
  }

  // ---- What every interleaving keeps ----

  /** Rows are stored under their own id and no two share a sku. */
  ghost predicate Keyed(t: Table) {
    && (forall k | k in t :: t[k].id == k)
    && (forall j, k | j in t && k in t && j != k :: t[j].sku != t[k].sku)
  }

  /** Every row came from a well-formed item. */
  ghost predicate AllSound(t: Table) { forall k | k in t :: Sound(t[k]) }

  ghost predicate TableInv(t: Table) { Keyed(t) && AllSound(t) }

  ghost predicate PhaseSound(p: Phase) { p.Creating? || p.Updating? ==> Sound(p.row) }

  ghost predicate ClientsSound(clients: seq<Phase>) { forall c | 0 <= c < |clients| :: PhaseSound(clients[c]) }

  ghost predicate Inv(s: State) { TableInv(s.table) && ClientsSound(s.clients) }

  lemma SoundIsReadable(t: Table)
    requires AllSound(t)
    ensures AllReadable(t)
  {
    hide Decode;
    hide Encode;
    hide Readable;
  }

  lemma WrittenKeyed(t: Table, p: Phase)
    requires Keyed(t)
    ensures Written(t, p).Ok? ==> Keyed(Written(t, p).value)
  {
  }

  lemma OneMoreSound(t: Table, k: string, r: Row)
    requires AllSound(t) && Sound(r)
    ensures AllSound(t[k := r])
  {
    hide Sound;
  }

  lemma InsertSound(t: Table, r: Row)
    requires AllSound(t) && Sound(r)
    ensures Insert(t, r).Ok? ==> AllSound(Insert(t, r).value)
  {
    hide Sound;
    OneMoreSound(t, r.id, r);
  }

  lemma OverwriteSound(t: Table, r: Row)
    requires AllSound(t) && Sound(r)
    ensures Overwrite(t, r).Ok? ==> AllSound(Overwrite(t, r).value)
  {
    hide Sound;
    if r.id in t {
      SoundWithCreationOf(r, t[r.id]);
      OneMoreSound(t, r.id, Overwritten(t[r.id], r));
    }
  }

  lemma DeleteSound(t: Table, id: string)
    requires AllSound(t)
    ensures Delete(t, id).Ok? ==> AllSound(Delete(t, id).value)
  {
    hide Sound;
  }

  lemma WrittenSound(t: Table, p: Phase)
    requires AllSound(t) && PhaseSound(p)
    ensures Written(t, p).Ok? ==> AllSound(Written(t, p).value)
  {
    hide Sound;
    if p.Creating? {
      InsertSound(t, p.row);
    } else if p.Updating? {
      OverwriteSound(t, p.row);
    } else if p.Deleting? {
      DeleteSound(t, p.id);
    }
  }

  lemma OneClientSound(clients: seq<Phase>, c: nat, p: Phase)
    requires ClientsSound(clients) && c < |clients| && PhaseSound(p)
    ensures ClientsSound(clients[c := p])
  {
    hide Sound;
  }

  lemma CreatingSound(t: Table, req: CreateRequest, id: U.Uuid, now: T.TimePoint, lookupFails: bool)
    ensures PhaseSound(CreateBegun(t, req, id, now, lookupFails))
  {
    hide Encode;
    hide Sound;
    if NewItem(req, id, now).Ok? {
      EncodedIsSound(NewItem(req, id, now).value);
    }
  }

  lemma UpdatingSound(t: Table, req: UpdateRequest, now: T.TimePoint, lookupFails: bool)
    requires AllSound(t) && AllReadable(t)
    ensures PhaseSound(UpdateBegun(t, req, now, lookupFails))
  {
    hide Encode;
    hide Decode;
    hide Sound;
    hide Readable;
    hide U.ToString;
    var id := U.ToString(req.id);
    if id in t && Updated(Decode(t[id]), req, now).Ok? {
      SoundMeans(t[id]);
      UpdatedIsWellFormed(Decode(t[id]), req, now);
      EncodedIsSound(Updated(Decode(t[id]), req, now).value);
    }
  }

  lemma StepKeepsInv(s: State, step: Step)
    requires Inv(s) && Enabled(s, step)
    ensures AllReadable(s.table) && Inv(Do(s, step))
  {
    hide Sound;
    hide Readable;
    hide CreateBegun;
    hide UpdateBegun;
    hide DeleteBegun;
    SoundIsReadable(s.table);
    match step
    case BeginCreate(c, req, id, now, lookupFails) =>
      CreatingSound(s.table, req, id, now, lookupFails);
      OneClientSound(s.clients, c, CreateBegun(s.table, req, id, now, lookupFails));
    case BeginUpdate(c, req, now, lookupFails) =>
      UpdatingSound(s.table, req, now, lookupFails);
      OneClientSound(s.clients, c, UpdateBegun(s.table, req, now, lookupFails));
    case BeginDelete(c, id, lookupFails) =>
      DeletingSound(s.table, id, lookupFails);
      OneClientSound(s.clients, c, DeleteBegun(s.table, id, lookupFails));
    case Finish(c, outcome) =>
      WrittenKeyed(s.table, s.clients[c]);
      WrittenSound(s.table, s.clients[c]);
      OneClientSound(s.clients, c, Outside);
  }

  lemma DeletingSound(t: Table, id: U.Uuid, lookupFails: bool)
    ensures PhaseSound(DeleteBegun(t, id, lookupFails))
  {
    hide Sound;
    hide U.ToString;
  }

  lemma {:induction false} RunKeepsInv(s: State, run: seq<Step>)
    requires Inv(s) && Legal(s, run)
    ensures Inv(Exec(s, run))
    decreases |run|
  {
    if run != [] {
      StepKeepsInv(s, run[0]);
      RunKeepsInv(Do(s, run[0]), run[1..]);
    }
  }

  /** Over every interleaving: skus stay unique, and every stored row decodes without a fallback to
      an item that is well formed and encodes to that row again. */
  lemma ReachableRowsAreSound(clients: nat, run: seq<Step>)
    requires Legal(Init(clients), run)
    ensures Keyed(Exec(Init(clients), run).table) && AllSound(Exec(Init(clients), run).table)
  {
    RunKeepsInv(Init(clients), run);
  }

  /** Only the second transaction of a client writes, if it is accepted, and only the row it is
      about. What is rejected changes nothing; what is answered with an error changes something only
      if it was in doubt. */
  lemma OnlyOwnRowChanges(s: State, step: Step, k: string)
    requires Enabled(s, step) && AllReadable(s.table)
    requires (k in s.table) != (k in Do(s, step).table) || (k in s.table && Do(s, step).table[k] != s.table[k])
    ensures step.Finish? && !step.outcome.Fails? && Written(s.table, s.clients[step.c]).Ok?
    ensures Reply(s.table, s.clients[step.c], step.outcome).Err? <==> step.outcome.InDoubt?
    ensures var p := s.clients[step.c];
      match p
      case Outside => false
      case Creating(r) => k == r.id && k !in s.table && Do(s, step).table[k] == r
      case Updating(r) => k == r.id && k in s.table && Do(s, step).table[k] == r.(createdAt := s.table[k].createdAt)
      case Deleting(id) => k == id && k !in Do(s, step).table
  {
    hide Decode;
    hide Encode;
    hide NewItem;
    hide Updated;
    hide Readable;
    hide CreateBegun;
    hide UpdateBegun;
    hide DeleteBegun;
    hide U.ToString;
    if step.Finish? {
      WrittenChanges(s.table, s.clients[step.c], k);
    }
  }

  lemma WrittenChanges(t: Table, p: Phase, k: string)
    requires Written(t, p).Ok?
    requires (k in t) != (k in Written(t, p).value) || (k in t && Written(t, p).value[k] != t[k])
    ensures var w := Written(t, p).value;
      match p
      case Outside => false
      case Creating(r) => k == r.id && k !in t && w[k] == r
      case Updating(r) => k == r.id && k in t && w[k] == r.(createdAt := t[k].createdAt)
      case Deleting(id) => k == id && k !in w
  {
  }

  /** Two creations of one sku can both pass the look-up. The second insert is rejected, even if
      the first one's client was left in doubt. */
  lemma SkuRaceLosesOnUnique(s: State, a: nat, b: nat, outcome: Outcome)
    requires AllReadable(s.table) && a < |s.clients| && b < |s.clients| && a != b
    requires s.clients[a].Creating? && s.clients[b].Creating? && s.clients[a].row.sku == s.clients[b].row.sku
    requires Written(s.table, s.clients[a]).Ok? && !outcome.Fails?
    ensures var d := Do(s, Finish(a, outcome));
      d.clients[b] == s.clients[b] && Written(d.table, d.clients[b]) == Err(Error.Database)
  {
    var r := s.clients[a].row;
    assert Do(s, Finish(a, outcome)).table[r.id] == r;
  }

  // ---- Updates with others in between ----

  /** What an update would make of the table if it read and wrote it in one transaction. */
  function UpdatedAtOnce(t: Table, req: UpdateRequest, now: T.TimePoint): Result<Table>
    requires AllReadable(t)
  {
    var id := U.ToString(req.id);
    if id !in t then Err(NotFound)
    else
      var item := Updated(Decode(t[id]), req, now);
      if item.Err? then Err(item.error) else Overwrite(t, Encode(item.value))
  }

  /** The table and the client's answer after a statement that was or was not accepted. */
  function Settled(t: Table, w: Result<Table>): (Table, Result<()>) {
    if w.Ok? then (w.value, Ok(())) else (t, Err(w.error))
  }

  lemma {:induction false} OthersKeepPhase(s: State, run: seq<Step>, c: nat)
    requires Legal(s, run) && c < |s.clients| && forall i | 0 <= i < |run| :: run[i].c != c
    ensures c < |Exec(s, run).clients| && Exec(s, run).clients[c] == s.clients[c]
    decreases |run|
  {
    if run != [] {
      OthersKeepPhase(Do(s, run[0]), run[1..], c);
    }
  }

  /** An update reads, then any other clients act, then it writes. Its second transaction leaves the
      table and answers as if it had read only then exactly if the row is gone or still agrees with the one read in all that
      the request does not set. Otherwise a change made in between is taken back. */
  lemma UpdateIsAtomicIff(s: State, c: nat, req: UpdateRequest, now: T.TimePoint, others: seq<Step>)
    requires Inv(s) && Enabled(s, BeginUpdate(c, req, now, false))
    requires Do(s, BeginUpdate(c, req, now, false)).clients[c].Updating?
    requires Legal(Do(s, BeginUpdate(c, req, now, false)), others)
    requires forall i | 0 <= i < |others| :: others[i].c != c
    ensures var id, e := U.ToString(req.id), Exec(Do(s, BeginUpdate(c, req, now, false)), others);
      && c < |e.clients| && id in s.table && AllReadable(e.table)
      && Enabled(e, Finish(c, Normal))
      && ((Do(e, Finish(c, Normal)).table, Reply(e.table, e.clients[c], Normal))
            == Settled(e.table, UpdatedAtOnce(e.table, req, now))
          <==> id !in e.table || AgreeOutside(Decode(s.table[id]), Decode(e.table[id]), req))
  {
    hide U.ToString;
    hide Sound;
    hide Readable;
    hide Decode;
    hide Encode;
    hide Updated;
    hide AgreeOutside;
    hide UpdatedAtOnce;
    hide Overwrite;
    hide NewItem;
    SoundIsReadable(s.table);
    var begin := BeginUpdate(c, req, now, false);
    var id, d := U.ToString(req.id), Do(s, begin);
    StepKeepsInv(s, begin);
    RunKeepsInv(d, others);
    OthersKeepPhase(d, others, c);
    var e := Exec(d, others);
    SoundIsReadable(e.table);
    StaleWriteIff(e.table, s.table[id], req, now);
  }

  /** The row that an update writes has the key and the sku of the row it read. */
  lemma UpdateKeepsKeys(row: Row, req: UpdateRequest, now: T.TimePoint)
    requires Sound(row) && Updated(Decode(row), req, now).Ok?
    ensures var r := Encode(Updated(Decode(row), req, now).value); r.id == row.id && r.sku == row.sku
    ensures WellFormed(Decode(row)) && Encode(Decode(row)) == row
  {
    UpdatedColumns(row, req, now);
    hide Decode;
    hide Encode;
  }

  /** Writing one of two rows is writing the other exactly if they leave the same row, when one of
      them has the sku that is there. */
  lemma SameWriteIff(t: Table, id: string, a: Row, b: Row)
    requires Keyed(t) && id in t && a.id == b.id == id && b.sku == t[id].sku
    ensures Overwrite(t, a) == Overwrite(t, b) <==> Overwritten(t[id], a) == Overwritten(t[id], b)
  {
    if Overwrite(t, a).Ok? {
      assert Overwrite(t, a).value[id] == Overwritten(t[id], a);
      assert Overwrite(t, b).value[id] == Overwritten(t[id], b);
    }
  }

  lemma StaleWriteIff(t: Table, read: Row, req: UpdateRequest, now: T.TimePoint)
    requires Keyed(t) && Sound(read) && read.id == U.ToString(req.id) && Updated(Decode(read), req, now).Ok?
    requires AllReadable(t) && (read.id in t ==> Sound(t[read.id]))
    ensures Overwrite(t, Encode(Updated(Decode(read), req, now).value)) == UpdatedAtOnce(t, req, now)
      <==> read.id !in t || AgreeOutside(Decode(read), Decode(t[read.id]), req)
  {
    hide U.ToString;
    hide Sound;
    hide Decode;
    hide Encode;
    hide Updated;
    hide AgreeOutside;
    hide Readable;
    var id := read.id;
    UpdateKeepsKeys(read, req, now);
    if id in t {
      SoundMeans(read);
      SoundMeans(t[id]);
      SameUpdateIff(Decode(read), Decode(t[id]), req, now);
      UpdateKeepsKeys(t[id], req, now);
      var a, b := Encode(Updated(Decode(read), req, now).value), Encode(Updated(Decode(t[id]), req, now).value);
      SameWriteIff(t, id, a, b);
    }
  }

  // ---- A lost update ----

  /** A run of one step and then others. */
  lemma Before(s: State, step: Step, next: State, rest: seq<Step>) returns (run: seq<Step>)
    requires AllReadable(s.table) && Enabled(s, step) && Do(s, step) == next && Legal(next, rest)
    ensures run == [step] + rest && Legal(s, run) && Exec(s, run) == Exec(next, rest)
  {
    hide Readable;
    run := [step] + rest;
    assert run[1..] == rest;
  }

  function Rename(id: U.Uuid, name: string): UpdateRequest {
    UpdateRequest(id, Some(name), None, None, None, None, None, None, None)
  }

  function Restock(id: U.Uuid, stock: int): UpdateRequest {
    UpdateRequest(id, None, None, None, None, None, Some(stock), None, None)
  }

  /** Creating an item in an empty table. */
  lemma CreateRun(req: CreateRequest, id: U.Uuid, now: T.TimePoint, s: State, rest: seq<Step>) returns (run: seq<Step>)
    requires NewItem(req, id, now).Ok?
    requires s == State(map[U.ToString(id) := Encode(NewItem(req, id, now).value)], [Outside, Outside]) && Legal(s, rest)
    ensures run == [BeginCreate(0, req, id, now, false), Finish(0, Normal)] + rest
    ensures Legal(Init(2), run) && Exec(Init(2), run) == Exec(s, rest)
  {
    hide Encode;
    hide NewItem;
    hide U.ToString;
    var row := Encode(NewItem(req, id, now).value);
    CreatedRow(req, id, now);
    var s0 := Init(2);
    assert s0.clients == [Outside, Outside];
    var s1 := State(map[], [Creating(row), Outside]);
    assert Insert(map[], row) == Ok(s.table);
    run := Before(s1, Finish(0, Normal), s, rest);
    assert CreateBegun(map[], req, id, now, false) == Creating(row);
    hide CreateBegun;
    run := Before(s0, BeginCreate(0, req, id, now, false), s1, run);
  }

  /** One step of a client that begins an update of the only row. */
  lemma BeginUpdateAlone(s: State, c: nat, row: Row, req: UpdateRequest, now: T.TimePoint)
    requires Sound(row) && c < |s.clients| && s.clients[c].Outside? && row.id == U.ToString(req.id)
    requires s.table == map[row.id := row] && Updated(Decode(row), req, now).Ok?
    ensures AllReadable(s.table) && Enabled(s, BeginUpdate(c, req, now, false))
    ensures Do(s, BeginUpdate(c, req, now, false))
         == s.(clients := s.clients[c := Updating(Encode(Updated(Decode(row), req, now).value))])
  {
    hide Encode;
    hide Decode;
    hide Readable;
    hide Updated;
    hide U.ToString;
  }

  /** One step of a client that ends an update of the only row. */
  lemma FinishUpdateAlone(s: State, c: nat, row: Row, written: Row)
    requires Readable(row) && c < |s.clients| && s.clients[c] == Updating(written)
    requires s.table == map[row.id := row] && written.id == row.id
    ensures AllReadable(s.table) && Enabled(s, Finish(c, Normal))
    ensures Do(s, Finish(c, Normal)) == State(map[row.id := Overwritten(row, written)], s.clients[c := Outside])
  {
    hide Readable;
    assert Overwrite(s.table, written) == Ok(s.table[row.id := Overwritten(row, written)]);
  }

  /** The rows that the two updates leave, one after the other. */
  lemma RowsOfLostUpdate(row: Row, name: string, stock: nat, first: UpdateRequest, second: UpdateRequest, now: T.TimePoint)
    requires Sound(row) && name != ""
    requires exists id :: first == Rename(id, name) && second == Restock(id, stock)
    ensures Updated(Decode(row), first, now).Ok? && Updated(Decode(row), second, now).Ok?
    ensures var a, b := Encode(Updated(Decode(row), first, now).value), Encode(Updated(Decode(row), second, now).value);
      && a.id == b.id == row.id && a.sku == b.sku == row.sku && a.name == name && b.name == row.name && b.stockQuantity == stock
      && Readable(Overwritten(row, a))
  {
    hide Encode;
    hide Decode;
    hide Readable;
    hide U.ToString;
    SoundMeans(row);
    UpdatedColumns(row, first, now);
    UpdatedColumns(row, second, now);
    UpdatedIsWellFormed(Decode(row), first, now);
    EncodedIsSound(Updated(Decode(row), first, now).value);
    SoundWithCreationOf(Encode(Updated(Decode(row), first, now).value), row);
    SoundMeans(Overwritten(row, Encode(Updated(Decode(row), first, now).value)));
  }

  /** Two clients read the same item; one gives it a new name, the other a new stock. Both writes
      are accepted, and the name is the old one again. */
  lemma LostUpdateHappens(req: CreateRequest, id: U.Uuid, name: string, stock: nat, now: T.TimePoint)
    returns (run: seq<Step>)
    requires NewItem(req, id, now).Ok? && name != ""
    ensures run == [BeginCreate(0, req, id, now, false), Finish(0, Normal),
                    BeginUpdate(0, Rename(id, name), now, false), BeginUpdate(1, Restock(id, stock), now, false),
                    Finish(0, Normal)]
    ensures Legal(Init(2), run) && Legal(Exec(Init(2), run), [Finish(1, Normal)])
    ensures var before := Exec(Init(2), run); var after := Exec(before, [Finish(1, Normal)]);
      && U.ToString(id) in before.table && before.table[U.ToString(id)].name == name
      && U.ToString(id) in after.table && after.table[U.ToString(id)].name == req.name
      && after.table[U.ToString(id)].stockQuantity == stock
  {
    hide Encode;
    hide Decode;
    hide Readable;
    hide Updated;
    hide U.ToString;
    hide Do;
    hide Enabled;
    hide NewItem;
    var item := NewItem(req, id, now).value;
    var row := Encode(item);
    EncodedIsSound(item);
    SoundMeans(row);
    CreatedRow(req, id, now);
    var first, second := Rename(id, name), Restock(id, stock);
    RowsOfLostUpdate(row, name, stock, first, second, now);
    var a, b := Encode(Updated(Decode(row), first, now).value), Encode(Updated(Decode(row), second, now).value);
    var s2 := State(map[row.id := row], [Outside, Outside]);
    var s3 := s2.(clients := [Updating(a), Outside]);
    var s4 := s2.(clients := [Updating(a), Updating(b)]);
    var s5 := State(map[row.id := Overwritten(row, a)], [Outside, Updating(b)]);
    var s6 := State(map[row.id := Overwritten(Overwritten(row, a), b)], [Outside, Outside]);
    BeginUpdateAlone(s2, 0, row, first, now);
    BeginUpdateAlone(s3, 1, row, second, now);
    FinishUpdateAlone(s4, 0, row, a);
    FinishUpdateAlone(s5, 1, Overwritten(row, a), b);
    var last := Before(s5, Finish(1, Normal), s6, []);
    run := Before(s4, Finish(0, Normal), s5, []);
    run := Before(s3, BeginUpdate(1, second, now, false), s4, run);
    run := Before(s2, BeginUpdate(0, first, now, false), s3, run);
    run := CreateRun(req, id, now, s2, run);
  }
}
