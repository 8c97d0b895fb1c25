/** The migration runner. Any number of runners apply the same directory to one database; each
    checks a file, and later executes it and records it in one transaction that the primary key
    of schema_migrations rejects if the file is already recorded. */
module Migration {
  import opened Results
  import opened FileOrder

  /** Where a runner is. Ready(i) means its check said that file i is not applied. */
  datatype Phase = Idle | At(i: nat) | Ready(i: nat) | Succeeded | Failed

  /** `records` is the table; `log` lists the files whose SQL was committed, in order. */
  datatype State = State(records: set<string>, log: seq<string>, runners: seq<Phase>)

  datatype Step =
    | Begin(r: nat)     // a call of apply, also again after an earlier one ended
    | Check(r: nat)     // is_applied
    | Commit(r: nat)    // apply_migration: SQL, record and commit, or duplicate key
    | InDoubt(r: nat)   // the transaction commits but the runner sees an error
    | Fail(r: nat)      // any other error: no connection, unreadable or empty file, SQL error
    | Finish(r: nat)    // past the last file

  predicate Enabled(files: seq<string>, s: State, step: Step) {
    step.r < |s.runners| &&
    var p := s.runners[step.r];
    match step
    case Begin(_) => p.Idle? || p.Succeeded? || p.Failed?
    case Check(_) => p.At? && p.i < |files|
    case Commit(_) => p.Ready? && p.i < |files|
    case InDoubt(_) => p.Ready? && p.i < |files| && files[p.i] !in s.records
    case Fail(_) => p.At? || p.Ready?
    case Finish(_) => p.At? && p.i >= |files|
  }

  function Do(files: seq<string>, s: State, step: Step): (d: State)
    requires Enabled(files, s, step)
    ensures |d.runners| == |s.runners|
  {
    var r := step.r;
    match step
    case Begin(_) => s.(runners := s.runners[r := At(0)])
    case Check(_) =>
      var i := s.runners[r].i;
      s.(runners := s.runners[r := if files[i] in s.records then At(i + 1) else Ready(i)])
    case Commit(_) =>
      var i := s.runners[r].i;
      if files[i] in s.records then s.(runners := s.runners[r := Failed])
      else Recorded(s, files[i], r, At(i + 1))
    case InDoubt(_) => Recorded(s, files[s.runners[r].i], r, Failed)
    case Fail(_) => s.(runners := s.runners[r := Failed])
    case Finish(_) => s.(runners := s.runners[r := Succeeded])
  }

  /** One transaction: the file's SQL and its record together. */
  function Recorded(s: State, file: string, r: nat, p: Phase): State
    requires r < |s.runners|
  {
    State(s.records + {file}, s.log + [file], s.runners[r := p])
  }

  function Init(records: set<string>, runners: nat): State {
    State(records, [], seq(runners, _ => Idle))
  }

  predicate Legal(files: seq<string>, s: State, run: seq<Step>)
    decreases |run|
  {
    run == [] || (Enabled(files, s, run[0]) && Legal(files, Do(files, s, run[0]), run[1..]))
  }

  function Exec(files: seq<string>, s: State, run: seq<Step>): (e: State)
    requires Legal(files, s, run)
    ensures |e.runners| == |s.runners|
    decreases |run|
  {
    if run == [] then s else Exec(files, Do(files, s, run[0]), run[1..])
  }

  // ---- The files still to be committed ----

  function Names(s: seq<string>): set<string> { set x | x in s }

  /** The files that are not recorded, in their order. */
  function Pending(files: seq<string>, records: set<string>): seq<string> {
    if files == [] then []
    else (if files[0] in records then [] else [files[0]]) + Pending(files[1..], records)
  }

  lemma {:induction false} PendingConcat(a: seq<string>, b: seq<string>, records: set<string>)
    ensures Pending(a + b, records) == Pending(a, records) + Pending(b, records)
  {
    if a == [] {
      assert a + b == b;
    } else {
      assert (a + b)[0] == a[0] && (a + b)[1..] == a[1..] + b;
      PendingConcat(a[1..], b, records);
    }
  }

  lemma PendingAppend(files: seq<string>, f: string, records: set<string>)
    ensures Pending(files + [f], records) == Pending(files, records) + if f in records then [] else [f]
  {
    PendingConcat(files, [f], records);
  }

  lemma {:induction false} PendingIn(files: seq<string>, records: set<string>, x: string)
    ensures x in Pending(files, records) <==> x in files && x !in records
  {
    if files != [] {
      PendingIn(files[1..], records, x);
    }
  }

  lemma {:induction false} PendingAscending(files: seq<string>, records: set<string>)
    requires Ascending(files)
    ensures Ascending(Pending(files, records))
  {
    if files != [] {
      var rest := Pending(files[1..], records);
      PendingAscending(files[1..], records);
      forall j | 0 <= j < |rest|
        ensures Less(files[0], rest[j])
      {
        PendingIn(files[1..], records, rest[j]);
      }
    }
  }

  /** Recording the pending files of a list is recording all of it. */
  lemma PendingCompletes(files: seq<string>, records: set<string>)
    ensures records + Names(Pending(files, records)) == records + Names(files)
  {
    forall x
      ensures x in records + Names(Pending(files, records)) <==> x in records + Names(files)
    {
      PendingIn(files, records, x);
    }
  }

  // ---- What every interleaving keeps ----

  /** The first m files are dealt with: the missing ones were committed in order, once each, and
      nothing else was. No runner is further, and one that has succeeded is past the last file. */
  ghost predicate Inv(files: seq<string>, initial: set<string>, s: State, m: nat) {
    && m <= |files|
    && s.log == Pending(files[..m], initial)
    && s.records == initial + Names(files[..m])
    && (forall r | 0 <= r < |s.runners| && (s.runners[r].At? || s.runners[r].Ready?) :: s.runners[r].i <= m)
    && (forall r | 0 <= r < |s.runners| && s.runners[r].Succeeded? :: m == |files|)
  }

  /** File m is dealt with next, either because it was recorded from the start or by a commit. */
  lemma OneMoreFile(files: seq<string>, initial: set<string>, m: nat)
    requires m < |files|
    ensures Pending(files[..m + 1], initial)
         == Pending(files[..m], initial) + if files[m] in initial then [] else [files[m]]
    ensures Names(files[..m + 1]) == Names(files[..m]) + {files[m]}
  {
    assert files[..m + 1] == files[..m] + [files[m]];
    PendingAppend(files[..m], files[m], initial);
  }

  /** A file further on is recorded only if it was from the start. */
  lemma NotRecordedAhead(files: seq<string>, initial: set<string>, s: State, m: nat, i: nat)
    requires Ascending(files) && Inv(files, initial, s, m) && i < |files|
    ensures files[i] in s.records <==> i < m || files[i] in initial
  {
    AscendingDistinct(files);
    if i < m {
      assert files[..m][i] == files[i];
    }
  }

  /** A runner that stands ready at an unrecorded file stands at file m, whatever it saw when it
      checked. */
  lemma StepKeepsInv(files: seq<string>, initial: set<string>, s: State, m: nat, step: Step) returns (m': nat)
    requires Ascending(files) && Inv(files, initial, s, m) && Enabled(files, s, step)
    ensures m <= m' && Inv(files, initial, Do(files, s, step), m')
  {
    m' := m;
    if step.Check? || step.Commit? || step.InDoubt? {
      var i := s.runners[step.r].i;
      NotRecordedAhead(files, initial, s, m, i);
      if i == m && (step.Check? ==> files[i] in s.records) {
        OneMoreFile(files, initial, m);
        m' := m + 1;
      }
    }
  }

  lemma {:induction false} RunKeepsInv(files: seq<string>, initial: set<string>, s: State, m: nat, run: seq<Step>)
    returns (m': nat)
    requires Ascending(files) && Inv(files, initial, s, m) && Legal(files, s, run)
    ensures m <= m' && Inv(files, initial, Exec(files, s, run), m')
    decreases |run|
  {
    m' := m;
    if run != [] {
      m' := StepKeepsInv(files, initial, s, m, run[0]);
      m' := RunKeepsInv(files, initial, Do(files, s, run[0]), m', run[1..]);
    }
  }

  /** Anything may go wrong at any time: a runner in the middle of a call can fail, leaving no
      trace. */
  lemma FailuresAnywhere(files: seq<string>, s: State, r: nat)
    requires r < |s.runners|
    ensures Enabled(files, s, Fail(r)) <==> s.runners[r].At? || s.runners[r].Ready?
    ensures Enabled(files, s, Fail(r)) ==>
      Do(files, s, Fail(r)).log == s.log && Do(files, s, Fail(r)).records == s.records
  {
  }

  // ---- Main results ----

  /** In every interleaving of any number of runs over any table, with failures anywhere: what was
      committed is the first of the files that were missing, in order and once each; nothing that
      was recorded is executed again, and the table is the initial one plus what was committed. */
  lemma CommitsAreInOrderOnce(files: seq<string>, records: set<string>, runners: nat, run: seq<Step>)
    requires Ascending(files) && Legal(files, Init(records, runners), run)
    ensures var s := Exec(files, Init(records, runners), run);
      && s.log <= Pending(files, records)
      && Ascending(s.log) && Names(s.log) !! records
      && s.records == records + Names(s.log)
  {
    var i := Init(records, runners);
    assert files[..0] == [];
    var m := RunKeepsInv(files, records, i, 0, run);
    var s := Exec(files, i, run);
    assert files == files[..m] + files[m..];
    PendingConcat(files[..m], files[m..], records);
    PendingAscending(files[..m], records);
    PendingCompletes(files[..m], records);
    forall x | x in s.log
      ensures x !in records
    {
      PendingIn(files[..m], records, x);
    }
  }

  /** Interrupted runs resume: whatever runs failed before and however they interleaved, as soon
      as one has succeeded the log and the table are those of a single uninterrupted run, and no
      further step of any run changes them. */
  lemma SuccessIsComplete(files: seq<string>, records: set<string>, runners: nat,
                          run: seq<Step>, r: nat, further: seq<Step>)
    requires Ascending(files)
    requires Legal(files, Init(records, runners), run) && r < runners
    requires Exec(files, Init(records, runners), run).runners[r].Succeeded?
    requires Legal(files, Exec(files, Init(records, runners), run), further)
    ensures var s := Exec(files, Init(records, runners), run);
      && s.log == Pending(files, records)
      && s.records == records + Names(files)
      && Exec(files, s, further).log == s.log && Exec(files, s, further).records == s.records
  {
    var i := Init(records, runners);
    var s := Exec(files, i, run);
    assert files[..0] == [];
    var m := RunKeepsInv(files, records, i, 0, run);
    var n := RunKeepsInv(files, records, s, m, further);
    assert m == n == |files| && files[..|files|] == files;
  }

  // ---- When the recorded files were a prefix ----

  /** Of the files of the directory, exactly the first k are recorded. */
  ghost predicate PrefixRecorded(files: seq<string>, records: set<string>, k: nat) {
    k <= |files| && forall j | 0 <= j < |files| :: files[j] in records <==> j < k
  }

  lemma {:induction false} PendingAll(files: seq<string>, records: set<string>)
    requires forall j | 0 <= j < |files| :: files[j] !in records
    ensures Pending(files, records) == files
  {
    if files != [] {
      PendingAll(files[1..], records);
    }
  }

  lemma {:induction false} PendingOfPrefix(files: seq<string>, records: set<string>, k: nat)
    requires PrefixRecorded(files, records, k)
    ensures Pending(files, records) == files[k..]
  {
    if k == 0 {
      PendingAll(files, records);
    } else {
      assert PrefixRecorded(files[1..], records, k - 1) by {
        assert forall j | 0 <= j < |files| - 1 :: files[1..][j] == files[j + 1];
      }
      PendingOfPrefix(files[1..], records, k - 1);
    }
  }

  /** If exactly the first k0 files were recorded at the start, then in every interleaving exactly
      the first k are, for some k, and those in between were committed. */
  lemma RecordedStayAPrefix(files: seq<string>, records: set<string>, k0: nat, runners: nat, run: seq<Step>)
    returns (k: nat)
    requires Ascending(files) && PrefixRecorded(files, records, k0)
    requires Legal(files, Init(records, runners), run)
    ensures var s := Exec(files, Init(records, runners), run);
      k0 <= k && PrefixRecorded(files, s.records, k) && s.log == files[k0..k]
  {
    var i := Init(records, runners);
    assert files[..0] == [];
    var m := RunKeepsInv(files, records, i, 0, run);
    k := if m < k0 then k0 else m;
    forall j | 0 <= j < |files|
      ensures files[j] in Exec(files, i, run).records <==> j < k
    {
      NotRecordedAhead(files, records, Exec(files, i, run), m, j);
    }
    var first := if m < k0 then m else k0;
    assert PrefixRecorded(files[..m], records, first);
    PendingOfPrefix(files[..m], records, first);
    assert files[..m][first..] == files[k0..k];
  }

  /** The race is real: two runners can both pass the check for the same file. The second then
      fails on the primary key, and the file is still committed once. */
  lemma RaceLosesOnPrimaryKey(f: string) returns (run: seq<Step>)
    ensures Legal([f], Init({}, 2), run)
    ensures Exec([f], Init({}, 2), run) == State({f}, [f], [Succeeded, Failed])
  {
    run := [Begin(0), Begin(1), Check(0), Check(1), Commit(0), Commit(1), Finish(0)];
    var s0 := Init({}, 2);
    assert s0.runners == [Idle, Idle];
    var s1 := State({}, [], [At(0), Idle]);
    var s2 := State({}, [], [At(0), At(0)]);
    var s3 := State({}, [], [Ready(0), At(0)]);
    var s4 := State({}, [], [Ready(0), Ready(0)]);
    var s5 := State({f}, [f], [At(1), Ready(0)]);
    var s6 := State({f}, [f], [At(1), Failed]);
    var s7 := State({f}, [f], [Succeeded, Failed]);
    run := Before([f], s6, Finish(0), s7, []);
    run := Before([f], s5, Commit(1), s6, run);
    run := Before([f], s4, Commit(0), s5, run);
    run := Before([f], s3, Check(1), s4, run);
    run := Before([f], s2, Check(0), s3, run);
    run := Before([f], s1, Begin(1), s2, run);
    run := Before([f], s0, Begin(0), s1, run);
  }

  lemma Before(files: seq<string>, s: State, step: Step, next: State, rest: seq<Step>) returns (run: seq<Step>)
    requires Enabled(files, s, step) && Do(files, s, step) == next && Legal(files, next, rest)
    ensures run == [step] + rest && Legal(files, s, run) && Exec(files, s, run) == Exec(files, next, rest)
  {
    run := [step] + rest;
    assert run[1..] == rest;
  }

  // ---- One runner, as code ----

  /** What the outside world does to one file in one call of apply. */
  datatype Fault = NoFault | CheckFails | ApplyFails | CommitInDoubt

  lemma NothingDone(files: seq<string>, records: set<string>)
    ensures Pending(files[..0], records) == [] && Names(files[..0]) == {}
  {
  }

  /** A file does not occur among those before it. */
  lemma NotEarlier(files: seq<string>, i: nat)
    requires Ascending(files) && i < |files|
    ensures files[i] !in Names(files[..i])
  {
    AscendingDistinct(files);
  }

  /** What a call has done to each file when it ends after the first m: because all are dealt with,
      because file m stops it, or because the last of them is left in doubt. */
  lemma Dealt(files: seq<string>, records: set<string>, faults: nat -> Fault, m: nat, inDoubt: bool)
    requires Ascending(files) && m <= |files|
    requires forall j: nat | j < (if inDoubt then m - 1 else m) ::
      !faults(j).CheckFails? && (files[j] in records || faults(j).NoFault?)
    requires inDoubt ==> m > 0 && files[m - 1] !in records && faults(m - 1).CommitInDoubt?
    requires !inDoubt && m < |files| ==>
      faults(m).CheckFails? || (files[m] !in records && faults(m).ApplyFails?)
    ensures forall i: nat | i < |files| && files[i] !in records ::
      (files[i] in Names(files[..m]) <==>
        && (faults(i).NoFault? || faults(i).CommitInDoubt?)
        && forall j: nat | j < i :: !faults(j).CheckFails? && (files[j] in records || faults(j).NoFault?))
    ensures forall i: nat | i < |files| && files[i] !in records ::
      files[i] in Pending(files[..m], records) <==> files[i] in Names(files[..m])
  {
    AscendingDistinct(files);
    forall i: nat | i < |files|
      ensures files[i] in Names(files[..m]) <==> i < m
      ensures files[i] in Pending(files[..m], records) <==> i < m && files[i] !in records
    {
      PendingIn(files[..m], records, files[i]);
      if i < m {
        assert files[..m][i] == files[i];
      }
    }
  }

  class Database {
    var records: set<string>
    var log: seq<string>

    constructor (records: set<string>)
      ensures this.records == records && log == []
    {
      this.records := records;
      log := [];
    }

    /** The loop of `apply` without another runner; `faults(i)` says what goes wrong at file i. The
        first m files are dealt with: those missing from the table were committed in order, and
        nothing else was. It succeeds exactly if no file's check fails and no missing file fails or is
        left in doubt. A missing file is recorded exactly if the call gets there and neither its check
        nor its execution fails; a commit in doubt records it and ends the call. */
    method Apply(files: seq<string>, faults: nat -> Fault) returns (r: Result<()>, ghost m: nat)
      requires Ascending(files)
      modifies this
      ensures m <= |files|
      ensures log == old(log) + Pending(files[..m], old(records))
      ensures records == old(records) + Names(files[..m])
      ensures r.Ok? <==>
        && (forall i: nat | i < |files| :: !faults(i).CheckFails?)
        && (forall i: nat | i < |files| && files[i] !in old(records) :: faults(i).NoFault?)
      ensures r.Ok? ==> m == |files|
      ensures r.Err? ==> r.error == Error.Database
      ensures forall i: nat | i < |files| && files[i] !in old(records) ::
        (files[i] in records <==>
          && (faults(i).NoFault? || faults(i).CommitInDoubt?)
          && forall j: nat | j < i :: !faults(j).CheckFails? && (files[j] in old(records) || faults(j).NoFault?))
      ensures forall i: nat | i < |files| && files[i] !in old(records) ::
        files[i] in log[|old(log)|..] <==> files[i] in records
    {
      hide Pending;
      hide Ascending;
      hide Names;
      NothingDone(files, records);
      m := 0;
      for i := 0 to |files|
        invariant m == i
        invariant log == old(log) + Pending(files[..i], old(records))
        invariant records == old(records) + Names(files[..i])
        invariant forall j | 0 <= j < i ::
          !faults(j).CheckFails? && (files[j] in old(records) || faults(j).NoFault?)
      {
        if faults(i).CheckFails? {
          Dealt(files, old(records), faults, m, false);
          return Err(Error.Database), m;
        }
        OneMoreFile(files, old(records), i);
        NotEarlier(files, i);
        if files[i] in records {
          m := m + 1;
          continue;
        }
        if faults(i).ApplyFails? {
          Dealt(files, old(records), faults, m, false);
          return Err(Error.Database), m;
        }
        records := records + {files[i]};
        log := log + [files[i]];
        m := m + 1;
        if faults(i).CommitInDoubt? {
          Dealt(files, old(records), faults, m, true);
          return Err(Error.Database), m;
        }
      }
      Dealt(files, old(records), faults, m, false);
      return Ok(()), m;
    }

    /** `apply` from the directory: it fails without touching anything if the table cannot be ensured
        or there is no directory; if it succeeds, exactly the directory's regular .sql files have been
        added to the table. */
    method ApplyDirectory(ensureFails: bool, directory: Option<seq<Entry>>, faults: nat -> Fault) returns (r: Result<()>)
      requires directory.Some? ==>
        forall i, j | 0 <= i < j < |directory.value| :: directory.value[i].name != directory.value[j].name
      modifies this
      ensures ensureFails ==> r == Err(Error.Database) && records == old(records) && log == old(log)
      ensures !ensureFails && directory.None? ==> r == Err(Configuration) && records == old(records) && log == old(log)
      ensures !ensureFails && directory.Some? && (forall i :: faults(i).NoFault?) ==> r.Ok?
      ensures r.Ok? ==> directory.Some? && forall y :: y in records <==>
        y in old(records)
        || (|y| > 4 && y[|y| - 4..] == ".sql" && exists e :: e in directory.value && e.isRegular && e.name == y)
    {
      if ensureFails {
        return Err(Error.Database);
      }
      var files := MigrationFiles(directory);
      if files.Err? {
        return Err(files.error);
      }
      ghost var m;
      r, m := Apply(files.value, faults);
      assert files.value[..|files.value|] == files.value;
    }
  }
}
