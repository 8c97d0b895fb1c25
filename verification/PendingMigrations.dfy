/** `pending_migrations`: the difference of the sorted file list and the database's answer,
    by the merge of `std::set_difference`. */
module PendingMigrations {
  import opened FileOrder
  import opened Migration

  function Difference(files: seq<string>, applied: seq<string>): seq<string>
    decreases |files| + |applied|
  {
    if files == [] then []
    else if applied == [] then files
    else if Less(files[0], applied[0]) then [files[0]] + Difference(files[1..], applied)
    else if Less(applied[0], files[0]) then Difference(files, applied[1..])
    else Difference(files[1..], applied[1..])
  }

  method SetDifference(files: seq<string>, applied: seq<string>) returns (pending: seq<string>)
    ensures pending == Difference(files, applied)
  {
    pending := [];
    var i, j := 0, 0;
    while i < |files|
      invariant i <= |files| && j <= |applied|
      invariant pending + Difference(files[i..], applied[j..]) == Difference(files, applied)
      decreases |files| - i + |applied| - j
    {
      if j == |applied| {
        return pending + files[i..];
      }
      ghost var before := pending;
      assert files[i..][0] == files[i] && applied[j..][0] == applied[j];
      assert files[i..][1..] == files[i + 1..] && applied[j..][1..] == applied[j + 1..];
      if Less(files[i], applied[j]) {
        pending := pending + [files[i]];
        i := i + 1;
        assert before + ([files[i - 1]] + Difference(files[i..], applied[j..]))
            == pending + Difference(files[i..], applied[j..]);
      } else {
        if !Less(applied[j], files[i]) {
          i := i + 1;
        }
        j := j + 1;
      }
    }
    assert files[i..] == [];
  }

  /** Every recorded file of the directory comes, in the database's answer, after smaller names
      only. This is what an answer in byte order has, and what another collation may break. */
  ghost predicate RunningMaximum(files: seq<string>, applied: seq<string>) {
    forall q, p | 0 <= q < p < |applied| && applied[p] in files :: Less(applied[q], applied[p])
  }

  ghost predicate Distinct(s: seq<string>) { forall i, j | 0 <= i < j < |s| :: s[i] != s[j] }

  lemma {:induction false} PendingSame(files: seq<string>, a: set<string>, b: set<string>)
    requires forall x | x in files :: x in a <==> x in b
    ensures Pending(files, a) == Pending(files, b)
  {
    if files != [] {
      PendingSame(files[1..], a, b);
    }
  }

  lemma AscendingTail(files: seq<string>)
    requires Ascending(files) && files != []
    ensures Ascending(files[1..])
    ensures forall x | x in files[1..] :: Less(files[0], x) && x != files[0]
  {
    AscendingDistinct(files);
  }

  /** The merge agrees with the file-by-file check of `apply` exactly if the recorded files are
      running maxima of the database's answer. */
  lemma {:induction false} DifferenceIsPendingIff(files: seq<string>, applied: seq<string>)
    requires Ascending(files) && Distinct(applied)
    ensures Difference(files, applied) == Pending(files, Names(applied)) <==> RunningMaximum(files, applied)
    decreases |files| + |applied|
  {
    if files == [] {
    } else if applied == [] {
      PendingAll(files, Names(applied));
    } else {
      var f, a := files[0], applied[0];
      AscendingTail(files);
      assert files == [f] + files[1..] && applied == [a] + applied[1..];
      assert Names(applied) == {a} + Names(applied[1..]);
      assert forall p | 0 < p < |applied| :: applied[p] == applied[1..][p - 1];
      if Less(f, a) {
        LessAsymmetric(f, a);
        KeepCase(files, applied);
      } else if Less(a, f) {
        DropCase(files, applied);
      } else {
        LessTotal(f, a);
        EqualCase(files, applied);
      }
    }
  }

  lemma KeepCase(files: seq<string>, applied: seq<string>)
    requires Ascending(files) && Distinct(applied) && files != [] && applied != [] && Less(files[0], applied[0])
    ensures Difference(files, applied) == Pending(files, Names(applied)) <==> RunningMaximum(files, applied)
    decreases |files| + |applied|, 0
  {
    var f := files[0];
    AscendingTail(files);
    assert files == [f] + files[1..];
    if f in applied {
      var p :| 0 <= p < |applied| && applied[p] == f;
      LessAsymmetric(f, applied[0]);
      assert Difference(files, applied)[0] == f;
      if f in Pending(files, Names(applied)) {
        PendingIn(files, Names(applied), f);
        assert false;
      }
    } else {
      DifferenceIsPendingIff(files[1..], applied);
      assert RunningMaximum(files, applied) <==> RunningMaximum(files[1..], applied);
      assert forall s: seq<string>, r: seq<string> :: [f] + s == [f] + r ==> ([f] + s)[1..] == s && ([f] + r)[1..] == r;
    }
  }

  lemma DropCase(files: seq<string>, applied: seq<string>)
    requires Ascending(files) && Distinct(applied) && files != [] && applied != [] && Less(applied[0], files[0])
    ensures Difference(files, applied) == Pending(files, Names(applied)) <==> RunningMaximum(files, applied)
    decreases |files| + |applied|, 0
  {
    var a := applied[0];
    AscendingTail(files);
    assert files == [files[0]] + files[1..] && applied == [a] + applied[1..];
    LessAsymmetric(a, files[0]);
    forall x | x in files
      ensures Less(a, x) && x != a
    {
      if x != files[0] {
        LessTransitive(a, files[0], x);
      }
      LessAsymmetric(a, x);
    }
    PendingSame(files, Names(applied), Names(applied[1..]));
    DifferenceIsPendingIff(files, applied[1..]);
    TailMaximum(files, files, applied);
  }

  lemma EqualCase(files: seq<string>, applied: seq<string>)
    requires Ascending(files) && Distinct(applied) && files != [] && applied != [] && files[0] == applied[0]
    ensures Difference(files, applied) == Pending(files, Names(applied)) <==> RunningMaximum(files, applied)
    decreases |files| + |applied|, 0
  {
    var a := applied[0];
    AscendingTail(files);
    assert files == [a] + files[1..] && applied == [a] + applied[1..];
    if Less(a, a) {
      LessAsymmetric(a, a);
    }
    PendingSame(files[1..], Names(applied), Names(applied[1..]));
    DifferenceIsPendingIff(files[1..], applied[1..]);
    TailMaximum(files, files[1..], applied);
  }

  /** Dropping the first recorded name when it is below all files that matter. */
  lemma TailMaximum(files: seq<string>, rest: seq<string>, applied: seq<string>)
    requires applied != [] && Distinct(applied)
    requires forall x :: x in rest ==> x in files && Less(applied[0], x)
    requires forall x :: x in files ==> x in rest || x == applied[0]
    ensures RunningMaximum(files, applied) <==> RunningMaximum(rest, applied[1..])
  {
    var tail := applied[1..];
    if RunningMaximum(rest, tail) {
      forall q, p | 0 <= q < p < |applied| && applied[p] in files
        ensures Less(applied[q], applied[p])
      {
        assert applied[p] == tail[p - 1] && applied[p] in rest;
        if q > 0 {
          assert applied[q] == tail[q - 1];
        }
      }
    }
    if RunningMaximum(files, applied) {
      forall q, p | 0 <= q < p < |tail| && tail[p] in rest
        ensures Less(tail[q], tail[p])
      {
        assert tail[q] == applied[q + 1] && tail[p] == applied[p + 1];
      }
    }
  }

  /** When the database sorts byte by byte too, `pending_migrations` lists exactly the files that
      `apply` would execute, in that order; after a complete apply it lists none. */
  lemma SameOrderAgrees(files: seq<string>, applied: seq<string>)
    requires Ascending(files) && Ascending(applied)
    ensures Difference(files, applied) == Pending(files, Names(applied))
    ensures Names(files) <= Names(applied) ==> Difference(files, applied) == []
  {
    AscendingDistinct(applied);
    DifferenceIsPendingIff(files, applied);
    if Names(files) <= Names(applied) && Difference(files, applied) != [] {
      var x := Difference(files, applied)[0];
      PendingIn(files, Names(applied), x);
      assert false;
    }
  }

  /** With a collation that ignores case the two disagree: everything is recorded, and one file is
      still reported as pending. */
  lemma OtherCollationDisagrees()
    ensures Ascending(["B.sql", "a.sql"])
    ensures Difference(["B.sql", "a.sql"], ["a.sql", "B.sql"]) == ["B.sql"]
    ensures Pending(["B.sql", "a.sql"], Names(["a.sql", "B.sql"])) == []
  {
    var files, applied := ["B.sql", "a.sql"], ["a.sql", "B.sql"];
    assert applied[0] in Names(applied) && applied[1] in Names(applied);
    assert files[1..] == ["a.sql"];
    assert Difference(files[1..], applied) == Difference([], applied[1..]);
  }
}
