/** The order of migration files: `std::sort` on strings, that is byte by byte. */
module FileOrder {
  import opened Results

  predicate Less(a: string, b: string) {
    b != "" && (a == "" || a[0] < b[0] || (a[0] == b[0] && Less(a[1..], b[1..])))
  }

  /** Byte order: a proper prefix comes first, and otherwise the first different byte decides. */
  ghost predicate ByteOrder(a: string, b: string) {
    || (|a| < |b| && b[..|a|] == a)
    || exists k: nat :: k < |a| && k < |b| && a[..k] == b[..k] && a[k] < b[k]
  }

  lemma {:induction false} LessIsByteOrder(a: string, b: string)
    ensures Less(a, b) <==> ByteOrder(a, b)
    decreases |a|
  {
    if a != "" && b != "" {
      LessIsByteOrder(a[1..], b[1..]);
      if Less(a, b) && a[0] == b[0] {
        ByteOrderGrows(a, b);
      }
      if ByteOrder(a, b) && !(a[0] < b[0]) {
        ByteOrderShrinks(a, b);
      }
    }
  }

  lemma ByteOrderGrows(a: string, b: string)
    requires a != "" && b != "" && a[0] == b[0] && ByteOrder(a[1..], b[1..])
    ensures ByteOrder(a, b)
  {
    var c, d := a[1..], b[1..];
    assert a == [a[0]] + c && b == [b[0]] + d;
    if |c| < |d| && d[..|c|] == c {
      assert b[..|a|] == [b[0]] + d[..|c|];
    } else {
      var k: nat :| k < |c| && k < |d| && c[..k] == d[..k] && c[k] < d[k];
      assert a[..k + 1] == [a[0]] + c[..k] && b[..k + 1] == [b[0]] + d[..k];
      assert a[k + 1] < b[k + 1];
    }
  }

  lemma ByteOrderShrinks(a: string, b: string)
    requires a != "" && b != "" && !(a[0] < b[0]) && ByteOrder(a, b)
    ensures a[0] == b[0] && ByteOrder(a[1..], b[1..])
  {
    var c, d := a[1..], b[1..];
    if |a| < |b| && b[..|a|] == a {
      assert b[..|a|][0] == a[0];
      assert d[..|c|] == b[..|a|][1..];
    } else {
      var k: nat :| k < |a| && k < |b| && a[..k] == b[..k] && a[k] < b[k];
      assert k > 0;
      assert a[..k][0] == b[..k][0];
      assert c[..k - 1] == a[..k][1..] && d[..k - 1] == b[..k][1..];
      assert c[k - 1] < d[k - 1];
    }
  }

  lemma {:induction false} LessAsymmetric(a: string, b: string)
    requires Less(a, b)
    ensures !Less(b, a) && a != b
    decreases |a|
  {
    if a != "" && a[0] == b[0] {
      LessAsymmetric(a[1..], b[1..]);
    }
  }

  lemma {:induction false} LessTransitive(a: string, b: string, c: string)
    requires Less(a, b) && Less(b, c)
    ensures Less(a, c)
    decreases |a|
  {
    if a != "" && a[0] == b[0] && b[0] == c[0] {
      LessTransitive(a[1..], b[1..], c[1..]);
    }
  }

  lemma {:induction false} LessTotal(a: string, b: string)
    ensures a == b || Less(a, b) || Less(b, a)
    decreases |a|
  {
    if a != "" && b != "" && a[0] == b[0] {
      LessTotal(a[1..], b[1..]);
      assert a == [a[0]] + a[1..] && b == [b[0]] + b[1..];
    }
  }

  ghost predicate Ascending(s: seq<string>) {
    forall i, j | 0 <= i < j < |s| :: Less(s[i], s[j])
  }

  lemma AscendingDistinct(s: seq<string>)
    requires Ascending(s)
    ensures forall i, j | 0 <= i < j < |s| :: s[i] != s[j]
  {
    forall i, j | 0 <= i < j < |s|
      ensures s[i] != s[j]
    {
      LessAsymmetric(s[i], s[j]);
    }
  }

  function Insert(s: seq<string>, x: string): seq<string> {
    if s == [] then [x] else if Less(s[0], x) then [s[0]] + Insert(s[1..], x) else [x] + s
  }

  /** What `std::sort` leaves in the vector. */
  function Sorted(s: seq<string>): seq<string> {
    if s == [] then [] else Insert(Sorted(s[1..]), s[0])
  }

  lemma {:induction false} InsertAscending(s: seq<string>, x: string)
    requires Ascending(s) && x !in s
    ensures Ascending(Insert(s, x))
    ensures forall y :: y in Insert(s, x) <==> y in s || y == x
    ensures |Insert(s, x)| == |s| + 1
  {
    if s == [] {
    } else if Less(s[0], x) {
      InsertAscending(s[1..], x);
      var r := Insert(s[1..], x);
      forall j | 0 <= j < |r|
        ensures Less(s[0], r[j])
      {
        assert r[j] in r;
      }
    } else {
      LessTotal(s[0], x);
      assert s[0] in s;
      forall j | 0 <= j < |s|
        ensures Less(x, s[j])
      {
        if j > 0 {
          LessTransitive(x, s[0], s[j]);
        }
      }
    }
  }

  /** Sorting distinct names gives them all, once each, in ascending order. */
  lemma {:induction false} SortedAscending(s: seq<string>)
    requires forall i, j | 0 <= i < j < |s| :: s[i] != s[j]
    ensures Ascending(Sorted(s)) && |Sorted(s)| == |s|
    ensures forall y :: y in Sorted(s) <==> y in s
  {
    if s != [] {
      SortedAscending(s[1..]);
      InsertAscending(Sorted(s[1..]), s[0]);
    }
  }

  /** There is only one ascending list of given names, so the order in which the directory lists
      its files does not matter. */
  lemma {:induction false} AscendingUnique(s: seq<string>, r: seq<string>)
    requires Ascending(s) && Ascending(r) && forall y :: y in s <==> y in r
    ensures s == r
  {
    assert s != [] ==> s[0] in s;
    assert r != [] ==> r[0] in r;
    if s != [] && r != [] {
      if s[0] != r[0] {
        var i :| 0 <= i < |r| && r[i] == s[0];
        var j :| 0 <= j < |s| && s[j] == r[0];
        assert Less(r[0], s[0]) && Less(s[0], r[0]);
        LessAsymmetric(r[0], s[0]);
        assert false;
      }
      AscendingDistinct(s);
      AscendingDistinct(r);
      forall y
        ensures y in s[1..] <==> y in r[1..]
      {
        assert s == [s[0]] + s[1..] && r == [r[0]] + r[1..];
        assert y in s <==> y == s[0] || y in s[1..];
        assert y in r <==> y == r[0] || y in r[1..];
      }
      AscendingUnique(s[1..], r[1..]);
      assert s == [s[0]] + s[1..] && r == [r[0]] + r[1..];
    }
  }

  // ---- Reading the directory ----

  datatype Entry = Entry(name: string, isRegular: bool)

  /** Where the last dot is, or the length if there is none. */
  function LastDot(name: string): (k: nat)
    ensures k <= |name|
    ensures k < |name| ==> name[k] == '.'
    ensures forall i | 0 <= i < |name| && (i > k || k == |name|) :: name[i] != '.'
  {
    if name == "" then 0
    else
      var rest := LastDot(name[1..]);
      if rest < |name| - 1 then rest + 1 else if name[0] == '.' then 0 else |name|
  }

  /** `extension()`: the part from the last dot, unless that is the first character or the name is
      "..". */
  function Extension(name: string): string {
    var k := LastDot(name);
    if k == 0 || k == |name| || name == ".." then "" else name[k..]
  }

  predicate IsMigration(e: Entry) { e.isRegular && Extension(e.name) == ".sql" }

  lemma ExtensionIsSuffix(name: string)
    ensures Extension(name) == ".sql" <==> |name| > 4 && name[|name| - 4..] == ".sql"
  {
    var k := LastDot(name);
    if Extension(name) == ".sql" {
      assert |name| == k + 4;
    }
    if |name| > 4 && name[|name| - 4..] == ".sql" {
      var s := name[|name| - 4..];
      assert s[0] == '.' && s[1] == 's' && s[2] == 'q' && s[3] == 'l';
      assert name[|name| - 4] == s[0] && name[|name| - 3] == s[1] && name[|name| - 2] == s[2] && name[|name| - 1] == s[3];
      assert k == |name| - 4;
    }
  }

  /** The directory listing, in whatever order the file system gives it, becomes the names of the
      regular files that end in ".sql" after at least one other character, each once and in byte
      order; without a directory there is an error. */
  method MigrationFiles(directory: Option<seq<Entry>>) returns (r: Result<seq<string>>)
    requires directory.Some? ==>
      forall i, j | 0 <= i < j < |directory.value| :: directory.value[i].name != directory.value[j].name
    ensures directory.None? ==> r == Err(Configuration)
    ensures directory.Some? ==> r.Ok? && Ascending(r.value)
    ensures directory.Some? ==> forall i, j | 0 <= i < j < |r.value| :: ByteOrder(r.value[i], r.value[j])
    ensures directory.Some? ==> forall y :: y in r.value <==>
      |y| > 4 && y[|y| - 4..] == ".sql" && exists e :: e in directory.value && e.isRegular && e.name == y
  {
    if directory.None? {
      return Err(Configuration);
    }
    var listing := directory.value;
    var files := [];
    for i := 0 to |listing|
      invariant forall y :: y in files <==> exists k :: 0 <= k < i && IsMigration(listing[k]) && listing[k].name == y
      invariant forall a, b | 0 <= a < b < |files| :: files[a] != files[b]
    {
      ghost var before := files;
      if IsMigration(listing[i]) {
        assert listing[i].name !in files;
        files := files + [listing[i].name];
      }
      forall y
        ensures y in files <==> exists k :: 0 <= k < i + 1 && IsMigration(listing[k]) && listing[k].name == y
      {
        assert y in files <==> y in before || (IsMigration(listing[i]) && listing[i].name == y);
      }
    }
    forall y
      ensures y in files <==>
        |y| > 4 && y[|y| - 4..] == ".sql" && exists e :: e in listing && e.isRegular && e.name == y
    {
      ExtensionIsSuffix(y);
    }
    SortedAscending(files);
    files := Sorted(files);
    forall i, j | 0 <= i < j < |files|
      ensures ByteOrder(files[i], files[j])
    {
      LessIsByteOrder(files[i], files[j]);
    }
    return Ok(files);
  }
}
