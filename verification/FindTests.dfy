/** The search for tests in bin/run-tests.c: a growing list of directories, against the
    recursive walk over the directory tree. */
module FindTests {
  import opened Chars
  import opened Wrappers

  /** What stat and opendir say about a path: a directory with its entries in the order of
      readdir, or one that cannot be opened; a file; or nothing, when stat fails. */
  datatype Node = Folder(opens: bool, entries: seq<Entry>) | File(regular: bool, executable: bool) | Missing
  datatype Entry = Entry(name: string, node: Node)

  /** is_test. */
  predicate IsTest(name: string, regular: bool, executable: bool) {
    regular && executable && |name| >= 2 && IsDigit(name[0]) && IsDigit(name[1])
  }

  /** Names that begin with a dot are passed over. */
  predicate Hidden(name: string) { name != "" && name[0] == '.' }

  function Join(dir: string, name: string): string { dir + "/" + name }

  // ---------- the recursive walk ----------

  /** The paths of the tests below a directory, in the order of the entries. */
  function Tests(entries: seq<Entry>, dir: string): seq<string> {
    if entries == [] then []
    else TestsAt(entries[0], dir) + Tests(entries[1..], dir)
  }

  function TestsAt(e: Entry, dir: string): seq<string> {
    if Hidden(e.name) then []
    else match e.node
      case Folder(_, entries) => Tests(entries, Join(dir, e.name))
      case File(regular, executable) => if IsTest(e.name, regular, executable) then [Join(dir, e.name)] else []
      case Missing => []
  }

  /** Every directory that the walk comes to can be opened. */
  predicate AllOpen(entries: seq<Entry>) {
    entries == [] || (OpenAt(entries[0]) && AllOpen(entries[1..]))
  }

  predicate OpenAt(e: Entry) {
    !Hidden(e.name) && e.node.Folder? ==> e.node.opens && AllOpen(e.node.entries)
  }

  function Size(entries: seq<Entry>): nat {
    if entries == [] then 0 else SizeAt(entries[0]) + Size(entries[1..])
  }

  function SizeAt(e: Entry): nat {
    match e.node
    case Folder(_, entries) => 1 + Size(entries)
    case _ => 0
  }

  // ---------- order ----------

  /** strcmp(a, b) <= 0. */
  predicate Leq(a: string, b: string) {
    a == "" || (b != "" && (a[0] < b[0] || (a[0] == b[0] && Leq(a[1..], b[1..]))))
  }

  lemma {:induction false} LeqTotal(a: string, b: string)
    ensures Leq(a, b) || Leq(b, a)
  {
    if a != "" && b != "" { LeqTotal(a[1..], b[1..]); }
  }

  lemma {:induction false} LeqTrans(a: string, b: string, c: string)
    requires Leq(a, b) && Leq(b, c)
    ensures Leq(a, c)
  {
    if a != "" && a[0] == b[0] && b[0] == c[0] { LeqTrans(a[1..], b[1..], c[1..]); }
  }

  lemma {:induction false} LeqAntisym(a: string, b: string)
    requires Leq(a, b) && Leq(b, a)
    ensures a == b
  {
    if a != "" { LeqAntisym(a[1..], b[1..]); }
  }

  ghost predicate Sorted(q: seq<string>) {
    forall i, j {:trigger q[i], q[j]} :: 0 <= i < j < |q| ==> Leq(q[i], q[j])
  }

  method Insert(q: seq<string>, s: string) returns (r: seq<string>)
    requires Sorted(q)
    ensures Sorted(r) && multiset(r) == multiset(q) + multiset{s}
  {
    var i := 0;
    while i < |q| && Leq(q[i], s)
      invariant 0 <= i <= |q| && forall j :: 0 <= j < i ==> Leq(q[j], s)
    {
      i := i + 1;
    }
    r := q[..i] + [s] + q[i..];
    assert q == q[..i] + q[i..];
    forall j | i <= j < |q| ensures Leq(s, q[j]) {
      LeqTotal(q[i], s);
      if i < j { LeqTrans(s, q[i], q[j]); }
    }
  }

  /** qsort with qsort_testcmp. */
  method SortPaths(q: seq<string>) returns (r: seq<string>)
    ensures Sorted(r) && multiset(r) == multiset(q)
  {
    r := [];
    var i := 0;
    while i < |q|
      invariant 0 <= i <= |q| && Sorted(r) && multiset(r) == multiset(q[..i])
    {
      assert q[..i + 1] == q[..i] + [q[i]];
      r := Insert(r, q[i]);
      i := i + 1;
    }
    assert q[..i] == q;
  }

  lemma SameHead(a: seq<string>, b: seq<string>)
    requires Sorted(a) && Sorted(b) && multiset(a) == multiset(b) && a != [] && b != []
    ensures a[0] == b[0]
  {
    assert a[0] in multiset(a) && b[0] in multiset(b);
    var i :| 0 <= i < |b| && b[i] == a[0];
    var j :| 0 <= j < |a| && a[j] == b[0];
    LeqTotal(a[0], a[0]);
    LeqTotal(b[0], b[0]);
    assert Leq(b[0], b[i]) && Leq(a[0], a[j]);
    LeqAntisym(a[0], b[0]);
  }

  lemma SameTail(a: seq<string>, b: seq<string>)
    requires multiset(a) == multiset(b) && a != [] && b != [] && a[0] == b[0]
    ensures multiset(a[1..]) == multiset(b[1..])
  {
    assert a == [a[0]] + a[1..] && b == [b[0]] + b[1..];
    assert multiset(a[1..]) == multiset(a) - multiset{a[0]};
    assert multiset(b[1..]) == multiset(b) - multiset{b[0]};
  }

  /** A sorted list is determined by what is in it. */
  lemma {:induction false} SortedUnique(a: seq<string>, b: seq<string>)
    requires Sorted(a) && Sorted(b) && multiset(a) == multiset(b)
    ensures a == b
    decreases |a|
  {
    assert |a| == |multiset(a)| && |b| == |multiset(b)|;
    if a != [] {
      SameHead(a, b);
      SameTail(a, b);
      SortedUnique(a[1..], b[1..]);
      assert a == [a[0]] + a[1..] && b == [b[0]] + b[1..];
    }
  }

  /** a is a beginning of b, or they agree up to some place and a has the lesser character
      there. */
  ghost predicate Precedes(a: string, b: string) {
    a <= b || exists k {:trigger a[k]} :: 0 <= k < |a| && k < |b| && a[..k] == b[..k] && a[k] < b[k]
  }

  lemma {:induction false} LeqIff(a: string, b: string)
    ensures Leq(a, b) <==> Precedes(a, b)
  {
    if a != "" && b != "" && a[0] == b[0] {
      LeqIff(a[1..], b[1..]);
      PrecedesTail(a, b);
    } else if a != "" && b != "" {
      if a[0] < b[0] { assert a[..0] == b[..0]; }
      forall k | 0 < k < |a| && k < |b| ensures a[..k] != b[..k] { assert a[..k][0] != b[..k][0]; }
    }
  }

  lemma PrecedesTail(a: string, b: string)
    requires a != "" && b != "" && a[0] == b[0]
    ensures Precedes(a, b) <==> Precedes(a[1..], b[1..])
  {
    var x, y := a[1..], b[1..];
    assert a == [a[0]] + x && b == [b[0]] + y;
    if Precedes(x, y) { PrecedesLonger(a[0], x, y); }
    if Precedes(a, b) { PrecedesShorter(a[0], x, y); }
  }

  lemma PrecedesLonger(c: char, x: string, y: string)
    requires Precedes(x, y)
    ensures Precedes([c] + x, [c] + y)
  {
    var a, b := [c] + x, [c] + y;
    if !(x <= y) {
      var k :| 0 <= k < |x| && k < |y| && x[..k] == y[..k] && x[k] < y[k];
      assert a[..k + 1] == [c] + x[..k] && b[..k + 1] == [c] + y[..k];
      assert a[k + 1] < b[k + 1];
    }
  }

  lemma PrecedesShorter(c: char, x: string, y: string)
    requires Precedes([c] + x, [c] + y)
    ensures Precedes(x, y)
  {
    var a, b := [c] + x, [c] + y;
    if a <= b {
      assert x == a[1..] && y == b[1..];
    } else {
      var k :| 0 <= k < |a| && k < |b| && a[..k] == b[..k] && a[k] < b[k];
      assert k > 0;
      assert x[..k - 1] == a[..k][1..] && y[..k - 1] == b[..k][1..];
      assert x[k - 1] < y[k - 1];
    }
  }

  ghost predicate InOrder(q: seq<string>) {
    forall i, j {:trigger q[i], q[j]} :: 0 <= i < j < |q| ==> Precedes(q[i], q[j])
  }

  /** A list in this order is determined by what is in it. */
  lemma OrderUnique(a: seq<string>, b: seq<string>)
    requires InOrder(a) && InOrder(b) && multiset(a) == multiset(b)
    ensures a == b
  {
    forall i, j | 0 <= i < j < |a| ensures Leq(a[i], a[j]) { LeqIff(a[i], a[j]); }
    forall i, j | 0 <= i < j < |b| ensures Leq(b[i], b[j]) { LeqIff(b[i], b[j]); }
    SortedUnique(a, b);
  }

  // ---------- which paths ----------

  /** The names lead from the entries over directories to a test: no name begins with a dot,
      and the last is that of a regular executable file and begins with two digits. */
  ghost predicate LeadsToTest(entries: seq<Entry>, names: seq<string>)
    decreases |names|
  {
    && names != [] && !("." <= names[0])
    && exists i {:trigger entries[i]} :: 0 <= i < |entries| && entries[i].name == names[0]
         && if |names| == 1 then entries[i].node == File(true, true) && TwoDigits(names[0])
            else entries[i].node.Folder? && LeadsToTest(entries[i].node.entries, names[1..])
  }

  ghost predicate TwoDigits(name: string) {
    |name| >= 2 && name[0] in "0123456789" && name[1] in "0123456789"
  }

  function PathOf(dir: string, names: seq<string>): string
    decreases |names|
  {
    if names == [] then dir else PathOf(dir + "/" + names[0], names[1..])
  }

  lemma IsTestIff(name: string, node: Node)
    ensures node.File? ==> (IsTest(name, node.regular, node.executable) <==> node == File(true, true) && TwoDigits(name))
    ensures Hidden(name) <==> "." <= name
  {
    forall c: char ensures IsDigit(c) <==> c in "0123456789" { DigitIn(c); }
    if name != "" { assert name[..1] == "." <==> name[0] == '.'; }
  }

  lemma DigitIn(c: char)
    ensures IsDigit(c) <==> c in "0123456789"
  {
    var d := "0123456789";
    if IsDigit(c) {
      var i := c as int - 48;
      assert d[i] == c;
    }
  }

  /** The walk finds exactly the paths that such names spell. */
  lemma {:induction false} TestsIff(entries: seq<Entry>, dir: string, s: string)
    ensures s in Tests(entries, dir) <==> exists names :: LeadsToTest(entries, names) && s == PathOf(dir, names)
    decreases entries
  {
    if entries != [] {
      var e, rest := entries[0], entries[1..];
      assert entries == [e] + rest;
      EntryIff(e, dir, s);
      TestsIff(rest, dir, s);
      if names :| LeadsToTest([e], names) && s == PathOf(dir, names) { MoreEntries(e, rest, names); }
      if names :| LeadsToTest(rest, names) && s == PathOf(dir, names) { MoreEntries(e, rest, names); }
      if names :| LeadsToTest(entries, names) && s == PathOf(dir, names) { MoreEntries(e, rest, names); }
    }
  }

  lemma MoreEntries(e: Entry, rest: seq<Entry>, names: seq<string>)
    ensures LeadsToTest([e] + rest, names) <==> LeadsToTest([e], names) || LeadsToTest(rest, names)
  {
    var q := [e] + rest;
    assert q[0] == e == [e][0] && forall i :: 0 <= i < |rest| ==> q[i + 1] == rest[i];
    if LeadsToTest(q, names) {
      var i :| 0 <= i < |q| && q[i].name == names[0]
         && if |names| == 1 then q[i].node == File(true, true) && TwoDigits(names[0])
            else q[i].node.Folder? && LeadsToTest(q[i].node.entries, names[1..]);
      if i > 0 { assert rest[i - 1] == q[i]; }
    }
  }

  lemma {:induction false} EntryIff(e: Entry, dir: string, s: string)
    ensures s in TestsAt(e, dir) <==> exists names :: LeadsToTest([e], names) && s == PathOf(dir, names)
    decreases e
  {
    IsTestIff(e.name, e.node);
    assert [e][0] == e;
    if e.node.Folder? {
      var below := e.node.entries;
      TestsIff(below, Join(dir, e.name), s);
      if names :| !Hidden(e.name) && LeadsToTest(below, names) && s == PathOf(Join(dir, e.name), names) {
        var longer := [e.name] + names;
        assert longer[1..] == names;
        assert LeadsToTest([e], longer) && s == PathOf(dir, longer);
      }
      if names :| LeadsToTest([e], names) && s == PathOf(dir, names) {
        assert LeadsToTest(below, names[1..]) && s == PathOf(Join(dir, e.name), names[1..]);
      }
    } else {
      assert [e.name][1..] == [];
      assert PathOf(dir, [e.name]) == Join(dir, e.name);
      if s in TestsAt(e, dir) {
        assert LeadsToTest([e], [e.name]) && s == PathOf(dir, [e.name]);
      }
      if names :| LeadsToTest([e], names) && s == PathOf(dir, names) {
        assert |names| == 1 && names == [e.name];
      }
    }
  }

  /** The list holds exactly these paths, in the order of strcmp. */
  ghost predicate Listed(entries: seq<Entry>, dir: string, q: seq<string>) {
    && InOrder(q)
    && (forall s {:trigger s in q} :: s in q <==> exists names :: LeadsToTest(entries, names) && s == PathOf(dir, names))
  }

  lemma SortedListed(entries: seq<Entry>, dir: string, q: seq<string>)
    requires Sorted(q) && multiset(q) == multiset(Tests(entries, dir))
    ensures Listed(entries, dir, q)
  {
    forall i, j | 0 <= i < j < |q| ensures Precedes(q[i], q[j]) { LeqIff(q[i], q[j]); }
    forall s ensures s in q <==> exists names :: LeadsToTest(entries, names) && s == PathOf(dir, names) {
      assert s in q <==> s in multiset(q);
      assert s in Tests(entries, dir) <==> s in multiset(Tests(entries, dir));
      TestsIff(entries, dir, s);
    }
  }

  // ---------- find_tests ----------

  /** A directory that has been found: its path and itself. */
  datatype Found = Found(path: string, node: Node)

  /** What is still to come from the directories of q. */
  ghost function Rest(q: seq<Found>): multiset<string> {
    if q == [] then multiset{} else multiset(RestAt(q[0])) + Rest(q[1..])
  }

  ghost function RestAt(f: Found): seq<string> {
    if f.node.Folder? then Tests(f.node.entries, f.path) else []
  }

  ghost predicate RestOpen(q: seq<Found>) {
    forall i {:trigger q[i]} :: 0 <= i < |q| ==> q[i].node.Folder? && q[i].node.opens && AllOpen(q[i].node.entries)
  }

  ghost function Work(q: seq<Found>): nat {
    if q == [] then 0 else (if q[0].node.Folder? then 1 + Size(q[0].node.entries) else 0) + Work(q[1..])
  }

  lemma {:induction false} RestAppend(q: seq<Found>, f: Found)
    ensures Rest(q + [f]) == Rest(q) + multiset(RestAt(f))
    ensures Work(q + [f]) == Work(q) + (if f.node.Folder? then 1 + Size(f.node.entries) else 0)
  {
    if q == [] {
      assert [f][1..] == [];
      assert q + [f] == [f];
    } else {
      assert (q + [f])[1..] == q[1..] + [f];
      RestAppend(q[1..], f);
    }
  }

  lemma Sums(a: multiset<string>, b: multiset<string>, c: multiset<string>)
    ensures a + (b + c) == a + b + c && a + c + b == a + b + c
  {
  }

  lemma OpenOne(f: Found, e: Entry)
    requires !Hidden(e.name) && e.node.Folder? && f.node == e.node
    ensures RestOpen([f]) <==> OpenAt(e)
  {
    assert [f][0] == f;
  }

  /** The entry e is a directory, which is added to the list. */
  lemma FolderFound(dirs: seq<Found>, dir: string, e: Entry, tests: multiset<string>)
    requires !Hidden(e.name) && e.node.Folder?
    ensures var q := dirs + [Found(Join(dir, e.name), e.node)];
            && tests + Rest(q) == tests + Rest(dirs) + multiset(TestsAt(e, dir))
            && (RestOpen(q) <==> RestOpen(dirs) && OpenAt(e))
            && Work(q) == Work(dirs) + SizeAt(e)
  {
    var f := Found(Join(dir, e.name), e.node);
    RestAppend(dirs, f);
    OpenSum(dirs, [f]);
    OpenOne(f, e);
    assert RestAt(f) == TestsAt(e, dir);
    Sums(tests, Rest(dirs), multiset(RestAt(f)));
  }

  lemma TestFound(tests: seq<string>, path: string, rest: multiset<string>)
    ensures multiset(tests + [path]) + rest == multiset(tests) + rest + multiset([path])
  {
    Sums(multiset(tests), rest, multiset([path]));
    assert multiset(tests + [path]) == multiset(tests) + multiset([path]);
  }

  /** One entry of a directory: a directory is added to the list, a test to the tests. */
  method ReadEntry(dir: string, e: Entry, dirs: seq<Found>, tests: seq<string>) returns (dirs': seq<Found>,
      tests': seq<string>)
    requires Folders(dirs)
    ensures Folders(dirs')
    ensures multiset(tests') + Rest(dirs') == multiset(tests) + Rest(dirs) + multiset(TestsAt(e, dir))
    ensures RestOpen(dirs') <==> RestOpen(dirs) && OpenAt(e)
    ensures Work(dirs') <= Work(dirs) + SizeAt(e)
  {
    dirs', tests' := dirs, tests;
    if Hidden(e.name) {
      return;
    }
    var path := Join(dir, e.name);
    if e.node.Folder? {
      FolderFound(dirs, dir, e, multiset(tests));
      dirs' := dirs + [Found(path, e.node)];
    } else if e.node.File? && IsTest(e.name, e.node.regular, e.node.executable) {
      TestFound(tests, path, Rest(dirs));
      tests' := tests + [path];
    }
  }

  ghost predicate Folders(q: seq<Found>) {
    forall i {:trigger q[i]} :: 0 <= i < |q| ==> q[i].node.Folder?
  }

  lemma FirstEntry(entries: seq<Entry>, i: nat, dir: string)
    requires i < |entries|
    ensures multiset(Tests(entries[i..], dir)) == multiset(TestsAt(entries[i], dir)) + multiset(Tests(entries[i + 1..], dir))
    ensures AllOpen(entries[i..]) <==> OpenAt(entries[i]) && AllOpen(entries[i + 1..])
    ensures Size(entries[i..]) == SizeAt(entries[i]) + Size(entries[i + 1..])
  {
    assert entries[i..][0] == entries[i] && entries[i..][1..] == entries[i + 1..];
  }

  /** The readdir loop over one directory; the directories and tests that it adds. */
  method ReadDirectory(dir: string, entries: seq<Entry>, tests: seq<string>) returns (added: seq<Found>,
      tests': seq<string>)
    ensures Folders(added)
    ensures multiset(tests') + Rest(added) == multiset(tests) + multiset(Tests(entries, dir))
    ensures RestOpen(added) <==> AllOpen(entries)
    ensures Work(added) <= Size(entries)
  {
    added, tests' := [], tests;
    var i := 0;
    assert entries[0..] == entries;
    while i < |entries|
      invariant 0 <= i <= |entries| && Folders(added)
      invariant multiset(tests') + Rest(added) + multiset(Tests(entries[i..], dir)) == multiset(tests) + multiset(Tests(entries, dir))
      invariant RestOpen(added) && AllOpen(entries[i..]) <==> AllOpen(entries)
      invariant Work(added) + Size(entries[i..]) <= Size(entries)
    {
      FirstEntry(entries, i, dir);
      added, tests' := ReadEntry(dir, entries[i], added, tests');
      i := i + 1;
    }
  }

  /** The first of the directories that are left. */
  lemma FirstFound(q: seq<Found>, d: nat)
    requires d < |q| && q[d].node.Folder?
    ensures Rest(q[d..]) == multiset(Tests(q[d].node.entries, q[d].path)) + Rest(q[d + 1..])
    ensures RestOpen(q[d..]) <==> q[d].node.opens && AllOpen(q[d].node.entries) && RestOpen(q[d + 1..])
    ensures Work(q[d..]) == 1 + Size(q[d].node.entries) + Work(q[d + 1..])
  {
    assert q[d..][0] == q[d] && q[d..][1..] == q[d + 1..];
    OpenSum([q[d]], q[d + 1..]);
    assert [q[d]] + q[d + 1..] == q[d..];
  }

  lemma OpenSum(a: seq<Found>, b: seq<Found>)
    ensures RestOpen(a + b) <==> RestOpen(a) && RestOpen(b)
  {
    if RestOpen(a + b) {
      forall i | 0 <= i < |a| ensures a[i].node.Folder? && a[i].node.opens
          && AllOpen(a[i].node.entries) { assert (a + b)[i] == a[i]; }
      forall i | 0 <= i < |b| ensures b[i].node.Folder? && b[i].node.opens
          && AllOpen(b[i].node.entries) { assert (a + b)[|a| + i] == b[i]; }
    }
  }

  /** What is left when directories have been added at the end of the list. */
  lemma Extended(q: seq<Found>, added: seq<Found>, d: nat)
    requires d <= |q|
    ensures (q + added)[d..] == q[d..] + added
    ensures Rest((q + added)[d..]) == Rest(q[d..]) + Rest(added)
    ensures RestOpen((q + added)[d..]) <==> RestOpen(q[d..]) && RestOpen(added)
    ensures Work((q + added)[d..]) == Work(q[d..]) + Work(added)
  {
    assert (q + added)[d..] == q[d..] + added;
    RestSum(q[d..], added);
    OpenSum(q[d..], added);
  }

  /** One directory of the list, when it can be opened: what is found goes to the ends of the
      list and of the tests. */
  method Visit(dirs: seq<Found>, d: nat, tests: seq<string>) returns (dirs': seq<Found>, tests': seq<string>)
    requires d < |dirs| && Folders(dirs) && dirs[d].node.opens
    ensures d + 1 <= |dirs'| && Folders(dirs')
    ensures multiset(tests') + Rest(dirs'[d + 1..]) == multiset(tests) + Rest(dirs[d..])
    ensures RestOpen(dirs'[d + 1..]) <==> RestOpen(dirs[d..])
    ensures Work(dirs'[d + 1..]) < Work(dirs[d..])
  {
    FirstFound(dirs, d);
    var added;
    added, tests' := ReadDirectory(dirs[d].path, dirs[d].node.entries, tests);
    Extended(dirs, added, d + 1);
    dirs' := dirs + added;
    Exchange(multiset(tests'), Rest(added), multiset(tests), multiset(Tests(dirs[d].node.entries, dirs[d].path)), Rest(dirs[d + 1..]));
  }

  lemma Exchange(a: multiset<string>, b: multiset<string>, c: multiset<string>, d: multiset<string>,
      e: multiset<string>)
    requires a + b == c + d
    ensures a + (e + b) == c + (d + e)
  {
    Sums(a, e, b);
    Sums(a, b, e);
    Sums(c, d, e);
  }

  lemma Closed(dirs: seq<Found>, d: nat)
    requires d < |dirs| && dirs[d].node.Folder? && !dirs[d].node.opens
    ensures !RestOpen(dirs[d..])
  {
    assert dirs[d..][0] == dirs[d];
  }

  lemma Start(testpath: string, root: Node)
    requires root.Folder?
    ensures var q := [Found(testpath, root)][0..];
            Rest(q) == multiset(Tests(root.entries, testpath)) && (RestOpen(q) <==> root.opens && AllOpen(root.entries))
  {
    var q := [Found(testpath, root)];
    FirstFound(q, 0);
    assert q[1..] == [];
  }

  /** find_tests.  The result is NULL when some directory cannot be opened, and otherwise the
      tests of the recursive walk, sorted by path. */
  method FindTests(testpath: string, root: Node) returns (result: Option<seq<string>>)
    requires root.Folder?
    ensures result.Some? <==> root.opens && AllOpen(root.entries)
    ensures result.Some? ==> Sorted(result.value) && multiset(result.value) == multiset(Tests(root.entries, testpath))
    ensures result.Some? ==> Listed(root.entries, testpath, result.value)
  {
    var tests: seq<string> := [];
    var dirs := [Found(testpath, root)];
    Start(testpath, root);
    var d := 0;
    while d < |dirs|
      invariant 0 <= d <= |dirs| && Folders(dirs)
      invariant multiset(tests) + Rest(dirs[d..]) == multiset(Tests(root.entries, testpath))
      invariant RestOpen(dirs[d..]) <==> root.opens && AllOpen(root.entries)
      decreases Work(dirs[d..])
    {
      if !dirs[d].node.opens {
        Closed(dirs, d);
        return None;
      }
      dirs, tests := Visit(dirs, d, tests);
      d := d + 1;
    }
    tests := SortPaths(tests);
    SortedListed(root.entries, testpath, tests);
    result := Some(tests);
  }

  lemma {:induction false} RestSum(a: seq<Found>, b: seq<Found>)
    ensures Rest(a + b) == Rest(a) + Rest(b) && Work(a + b) == Work(a) + Work(b)
  {
    if a == [] {
      assert a + b == b;
    } else {
      assert (a + b)[1..] == a[1..] + b;
      RestSum(a[1..], b);
    }
  }

  // ---------- each once ----------

  /** What a file system sees to: the names in a directory are distinct and hold no slash. */
  ghost predicate WellNamed(entries: seq<Entry>) {
    && (forall i, j {:trigger entries[i], entries[j]} :: 0 <= i < j < |entries| ==> entries[i].name != entries[j].name)
    && (forall i {:trigger entries[i]} :: 0 <= i < |entries| ==> '/' !in entries[i].name)
    && (forall i {:trigger entries[i]} :: 0 <= i < |entries| && entries[i].node.Folder? ==> WellNamed(entries[i].node.entries))
  }

  /** p is the path of that entry or below it. */
  ghost predicate Under(p: string, dir: string, name: string) {
    var j := Join(dir, name);
    |j| <= |p| && p[..|j|] == j && (|p| > |j| ==> p[|j|] == '/')
  }

  lemma UnderLonger(p: string, dir: string, a: string, b: string)
    requires Under(p, dir, a) && Under(p, dir, b) && |a| < |b|
    ensures '/' in b
  {
    var j, k := Join(dir, a), Join(dir, b);
    assert k[|j|] == b[|a|] && k[|j|] == p[|j|];
    assert b[|a|] in b;
  }

  lemma UnderOne(p: string, dir: string, a: string, b: string)
    requires Under(p, dir, a) && Under(p, dir, b) && '/' !in a && '/' !in b
    ensures a == b
  {
    if |a| < |b| { UnderLonger(p, dir, a, b); }
    if |b| < |a| { UnderLonger(p, dir, b, a); }
    var j, k := Join(dir, a), Join(dir, b);
    assert j[|dir| + 1..] == a && k[|dir| + 1..] == b;
  }

  lemma UnderDeeper(p: string, dir: string, name: string, inner: string)
    requires Under(p, Join(dir, name), inner)
    ensures Under(p, dir, name)
  {
    var j, k := Join(dir, name), Join(Join(dir, name), inner);
    assert k[..|j|] == j && k[|j|] == '/';
    assert p[..|k|][..|j|] == p[..|j|] && p[..|k|][|j|] == p[|j|];
  }

  lemma {:induction false} TestsUnder(entries: seq<Entry>, dir: string, p: string) returns (i: nat)
    requires p in Tests(entries, dir)
    ensures i < |entries| && Under(p, dir, entries[i].name) && p in TestsAt(entries[i], dir)
  {
    if p in TestsAt(entries[0], dir) {
      i := 0;
      var e := entries[0];
      if e.node.Folder? {
        var k := TestsUnder(e.node.entries, Join(dir, e.name), p);
        UnderDeeper(p, dir, e.name, e.node.entries[k].name);
      }
    } else {
      i := TestsUnder(entries[1..], dir, p);
      i := i + 1;
    }
  }

  ghost predicate Once(q: seq<string>) {
    forall p :: multiset(q)[p] <= 1
  }

  lemma OnceSum(a: seq<string>, b: seq<string>)
    requires Once(a) && Once(b) && forall p :: p in a ==> p !in b
    ensures Once(a + b)
  {
    forall p ensures multiset(a + b)[p] <= 1 {
      assert multiset(a + b) == multiset(a) + multiset(b);
      assert p in a <==> multiset(a)[p] > 0;
      assert p in b <==> multiset(b)[p] > 0;
    }
  }

  lemma {:induction false} EntryOnce(e: Entry, dir: string)
    requires e.node.Folder? ==> WellNamed(e.node.entries)
    ensures Once(TestsAt(e, dir))
  {
    if !Hidden(e.name) && e.node.Folder? { TestsOnce(e.node.entries, Join(dir, e.name)); }
  }

  lemma EntryUnder(e: Entry, dir: string, p: string)
    requires p in TestsAt(e, dir)
    ensures Under(p, dir, e.name)
  {
    assert Tests([e], dir) == TestsAt(e, dir) + [];
    var i := TestsUnder([e], dir, p);
  }

  /** The paths of the walk are all different. */
  lemma {:induction false} TestsOnce(entries: seq<Entry>, dir: string)
    requires WellNamed(entries)
    ensures Once(Tests(entries, dir))
  {
    if entries != [] {
      var e, rest := entries[0], entries[1..];
      var a, b := TestsAt(e, dir), Tests(rest, dir);
      assert forall i :: 0 <= i < |rest| ==> rest[i] == entries[i + 1];
      TestsOnce(rest, dir);
      EntryOnce(e, dir);
      forall p | p in a ensures p !in b {
        if p in b {
          EntryUnder(e, dir, p);
          var k := TestsUnder(rest, dir, p);
          assert '/' !in entries[k + 1].name && entries[0].name != entries[k + 1].name;
          UnderOne(p, dir, e.name, rest[k].name);
        }
      }
      OnceSum(a, b);
    }
  }
}
