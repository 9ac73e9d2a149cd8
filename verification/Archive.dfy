/** The archive analyzer: unpack, triage every file, reopen nested archives, with a cap on both
    the nesting depth and the number of children. */
module Archive {
  import opened Common

  const MAX_CHILDREN := 60
  const MAX_DEPTH := 3
  const CAP := MAX_CHILDREN * MAX_DEPTH

  /** What triage identifies; everything not named here is neither opened nor executable. */
  datatype Family =
    | Pe | Elf
    | Zip | Rar | SevenZip | Gzip | Bzip2 | Xz | Cab | Iso
    | Jar | OoxmlWord | OoxmlExcel | OoxmlPowerpoint | OoxmlOther
    | Other(name: string)
  {
    predicate Native() {
      Pe? || Elf?
    }

    /** The families the walk reopens. */
    predicate NestedArchive() {
      !Pe? && !Elf? && !Other?
    }
  }

  /** File contents only matter through what triage and extraction make of them, so an archive
      may well contain itself. */
  type Content = seq<nat>

  datatype File = File(name: string, content: Content)
  datatype Dir = Dir(files: seq<File>, folders: seq<Folder>)
  datatype Folder = Folder(name: string, dir: Dir)

  datatype Triage = TriageFailed(error: string) | Triaged(family: Family, dangerousExtension: bool, kind: string)
  datatype Extraction = NotOk | Unpacked(dir: Dir)

  /** The two outside services: triage of a file under its name, and one level of unpacking, which
      for single-stream formats also goes by the name. */
  datatype World = World(triage: (Content, string) -> Triage, extract: (Content, string, Family) -> Extraction)

  datatype Child =
    | Unreadable(name: string, depth: nat, error: string)
    | Readable(name: string, depth: nat, family: Family, kind: string, dangerous: bool)
  {
    predicate Executable() {
      Readable? && (family.Native() || dangerous)
    }

    predicate IsArchive() {
      Readable? && family.NestedArchive()
    }
  }

  // ---- directories in walk order

  function Join(prefix: string, name: string): string {
    if prefix == "" then name else prefix + "/" + name
  }

  function SortByName(files: seq<File>): seq<File> {
    if files == [] then [] else InsertByName(files[0], SortByName(files[1..]))
  }

  function InsertByName(f: File, files: seq<File>): seq<File> {
    if files == [] || !StringLess(files[0].name, f.name) then [f] + files
    else [files[0]] + InsertByName(f, files[1..])
  }

  lemma {:induction false} InsertKeeps(f: File, files: seq<File>)
    ensures multiset(InsertByName(f, files)) == multiset{f} + multiset(files)
  {
    if files != [] && StringLess(files[0].name, f.name) {
      InsertKeeps(f, files[1..]);
      assert files == [files[0]] + files[1..];
    }
  }

  /** Sorting keeps every file. */
  lemma {:induction false} SortKeeps(files: seq<File>)
    ensures multiset(SortByName(files)) == multiset(files)
  {
    if files != [] {
      SortKeeps(files[1..]);
      InsertKeeps(files[0], SortByName(files[1..]));
      assert files == [files[0]] + files[1..];
    }
  }

  /** No later name is smaller than an earlier one. */
  predicate NamesInOrder(files: seq<File>) {
    forall i, j :: 0 <= i < j < |files| ==> !StringLess(files[j].name, files[i].name)
  }

  lemma NotLessTransitive(a: string, b: string, c: string)
    requires !StringLess(b, a) && !StringLess(c, b)
    ensures !StringLess(c, a)
  {
    StringLessTotal(a, b);
    StringLessTotal(b, c);
    StringLessTotal(a, c);
    if StringLess(a, b) && StringLess(b, c) { StringLessTransitive(a, b, c); }
  }

  lemma {:induction false} InsertOrders(f: File, files: seq<File>)
    requires NamesInOrder(files)
    ensures NamesInOrder(InsertByName(f, files))
  {
    if files == [] || !StringLess(files[0].name, f.name) {
      forall j | 0 <= j < |files| ensures !StringLess(files[j].name, f.name) {
        if j > 0 { NotLessTransitive(f.name, files[0].name, files[j].name); }
      }
    } else {
      var rest := InsertByName(f, files[1..]);
      InsertOrders(f, files[1..]);
      InsertKeeps(f, files[1..]);
      StringLessTotal(files[0].name, f.name);
      forall j | 0 <= j < |rest| ensures !StringLess(rest[j].name, files[0].name) {
        assert rest[j] in multiset(rest);
        FirstIsSmallest(f, files, rest[j]);
      }
    }
  }

  lemma FirstIsSmallest(f: File, files: seq<File>, g: File)
    requires files != [] && NamesInOrder(files) && !StringLess(f.name, files[0].name)
    requires g == f || g in files[1..]
    ensures !StringLess(g.name, files[0].name)
  {
    if g != f {
      var i :| 0 <= i < |files[1..]| && files[1..][i] == g;
      assert files[i + 1] == g;
    }
  }

  /** `sorted(files)`: all of them, in name order. */
  lemma {:induction false} SortOrders(files: seq<File>)
    ensures NamesInOrder(SortByName(files)) && multiset(SortByName(files)) == multiset(files)
  {
    SortKeeps(files);
    if files != [] {
      SortOrders(files[1..]);
      InsertOrders(files[0], SortByName(files[1..]));
    }
  }

  datatype Entry = Entry(path: string, file: File)

  /** The files of a directory tree, each with its path, in one flat list: a directory's own
      files in name order, then its folders one after the other. */
  function Entries(dir: Dir, path: string): seq<Entry>
    decreases dir, 1
  {
    InFolder(SortByName(dir.files), path) + FolderEntries(dir.folders, path)
  }

  function InFolder(files: seq<File>, path: string): seq<Entry> {
    if files == [] then [] else [Entry(Join(path, files[0].name), files[0])] + InFolder(files[1..], path)
  }

  function FolderEntries(folders: seq<Folder>, path: string): seq<Entry>
    decreases folders, 0
  {
    if folders == [] then [] else
      Entries(folders[0].dir, Join(path, folders[0].name)) + FolderEntries(folders[1..], path)
  }

  // ---- the same without any order

  /** Each file of a folder at `path`, as often as it occurs there. */
  function FileBag(files: seq<File>, path: string): multiset<Entry> {
    if files == [] then multiset{} else
      multiset{Entry(if path == "" then files[0].name else path + "/" + files[0].name, files[0])}
      + FileBag(files[1..], path)
  }

  /** Each file that lies anywhere below `path`, with its full path, as often as it occurs. */
  function TreeBag(dir: Dir, path: string): multiset<Entry>
    decreases dir, 1
  {
    FileBag(dir.files, path) + FolderBag(dir.folders, path)
  }

  function FolderBag(folders: seq<Folder>, path: string): multiset<Entry>
    decreases folders, 0
  {
    if folders == [] then multiset{} else
      TreeBag(folders[0].dir, if path == "" then folders[0].name else path + "/" + folders[0].name)
      + FolderBag(folders[1..], path)
  }

  lemma {:induction false} InFolderBag(files: seq<File>, path: string)
    ensures multiset(InFolder(files, path)) == FileBag(files, path)
  {
    if files != [] { InFolderBag(files[1..], path); }
  }

  lemma {:induction false} InsertedBag(f: File, files: seq<File>, path: string)
    ensures FileBag(InsertByName(f, files), path) == FileBag([f] + files, path)
  {
    assert ([f] + files)[1..] == files;
    if files != [] && StringLess(files[0].name, f.name) {
      InsertedBag(f, files[1..], path);
      assert ([f] + files[1..])[1..] == files[1..];
      assert ([files[0]] + InsertByName(f, files[1..]))[1..] == InsertByName(f, files[1..]);
    }
  }

  lemma {:induction false} SortedBag(files: seq<File>, path: string)
    ensures FileBag(SortByName(files), path) == FileBag(files, path)
  {
    if files != [] {
      SortedBag(files[1..], path);
      InsertedBag(files[0], SortByName(files[1..]), path);
      assert ([files[0]] + SortByName(files[1..]))[1..] == SortByName(files[1..]);
    }
  }

  /** The flat list holds exactly the files that lie in the tree, each with its path and as often as it
      occurs. */
  lemma {:induction false} EntriesAreTheTree(dir: Dir, path: string)
    ensures multiset(Entries(dir, path)) == TreeBag(dir, path)
    decreases dir, 1
  {
    InFolderBag(SortByName(dir.files), path);
    SortedBag(dir.files, path);
    FoldersAreTheTree(dir.folders, path);
  }

  lemma {:induction false} FoldersAreTheTree(folders: seq<Folder>, path: string)
    ensures multiset(FolderEntries(folders, path)) == FolderBag(folders, path)
    decreases folders, 0
  {
    if folders != [] {
      EntriesAreTheTree(folders[0].dir, Join(path, folders[0].name));
      FoldersAreTheTree(folders[1..], path);
    }
  }

  /** A directory's own files come first, in name order, and then its folders, one behind the other. */
  lemma EntriesInOrder(dir: Dir, path: string)
    ensures var own := SortByName(dir.files);
            && NamesInOrder(own) && multiset(own) == multiset(dir.files)
            && |own| <= |Entries(dir, path)|
            && (forall i :: 0 <= i < |own| ==> Entries(dir, path)[i].file == own[i])
            && Entries(dir, path)[|own|..] == FolderEntries(dir.folders, path)
  {
    SortOrders(dir.files);
    InFolderPlaces(SortByName(dir.files), path);
  }

  lemma {:induction false} InFolderPlaces(files: seq<File>, path: string)
    ensures |InFolder(files, path)| == |files|
    ensures forall i :: 0 <= i < |files| ==> InFolder(files, path)[i].file == files[i]
  {
    if files != [] { InFolderPlaces(files[1..], path); }
  }

  lemma {:induction false} FoldersInOrder(a: seq<Folder>, b: seq<Folder>, path: string)
    ensures FolderEntries(a + b, path) == FolderEntries(a, path) + FolderEntries(b, path)
    decreases |a|
  {
    if a == [] {
      assert a + b == b;
    } else {
      assert (a + b)[1..] == a[1..] + b;
      FoldersInOrder(a[1..], b, path);
    }
  }

  datatype Root = Root(path: string, files: seq<File>)

  /** `os.walk`, top down. */
  function OsWalk(dir: Dir, path: string): seq<Root>
    decreases dir, 1
  {
    [Root(path, dir.files)] + WalkFolders(dir.folders, path)
  }

  function WalkFolders(folders: seq<Folder>, path: string): seq<Root>
    decreases folders, 0
  {
    if folders == [] then [] else
      OsWalk(folders[0].dir, Join(path, folders[0].name)) + WalkFolders(folders[1..], path)
  }

  function RootEntries(roots: seq<Root>): seq<Entry> {
    if roots == [] then [] else InFolder(SortByName(roots[0].files), roots[0].path) + RootEntries(roots[1..])
  }

  lemma {:induction false} RootEntriesConcat(a: seq<Root>, b: seq<Root>)
    ensures RootEntries(a + b) == RootEntries(a) + RootEntries(b)
  {
    if a == [] {
      assert a + b == b;
    } else {
      assert (a + b)[1..] == a[1..] + b;
      RootEntriesConcat(a[1..], b);
    }
  }

  /** Walking root by root and file by file meets the files in the order of the flat list. */
  lemma {:induction false} WalkMeetsEntries(dir: Dir, path: string)
    ensures RootEntries(OsWalk(dir, path)) == Entries(dir, path)
    decreases dir, 1
  {
    FoldersMeetEntries(dir.folders, path);
    RootEntriesConcat([Root(path, dir.files)], WalkFolders(dir.folders, path));
    assert RootEntries([Root(path, dir.files)]) == InFolder(SortByName(dir.files), path);
  }

  lemma {:induction false} FoldersMeetEntries(folders: seq<Folder>, path: string)
    ensures RootEntries(WalkFolders(folders, path)) == FolderEntries(folders, path)
    decreases folders, 0
  {
    if folders != [] {
      var below := Join(path, folders[0].name);
      WalkMeetsEntries(folders[0].dir, below);
      FoldersMeetEntries(folders[1..], path);
      RootEntriesConcat(OsWalk(folders[0].dir, below), WalkFolders(folders[1..], path));
    }
  }

  // ---- the simple flatten: no cap, no shared list

  function ChildOf(w: World, e: Entry, depth: nat, prefix: string): Child {
    match w.triage(e.file.content, e.file.name)
    case TriageFailed(error) => Unreadable(Join(prefix, e.path), depth, error)
    case Triaged(family, dangerousExtension, kind) =>
      Readable(Join(prefix, e.path), depth, family, kind, dangerousExtension || family.Native())
  }

  /** The directory a file opens into, if the walk reopens it at this depth. */
  function Inside(w: World, e: Entry, depth: nat): Extraction {
    match w.triage(e.file.content, e.file.name)
    case TriageFailed(_) => NotOk
    case Triaged(family, _, _) =>
      if family.NestedArchive() && depth < MAX_DEPTH then w.extract(e.file.content, e.file.name, family) else NotOk
  }

  /** Pre-order: each file, and right behind it everything inside it. */
  function Listing(w: World, entries: seq<Entry>, depth: nat, prefix: string): seq<Child>
    requires depth <= MAX_DEPTH
    decreases MAX_DEPTH - depth, |entries|
  {
    if entries == [] then [] else
      FileListing(w, entries[0], depth, prefix) + Listing(w, entries[1..], depth, prefix)
  }

  function FileListing(w: World, e: Entry, depth: nat, prefix: string): seq<Child>
    requires depth <= MAX_DEPTH
    decreases MAX_DEPTH - depth, 0
  {
    [ChildOf(w, e, depth, prefix)] +
    match Inside(w, e, depth)
    case NotOk => []
    case Unpacked(dir) => Listing(w, Entries(dir, ""), depth + 1, Join(prefix, e.path))
  }

  // ---- what the listing lists

  /** A file met by the walk: under which name, and how many archives deep. */
  datatype Met = Met(name: string, depth: nat, file: File)

  predicate Reopened(f: Family) {
    || f == Zip || f == Rar || f == SevenZip || f == Gzip || f == Bzip2 || f == Xz || f == Cab || f == Iso
    || f == Jar || f == OoxmlWord || f == OoxmlExcel || f == OoxmlPowerpoint || f == OoxmlOther
  }

  /** `m` is the file of this entry, or lies in the archive that it is. */
  ghost predicate MetAt(w: World, e: Entry, depth: nat, prefix: string, m: Met)
    decreases if depth < 3 then 3 - depth else 0, 0
  {
    var name := if prefix == "" then e.path else prefix + "/" + e.path;
    || m == Met(name, depth, e.file)
    || (depth < 3
        && match w.triage(e.file.content, e.file.name)
           case TriageFailed(_) => false
           case Triaged(family, _, _) =>
             && Reopened(family)
             && match w.extract(e.file.content, e.file.name, family)
                case NotOk => false
                case Unpacked(dir) => LiesIn(w, dir, depth + 1, name, m))
  }

  /** `m` lies somewhere in this tree, unpacking archives down to depth 3. */
  ghost predicate LiesIn(w: World, dir: Dir, depth: nat, prefix: string, m: Met)
    decreases if depth < 3 then 3 - depth else 0, 1
  {
    exists e :: e in TreeBag(dir, "") && MetAt(w, e, depth, prefix, m)
  }

  /** What is to be recorded of a file. */
  predicate Describes(w: World, c: Child, m: Met) {
    match w.triage(m.file.content, m.file.name)
    case TriageFailed(error) => c == Unreadable(m.name, m.depth, error)
    case Triaged(family, dangerousExtension, kind) =>
      c == Readable(m.name, m.depth, family, kind, dangerousExtension || family == Pe || family == Elf)
  }

  ghost predicate ShownAmong(w: World, entries: seq<Entry>, depth: nat, prefix: string, c: Child) {
    exists i, m :: 0 <= i < |entries| && ShownAt(w, entries[i], depth, prefix, m, c)
  }

  ghost predicate ShownAt(w: World, e: Entry, depth: nat, prefix: string, m: Met, c: Child) {
    MetAt(w, e, depth, prefix, m) && Describes(w, c, m)
  }

  /** Some file in the tree is described by `c`. */
  ghost predicate Shown(w: World, dir: Dir, depth: nat, prefix: string, c: Child) {
    exists m :: LiesIn(w, dir, depth, prefix, m) && Describes(w, c, m)
  }

  lemma ShownInTree(w: World, dir: Dir, depth: nat, prefix: string, c: Child)
    ensures ShownAmong(w, Entries(dir, ""), depth, prefix, c) <==> Shown(w, dir, depth, prefix, c)
  {
    EntriesAreTheTree(dir, "");
    var all := Entries(dir, "");
    if i, m :| 0 <= i < |all| && ShownAt(w, all[i], depth, prefix, m, c) {
      assert all[i] in multiset(all);
      assert LiesIn(w, dir, depth, prefix, m);
    }
    if m :| LiesIn(w, dir, depth, prefix, m) && Describes(w, c, m) {
      var e :| e in TreeBag(dir, "") && MetAt(w, e, depth, prefix, m);
      assert e in multiset(all);
      var i :| 0 <= i < |all| && all[i] == e;
      assert ShownAt(w, all[i], depth, prefix, m, c);
    }
  }

  lemma ShownFirst(w: World, e: Entry, rest: seq<Entry>, depth: nat, prefix: string, c: Child)
    ensures ShownAmong(w, [e] + rest, depth, prefix, c)
       <==> (exists m :: ShownAt(w, e, depth, prefix, m, c)) || ShownAmong(w, rest, depth, prefix, c)
  {
    var all := [e] + rest;
    if m :| ShownAt(w, e, depth, prefix, m, c) { assert ShownAt(w, all[0], depth, prefix, m, c); }
    if i, m :| 0 <= i < |rest| && ShownAt(w, rest[i], depth, prefix, m, c) {
      assert ShownAt(w, all[i + 1], depth, prefix, m, c);
    }
    if i, m :| 0 <= i < |all| && ShownAt(w, all[i], depth, prefix, m, c) {
      if i > 0 { assert ShownAt(w, rest[i - 1], depth, prefix, m, c); }
    }
  }

  /** The entry itself, or what is inside. */
  lemma ShownByFile(w: World, e: Entry, depth: nat, prefix: string, c: Child)
    requires depth <= MAX_DEPTH
    ensures (exists m :: ShownAt(w, e, depth, prefix, m, c))
       <==> c == ChildOf(w, e, depth, prefix)
            || (Inside(w, e, depth).Unpacked? && Shown(w, Inside(w, e, depth).dir, depth + 1, Join(prefix, e.path), c))
  {
    var self := Met(Join(prefix, e.path), depth, e.file);
    if c == ChildOf(w, e, depth, prefix) { assert ShownAt(w, e, depth, prefix, self, c); }
    if Inside(w, e, depth).Unpacked? {
      if m :| LiesIn(w, Inside(w, e, depth).dir, depth + 1, Join(prefix, e.path), m) && Describes(w, c, m) {
        assert ShownAt(w, e, depth, prefix, m, c);
      }
    }
    if m :| ShownAt(w, e, depth, prefix, m, c) {
      if m != self { assert LiesIn(w, Inside(w, e, depth).dir, depth + 1, Join(prefix, e.path), m); }
    }
  }

  lemma {:induction false} ListingShows(w: World, entries: seq<Entry>, depth: nat, prefix: string, c: Child)
    requires depth <= MAX_DEPTH
    ensures c in Listing(w, entries, depth, prefix) <==> ShownAmong(w, entries, depth, prefix, c)
    decreases MAX_DEPTH - depth, |entries|
  {
    if entries != [] {
      var inside := Inside(w, entries[0], depth);
      if inside.Unpacked? {
        var name := Join(prefix, entries[0].path);
        ListingShows(w, Entries(inside.dir, ""), depth + 1, name, c);
        ShownInTree(w, inside.dir, depth + 1, name, c);
      }
      FileShows(w, entries[0], depth, prefix, c);
      ListingShows(w, entries[1..], depth, prefix, c);
      ShownFirst(w, entries[0], entries[1..], depth, prefix, c);
      assert entries == [entries[0]] + entries[1..];
    }
  }

  lemma FileShows(w: World, e: Entry, depth: nat, prefix: string, c: Child)
    requires depth <= MAX_DEPTH
    requires Inside(w, e, depth).Unpacked? ==>
               var dir, name := Inside(w, e, depth).dir, Join(prefix, e.path);
               c in Listing(w, Entries(dir, ""), depth + 1, name) <==> Shown(w, dir, depth + 1, name, c)
    ensures c in FileListing(w, e, depth, prefix) <==> exists m :: ShownAt(w, e, depth, prefix, m, c)
  {
    ShownByFile(w, e, depth, prefix, c);
  }

  /** The listing of an unpacked archive holds exactly the descriptions of the files that lie in it, those
      in archives inside it included, down to depth 3. */
  lemma ListingIsTheArchive(w: World, dir: Dir, c: Child)
    ensures c in Listing(w, Entries(dir, ""), 1, "") <==> Shown(w, dir, 1, "", c)
  {
    ListingShows(w, Entries(dir, ""), 1, "", c);
    ShownInTree(w, dir, 1, "", c);
  }

  /** Pre-order: each file is followed by everything inside it, and then by the next file. */
  lemma {:induction false} ListingInOrder(w: World, a: seq<Entry>, e: Entry, b: seq<Entry>, depth: nat, prefix: string)
    requires depth <= MAX_DEPTH
    ensures Listing(w, a + ([e] + b), depth, prefix)
         == Listing(w, a, depth, prefix) + (FileListing(w, e, depth, prefix) + Listing(w, b, depth, prefix))
    ensures FileListing(w, e, depth, prefix)[0] == ChildOf(w, e, depth, prefix)
    decreases |a|
  {
    if a == [] {
      assert a + ([e] + b) == [e] + b && ([e] + b)[1..] == b;
    } else {
      assert (a + ([e] + b))[1..] == a[1..] + ([e] + b);
      ListingInOrder(w, a[1..], e, b, depth, prefix);
    }
  }

  // ---- what every listing satisfies

  /** Depths stay between `low` and the maximum, and anything deeper than `low` has the archive
      it was found in somewhere before it. */
  ghost predicate WellNested(s: seq<Child>, low: nat) {
    && (forall i :: 0 <= i < |s| ==> low <= s[i].depth <= MAX_DEPTH)
    && (forall i :: 0 <= i < |s| && s[i].depth > low ==>
          exists j :: 0 <= j < i && s[j].depth == s[i].depth - 1 && s[j].IsArchive())
  }

  lemma WellNestedConcat(a: seq<Child>, b: seq<Child>, low: nat)
    requires WellNested(a, low) && WellNested(b, low)
    ensures WellNested(a + b, low)
  {
    var s := a + b;
    forall i | 0 <= i < |s| && s[i].depth > low
      ensures exists j :: 0 <= j < i && s[j].depth == s[i].depth - 1 && s[j].IsArchive()
    {
      if i < |a| {
        var j :| 0 <= j < i && a[j].depth == a[i].depth - 1 && a[j].IsArchive();
        assert s[j] == a[j];
      } else {
        var k := i - |a|;
        var j :| 0 <= j < k && b[j].depth == b[k].depth - 1 && b[j].IsArchive();
        assert s[|a| + j] == b[j];
      }
    }
  }

  lemma WellNestedUnder(c: Child, inner: seq<Child>, low: nat)
    requires c.depth == low && low < MAX_DEPTH && c.IsArchive() && WellNested(inner, low + 1)
    ensures WellNested([c] + inner, low)
  {
    var s := [c] + inner;
    assert s[0] == c;
    forall i | 0 <= i < |s| && s[i].depth > low
      ensures exists j :: 0 <= j < i && s[j].depth == s[i].depth - 1 && s[j].IsArchive()
    {
      assert s[i] == inner[i - 1];
      if s[i].depth > low + 1 {
        var j :| 0 <= j < i - 1 && inner[j].depth == inner[i - 1].depth - 1 && inner[j].IsArchive();
        assert s[j + 1] == inner[j];
      }
    }
  }

  lemma {:induction false} ListingWellNested(w: World, entries: seq<Entry>, depth: nat, prefix: string)
    requires depth <= MAX_DEPTH
    ensures WellNested(Listing(w, entries, depth, prefix), depth)
    decreases MAX_DEPTH - depth, |entries|
  {
    if entries != [] {
      var e := entries[0];
      var inside := Inside(w, e, depth);
      if inside.Unpacked? {
        ListingWellNested(w, Entries(inside.dir, ""), depth + 1, Join(prefix, e.path));
        WellNestedUnder(ChildOf(w, e, depth, prefix),
                        Listing(w, Entries(inside.dir, ""), depth + 1, Join(prefix, e.path)), depth);
      }
      ListingWellNested(w, entries[1..], depth, prefix);
      WellNestedConcat(FileListing(w, e, depth, prefix), Listing(w, entries[1..], depth, prefix), depth);
    }
  }

  // ---- names of extraction directories

  function Decimal(n: nat): string {
    var digit := ["0123456789"[n % 10]];
    if n < 10 then digit else Decimal(n / 10) + digit
  }

  /** The number a string of digits stands for. */
  function NumberOf(s: string): int {
    if s == "" then 0 else NumberOf(s[..|s| - 1]) * 10 + (s[|s| - 1] as int - '0' as int)
  }

  lemma {:induction false} DecimalReads(n: nat)
    ensures NumberOf(Decimal(n)) == n
  {
    var digit := ["0123456789"[n % 10]];
    assert digit[0] as int - '0' as int == n % 10;
    if n < 10 {
      assert digit[..0] == "";
    } else {
      DecimalReads(n / 10);
      assert (Decimal(n / 10) + digit)[..|Decimal(n / 10)|] == Decimal(n / 10);
    }
  }

  lemma {:induction false} DecimalInjective(m: nat, n: nat)
    requires Decimal(m) == Decimal(n)
    ensures m == n
  {
    var a, b := Decimal(m), Decimal(n);
    DecimalLength(m);
    DecimalLength(n);
    assert a[|a| - 1] == b[|b| - 1];
    assert m % 10 == n % 10;
    if m >= 10 && n >= 10 {
      assert a[..|a| - 1] == Decimal(m / 10) && b[..|b| - 1] == Decimal(n / 10);
      DecimalInjective(m / 10, n / 10);
    }
  }

  lemma {:induction false} DecimalLength(n: nat)
    ensures |Decimal(n)| >= 1 && (n < 10 <==> |Decimal(n)| == 1)
  {
    if n >= 10 { DecimalLength(n / 10); }
  }

  /** An extraction: the depth it was started at and how many children were recorded by then. */
  datatype Dest = Dest(depth: nat, recorded: nat)

  function DestName(d: Dest): string {
    "nested_" + Decimal(d.depth) + "_" + Decimal(d.recorded)
  }

  lemma DestNamesDiffer(a: Dest, b: Dest)
    requires a.depth < 10 && b.depth < 10 && a.recorded != b.recorded
    ensures DestName(a) != DestName(b)
  {
    if DestName(a) == DestName(b) {
      DecimalLength(a.depth);
      DecimalLength(b.depth);
      assert DestName(a)[9..] == Decimal(a.recorded);
      assert DestName(b)[9..] == Decimal(b.recorded);
      DecimalInjective(a.recorded, b.recorded);
    }
  }

  /** The extractions behind a list of children: one for each archive that is not too deep, at the
      moment it has been recorded. */
  function DestsOf(s: seq<Child>): seq<Dest> {
    if s == [] then [] else
      var last := s[|s| - 1];
      DestsOf(s[..|s| - 1]) + if last.IsArchive() && last.depth < 3 then [Dest(last.depth, |s|)] else []
  }

  lemma {:induction false} DestsGrow(s: seq<Child>)
    ensures forall i :: 0 <= i < |DestsOf(s)| ==> DestsOf(s)[i].depth < 3 && DestsOf(s)[i].recorded <= |s|
    ensures forall i, j :: 0 <= i < j < |DestsOf(s)| ==> DestsOf(s)[i].recorded < DestsOf(s)[j].recorded
  {
    if s != [] { DestsGrow(s[..|s| - 1]); }
  }

  /** Every nested archive of one walk is unpacked into a directory of its own. */
  lemma DestsDistinct(s: seq<Child>, i: nat, j: nat)
    requires i < j < |DestsOf(s)|
    ensures DestName(DestsOf(s)[i]) != DestName(DestsOf(s)[j])
  {
    DestsGrow(s);
    DestNamesDiffer(DestsOf(s)[i], DestsOf(s)[j]);
  }

  lemma NextDest(s: seq<Child>, c: Child)
    ensures DestsOf(s + [c])
         == DestsOf(s) + if c.IsArchive() && c.depth < 3 then [Dest(c.depth, |s| + 1)] else []
  {
    assert (s + [c])[..|s|] == s;
  }

  // ---- the capped walk

  class Walker {
    const world: World
    var out: seq<Child>
    var dests: seq<Dest>

    constructor (w: World)
      ensures world == w && out == [] && dests == []
    {
      world, out, dests := w, [], [];
    }

    /** One call with every call it makes: the shared list becomes the capped pre-order listing. */
    method CollectChildren(dir: Dir, depth: nat, prefix: string)
      requires 1 <= depth <= MAX_DEPTH && |out| <= CAP && dests == DestsOf(out)
      modifies this
      ensures out == Take(old(out) + Listing(world, Entries(dir, ""), depth, prefix), CAP)
      ensures dests == DestsOf(out)
      decreases MAX_DEPTH - depth, 1
    {
      ghost var rest := Entries(dir, "");
      ghost var goal := Finish(world, out, rest, depth, prefix);
      var roots := OsWalk(dir, "");
      WalkMeetsEntries(dir, "");
      for r := 0 to |roots|
        invariant |out| <= CAP && rest == RootEntries(roots[r..]) && Finish(world, out, rest, depth, prefix) == goal
        invariant dests == DestsOf(out)
      {
        var files := SortByName(roots[r].files);
        var path := roots[r].path;
        ghost var later := NextRoot(roots, r);
        for f := 0 to |files|
          invariant |out| <= CAP && rest == InFolder(files[f..], path) + later
          invariant Finish(world, out, rest, depth, prefix) == goal
          invariant dests == DestsOf(out)
        {
          if |out| >= CAP {
            return;
          }
          var entry := Entry(Join(path, files[f].name), files[f]);
          ghost var next := NextFile(files, f, path, later);
          FinishStep(world, out, entry, next, depth, prefix);
          Record(entry, depth, prefix);
          rest := next;
        }
        assert InFolder(files[|files|..], path) + later == later;
      }
    }

    /** The loop body: record one file, then open it if it is an archive. */
    method Record(entry: Entry, depth: nat, prefix: string)
      requires 1 <= depth <= MAX_DEPTH && |out| < CAP && dests == DestsOf(out)
      modifies this
      ensures out == Take(old(out) + FileListing(world, entry, depth, prefix), CAP)
      ensures dests == DestsOf(out)
      decreases MAX_DEPTH - depth, 0
    {
      NextDest(out, ChildOf(world, entry, depth, prefix));
      out := out + [ChildOf(world, entry, depth, prefix)];
      match world.triage(entry.file.content, entry.file.name) {
        case TriageFailed(_) =>
        case Triaged(family, _, _) =>
          if family.NestedArchive() && depth < MAX_DEPTH {
            dests := dests + [Dest(depth, |out|)];
            var extraction := world.extract(entry.file.content, entry.file.name, family);
            if extraction.Unpacked? {
              CollectChildren(extraction.dir, depth + 1, Join(prefix, entry.path));
              ConcatAssociates(old(out), [ChildOf(world, entry, depth, prefix)],
                Listing(world, Entries(extraction.dir, ""), depth + 1, Join(prefix, entry.path)));
            }
          }
      }
    }
  }

  lemma NextRoot(roots: seq<Root>, r: nat) returns (later: seq<Entry>)
    requires r < |roots|
    ensures later == RootEntries(roots[r + 1..])
    ensures RootEntries(roots[r..]) == InFolder(SortByName(roots[r].files)[0..], roots[r].path) + later
  {
    later := RootEntries(roots[r + 1..]);
    assert roots[r..][1..] == roots[r + 1..];
    assert SortByName(roots[r].files)[0..] == SortByName(roots[r].files);
  }

  lemma NextFile(files: seq<File>, f: nat, path: string, later: seq<Entry>) returns (next: seq<Entry>)
    requires f < |files|
    ensures next == InFolder(files[f + 1..], path) + later
    ensures InFolder(files[f..], path) + later == [Entry(Join(path, files[f].name), files[f])] + next
  {
    next := InFolder(files[f + 1..], path) + later;
    assert files[f..][1..] == files[f + 1..];
  }

  /** The list once the entries still to come have been walked. */
  ghost function Finish(w: World, out: seq<Child>, rest: seq<Entry>, depth: nat, prefix: string): seq<Child>
    requires depth <= MAX_DEPTH
  {
    Take(out + Listing(w, rest, depth, prefix), CAP)
  }

  lemma FinishStep(w: World, out: seq<Child>, e: Entry, next: seq<Entry>, depth: nat, prefix: string)
    requires depth <= MAX_DEPTH
    ensures Finish(w, Take(out + FileListing(w, e, depth, prefix), CAP), next, depth, prefix)
         == Finish(w, out, [e] + next, depth, prefix)
  {
    var file, more := FileListing(w, e, depth, prefix), Listing(w, next, depth, prefix);
    assert ([e] + next)[1..] == next;
    TakeThenMore(out + file, more, CAP);
    assert out + file + more == out + (file + more);
  }

  lemma TakeThenMore<T>(a: seq<T>, b: seq<T>, n: nat)
    ensures Take(Take(a, n) + b, n) == Take(a + b, n)
  {}

  // ---- the report

  datatype Listed = Listed(name: string, extension: string, dangerousExtension: bool, isDir: bool)

  /** What the container's own table of contents says. */
  datatype Contents = Contents(encrypted: bool, entries: seq<Listed>)

  datatype ArchiveReport = ArchiveReport(
    passwordProtected: bool, dangerousEntries: seq<Listed>, children: seq<Child>,
    maxChildDepth: nat, containsExecutable: bool, nestedArchive: bool)

  function Dangerous(entries: seq<Listed>): seq<Listed> {
    if entries == [] then []
    else (if entries[0].dangerousExtension && !entries[0].isDir then [entries[0]] else [])
         + Dangerous(entries[1..])
  }

  /** All files the walk is meant to see, nested ones included. */
  function AllChildren(w: World, content: Content, name: string, family: Family, contents: Contents): seq<Child> {
    if contents.encrypted then [] else
      match w.extract(content, name, family)
      case NotOk => []
      case Unpacked(dir) => Listing(w, Entries(dir, ""), 1, "")
  }

  function MaxDepth(s: seq<Child>): (m: nat)
    ensures forall i :: 0 <= i < |s| ==> s[i].depth <= m
    ensures s == [] ==> m == 0
    ensures s != [] ==> exists i :: 0 <= i < |s| && s[i].depth == m
  {
    if s == [] then 0 else
      var rest := MaxDepth(s[1..]);
      assert forall i :: 1 <= i < |s| ==> s[i] == s[1..][i - 1];
      assert forall i :: 0 <= i < |s[1..]| ==> s[1..][i] == s[i + 1];
      if s[0].depth >= rest then s[0].depth else rest
  }

  predicate AnyExecutable(s: seq<Child>, low: nat) {
    exists i :: 0 <= i < |s| && s[i].Executable() && s[i].depth >= low
  }

  /** The report in terms of the uncapped listing. */
  ghost function ReportOf(w: World, content: Content, name: string, family: Family, contents: Contents): ArchiveReport {
    var children := Take(AllChildren(w, content, name, family, contents), CAP);
    ArchiveReport(contents.encrypted, Take(Dangerous(contents.entries), MAX_CHILDREN), children,
                  MaxDepth(children), AnyExecutable(children, 0), MaxDepth(children) >= 2)
  }

  /** A nested archive that the walk has opened, going by the depth it is listed at. */
  predicate AnyArchive(s: seq<Child>, low: nat) {
    exists i :: 0 <= i < |s| && s[i].IsArchive() && s[i].depth >= low
  }

  lemma {:induction false} DangerousIsFilter(entries: seq<Listed>)
    ensures Dangerous(entries) == Filter(entries, (e: Listed) => e.dangerousExtension && !e.isDir)
  {
    if entries != [] {
      DangerousIsFilter(entries[1..]);
      FilterFirst(entries[0], entries[1..], (e: Listed) => e.dangerousExtension && !e.isDir);
      assert entries == [entries[0]] + entries[1..];
    }
  }

  ghost predicate SomeDepth(s: seq<Child>, low: nat) {
    exists i :: 0 <= i < |s| && s[i].depth >= low
  }

  ghost predicate SomeExecutable(s: seq<Child>) {
    exists i :: 0 <= i < |s| && s[i].Readable? && (s[i].family == Pe || s[i].family == Elf || s[i].dangerous)
  }

  /** What the report says: the first 60 dangerous entries of the table of contents, the first 180 files of
      an archive that is not encrypted and could be unpacked, and what these come to. */
  lemma ReportSays(w: World, content: Content, name: string, family: Family, contents: Contents)
    ensures var r := ReportOf(w, content, name, family, contents);
            && r.passwordProtected == contents.encrypted
            && r.dangerousEntries
               == Take(Filter(contents.entries, (e: Listed) => e.dangerousExtension && !e.isDir), 60)
            && r.children == Take(if !contents.encrypted && w.extract(content, name, family).Unpacked?
                                  then Listing(w, Entries(w.extract(content, name, family).dir, ""), 1, "")
                                  else [], 180)
            && (r.containsExecutable <==> SomeExecutable(r.children))
            && (r.nestedArchive <==> SomeDepth(r.children, 2))
            && (forall low :: low > 0 ==> (r.maxChildDepth >= low <==> SomeDepth(r.children, low)))
  {
    DangerousIsFilter(contents.entries);
    var r := ReportOf(w, content, name, family, contents);
    if SomeExecutable(r.children) {
      var i :| 0 <= i < |r.children| && r.children[i].Readable?
        && (r.children[i].family == Pe || r.children[i].family == Elf || r.children[i].dangerous);
      assert r.children[i].Executable();
    }
    forall low: nat | low > 0 ensures r.maxChildDepth >= low <==> SomeDepth(r.children, low) {}
  }

  /** A cut listing that goes two deep shows the archive it went through. */
  lemma DeepMeansArchive(s: seq<Child>, n: nat)
    requires WellNested(s, 1) && MaxDepth(Take(s, n)) >= 2
    ensures AnyArchive(Take(s, n), 1)
  {
    var t := Take(s, n);
    var i :| 0 <= i < |t| && t[i].depth == MaxDepth(t);
    assert t[i] == s[i];
    var j :| 0 <= j < i && s[j].depth == s[i].depth - 1 && s[j].IsArchive();
    assert t[j] == s[j];
  }

  lemma AllWellNested(w: World, content: Content, name: string, family: Family, contents: Contents)
    ensures WellNested(AllChildren(w, content, name, family, contents), 1)
  {
    if !contents.encrypted {
      var extraction := w.extract(content, name, family);
      if extraction.Unpacked? {
        ListingWellNested(w, Entries(extraction.dir, ""), 1, "");
      }
    }
  }

  /** The `nested_archive` flag is exact: it amounts to a depth of two or more. */
  lemma NestedFlagExact(w: World, content: Content, name: string, family: Family, contents: Contents)
    ensures var children := Take(AllChildren(w, content, name, family, contents), CAP);
            AnyArchive(children, 1) && MaxDepth(children) >= 2 <==> MaxDepth(children) >= 2
  {
    AllWellNested(w, content, name, family, contents);
    var all := AllChildren(w, content, name, family, contents);
    if MaxDepth(Take(all, CAP)) >= 2 {
      DeepMeansArchive(all, CAP);
    }
  }

  method Children(w: World, content: Content, name: string, family: Family, contents: Contents)
      returns (children: seq<Child>)
    ensures children == Take(AllChildren(w, content, name, family, contents), CAP)
  {
    var walker := new Walker(w);
    if !contents.encrypted {
      var extraction := w.extract(content, name, family);
      if extraction.Unpacked? {
        walker.CollectChildren(extraction.dir, 1, "");
        assert [] + Listing(w, Entries(extraction.dir, ""), 1, "") == Listing(w, Entries(extraction.dir, ""), 1, "");
      }
    }
    children := walker.out;
  }

  method Analyze(w: World, content: Content, name: string, family: Family, contents: Contents)
      returns (report: ArchiveReport)
    ensures report == ReportOf(w, content, name, family, contents)
  {
    var children := Children(w, content, name, family, contents);
    var maxDepth := MaxDepth(children);
    NestedFlagExact(w, content, name, family, contents);
    report := ArchiveReport(contents.encrypted, Take(Dangerous(contents.entries), MAX_CHILDREN),
                            Take(children, CAP), maxDepth, AnyExecutable(children, 0),
                            AnyArchive(children, 1) && maxDepth >= 2);
  }
}
