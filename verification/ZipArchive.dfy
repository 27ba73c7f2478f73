/** Writing a file tree to an archive and extracting an archive under a root. */
module ZipArchive {
  import opened Results
  import opened BigEndian
  import opened Strings
  import opened Paths
  import opened SafePaths

  type Names = seq<string>

  /** What FileInfo reports of an entry. */
  datatype Kind = Regular | Directory | Symlink | Other

  /** What becomes of an entry's content: written whole, or the point where reading or writing it fails. */
  datatype Fate = Whole | OpenFails | CreateFails | CopyStops(after: nat)

  datatype Entry = Entry(name: string, kind: Kind, content: Bytes, fate: Fate)

  /** What a second look at a path that the walk listed finds. */
  datatype Node = File(content: Bytes) | Unreadable | NotRegular

  /** A file system by absolute path: regular files with their contents, and directories. */
  datatype Disk = Disk(files: map<Names, Bytes>, dirs: set<Names>)

  datatype Outcome = Outcome(disk: Disk, ok: bool)

  // ---------------------------------------------------------------- archiving

  /** The entries for one path, at most one: a path that is gone or unreadable fails the archive. */
  function EntryOf(source: string, isDir: bool, disk: map<string, Node>, file: string): Option<seq<Entry>> {
    if file !in disk then None
    else if disk[file].NotRegular? then Some([])
    else
      var name := EntryName(source, isDir, file);
      if name.None? || disk[file].Unreadable? then None
      else Some([Entry(name.value, Regular, disk[file].content, Whole)])
  }

  /** Entries for `files` in the given order. */
  function Entries(source: string, isDir: bool, disk: map<string, Node>, files: seq<string>): Option<seq<Entry>> {
    if files == [] then Some([])
    else
      var first, rest := EntryOf(source, isDir, disk, files[0]), Entries(source, isDir, disk, files[1..]);
      if first.None? || rest.None? then None else Some(first.value + rest.value)
  }

  /** The archive of the regular files a walk of `source` lists. */
  function Archive(source: string, isDir: bool, disk: map<string, Node>, walk: seq<string>): Option<seq<Entry>> {
    if source == "" then None else Entries(Clean(source), isDir, disk, Sort(walk))
  }

  /** The order in which the walk meets the files leaves no trace in the archive. */
  lemma WalkOrderForgotten(source: string, isDir: bool, disk: map<string, Node>, walk: seq<string>, other: seq<string>)
    requires multiset(walk) == multiset(other)
    ensures Archive(source, isDir, disk, walk) == Archive(source, isDir, disk, other)
  {
    SortSorts(walk);
    SortSorts(other);
    SortedUnique(Sort(walk), Sort(other));
  }

  lemma {:induction false} EntriesConcat(source: string, isDir: bool, disk: map<string, Node>, xs: seq<string>,
          ys: seq<string>)
    ensures var x, y := Entries(source, isDir, disk, xs), Entries(source, isDir, disk, ys);
            Entries(source, isDir, disk, xs + ys) == if x.None? || y.None? then None else Some(x.value + y.value)
  {
    hide EntryOf;
    if xs == [] {
      assert xs + ys == ys;
      var y := Entries(source, isDir, disk, ys);
      assert y.Some? ==> [] + y.value == y.value;
    } else {
      assert (xs + ys)[0] == xs[0] && (xs + ys)[1..] == xs[1..] + ys;
      EntriesConcat(source, isDir, disk, xs[1..], ys);
      var first, x, y := EntryOf(source, isDir, disk, xs[0]), Entries(source, isDir, disk, xs[1..]),
          Entries(source, isDir, disk, ys);
      if first.Some? && x.Some? && y.Some? {
        assert first.value + (x.value + y.value) == first.value + x.value + y.value;
      }
    }
  }

  lemma EntriesOfOne(source: string, isDir: bool, disk: map<string, Node>, file: string)
    ensures Entries(source, isDir, disk, [file]) == EntryOf(source, isDir, disk, file)
  {
    hide EntryOf;
    assert [file][1..] == [];
    var first := EntryOf(source, isDir, disk, file);
    assert first.Some? ==> first.value + [] == first.value;
  }

  method WriteZip(source: string, isDir: bool, disk: map<string, Node>, walk: seq<string>)
    returns (archive: Option<seq<Entry>>)
    ensures archive == Archive(source, isDir, disk, walk)
  {
    hide EntryOf, Clean, Sort, Entries;
    if source == "" {
      return None;
    }
    var clean := Clean(source);
    var files := Sort(walk);
    var entries := [];
    var i := 0;
    NoEntries(clean, isDir, disk);
    while i < |files|
      invariant 0 <= i <= |files|
      invariant Entries(clean, isDir, disk, files[..i]) == Some(entries)
    {
      assert files[..i + 1] == files[..i] + [files[i]];
      assert files == files[..i + 1] + files[i + 1..];
      EntriesOfOne(clean, isDir, disk, files[i]);
      EntriesConcat(clean, isDir, disk, files[..i], [files[i]]);
      EntriesConcat(clean, isDir, disk, files[..i + 1], files[i + 1..]);
      var more := AddZipFile(clean, isDir, disk, files[i]);
      if more.None? {
        return None;
      }
      entries := entries + more.value;
      i := i + 1;
    }
    assert files[..i] == files;
    return Some(entries);
  }

  lemma NoEntries(source: string, isDir: bool, disk: map<string, Node>)
    ensures Entries(source, isDir, disk, []) == Some([])
  {
  }

  /** Stat, then the name, then the content. */
  method AddZipFile(source: string, isDir: bool, disk: map<string, Node>, file: string)
    returns (more: Option<seq<Entry>>)
    ensures more == EntryOf(source, isDir, disk, file)
  {
    if file !in disk {
      return None;
    }
    if disk[file].NotRegular? {
      return Some([]);
    }
    var name := EntryName(source, isDir, file);
    if name.None? {
      return None;
    }
    if disk[file].Unreadable? {
      return None;
    }
    return Some([Entry(name.value, Regular, disk[file].content, Whole)]);
  }

  // ---------------------------------------------------------------- extracting

  function Parent(at: Names): Names {
    if at == [] then [] else at[..|at| - 1]
  }

  /** os.MkdirAll: the ancestors made before a failure stay. */
  function MkdirAll(d: Disk, at: Names): Outcome {
    if at == [] || at in d.dirs then Outcome(d, true)
    else if at in d.files then Outcome(d, false)
    else
      var up := MkdirAll(d, Parent(at));
      if up.ok then Outcome(up.disk.(dirs := up.disk.dirs + {at}), true) else up
  }

  /**
    * Makes the parent directories, opens the entry, creates or truncates the file, and copies. A copy
    * that stops leaves what it had written.
    */
  function ExtractFile(d: Disk, at: Names, content: Bytes, fate: Fate): Outcome {
    var up := MkdirAll(d, Parent(at));
    if !up.ok || fate.OpenFails? || at == [] || at in up.disk.dirs || fate.CreateFails? then Outcome(up.disk, false)
    else if fate.CopyStops? then Outcome(up.disk.(files := up.disk.files[at := Beginning(content, fate.after)]), false)
    else Outcome(up.disk.(files := up.disk.files[at := content]), true)
  }

  function ExtractAt(d: Disk, at: Names, entry: Entry): Outcome {
    match entry.kind
    case Symlink => Outcome(d, false)
    case Directory => MkdirAll(d, at)
    case Other => Outcome(d, false)
    case Regular => ExtractFile(d, at, entry.content, entry.fate)
  }

  function ExtractEntry(root: string, d: Disk, entry: Entry): Outcome {
    match CleanEntryName(entry.name)
    case None => Outcome(d, false)
    case Some(clean) =>
      match EntryTarget(root, clean)
      case None => Outcome(d, false)
      case Some(target) => ExtractAt(d, Parse(target).names, entry)
  }

  function ExtractAll(root: string, d: Disk, entries: seq<Entry>): Outcome
    decreases |entries|
  {
    if entries == [] then Outcome(d, true)
    else
      var first := ExtractEntry(root, d, entries[0]);
      if first.ok then ExtractAll(root, first.disk, entries[1..]) else first
  }

  /** filepath.Abs in the working directory `cwd` */
  function Abs(cwd: string, target: string): string {
    if IsAbs(target) then Clean(target) else JoinTo(cwd, target)
  }

  /** UnzipFromMemory; `archive` is what the zip reader makes of the bytes. */
  function Unzip(cwd: string, target: string, archive: Option<seq<Entry>>, d: Disk): Outcome {
    if target == "" then Outcome(d, false)
    else
      var root := Abs(cwd, target);
      var up := MkdirAll(d, Parse(root).names);
      if !up.ok || archive.None? then Outcome(up.disk, false)
      else ExtractAll(root, up.disk, archive.value)
  }

  lemma AbsIsRooted(cwd: string, target: string)
    requires IsAbs(cwd)
    ensures Normal(Parse(Abs(cwd, target))) && Parse(Abs(cwd, target)).rooted
    ensures Show(Parse(Abs(cwd, target))) == Abs(cwd, target)
  {
    var s := if IsAbs(target) then target else cwd + "/" + target;
    ParseNormal(s);
    ParseOfShow(Parse(s));
  }

  /** An absolute target does not depend on the working directory; plain names are looked up in it. */
  lemma AbsExactly(cwd: string, other: string, target: string, names: Names)
    requires IsAbs(cwd) && names != [] && AllPlain(names)
    ensures IsAbs(target) ==> Abs(cwd, target) == Abs(other, target) && Parse(Abs(cwd, target)) == Parse(target)
    ensures Parse(Abs(cwd, Join(names))) == Extend(Parse(cwd), names)
  {
    ParseNormal(target);
    ParseOfShow(Parse(target));
    NormalConcat(false, [], names);
    assert [] + names == names;
    JoinStart(names);
    ParseNormal(cwd);
    ParseJoin(cwd, Join(names));
    SplitOfJoin(names);
    NormalConcat(true, Parse(cwd).names, names);
    WalkOfNormal(true, Parse(cwd).names, names);
    ExtendNormal(Parse(cwd), names);
    ParseOfShow(Extend(Parse(cwd), names));
  }

  // ---------------------------------------------------------------- containment

  predicate Inside(root: Names, q: Names) {
    |root| < |q| && q[..|root|] == root
  }

  /** The two disks agree on every file and directory that is not strictly inside `root`. */
  ghost predicate SameOutside(root: Names, d: Disk, e: Disk) {
    && (forall q :: !Inside(root, q) ==> (q in d.dirs <==> q in e.dirs))
    && SameFilesOutside(root, d.files, e.files)
  }

  ghost predicate SameFilesOutside(root: Names, d: map<Names, Bytes>, e: map<Names, Bytes>) {
    && (forall q :: !Inside(root, q) ==> (q in d <==> q in e))
    && (forall q :: !Inside(root, q) && q in d && q in e ==> d[q] == e[q])
  }

  lemma {:induction false} MkdirStaysInside(root: Names, d: Disk, at: Names)
    requires (root == [] || root in d.dirs) && (at == root || Inside(root, at))
    ensures SameOutside(root, d, MkdirAll(d, at).disk)
    ensures root == [] || root in MkdirAll(d, at).disk.dirs
    ensures MkdirAll(d, at).disk.files == d.files
    decreases |at|
  {
    if at != [] && at !in d.dirs && at !in d.files {
      assert Parent(at) == root || Inside(root, Parent(at));
      MkdirStaysInside(root, d, Parent(at));
    }
  }

  lemma ExtractAtStaysInside(root: Names, d: Disk, at: Names, entry: Entry)
    requires (root == [] || root in d.dirs) && Inside(root, at)
    ensures var e := ExtractAt(d, at, entry).disk;
            SameOutside(root, d, e) && (root == [] || root in e.dirs)
  {
    MkdirStaysInside(root, d, at);
    MkdirStaysInside(root, d, Parent(at));
  }

  /** An accepted entry is extracted at its own names below the root. */
  lemma AcceptedExtractsBelow(root: Path, d: Disk, entry: Entry)
    requires Normal(root) && CleanEntryName(entry.name).Some?
    ensures Parse(entry.name).names != []
    ensures ExtractEntry(Show(root), d, entry) == ExtractAt(d, root.names + Parse(entry.name).names, entry)
  {
    var names := Parse(entry.name).names;
    AcceptedStaysInside(root, entry.name);
    ExtendNormal(root, names);
    ParseOfShow(Extend(root, names));
    hide CleanEntryName, EntryTarget, Parse, Show, ExtractAt;
  }

  lemma EntryStaysInside(root: Path, d: Disk, entry: Entry)
    requires Normal(root) && (root.names == [] || root.names in d.dirs)
    ensures var e := ExtractEntry(Show(root), d, entry).disk;
            SameOutside(root.names, d, e) && (root.names == [] || root.names in e.dirs)
  {
    hide CleanEntryName, EntryTarget, Parse, Show, ExtractAt, Normal;
    if CleanEntryName(entry.name).Some? {
      AcceptedExtractsBelow(root, d, entry);
      ExtractAtStaysInside(root.names, d, root.names + Parse(entry.name).names, entry);
    }
  }

  lemma SameOutsideChains(root: Names, d: Disk, e: Disk, f: Disk)
    requires SameOutside(root, d, e) && SameOutside(root, e, f)
    ensures SameOutside(root, d, f)
  {
    hide Inside;
  }

  lemma {:induction false} ExtractStaysInside(root: Path, d: Disk, entries: seq<Entry>)
    requires Normal(root) && (root.names == [] || root.names in d.dirs)
    ensures SameOutside(root.names, d, ExtractAll(Show(root), d, entries).disk)
    decreases |entries|
  {
    if entries != [] {
      hide ExtractEntry, Show, SameOutside, Normal;
      EntryStaysInside(root, d, entries[0]);
      var first := ExtractEntry(Show(root), d, entries[0]);
      if first.ok {
        ExtractStaysInside(root, first.disk, entries[1..]);
        SameOutsideChains(root.names, d, first.disk, ExtractAll(Show(root), d, entries).disk);
      }
    }
  }

  lemma {:induction false} MkdirMakesAncestors(d: Disk, at: Names)
    ensures MkdirAll(d, at).disk.files == d.files
    ensures MkdirAll(d, at).ok ==> at == [] || at in MkdirAll(d, at).disk.dirs
    ensures forall q :: q in d.dirs ==> q in MkdirAll(d, at).disk.dirs
    ensures forall q :: q in MkdirAll(d, at).disk.dirs && q !in d.dirs ==> q <= at
  {
    if at != [] && at !in d.dirs && at !in d.files {
      MkdirMakesAncestors(d, Parent(at));
      assert Parent(at) <= at;
    }
  }

  /** Any archive at all, safe or hostile, failing or not: nothing outside the root changes. */
  lemma NothingOutsideTheRoot(cwd: string, target: string, archive: Option<seq<Entry>>, d: Disk)
    requires IsAbs(cwd)
    ensures var root := Parse(Abs(cwd, target)).names;
            var e := Unzip(cwd, target, archive, d).disk;
            && SameFilesOutside(root, d.files, e.files)
            && forall q :: !Inside(root, q) && !(q <= root) ==> (q in d.dirs <==> q in e.dirs)
  {
    if target != "" {
      AbsIsRooted(cwd, target);
      var root := Parse(Abs(cwd, target));
      var up := MkdirAll(d, root.names);
      MkdirMakesAncestors(d, root.names);
      if up.ok && archive.Some? {
        ExtractStaysInside(root, up.disk, archive.value);
      }
    }
  }

  // ---------------------------------------------------------------- what becomes of an entry

  /** What is at a path. */
  predicate Same(d: Disk, e: Disk, at: Names) {
    (at in d.dirs <==> at in e.dirs) && (at in d.files <==> at in e.files)
    && (at in d.files && at in e.files ==> d.files[at] == e.files[at])
  }

  /**
   An entry whose name is accepted, by its kind: a link or anything special fails and leaves the disk
   alone; a directory is there afterwards, or the entry fails; a regular file is there with its content,
   or the entry fails, and then a copy that stopped has left a beginning of the content in its place.
   */
  lemma EntryByKind(root: Path, d: Disk, entry: Entry)
    requires Normal(root) && CleanEntryName(entry.name).Some?
    ensures var at, r := root.names + Parse(entry.name).names, ExtractEntry(Show(root), d, entry);
            match entry.kind
            case Symlink => r == Outcome(d, false)
            case Other => r == Outcome(d, false)
            case Directory => r.disk.files == d.files && (r.ok ==> at in r.disk.dirs)
            case Regular =>
              && (r.ok ==> entry.fate == Whole && at in r.disk.files && r.disk.files[at] == entry.content)
              && (!r.ok ==>
                    if entry.fate.CopyStops? && MkdirAll(d, Parent(at)).ok && at !in d.dirs then
                      at in r.disk.files && r.disk.files[at] == Beginning(entry.content, entry.fate.after)
                    else Same(d, r.disk, at))
              && (forall q :: q != at ==> (q in r.disk.files <==> q in d.files))
              && (forall q :: q != at && q in d.files && q in r.disk.files ==> r.disk.files[q] == d.files[q])
  {
    var at := root.names + Parse(entry.name).names;
    AcceptedExtractsBelow(root, d, entry);
    MkdirMakesAncestors(d, at);
    MkdirMakesAncestors(d, Parent(at));
    assert at != [] && !(at <= Parent(at));
    hide CleanEntryName, EntryTarget, Parse, Show, MkdirAll, ExtractEntry, Normal;
  }

  /** A name that is refused fails the entry and leaves the disk alone. */
  lemma RefusedNameFails(root: string, d: Disk, entry: Entry)
    requires CleanEntryName(entry.name) == None
    ensures ExtractEntry(root, d, entry) == Outcome(d, false)
  {
  }

  /** A directory or a regular file succeeds exactly when nothing is in its way and its content can be had. */
  lemma EntrySucceedsExactly(root: Path, d: Disk, entry: Entry)
    requires Normal(root) && CleanEntryName(entry.name).Some?
    ensures var at := root.names + Parse(entry.name).names;
            ExtractEntry(Show(root), d, entry).ok <==>
            || (entry.kind == Directory && MkdirAll(d, at).ok)
            || (entry.kind == Regular && MkdirAll(d, Parent(at)).ok && at !in d.dirs && entry.fate == Whole)
  {
    var at := root.names + Parse(entry.name).names;
    AcceptedExtractsBelow(root, d, entry);
    MkdirMakesAncestors(d, Parent(at));
    assert at != [] && !(at <= Parent(at));
    hide CleanEntryName, EntryTarget, Parse, Show, MkdirAll, ExtractEntry, Normal;
  }

  /** All that can be in the way of a directory is a file on the way to it with no directory behind it. */
  lemma {:induction false} MkdirSucceedsExactly(d: Disk, at: Names)
    ensures MkdirAll(d, at).ok <==>
            forall k :: 0 < k <= |at| && at[..k] in d.files && at[..k] !in d.dirs ==>
              exists j :: k < j <= |at| && at[..j] in d.dirs
    decreases |at|
  {
    if at == [] {
    } else if at in d.dirs {
      assert at[..|at|] == at;
    } else if at in d.files {
      assert at[..|at|] == at;
    } else {
      var up := Parent(at);
      MkdirSucceedsExactly(d, up);
      assert forall k :: 0 <= k <= |up| ==> up[..k] == at[..k];
      assert at[..|at|] == at;
    }
  }

  /** Entries are extracted in their order, and the first that fails ends it. */
  lemma {:induction false} ExtractInTwo(root: string, d: Disk, xs: seq<Entry>, ys: seq<Entry>)
    ensures var first := ExtractAll(root, d, xs);
            ExtractAll(root, d, xs + ys) == if first.ok then ExtractAll(root, first.disk, ys) else first
    decreases |xs|
  {
    hide ExtractEntry;
    if xs == [] {
      assert xs + ys == ys;
    } else {
      assert (xs + ys)[0] == xs[0] && (xs + ys)[1..] == xs[1..] + ys;
      ExtractInTwo(root, ExtractEntry(root, d, xs[0]).disk, xs[1..], ys);
    }
  }

  /** So an archive with a link or a special entry anywhere in it fails. */
  lemma SpecialEntryFails(root: Path, d: Disk, entries: seq<Entry>, k: nat)
    requires Normal(root) && k < |entries| && (entries[k].kind == Symlink || entries[k].kind == Other)
    ensures !ExtractAll(Show(root), d, entries).ok
  {
    hide ExtractEntry, CleanEntryName, Show, Normal, Parse;
    var xs, ys := entries[..k], entries[k..];
    assert entries == xs + ys && ys[0] == entries[k];
    ExtractInTwo(Show(root), d, xs, ys);
    var e := ExtractAll(Show(root), d, xs).disk;
    if CleanEntryName(entries[k].name).Some? {
      EntryByKind(root, e, entries[k]);
    } else {
      RefusedNameFails(Show(root), e, entries[k]);
    }
  }

  /** Without a target, a root that can be made, and an archive that can be read, nothing is extracted. */
  lemma UnzipNeeds(cwd: string, target: string, archive: Option<seq<Entry>>, d: Disk)
    ensures target == "" ==> Unzip(cwd, target, archive, d) == Outcome(d, false)
    ensures archive == None ==> !Unzip(cwd, target, archive, d).ok
    ensures target != "" ==>
              var up := MkdirAll(d, Parse(Abs(cwd, target)).names);
              && (!up.ok || archive == None ==> Unzip(cwd, target, archive, d) == Outcome(up.disk, false))
              && (up.ok && archive == Some([]) ==> Unzip(cwd, target, archive, d) == Outcome(up.disk, true))
  {
    hide Abs, Parse, MkdirAll;
  }

  // ---------------------------------------------------------------- what goes into an archive

  /** A path that the walk listed can be archived, or leaves no trace. */
  predicate Archivable(source: string, isDir: bool, disk: map<string, Node>, file: string) {
    file in disk && (disk[file].NotRegular? || (disk[file].File? && EntryName(source, isDir, file).Some?))
  }

  lemma {:induction false} EntriesExactly(source: string, isDir: bool, disk: map<string, Node>, files: seq<string>)
    ensures Entries(source, isDir, disk, files).Some? <==>
            forall i :: 0 <= i < |files| ==> Archivable(source, isDir, disk, files[i])
    decreases |files|
  {
    hide EntryName;
    if files != [] {
      EntriesExactly(source, isDir, disk, files[1..]);
      assert forall i :: 1 <= i < |files| ==> files[i] == files[1..][i - 1];
    }
  }

  /** A source is archived exactly when none of its files is gone, unreadable or without a name. */
  lemma ArchivedExactly(source: string, isDir: bool, disk: map<string, Node>, walk: seq<string>)
    ensures Archive(source, isDir, disk, walk).Some? <==>
            source != "" && forall f :: f in walk ==> Archivable(Clean(source), isDir, disk, f)
  {
    hide Clean, Archivable, Sort;
    if source != "" {
      var files := Sort(walk);
      EntriesExactly(Clean(source), isDir, disk, files);
      SortSorts(walk);
      assert forall f :: f in walk <==> f in multiset(walk);
      assert forall f :: f in files <==> f in multiset(files);
      if forall i :: 0 <= i < |files| ==> Archivable(Clean(source), isDir, disk, files[i]) {
        forall f | f in walk
          ensures Archivable(Clean(source), isDir, disk, f)
        {
          assert f in files;
        }
      }
    }
  }

  /** What is not a regular file leaves no trace in the archive. */
  lemma IrregularLeavesNoTrace(source: string, isDir: bool, disk: map<string, Node>, xs: seq<string>, f: string,
                               ys: seq<string>)
    requires f in disk && disk[f].NotRegular?
    ensures Entries(source, isDir, disk, xs + [f] + ys) == Entries(source, isDir, disk, xs + ys)
  {
    EntriesOfOne(source, isDir, disk, f);
    EntriesConcat(source, isDir, disk, xs, [f]);
    EntriesConcat(source, isDir, disk, xs + [f], ys);
    EntriesConcat(source, isDir, disk, xs, ys);
    hide Entries;
    var x := Entries(source, isDir, disk, xs);
    assert x.Some? ==> x.value + [] == x.value;
  }

  // ---------------------------------------------------------------- the file system as an object

  class FileSystem {
    var disk: Disk

    method MakeDirs(at: Names) returns (ok: bool)
      modifies this
      ensures Outcome(disk, ok) == MkdirAll(old(disk), at)
      decreases |at|
    {
      if at == [] || at in disk.dirs {
        return true;
      }
      if at in disk.files {
        return false;
      }
      ok := MakeDirs(Parent(at));
      if ok {
        disk := disk.(dirs := disk.dirs + {at});
      }
    }

    method ExtractZipFile(at: Names, content: Bytes, fate: Fate) returns (ok: bool)
      modifies this
      ensures Outcome(disk, ok) == ExtractFile(old(disk), at, content, fate)
    {
      ok := MakeDirs(Parent(at));
      if !ok || fate.OpenFails? {
        return false;
      }
      if at == [] || at in disk.dirs || fate.CreateFails? {
        return false;
      }
      if fate.CopyStops? {
        disk := disk.(files := disk.files[at := Beginning(content, fate.after)]);
        return false;
      }
      disk := disk.(files := disk.files[at := content]);
    }

    method ExtractOne(root: string, entry: Entry) returns (ok: bool)
      modifies this
      ensures Outcome(disk, ok) == ExtractEntry(root, old(disk), entry)
    {
      hide CleanEntryName, EntryTarget, Parse, MkdirAll, ExtractFile;
      var clean := CleanEntryName(entry.name);
      if clean.None? {
        return false;
      }
      var target := EntryTarget(root, clean.value);
      if target.None? {
        return false;
      }
      var at := Parse(target.value).names;
      match entry.kind {
        case Symlink => ok := false;
        case Directory => ok := MakeDirs(at);
        case Other => ok := false;
        case Regular => ok := ExtractZipFile(at, entry.content, entry.fate);
      }
    }

    method UnzipFromMemory(cwd: string, target: string, archive: Option<seq<Entry>>) returns (ok: bool)
      modifies this
      ensures Outcome(disk, ok) == Unzip(cwd, target, archive, old(disk))
    {
      hide ExtractEntry, Abs, Parse, MkdirAll;
      if target == "" {
        return false;
      }
      var root := Abs(cwd, target);
      ok := MakeDirs(Parse(root).names);
      if !ok || archive.None? {
        return false;
      }
      ghost var start := disk;
      var entries := archive.value;
      var i := 0;
      while i < |entries|
        invariant 0 <= i <= |entries|
        invariant ExtractAll(root, disk, entries[i..]) == ExtractAll(root, start, entries)
      {
        assert entries[i..][1..] == entries[i + 1..];
        ok := ExtractOne(root, entries[i]);
        if !ok {
          return;
        }
        i := i + 1;
      }
      ok := true;
    }
  }
}
