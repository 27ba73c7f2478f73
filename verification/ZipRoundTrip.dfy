/** Archiving a tree and extracting it into an empty root gives the tree back. */
module ZipRoundTrip {
  import opened Results
  import opened BigEndian
  import opened Strings
  import opened Paths
  import opened SafePaths
  import opened ZipArchive

  /** The regular files below a directory, by the names leading down to them. */
  type Tree = map<Names, Bytes>

  /** Paths go through plain names, and no file is also a directory on the way to another. */
  ghost predicate IsTree(t: Tree) {
    && (forall k :: k in t ==> k != [] && AllPlain(k))
    && (forall k, l :: k in t && l in t ==> !Inside(k, l))
  }

  ghost predicate Lists(ks: seq<Names>, t: Tree) {
    && (forall i :: 0 <= i < |ks| ==> ks[i] in t)
    && (forall k :: k in t ==> k in ks)
    && (forall i, j :: 0 <= i < j < |ks| ==> ks[i] != ks[j])
  }

  // ---------------------------------------------------------------- what the archive holds

  function Located(source: Path, k: Names): string {
    Show(Extend(source, k))
  }

  function Walked(source: Path, ks: seq<Names>): (w: seq<string>)
    ensures |w| == |ks|
    ensures forall i :: 0 <= i < |ks| ==> w[i] == Located(source, ks[i])
  {
    if ks == [] then [] else [Located(source, ks[0])] + Walked(source, ks[1..])
  }

  function Packed(t: Tree, ks: seq<Names>): (es: seq<Entry>)
    requires forall i :: 0 <= i < |ks| ==> ks[i] in t
    ensures |es| == |ks|
  {
    if ks == [] then [] else [Entry(Join(ks[0]), Regular, t[ks[0]], Whole)] + Packed(t, ks[1..])
  }

  /** The walk's paths hold the tree's contents. */
  ghost predicate Stored(source: Path, t: Tree, disk: map<string, Node>) {
    forall k :: k in t ==> Located(source, k) in disk && disk[Located(source, k)] == File(t[k])
  }

  lemma LocatedInjective(source: Path, k: Names, l: Names)
    requires Normal(source) && AllPlain(k) && AllPlain(l) && Located(source, k) == Located(source, l)
    ensures k == l
  {
    ExtendNormal(source, k);
    ExtendNormal(source, l);
    ShowInjective(Extend(source, k), Extend(source, l));
    assert k == (source.names + k)[|source.names|..];
    assert l == (source.names + l)[|source.names|..];
  }

  lemma {:induction false} EntriesOfWalk(source: Path, t: Tree, disk: map<string, Node>, ks: seq<Names>)
    requires Normal(source) && IsTree(t) && Stored(source, t, disk)
    requires forall i :: 0 <= i < |ks| ==> ks[i] in t
    ensures Entries(Show(source), true, disk, Walked(source, ks)) == Some(Packed(t, ks))
  {
    if ks != [] {
      EntryNameBelow(source, ks[0]);
      hide EntryName, Show, Join, IsTree;
      EntriesOfWalk(source, t, disk, ks[1..]);
      assert Walked(source, ks)[1..] == Walked(source, ks[1..]);
    }
  }

  /** The files in the order in which their paths sort. */
  lemma {:induction false} Unwalked(source: Path, t: Tree, ks: seq<Names>, w: seq<string>) returns (ls: seq<Names>)
    requires forall i :: 0 <= i < |ks| ==> ks[i] in t
    requires forall s :: s in w ==> s in Walked(source, ks)
    ensures Walked(source, ls) == w
    ensures forall i :: 0 <= i < |ls| ==> ls[i] in t
  {
    ls := [];
    if w != [] {
      assert w[0] in Walked(source, ks);
      var i :| 0 <= i < |ks| && Walked(source, ks)[i] == w[0];
      var rest := Unwalked(source, t, ks, w[1..]);
      ls := [ks[i]] + rest;
      assert ls[1..] == rest;
    }
  }

  lemma WalkedDistinct(source: Path, t: Tree, ks: seq<Names>)
    requires Normal(source) && IsTree(t) && Lists(ks, t)
    ensures Distinct(Walked(source, ks))
  {
    forall i, j | 0 <= i < j < |ks|
      ensures Located(source, ks[i]) != Located(source, ks[j])
    {
      if Located(source, ks[i]) == Located(source, ks[j]) {
        LocatedInjective(source, ks[i], ks[j]);
      }
    }
  }

  lemma ListsUnwalked(source: Path, t: Tree, ks: seq<Names>, ls: seq<Names>)
    requires Normal(source) && IsTree(t) && Lists(ks, t)
    requires forall i :: 0 <= i < |ls| ==> ls[i] in t
    requires Distinct(Walked(source, ls))
    requires forall s :: s in Walked(source, ks) ==> s in Walked(source, ls)
    ensures Lists(ls, t)
  {
    forall k | k in t
      ensures k in ls
    {
      var i :| 0 <= i < |ks| && ks[i] == k;
      assert Walked(source, ks)[i] == Located(source, k);
      assert Located(source, k) in Walked(source, ls);
      var j :| 0 <= j < |ls| && Walked(source, ls)[j] == Located(source, k);
      LocatedInjective(source, k, ls[j]);
    }
    assert forall i, j :: 0 <= i < j < |ls| ==> Walked(source, ls)[i] != Walked(source, ls)[j];
  }

  /** The archive of a tree holds each file once, named by the way down to it. */
  lemma ArchiveHolds(source: string, t: Tree, disk: map<string, Node>, ks: seq<Names>) returns (ls: seq<Names>)
    requires source != "" && IsTree(t) && Lists(ks, t) && Stored(Parse(source), t, disk)
    ensures Lists(ls, t)
    ensures Archive(source, true, disk, Walked(Parse(source), ks)) == Some(Packed(t, ls))
  {
    var at := Parse(source);
    ParseNormal(source);
    var w := Walked(at, ks);
    WalkedDistinct(at, t, ks);
    SortDistinct(w);
    ls := Unwalked(at, t, ks, Sort(w));
    ListsUnwalked(at, t, ks, ls);
    EntriesOfWalk(at, t, disk, ls);
  }

  // ---------------------------------------------------------------- extracting it again

  /** Strictly inside `root` the disk holds the files of `t` and the directories on the way to them. */
  ghost predicate Rebuilt(root: Names, t: Tree, d: Disk) {
    && (root == [] || root in d.dirs)
    && FilesAre(root, t, d.files)
    && DirsAre(root, t, d.dirs)
  }

  ghost predicate FilesAre(root: Names, t: Tree, files: map<Names, Bytes>) {
    && (forall k :: k in t ==> root + k in files && files[root + k] == t[k])
    && (forall q :: q in files && Inside(root, q) ==> q[|root|..] in t)
  }

  /** Every directory on the way to a file is there, and no other. */
  ghost predicate DirsAre(root: Names, t: Tree, dirs: set<Names>) {
    DirsLead(root, t, dirs) && WaysMade(root, t, dirs)
  }

  ghost predicate WaysMade(root: Names, t: Tree, dirs: set<Names>) {
    forall k, j :: k in t && 0 < j < |k| ==> root + k[..j] in dirs
  }

  ghost predicate DirsLead(root: Names, t: Tree, dirs: set<Names>) {
    forall q :: q in dirs && Inside(root, q) ==> Leads(q[|root|..], t)
  }

  ghost predicate Leads(x: Names, t: Tree) {
    exists k :: k in t && Inside(x, k)
  }

  /** Directories can be made wherever no file is in the way. */
  lemma {:induction false} MkdirSucceeds(root: Names, d: Disk, x: Names)
    requires root == [] || root in d.dirs
    requires forall j :: 0 < j <= |x| ==> root + x[..j] !in d.files
    ensures MkdirAll(d, root + x).ok
    ensures MkdirAll(d, root + x).disk.files == d.files
    ensures root == [] || root in MkdirAll(d, root + x).disk.dirs
    ensures forall q :: q in MkdirAll(d, root + x).disk.dirs ==> q in d.dirs || (Inside(root, q) && q <= root + x)
    decreases |x|
  {
    if x == [] {
      assert root + x == root;
    } else {
      var up := x[..|x| - 1];
      assert x[..|x|] == x;
      assert Parent(root + x) == root + up;
      assert forall j :: 0 < j <= |up| ==> up[..j] == x[..j];
      MkdirSucceeds(root, d, up);
      assert Inside(root, root + x);
      assert root + up <= root + x;
    }
  }

  /** And then the whole way below the root is there, when what was there had its own. */
  lemma {:induction false} MkdirMakesWay(root: Names, t: Tree, d: Disk, x: Names)
    requires DirsAre(root, t, d.dirs) && MkdirAll(d, root + x).ok
    ensures forall j :: 0 < j <= |x| ==> root + x[..j] in MkdirAll(d, root + x).disk.dirs
    decreases |x|
  {
    var at := root + x;
    if x != [] && at in d.dirs {
      assert Inside(root, at) && at[|root|..] == x;
      var k :| k in t && Inside(x, k);
      assert forall j :: 0 < j <= |x| ==> x[..j] == k[..j];
    } else if x != [] {
      var up := x[..|x| - 1];
      assert Parent(at) == root + up;
      MkdirMakesWay(root, t, d, up);
      assert forall j :: 0 < j <= |up| ==> up[..j] == x[..j];
      assert x[..|x|] == x;
    }
  }

  lemma InsideSplit(root: Names, q: Names)
    requires Inside(root, q)
    ensures q == root + q[|root|..] && q[|root|..] != []
  {
  }

  /** Nothing already extracted is in the way of the next file. */
  lemma WayIsClear(root: Names, done: Tree, d: Disk, k: Names)
    requires Rebuilt(root, done, d) && k != []
    requires forall l :: l in done ==> !Inside(l, k)
    ensures forall j :: 0 < j <= |k| - 1 ==> root + Parent(k)[..j] !in d.files
  {
    forall j | 0 < j <= |k| - 1
      ensures root + Parent(k)[..j] !in d.files
    {
      var x := Parent(k)[..j];
      var q := root + x;
      assert q[|root|..] == x && Inside(root, q);
      assert Inside(x, k);
    }
  }

  lemma NotADirectory(root: Names, done: Tree, d: Disk, k: Names)
    requires Rebuilt(root, done, d) && k != []
    requires forall l :: l in done ==> !Inside(k, l)
    ensures root + k !in d.dirs
  {
    var q := root + k;
    assert q[|root|..] == k && Inside(root, q);
  }

  lemma FileRebuilds(root: Names, done: Tree, d: Disk, k: Names, content: Bytes)
    requires Rebuilt(root, done, d) && k != [] && k !in done
    requires forall l :: l in done ==> !Inside(l, k) && !Inside(k, l)
    ensures ExtractFile(d, root + k, content, Whole).ok
    ensures Rebuilt(root, done[k := content], ExtractFile(d, root + k, content, Whole).disk)
  {
    var at := root + k;
    var up := MkdirAll(d, root + Parent(k));
    WayIsClear(root, done, d, k);
    MkdirSucceeds(root, d, Parent(k));
    assert Parent(at) == root + Parent(k);
    NotADirectory(root, done, d, k);
    assert at !in up.disk.dirs;
    MkdirMakesWay(root, done, d, Parent(k));
    MkdirMakesAncestors(d, root + Parent(k));
    hide MkdirAll;
    assert ExtractFile(d, at, content, Whole) == Outcome(up.disk.(files := d.files[at := content]), true);
    FilesGrow(root, done, d.files, k, content);
    DirsGrow(root, done, d.dirs, up.disk.dirs, k, content);
    WaysGrow(root, done, d.dirs, up.disk.dirs, k, content);
  }

  lemma WaysGrow(root: Names, done: Tree, dirs: set<Names>, more: set<Names>, k: Names, content: Bytes)
    requires WaysMade(root, done, dirs) && dirs <= more && k != []
    requires forall j :: 0 < j <= |Parent(k)| ==> root + Parent(k)[..j] in more
    ensures WaysMade(root, done[k := content], more)
  {
    forall l, j | l in done[k := content] && 0 < j < |l|
      ensures root + l[..j] in more
    {
      if l == k {
        assert k[..j] == Parent(k)[..j];
      }
    }
  }

  lemma FilesGrow(root: Names, done: Tree, files: map<Names, Bytes>, k: Names, content: Bytes)
    requires FilesAre(root, done, files)
    ensures FilesAre(root, done[k := content], files[root + k := content])
  {
    assert (root + k)[|root|..] == k;
    forall l | l in done
      ensures root + l == root + k ==> l == k
    {
      assert (root + l)[|root|..] == l;
    }
  }

  lemma DirsGrow(root: Names, done: Tree, dirs: set<Names>, more: set<Names>, k: Names, content: Bytes)
    requires DirsLead(root, done, dirs) && k != []
    requires forall q :: q in more ==> q in dirs || (Inside(root, q) && q <= root + Parent(k))
    ensures DirsLead(root, done[k := content], more)
  {
    var now := done[k := content];
    forall q | q in more && Inside(root, q)
      ensures Leads(q[|root|..], now)
    {
      var x := q[|root|..];
      if q in dirs {
        assert Leads(x, done);
        var l :| l in done && Inside(x, l);
        assert l in now;
      } else {
        InsideSplit(root, q);
        assert |x| < |k|;
        assert x == (root + Parent(k))[..|q|][|root|..] == k[..|x|];
        assert k in now && Inside(x, k);
      }
    }
  }

  ghost predicate NamesClean(t: Tree) {
    forall k :: k in t ==> AllClean(k)
  }

  /** One entry of an archived tree adds its file and nothing else. */
  lemma EntryRebuilds(root: Path, done: Tree, d: Disk, k: Names, content: Bytes)
    requires Normal(root) && Rebuilt(root.names, done, d) && k != [] && AllPlain(k) && AllClean(k) && k !in done
    requires forall l :: l in done ==> !Inside(l, k) && !Inside(k, l)
    ensures var r := ExtractEntry(Show(root), d, Entry(Join(k), Regular, content, Whole));
            r.ok && Rebuilt(root.names, done[k := content], r.disk)
  {
    var entry := Entry(Join(k), Regular, content, Whole);
    EntryNameAccepted(k);
    hide Parse, Show, Join, CleanEntryName, EntryTarget, ExtractFile, Rebuilt;
    AcceptedExtractsBelow(root, d, entry);
    FileRebuilds(root.names, done, d, k, content);
  }

  lemma {:induction false} PackedRebuilds(root: Path, t: Tree, done: Tree, d: Disk, ks: seq<Names>)
    requires Normal(root) && IsTree(t) && NamesClean(t) && Rebuilt(root.names, done, d)
    requires forall i :: 0 <= i < |ks| ==> ks[i] in t && ks[i] !in done
    requires forall i, j :: 0 <= i < j < |ks| ==> ks[i] != ks[j]
    requires forall k :: k in done ==> k in t && done[k] == t[k]
    requires forall k :: k in t ==> k in done || k in ks
    ensures ExtractAll(Show(root), d, Packed(t, ks)).ok
    ensures Rebuilt(root.names, t, ExtractAll(Show(root), d, Packed(t, ks)).disk)
    decreases |ks|
  {
    hide Show, Rebuilt, ExtractEntry, Normal;
    if ks == [] {
      assert done == t;
    } else {
      var k := ks[0];
      assert k != [] && AllPlain(k) && AllClean(k);
      EntryRebuilds(root, done, d, k, t[k]);
      var first := ExtractEntry(Show(root), d, Packed(t, ks)[0]);
      assert Packed(t, ks)[1..] == Packed(t, ks[1..]);
      PackedRebuilds(root, t, done[k := t[k]], first.disk, ks[1..]);
    }
  }

  /** A name the extractor refuses stops the whole archive. */
  lemma {:induction false} UncleanStops(root: Path, t: Tree, d: Disk, ks: seq<Names>, i: nat)
    requires IsTree(t) && i < |ks| && (forall j :: 0 <= j < |ks| ==> ks[j] in t) && !AllClean(ks[i])
    ensures !ExtractAll(Show(root), d, Packed(t, ks)).ok
    decreases |ks|
  {
    if i == 0 {
      EntryNameAccepted(ks[0]);
      hide CleanEntryName, AllClean, Parse, Show, Join;
    } else {
      hide ExtractEntry, AllClean, Show;
      var first := ExtractEntry(Show(root), d, Packed(t, ks)[0]);
      assert Packed(t, ks)[1..] == Packed(t, ks[1..]);
      UncleanStops(root, t, first.disk, ks[1..], i - 1);
    }
  }

  ghost predicate EmptyInside(root: Names, d: Disk) {
    forall q :: Inside(root, q) ==> q !in d.files && q !in d.dirs
  }

  lemma RootIsMade(root: Names, d: Disk)
    requires EmptyInside(root, d) && MkdirAll(d, root).ok
    ensures Rebuilt(root, map[], MkdirAll(d, root).disk)
  {
    MkdirMakesAncestors(d, root);
  }

  /**
    * Archive a tree, then extract the archive into an empty root that can be made: the extraction
    * succeeds exactly when no file name holds a backslash or a NUL, and then the files inside the
    * root are the tree and the directories those on the way to them, whatever order the walk listed
    * it in.
    */
  lemma RoundTrip(source: string, t: Tree, disk: map<string, Node>, ks: seq<Names>,
                  cwd: string, target: string, d: Disk)
    requires source != "" && IsTree(t) && Lists(ks, t) && Stored(Parse(source), t, disk)
    requires IsAbs(cwd) && target != ""
    requires EmptyInside(Parse(Abs(cwd, target)).names, d) && MkdirAll(d, Parse(Abs(cwd, target)).names).ok
    ensures var r := Unzip(cwd, target, Archive(source, true, disk, Walked(Parse(source), ks)), d);
            && (r.ok <==> NamesClean(t))
            && (r.ok ==> FilesAre(Parse(Abs(cwd, target)).names, t, r.disk.files))
            && (r.ok ==> DirsAre(Parse(Abs(cwd, target)).names, t, r.disk.dirs))
  {
    var ls := ArchiveHolds(source, t, disk, ks);
    AbsIsRooted(cwd, target);
    var root := Parse(Abs(cwd, target));
    var start := MkdirAll(d, root.names).disk;
    RootIsMade(root.names, d);
    hide Archive, Abs, Parse, Show, MkdirAll, IsTree, Lists, AllClean;
    if NamesClean(t) {
      PackedFromEmpty(root, t, start, ls);
    } else {
      var k :| k in t && !AllClean(k);
      UncleanSomewhere(root, t, start, ls, k);
    }
  }

  lemma PackedFromEmpty(root: Path, t: Tree, d: Disk, ks: seq<Names>)
    requires Normal(root) && IsTree(t) && NamesClean(t) && Lists(ks, t) && Rebuilt(root.names, map[], d)
    ensures ExtractAll(Show(root), d, Packed(t, ks)).ok
    ensures Rebuilt(root.names, t, ExtractAll(Show(root), d, Packed(t, ks)).disk)
  {
    PackedRebuilds(root, t, map[], d, ks);
  }

  lemma UncleanSomewhere(root: Path, t: Tree, d: Disk, ks: seq<Names>, k: Names)
    requires IsTree(t) && Lists(ks, t) && k in t && !AllClean(k)
    ensures !ExtractAll(Show(root), d, Packed(t, ks)).ok
  {
    var i :| 0 <= i < |ks| && ks[i] == k;
    UncleanStops(root, t, d, ks, i);
  }

  // ---------------------------------------------------------------- a source that is one file

  lemma BaseOfShow(p: Path)
    requires Normal(p) && p.names != []
    ensures Base(Show(p)) == p.names[|p.names| - 1]
  {
    hide Split, Join, NormalNames, NoSlashes;
    var names := p.names;
    NormalMember(p.rooted, names, |names| - 1);
    NormalMember(p.rooted, names, 0);
    NormalNoSlashes(p.rooted, names);
    SplitOfJoin(names);
    JoinStart(names);
    if p.rooted {
      SplitWordThen("", Join(names));
      assert "/" + Join(names) == "" + "/" + Join(names);
    }
  }

  /** A single file is archived under its own name and extracted under it, right below the root. */
  lemma SingleFileRoundTrip(source: string, disk: map<string, Node>, cwd: string, target: string, d: Disk)
    requires source != "" && Paths.Clean(source) in disk && disk[Paths.Clean(source)].File?
    requires Parse(source).names != [] && Plain(Parse(source).names[|Parse(source).names| - 1])
    requires IsAbs(cwd) && target != ""
    requires EmptyInside(Parse(Abs(cwd, target)).names, d) && MkdirAll(d, Parse(Abs(cwd, target)).names).ok
    ensures var name := Parse(source).names[|Parse(source).names| - 1];
            var r := Unzip(cwd, target, Archive(source, false, disk, [Paths.Clean(source)]), d);
            && (r.ok <==> CleanChars(name))
            && (r.ok ==>
                  var t: Tree := map[[name] := disk[Paths.Clean(source)].content];
                  FilesAre(Parse(Abs(cwd, target)).names, t, r.disk.files)
                  && forall q :: q in r.disk.dirs ==> !Inside(Parse(Abs(cwd, target)).names, q))
  {
    var p := Parse(source);
    var file := Paths.Clean(source);
    var name := p.names[|p.names| - 1];
    ParseNormal(source);
    BaseOfShow(p);
    SingleArchive(file, disk, name);
    AbsIsRooted(cwd, target);
    var root := Parse(Abs(cwd, target));
    RootIsMade(root.names, d);
    hide Abs, Parse, Show, MkdirAll, IsTree, Base, CleanChars, Rebuilt, Plain, Packed;
    SingleRebuilds(root, name, disk[file].content, MkdirAll(d, root.names).disk);
  }

  lemma NoWayToOneName(root: Names, t: Tree, name: string, d: Disk)
    requires t.Keys == {[name]} && Rebuilt(root, t, d)
    ensures forall q :: q in d.dirs ==> !Inside(root, q)
  {
    assert forall k :: k in t ==> k == [name];
  }

  lemma SingleRebuilds(root: Path, name: string, content: Bytes, d: Disk)
    requires Normal(root) && Plain(name) && Rebuilt(root.names, map[], d)
    ensures var t: Tree := map[[name] := content];
            var r := ExtractAll(Show(root), d, Packed(t, [[name]]));
            && (r.ok <==> CleanChars(name))
            && (r.ok ==> FilesAre(root.names, t, r.disk.files))
            && (r.ok ==> forall q :: q in r.disk.dirs ==> !Inside(root.names, q))
  {
    var t: Tree := map[[name] := content];
    assert IsTree(t) && Lists([[name]], t);
    assert AllClean([name]) <==> CleanChars(name) by {
      assert [name][0] == name;
    }
    hide Show, IsTree, Lists, AllClean, CleanChars, Normal;
    if AllClean([name]) {
      PackedFromEmpty(root, t, d, [[name]]);
      NoWayToOneName(root.names, t, name, ExtractAll(Show(root), d, Packed(t, [[name]])).disk);
    } else {
      UncleanSomewhere(root, t, d, [[name]], [name]);
    }
  }

  lemma SingleArchive(file: string, disk: map<string, Node>, name: string)
    requires file in disk && disk[file].File? && Base(file) == name
    ensures Sort([file]) == [file]
    ensures Entries(file, false, disk, [file]) == Some(Packed(map[[name] := disk[file].content], [[name]]))
  {
    hide Base;
    assert [file][1..] == [] && [[name]][1..] == [];
    assert Join([name]) == name;
    assert Packed(map[[name] := disk[file].content], [[name]]) == [Entry(name, Regular, disk[file].content, Whole)];
  }
}
