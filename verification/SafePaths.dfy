/** The lexical path checks: archive entry names and dataset file names. */
module SafePaths {
  import opened Results
  import opened Strings
  import opened Paths

  predicate HasPrefix(s: string, prefix: string) {
    |prefix| <= |s| && s[..|prefix|] == prefix
  }

  // ---------------------------------------------------------------- archive entry names

  predicate CleanChars(s: string) {
    '\0' !in s && '\\' !in s
  }

  /** The first check: the cleaned name, or refusal. */
  function CleanEntryName(name: string): Option<string> {
    if name == "" || !CleanChars(name) || IsAbs(name) then None
    else
      var clean := Clean(name);
      if clean == "." || clean == ".." || HasPrefix(clean, "../") then None else Some(clean)
  }

  predicate Climbs(rel: string) {
    rel == ".." || HasPrefix(rel, "../")
  }

  /** The second check: where the entry lands under `root`, unless the way there climbs out. */
  function EntryTarget(root: string, clean: string): Option<string> {
    var target := JoinTo(root, clean);
    match Rel(root, target)
    case None => None
    case Some(rel) => if Climbs(rel) then None else Some(target)
  }

  lemma ClimbSplits(s: string)
    requires Climbs(s)
    ensures Split(s)[0] == ".."
  {
    hide Split;
    if s == ".." {
      SplitWord(s);
    } else {
      var rest := s[3..];
      assert s == s[..3] + rest;
      SplitWordThen("..", rest);
      assert ".." + "/" + rest == "../" + rest;
    }
  }

  /** A printed relative path climbs exactly when its first name does. */
  lemma ClimbsExactly(names: seq<string>)
    requires NoSlashes(names) && names != []
    ensures Climbs(Join(names)) <==> names[0] == ".."
  {
    var s := Join(names);
    SplitOfJoin(names);
    hide Split, NoSlashes;
    if |names| > 1 && names[0] == ".." {
      assert s == ".." + "/" + Join(names[1..]);
      assert s[..3] == "../";
    } else if Climbs(s) {
      ClimbSplits(s);
    }
  }

  lemma DotOnlyHere(names: seq<string>)
    requires NormalNames(false, names) && names != []
    ensures Join(names) != "."
  {
    NormalNoSlashes(false, names);
    SplitOfJoin(names);
    SplitWord(".");
    NormalMember(false, names, 0);
  }

  /** Accepted names are exactly the relative ones that end strictly below where they start. */
  lemma AcceptedExactly(name: string)
    ensures CleanEntryName(name).Some? <==>
              CleanChars(name) && !IsAbs(name) && Parse(name).names != [] && Parse(name).names[0] != ".."
    ensures CleanEntryName(name).Some? ==>
              AllPlain(Parse(name).names) && CleanEntryName(name).value == Join(Parse(name).names)
  {
    var names := Parse(name).names;
    ParseNormal(name);
    SplitWord("");
    if !IsAbs(name) && names != [] {
      NormalNoSlashes(false, names);
      ClimbsExactly(names);
      DotOnlyHere(names);
    }
  }

  /**
   In terms of the components alone: a relative name without NUL and backslash is accepted exactly when
   walking it never goes above its start and ends below it.
   */
  lemma AcceptedByDepth(name: string)
    ensures CleanEntryName(name).Some? <==>
            && '\0' !in name && '\\' !in name && (name == "" || name[0] != '/')
            && NeverAbove(Split(name)) && Depth(Split(name)) > 0
    ensures CleanEntryName(name).Some? ==> |Parse(name).names| == Depth(Split(name))
  {
    hide CleanEntryName, Walk, Split, NeverAbove, Depth;
    AcceptedExactly(name);
    WalkByDepth(Split(name));
  }

  /** Whatever the first check accepts lands strictly inside the root, so the second never fires. */
  lemma AcceptedStaysInside(root: Path, name: string)
    requires Normal(root) && CleanEntryName(name).Some?
    ensures Parse(name).names != [] && AllPlain(Parse(name).names)
    ensures Rel(Show(root), JoinTo(Show(root), CleanEntryName(name).value)) == CleanEntryName(name)
    ensures EntryTarget(Show(root), CleanEntryName(name).value) == Some(Show(Extend(root, Parse(name).names)))
  {
    var names := Parse(name).names;
    AcceptedExactly(name);
    JoinPlain(root, names);
    RelOfExtend(root, names);
    ClimbsExactly(names);
  }

  /** Entry names chosen by the archiver for a file at `names` under a source directory. */
  function EntryName(source: string, isDir: bool, file: string): Option<string> {
    if !isDir then Some(Base(file))
    else match Rel(source, file)
      case None => None
      case Some(rel) => if rel == "." || rel == "" then None else Some(rel)
  }

  /** Inside a directory the archiver names a file by the way down to it. */
  lemma EntryNameBelow(source: Path, names: seq<string>)
    requires Normal(source) && names != [] && AllPlain(names)
    ensures EntryName(Show(source), true, Show(Extend(source, names))) == Some(Join(names))
  {
    RelOfExtend(source, names);
    NormalConcat(false, [], names);
    assert [] + names == names;
    DotOnlyHere(names);
    JoinStart(names);
  }

  predicate AllClean(names: seq<string>) {
    forall i :: 0 <= i < |names| ==> CleanChars(names[i])
  }

  lemma {:induction false} JoinChars(names: seq<string>)
    ensures CleanChars(Join(names)) <==> AllClean(names)
  {
    if |names| > 1 {
      JoinChars(names[1..]);
      assert forall i :: 1 <= i < |names| ==> names[i] == names[1..][i - 1];
      assert forall c :: c in Join(names) <==> c in names[0] || c == '/' || c in Join(names[1..]);
    }
  }

  /** The extractor accepts the archiver's names unless one holds a NUL or a backslash. */
  lemma EntryNameAccepted(names: seq<string>)
    requires names != [] && AllPlain(names)
    ensures Parse(Join(names)) == Path(false, names)
    ensures CleanEntryName(Join(names)).Some? <==> AllClean(names)
  {
    hide Walk, Split, Join, CleanEntryName, CleanChars, AllClean;
    NormalConcat(false, [], names);
    assert [] + names == names;
    ParseOfShow(Path(false, names));
    AcceptedExactly(Join(names));
    JoinChars(names);
  }

  // ---------------------------------------------------------------- dataset file names

  /** The first check on a trimmed dataset name. */
  predicate LooksLikeAName(name: string) {
    name != "" && Clean(name) == name && name != "." && !IsAbs(name) && name == Base(name)
  }

  function DatasetFilePath(root: string, filename: string): Option<string> {
    var name := Trim(filename);
    if !LooksLikeAName(name) then None
    else
      var target := JoinTo(root, name);
      match Rel(root, target)
      case None => None
      case Some(rel) => if rel == "." || Climbs(rel) || IsAbs(rel) then None else Some(target)
  }

  lemma {:induction false} LastNonEmptyNoSlash(cs: seq<string>)
    requires NoSlashes(cs)
    ensures LastNonEmpty(cs) == "/" || '/' !in LastNonEmpty(cs)
  {
    if cs != [] && cs[|cs| - 1] == "" {
      LastNonEmptyNoSlash(cs[..|cs| - 1]);
    }
  }

  /** The first check lets through the plain names and, besides them, only the parent directory. */
  lemma FirstCheckExactly(name: string)
    ensures LooksLikeAName(name) <==> Plain(name) || name == ".."
  {
    if LooksLikeAName(name) {
      LastNonEmptyNoSlash(Split(name));
      assert '/' !in name;
    }
    if Plain(name) || name == ".." {
      SplitWord(name);
      assert Parse(name).names == [name] by {
        assert [] + [name] == [name];
      }
    }
  }

  /** Only plain names survive both checks; the parent directory falls at the second. */
  lemma DatasetPathExactly(root: Path, filename: string)
    requires Normal(root) && root.rooted
    ensures DatasetFilePath(Show(root), filename) ==
            if Plain(Trim(filename)) then Some(Show(Extend(root, [Trim(filename)]))) else None
  {
    var name := Trim(filename);
    FirstCheckExactly(name);
    if Plain(name) {
      PlainTarget(root, name);
    } else if name == ".." {
      ParentTarget(root);
    }
  }

  lemma PlainTarget(root: Path, name: string)
    requires Normal(root) && Plain(name)
    ensures JoinTo(Show(root), name) == Show(Extend(root, [name]))
    ensures Rel(Show(root), JoinTo(Show(root), name)) == Some(name)
    ensures !Climbs(name)
  {
    JoinPlain(root, [name]);
    RelOfExtend(root, [name]);
    ClimbsExactly([name]);
  }

  /** The parent of the root is the root itself at "/", and a climb elsewhere. */
  lemma ParentTarget(root: Path)
    requires Normal(root) && root.rooted
    ensures Rel(Show(root), JoinTo(Show(root), "..")) == Some(if root.names == [] then "." else "..")
  {
    var names := root.names;
    assert AllPlain(names);
    ParseOfShow(root);
    ParseJoin(Show(root), "..");
    SplitWord("..");
    var up := if names == [] then [] else names[..|names| - 1];
    assert Walk(true, names, [".."]) == up by {
      if names != [] {
        assert Plain(names[|names| - 1]);
      }
    }
    ParseNormal(Show(root) + "/" + "..");
    ParseOfShow(Path(true, up));
    if names != [] {
      RelNamesParent(names);
    }
  }
}
