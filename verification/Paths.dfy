/** Unix path names: Clean, Join, Rel and Base of Go's path packages, over their components. */
module Paths {
  import opened Results
  import opened Strings

  /** What a path name denotes: where it starts and the names walked from there. */
  datatype Path = Path(rooted: bool, names: seq<string>)

  predicate IsAbs(s: string) {
    s != "" && s[0] == '/'
  }

  /** A component that names an entry of the directory it is looked up in. */
  predicate Plain(c: string) {
    c != "" && c != "." && c != ".." && '/' !in c
  }

  predicate AllPlain(names: seq<string>) {
    forall i :: 0 <= i < |names| ==> Plain(names[i])
  }

  /** Walks `todo` from the directory reached by `done`. */
  function Walk(rooted: bool, done: seq<string>, todo: seq<string>): seq<string>
    decreases |todo|
  {
    if todo == [] then done
    else if todo[0] == "" || todo[0] == "." then Walk(rooted, done, todo[1..])
    else if todo[0] != ".." then Walk(rooted, done + [todo[0]], todo[1..])
    else if done != [] && done[|done| - 1] != ".." then Walk(rooted, done[..|done| - 1], todo[1..])
    else if rooted then Walk(rooted, done, todo[1..])
    else Walk(rooted, done + [".."], todo[1..])
  }

  function Parse(s: string): Path {
    Path(IsAbs(s), Walk(IsAbs(s), [], Split(s)))
  }

  function Show(p: Path): string {
    if p.rooted then "/" + Join(p.names) else if p.names == [] then "." else Join(p.names)
  }

  function Clean(s: string): string {
    Show(Parse(s))
  }

  /** filepath.Join of a non-empty directory and a name. */
  function JoinTo(dir: string, name: string): string {
    Clean(dir + "/" + name)
  }

  /** filepath.Base */
  function Base(s: string): string {
    if s == "" then "." else LastNonEmpty(Split(s))
  }

  function LastNonEmpty(cs: seq<string>): string {
    if cs == [] then "/" else if cs[|cs| - 1] != "" then cs[|cs| - 1] else LastNonEmpty(cs[..|cs| - 1])
  }

  function Ups(n: nat): seq<string> {
    seq(n, _ => "..")
  }

  /** The climb out of what is left of the base once the common prefix is gone, then the target. */
  function RelNames(base: seq<string>, target: seq<string>): Option<seq<string>> {
    if base != [] && target != [] && base[0] == target[0] then RelNames(base[1..], target[1..])
    else if base != [] && base[0] == ".." then None
    else Some(Ups(|base|) + target)
  }

  /** filepath.Rel; a relative target that is the current directory itself never reaches it here. */
  function Rel(base: string, target: string): Option<string> {
    var b, t := Parse(base), Parse(target);
    if b == t then Some(".")
    else if b.rooted != t.rooted then None
    else match RelNames(b.names, t.names)
      case None => None
      case Some(names) => Some(Join(names))
  }

  // ---------------------------------------------------------------- normal forms

  /** Climbs first, and only in a relative path; plain names after. */
  predicate Normal(p: Path) {
    NormalNames(p.rooted, p.names)
  }

  predicate NormalNames(rooted: bool, names: seq<string>) {
    if names != [] && names[0] == ".." then !rooted && NormalNames(rooted, names[1..])
    else AllPlain(names)
  }

  predicate AllUps(names: seq<string>) {
    forall i :: 0 <= i < |names| ==> names[i] == ".."
  }

  lemma {:induction false} NormalInit(rooted: bool, names: seq<string>)
    requires names != [] && NormalNames(rooted, names)
    ensures NormalNames(rooted, names[..|names| - 1])
  {
    var init := names[..|names| - 1];
    if names[0] == ".." && |names| > 1 {
      NormalInit(rooted, names[1..]);
      assert init[1..] == names[1..][..|names| - 2];
    }
  }

  lemma {:induction false} NormalSnoc(rooted: bool, names: seq<string>, c: string)
    requires NormalNames(rooted, names) && Plain(c)
    ensures NormalNames(rooted, names + [c])
  {
    if names != [] && names[0] == ".." {
      NormalSnoc(rooted, names[1..], c);
      assert (names + [c])[1..] == names[1..] + [c];
    } else {
      assert (names + [c])[0] != "..";
    }
  }

  /** Nothing plain comes before a climb. */
  lemma {:induction false} ClimbsFirst(rooted: bool, names: seq<string>, k: nat)
    requires NormalNames(rooted, names) && k < |names| && names[k] == ".."
    ensures !rooted && AllUps(names[..k])
  {
    if names[0] == ".." && k > 0 {
      ClimbsFirst(rooted, names[1..], k - 1);
      assert names[..k] == [".."] + names[1..][..k - 1];
    }
  }

  lemma {:induction false} UpsNormal(names: seq<string>)
    requires AllUps(names)
    ensures NormalNames(false, names)
  {
    if names != [] {
      UpsNormal(names[1..]);
    }
  }

  lemma {:induction false} WalkNormal(rooted: bool, done: seq<string>, todo: seq<string>)
    requires NormalNames(rooted, done) && NoSlashes(todo)
    ensures NormalNames(rooted, Walk(rooted, done, todo))
    decreases |todo|
  {
    if todo != [] {
      var c, rest := todo[0], todo[1..];
      if c == "" || c == "." {
        WalkNormal(rooted, done, rest);
      } else if c != ".." {
        NormalSnoc(rooted, done, c);
        WalkNormal(rooted, done + [c], rest);
      } else if done != [] && done[|done| - 1] != ".." {
        NormalInit(rooted, done);
        WalkNormal(rooted, done[..|done| - 1], rest);
      } else if rooted {
        WalkNormal(rooted, done, rest);
      } else {
        if done != [] {
          ClimbsFirst(rooted, done, |done| - 1);
        }
        UpsNormal(done + [".."]);
        WalkNormal(rooted, done + [".."], rest);
      }
    }
  }

  lemma ParseNormal(s: string)
    ensures Normal(Parse(s))
  {
    WalkNormal(IsAbs(s), [], Split(s));
  }

  /** Walking names already in normal form arrives at exactly those names. */
  lemma {:induction false} WalkOfNormal(rooted: bool, done: seq<string>, todo: seq<string>)
    requires NormalNames(rooted, done + todo)
    ensures Walk(rooted, done, todo) == done + todo
    decreases |todo|
  {
    if todo == [] {
      assert done + todo == done;
    } else {
      var c, rest := todo[0], todo[1..];
      var all := done + todo;
      assert all[|done|] == c && all == (done + [c]) + rest;
      NormalMember(rooted, all, |done|);
      if c == ".." {
        ClimbsFirst(rooted, all, |done|);
        assert done == all[..|done|];
      }
      WalkOfNormal(rooted, done + [c], rest);
    }
  }

  lemma {:induction false} NormalMember(rooted: bool, names: seq<string>, k: nat)
    requires NormalNames(rooted, names) && k < |names|
    ensures Plain(names[k]) || names[k] == ".."
    ensures '/' !in names[k]
  {
    if names[0] == ".." && k > 0 {
      NormalMember(rooted, names[1..], k - 1);
    }
  }

  lemma NormalNoSlashes(rooted: bool, names: seq<string>)
    requires NormalNames(rooted, names)
    ensures NoSlashes(names)
  {
    forall k | 0 <= k < |names|
      ensures '/' !in names[k]
    {
      NormalMember(rooted, names, k);
    }
  }

  lemma JoinStart(names: seq<string>)
    requires names != [] && names[0] != "" && '/' !in names[0]
    ensures Join(names) != "" && Join(names)[0] == names[0][0] != '/'
  {
    assert names[0][0] in names[0];
  }

  /** Cleaned names read back as the path they were printed from. */
  lemma ParseOfShow(p: Path)
    requires Normal(p)
    ensures Parse(Show(p)) == p
  {
    var names := p.names;
    if names == [] {
      SplitWord("");
      SplitWord(".");
      SplitWordThen("", "");
      assert "/" == "" + "/" + "";
      assert Split("/") == [""] + [""];
      WalkConcat(true, [], [""], [""]);
      assert Walk(true, [], [""]) == [];
      assert Walk(false, [], ["."]) == [];
    } else {
      NormalMember(p.rooted, names, 0);
      NormalNoSlashes(p.rooted, names);
      SplitOfJoin(names);
      JoinStart(names);
      assert [] + names == names;
      WalkOfNormal(p.rooted, [], names);
      if p.rooted {
        SplitWordThen("", Join(names));
        assert "/" + Join(names) == "" + "/" + Join(names);
        assert ([""] + names)[1..] == names;
      }
    }
  }

  lemma CleanTwice(s: string)
    ensures Clean(Clean(s)) == Clean(s)
  {
    ParseNormal(s);
    ParseOfShow(Parse(s));
  }

  lemma ShowInjective(p: Path, q: Path)
    requires Normal(p) && Normal(q) && Show(p) == Show(q)
    ensures p == q
  {
    ParseOfShow(p);
    ParseOfShow(q);
  }

  // ---------------------------------------------------------------- joining

  lemma {:induction false} WalkConcat(rooted: bool, done: seq<string>, xs: seq<string>, ys: seq<string>)
    ensures Walk(rooted, done, xs + ys) == Walk(rooted, Walk(rooted, done, xs), ys)
    decreases |xs|
  {
    if xs == [] {
      assert xs + ys == ys;
    } else {
      var c := xs[0];
      assert (xs + ys)[0] == c && (xs + ys)[1..] == xs[1..] + ys;
      var next := if c == "" || c == "." then done
      else if c != ".." then done + [c]
      else if done != [] && done[|done| - 1] != ".." then done[..|done| - 1]
      else if rooted then done
      else done + [".."];
      WalkConcat(rooted, next, xs[1..], ys);
    }
  }

  /** Joining walks the name from where the directory is. */
  lemma ParseJoin(dir: string, name: string)
    requires dir != ""
    ensures Parse(dir + "/" + name) == Path(IsAbs(dir), Walk(IsAbs(dir), Parse(dir).names, Split(name)))
  {
    SplitConcat(dir, name);
    WalkConcat(IsAbs(dir), [], Split(dir), Split(name));
    assert IsAbs(dir + "/" + name) == IsAbs(dir);
  }

  lemma {:induction false} NormalConcat(rooted: bool, xs: seq<string>, ys: seq<string>)
    requires NormalNames(rooted, xs) && AllPlain(ys)
    ensures NormalNames(rooted, xs + ys)
  {
    if xs == [] {
      assert xs + ys == ys;
    } else if xs[0] == ".." {
      NormalConcat(rooted, xs[1..], ys);
      assert (xs + ys)[1..] == xs[1..] + ys;
    }
  }

  function Extend(p: Path, names: seq<string>): Path {
    Path(p.rooted, p.names + names)
  }

  lemma ExtendNormal(p: Path, names: seq<string>)
    requires Normal(p) && AllPlain(names)
    ensures Normal(Extend(p, names))
  {
    NormalConcat(p.rooted, p.names, names);
  }

  /** Joining plain names onto a cleaned directory descends by exactly those names. */
  lemma JoinPlain(p: Path, names: seq<string>)
    requires Normal(p) && names != [] && AllPlain(names)
    ensures Parse(Show(p) + "/" + Join(names)) == Extend(p, names)
    ensures JoinTo(Show(p), Join(names)) == Show(Extend(p, names))
  {
    ParseOfShow(p);
    assert Show(p) != "" by {
      if p.names != [] {
        NormalMember(p.rooted, p.names, 0);
        JoinStart(p.names);
      }
    }
    ParseJoin(Show(p), Join(names));
    SplitOfJoin(names);
    NormalConcat(p.rooted, p.names, names);
    WalkOfNormal(p.rooted, p.names, names);
  }

  // ---------------------------------------------------------------- relative names

  lemma {:induction false} RelNamesBelow(base: seq<string>, names: seq<string>)
    ensures RelNames(base, base + names) == Some(names)
  {
    if base == [] {
      assert base + names == names && Ups(0) + names == names;
    } else {
      RelNamesBelow(base[1..], names);
      assert (base + names)[1..] == base[1..] + names;
    }
  }

  /** What Join descended by is what Rel finds, from any cleaned directory. */
  lemma RelOfExtend(p: Path, names: seq<string>)
    requires Normal(p) && names != [] && AllPlain(names)
    ensures Rel(Show(p), Show(Extend(p, names))) == Some(Join(names))
  {
    ParseOfShow(p);
    ExtendNormal(p, names);
    ParseOfShow(Extend(p, names));
    RelNamesBelow(p.names, names);
    assert |p.names + names| > |p.names|;
  }

  lemma {:induction false} RelNamesParent(base: seq<string>)
    requires base != [] && AllPlain(base)
    ensures RelNames(base, base[..|base| - 1]) == Some([".."])
  {
    if |base| == 1 {
      assert Ups(1) + [] == [".."];
      assert Plain(base[0]);
    } else {
      RelNamesParent(base[1..]);
      assert base[..|base| - 1][1..] == base[1..][..|base| - 2];
    }
  }
  lemma {:induction false} NormalTail(rooted: bool, xs: seq<string>, ys: seq<string>)
    requires NormalNames(rooted, xs + ys) && (ys == [] || ys[0] != "..")
    ensures AllPlain(ys)
  {
    if xs == [] {
      assert xs + ys == ys;
    } else if xs[0] == ".." {
      assert (xs + ys)[1..] == xs[1..] + ys;
      NormalTail(rooted, xs[1..], ys);
    } else {
      assert forall i :: 0 <= i < |ys| ==> (xs + ys)[|xs| + i] == ys[i];
    }
  }

  /** Climbing out of plain names takes them away one by one. */
  lemma {:induction false} WalkUps(rooted: bool, xs: seq<string>, left: seq<string>)
    requires AllPlain(left)
    ensures Walk(rooted, xs + left, Ups(|left|)) == xs
    decreases |left|
  {
    var done, ups := xs + left, Ups(|left|);
    if left == [] {
      assert done == xs && ups == [];
    } else {
      var init := left[..|left| - 1];
      assert done[|done| - 1] == left[|left| - 1] && Plain(left[|left| - 1]);
      assert done[..|done| - 1] == xs + init && ups[1..] == Ups(|init|);
      WalkUps(rooted, xs, init);
    }
  }

  /** Walked from the base, the relative names lead to the target. */
  lemma {:induction false} RelNamesLead(rooted: bool, common: seq<string>, base: seq<string>, target: seq<string>)
    requires NormalNames(rooted, common + base) && NormalNames(rooted, common + target)
    requires RelNames(base, target).Some?
    ensures Walk(rooted, common + base, RelNames(base, target).value) == common + target
    decreases |base|
  {
    if base != [] && target != [] && base[0] == target[0] {
      var more := common + [base[0]];
      assert common + base == more + base[1..] && common + target == more + target[1..];
      RelNamesLead(rooted, more, base[1..], target[1..]);
    } else {
      NormalTail(rooted, common, base);
      WalkUps(rooted, common, base);
      WalkConcat(rooted, common + base, Ups(|base|), target);
      WalkOfNormal(rooted, common, target);
    }
  }

  lemma {:induction false} RelNamesNoSlashes(base: seq<string>, target: seq<string>)
    requires NoSlashes(target) && RelNames(base, target).Some?
    ensures NoSlashes(RelNames(base, target).value)
    ensures RelNames(base, target).value == [] ==> base == target
    decreases |base|
  {
    if base != [] && target != [] && base[0] == target[0] {
      RelNamesNoSlashes(base[1..], target[1..]);
      assert base == [base[0]] + base[1..] && target == [target[0]] + target[1..];
    }
  }

  /** What Rel promises: joined to the base, its answer is the target again. */
  lemma JoinOfRel(base: string, target: string)
    requires base != "" && Rel(base, target).Some?
    ensures Parse(base + "/" + Rel(base, target).value) == Parse(target)
  {
    var b, t := Parse(base), Parse(target);
    ParseNormal(base);
    ParseNormal(target);
    ParseJoin(base, Rel(base, target).value);
    hide Walk, Split;
    if b == t {
      SplitWord(".");
      WalkDot(b.rooted, b.names);
    } else {
      NormalNoSlashes(t.rooted, t.names);
      RelNamesNoSlashes(b.names, t.names);
      SplitOfJoin(RelNames(b.names, t.names).value);
      assert [] + b.names == b.names && [] + t.names == t.names;
      RelNamesLead(b.rooted, [], b.names, t.names);
    }
  }

  lemma WalkDot(rooted: bool, done: seq<string>)
    ensures Walk(rooted, done, ["."]) == done
  {
    assert ["."][1..] == [];
  }

  // ---------------------------------------------------------------- the equations of cleaning

  /** Two components that come to nothing, wherever they stand. */
  lemma WalkPair(rooted: bool, done: seq<string>, c: string, rest: seq<string>)
    requires Plain(c)
    ensures Walk(rooted, done, [c, ".."] + rest) == Walk(rooted, done, rest)
  {
    var todo := [c, ".."] + rest;
    assert todo[1..] == [".."] + rest && ([".."] + rest)[1..] == rest;
    assert (done + [c])[..|done|] == done;
  }

  lemma WalkOne(rooted: bool, done: seq<string>, c: string, rest: seq<string>)
    ensures c == "" || c == "." ==> Walk(rooted, done, [c] + rest) == Walk(rooted, done, rest)
    ensures rooted ==> Walk(rooted, [], [".."] + rest) == Walk(rooted, [], rest)
  {
    assert ([c] + rest)[1..] == rest && ([".."] + rest)[1..] == rest;
  }

  /** What follows a directory matters only through its components. */
  lemma SameWalkSameParse(x: string, y: string, z: string)
    requires forall rooted, done :: Walk(rooted, done, Split(y)) == Walk(rooted, done, Split(z))
    ensures Parse(x + "/" + y) == Parse(x + "/" + z)
    ensures IsAbs(y) == IsAbs(z) ==> Parse(y) == Parse(z)
  {
    SplitConcat(x, y);
    SplitConcat(x, z);
    var rooted := IsAbs(x + "/" + y);
    assert IsAbs(x + "/" + z) == rooted;
    WalkConcat(rooted, [], Split(x), Split(y));
    WalkConcat(rooted, [], Split(x), Split(z));
  }

  /** A plain name and the climb out of it come to nothing, after anything and before anything. */
  lemma DownAndUp(x: string, c: string, y: string)
    requires Plain(c)
    ensures Parse(x + "/" + (c + "/../" + y)) == Parse(x + "/" + y)
    ensures !IsAbs(y) ==> Parse(c + "/../" + y) == Parse(y)
  {
    var z := c + "/../" + y;
    assert z == c + "/" + (".." + "/" + y);
    SplitWordThen(c, ".." + "/" + y);
    SplitWordThen("..", y);
    assert [c] + ([".."] + Split(y)) == [c, ".."] + Split(y);
    forall rooted, done
      ensures Walk(rooted, done, Split(z)) == Walk(rooted, done, Split(y))
    {
      WalkPair(rooted, done, c, Split(y));
    }
    hide Walk, Split;
    assert !IsAbs(z) by {
      assert z[0] == c[0] && c[0] in c;
    }
    SameWalkSameParse(x, z, y);
  }

  /** So does a component that is empty or a dot. */
  lemma DotsVanish(x: string, y: string)
    ensures Parse(x + "/" + ("./" + y)) == Parse(x + "/" + y)
    ensures Parse(x + "/" + ("/" + y)) == Parse(x + "/" + y)
    ensures !IsAbs(y) ==> Parse("./" + y) == Parse(y)
  {
    SplitWordThen(".", y);
    SplitWordThen("", y);
    assert "./" + y == "." + "/" + y && "/" + y == "" + "/" + y;
    forall rooted, done
      ensures Walk(rooted, done, Split("./" + y)) == Walk(rooted, done, Split(y))
      ensures Walk(rooted, done, Split("/" + y)) == Walk(rooted, done, Split(y))
    {
      WalkOne(rooted, done, ".", Split(y));
      WalkOne(rooted, done, "", Split(y));
    }
    hide Walk, Split;
    SameWalkSameParse(x, "./" + y, y);
    SameWalkSameParse(x, "/" + y, y);
  }

  /** At the root there is nothing to climb to. */
  lemma RootHasNoParent(y: string)
    ensures Parse("/../" + y) == Parse("/" + y)
  {
    assert "/../" + y == "" + "/" + (".." + "/" + y) && "/" + y == "" + "/" + y;
    SplitWordThen("", ".." + "/" + y);
    SplitWordThen("..", y);
    SplitWordThen("", y);
    WalkOne(true, [], "", [".."] + Split(y));
    WalkOne(true, [], "", Split(y));
    WalkOne(true, [], "..", Split(y));
  }

  /** A climb before a relative walk stays in front of it. */
  lemma {:induction false} WalkAfterUp(done: seq<string>, todo: seq<string>)
    ensures Walk(false, [".."] + done, todo) == [".."] + Walk(false, done, todo)
    decreases |todo|
  {
    if todo != [] {
      var c, rest, more := todo[0], todo[1..], [".."] + done;
      if c == "" || c == "." {
        WalkAfterUp(done, rest);
      } else if c != ".." {
        assert more + [c] == [".."] + (done + [c]);
        WalkAfterUp(done + [c], rest);
      } else if done != [] && done[|done| - 1] != ".." {
        assert more[..|more| - 1] == [".."] + done[..|done| - 1];
        WalkAfterUp(done[..|done| - 1], rest);
      } else {
        assert more + [".."] == [".."] + (done + [".."]);
        WalkAfterUp(done + [".."], rest);
      }
    }
  }

  /** A climb at the start of a relative name stays. */
  lemma LeadingClimbStays(y: string)
    requires !IsAbs(y)
    ensures Parse("../" + y) == Path(false, [".."] + Parse(y).names)
  {
    assert "../" + y == ".." + "/" + y;
    SplitWordThen("..", y);
    var todo := [".."] + Split(y);
    assert todo[1..] == Split(y);
    assert Walk(false, [], todo) == Walk(false, [".."] + [], Split(y)) by {
      assert [] + [".."] == [".."] + [];
    }
    WalkAfterUp([], Split(y));
  }

  /** The last element: trailing slashes do not count, and nothing but slashes is the root. */
  lemma BaseExactly(s: string, c: string)
    requires c != "" && '/' !in c
    ensures Base("") == "." && Base("/") == "/" && Base(c) == c && Base(s + "/" + c) == c
    ensures s != "" ==> Base(s + "/") == Base(s)
  {
    SplitWord(c);
    SplitConcat(s, c);
    SplitConcat(s, "");
    SplitConcat("", "");
    SplitWord("");
    assert "/" == "" + "/" + "" && s + "/" == s + "/" + "";
    var cs := Split(s) + [c];
    assert cs[|cs| - 1] == c;
    var ds := Split(s) + [""];
    assert ds[|ds| - 1] == "" && ds[..|ds| - 1] == Split(s);
    assert ([""] + [""])[..1] == [""] && [""][..0] == [];
  }

  // ---------------------------------------------------------------- how far a name climbs

  /** The height that walking the components ends at: plain names go down one, ".." goes up one. */
  function Depth(cs: seq<string>): int {
    if cs == [] then 0
    else
      var last := cs[|cs| - 1];
      Depth(cs[..|cs| - 1]) + if last == "" || last == "." then 0 else if last == ".." then -1 else 1
  }

  /** The walk never goes above where it started. */
  predicate NeverAbove(cs: seq<string>) {
    forall k :: 0 <= k <= |cs| ==> Depth(cs[..k]) >= 0
  }

  lemma NeverAboveStep(cs: seq<string>)
    requires cs != []
    ensures NeverAbove(cs) <==> NeverAbove(cs[..|cs| - 1]) && Depth(cs) >= 0
  {
    hide Depth;
    var init := cs[..|cs| - 1];
    if NeverAbove(cs) {
      assert cs[..|cs|] == cs;
      forall k | 0 <= k <= |init|
        ensures Depth(init[..k]) >= 0
      {
        assert init[..k] == cs[..k];
      }
    }
    if NeverAbove(init) && Depth(cs) >= 0 {
      forall k | 0 <= k <= |cs|
        ensures Depth(cs[..k]) >= 0
      {
        assert if k == |cs| then cs[..k] == cs else cs[..k] == init[..k];
      }
    }
  }

  /** A relative walk that never goes above its start ends that deep in it; any other starts with a climb. */
  lemma {:induction false} WalkByDepth(cs: seq<string>)
    ensures var names := Walk(false, [], cs);
            if NeverAbove(cs) then |names| == Depth(cs) && forall i :: 0 <= i < |names| ==> names[i] != ".."
            else names != [] && names[0] == ".."
    decreases |cs|
  {
    if cs != [] {
      var init, last := cs[..|cs| - 1], cs[|cs| - 1];
      assert cs == init + [last] && [last][1..] == [];
      WalkByDepth(init);
      WalkConcat(false, [], init, [last]);
      NeverAboveStep(cs);
      hide NeverAbove;
    }
  }
}
