/** The response-cache profile: canonical Vary fields and which policies are safe. */
module CachePolicy {
  import opened Results
  import opened Strings

  // ---------------------------------------------------------------- field names

  /** Simple case folding, as far as it can reach an ASCII letter. */
  function FoldChar(c: char): char {
    if 'A' <= c <= 'Z' then c - 'A' + 'a'
    else if c == '\U{212A}' then 'k'
    else if c == '\U{17F}' then 's'
    else c
  }

  /** strings.EqualFold, for names at least one of which is ASCII */
  predicate EqualFold(a: string, b: string) {
    |a| == |b| && forall i :: 0 <= i < |a| ==> FoldChar(a[i]) == FoldChar(b[i])
  }

  predicate Letter(c: char) {
    'a' <= c <= 'z' || 'A' <= c <= 'Z'
  }

  /** Alike but for case; the Kelvin sign and the long s are letters k and s. */
  predicate SameLetter(x: char, y: char) {
    || x == y
    || (Letter(x) && Letter(y) && (x as int == y as int + 32 || y as int == x as int + 32))
    || (x == '\U{212A}' && (y == 'k' || y == 'K'))
    || (x == '\U{17F}' && (y == 's' || y == 'S'))
  }

  /** Names are compared letter by letter, whatever the case. */
  lemma FoldExactly(s: string, name: string)
    requires forall i :: 0 <= i < |name| ==> name[i] as int < 128
    ensures EqualFold(s, name) <==> |s| == |name| && forall i :: 0 <= i < |s| ==> SameLetter(s[i], name[i])
  {
    if |s| == |name| {
      forall i | 0 <= i < |s|
        ensures FoldChar(s[i]) == FoldChar(name[i]) <==> SameLetter(s[i], name[i])
      {
        FoldCharExactly(s[i], name[i]);
      }
    }
  }

  lemma FoldCharExactly(x: char, y: char)
    requires y as int < 128
    ensures FoldChar(x) == FoldChar(y) <==> SameLetter(x, y)
  {
  }

  const SESSION_ID := "Session-ID"

  const KNOWN: seq<string> := [
    "Agent-ID", "Principal-ID", "Authority-Scope", "Tenant-ID",
    "Deployment-ID", "Policy-Grant-Hash", SESSION_ID, "Task-ID"
  ]

  /** The names that are protected. */
  lemma KnownSpelled(name: string)
    ensures name in KNOWN <==>
            || name == "Agent-ID" || name == "Principal-ID" || name == "Authority-Scope" || name == "Tenant-ID"
            || name == "Deployment-ID" || name == "Policy-Grant-Hash" || name == "Session-ID" || name == "Task-ID"
  {
    assert KNOWN[6] == "Session-ID";
  }

  function FindKnown(name: string, from: nat): string
    requires from <= |KNOWN|
    decreases |KNOWN| - from
  {
    if from == |KNOWN| then name
    else if EqualFold(name, KNOWN[from]) then KNOWN[from]
    else FindKnown(name, from + 1)
  }

  function Canonical(field: string): string {
    FindKnown(Trim(field), 0)
  }

  /** No two protected names have the same length, so none folds to another. */
  lemma KnownApart(i: nat, j: nat)
    requires i < j < |KNOWN|
    ensures |KNOWN[i]| != |KNOWN[j]|
  {
    assert |KNOWN[0]| == 8 && |KNOWN[1]| == 12 && |KNOWN[2]| == 15 && |KNOWN[3]| == 9;
    assert |KNOWN[4]| == 13 && |KNOWN[5]| == 17 && |KNOWN[6]| == 10 && |KNOWN[7]| == 7;
  }

  lemma KnownEnds(i: nat)
    requires i < |KNOWN|
    ensures KNOWN[i] != "" && !IsSpace(KNOWN[i][0]) && !IsSpace(KNOWN[i][|KNOWN[i]| - 1])
  {
    assert KNOWN[i][0] in ['A', 'P', 'T', 'D', 'S'];
    assert KNOWN[i][|KNOWN[i]| - 1] in ['D', 'e', 'h'];
  }

  lemma {:induction false} FindKnownFrom(name: string, from: nat)
    requires from <= |KNOWN|
    ensures var r := FindKnown(name, from);
            || (r == name && forall i :: from <= i < |KNOWN| ==> !EqualFold(name, KNOWN[i]))
            || (exists i :: from <= i < |KNOWN| && r == KNOWN[i] && EqualFold(name, KNOWN[i]))
    decreases |KNOWN| - from
  {
    hide EqualFold;
    if from < |KNOWN| && !EqualFold(name, KNOWN[from]) {
      FindKnownFrom(name, from + 1);
    }
  }

  lemma FoldsToOne(name: string, i: nat, j: nat)
    requires i < |KNOWN| && j < |KNOWN| && EqualFold(name, KNOWN[i]) && EqualFold(name, KNOWN[j])
    ensures i == j
  {
    if i < j {
      KnownApart(i, j);
    } else if j < i {
      KnownApart(j, i);
    }
  }

  /** A field is a protected one exactly when it folds to its name; otherwise trimming is all. */
  lemma CanonicalExactly(field: string, i: nat)
    requires i < |KNOWN|
    ensures Canonical(field) == KNOWN[i] <==> EqualFold(Trim(field), KNOWN[i])
    ensures (forall k :: 0 <= k < |KNOWN| ==> !EqualFold(Trim(field), KNOWN[k])) ==> Canonical(field) == Trim(field)
  {
    var name := Trim(field);
    FindKnownFrom(name, 0);
    hide Trim;
    if EqualFold(name, KNOWN[i]) {
      var k :| 0 <= k < |KNOWN| && Canonical(field) == KNOWN[k] && EqualFold(name, KNOWN[k]);
      FoldsToOne(name, i, k);
    }
  }

  /** Fields are merged only when their names differ in case and surrounding space. */
  lemma MergedNamesFold(a: string, b: string)
    requires Canonical(a) == Canonical(b)
    ensures EqualFold(Trim(a), Trim(b))
  {
    FindKnownFrom(Trim(a), 0);
    FindKnownFrom(Trim(b), 0);
    hide Trim, FindKnown;
  }

  lemma TrimKnown(i: nat)
    requires i < |KNOWN|
    ensures Trim(KNOWN[i]) == KNOWN[i]
  {
    KnownEnds(i);
  }

  lemma CanonicalTwice(field: string)
    ensures Canonical(Canonical(field)) == Canonical(field)
  {
    var name := Trim(field);
    FindKnownFrom(name, 0);
    TrimTwice(field);
    hide Trim, EqualFold;
    if Canonical(field) != name || exists i :: 0 <= i < |KNOWN| && EqualFold(name, KNOWN[i]) {
      var i :| 0 <= i < |KNOWN| && Canonical(field) == KNOWN[i] && EqualFold(name, KNOWN[i]);
      TrimKnown(i);
      FoldsToItself(KNOWN[i]);
      CanonicalExactly(KNOWN[i], i);
    }
  }

  lemma FoldsToItself(name: string)
    ensures EqualFold(name, name)
  {
  }

  // ---------------------------------------------------------------- normalization

  /** The canonical, non-blank fields of a list. */
  function FieldSet(fields: seq<string>): set<string> {
    set f | f in fields && Canonical(f) != "" :: Canonical(f)
  }

  /** First occurrences, in order, of canonical fields not yet seen. */
  function Collect(fields: seq<string>, seen: set<string>): seq<string>
    decreases |fields|
  {
    if fields == [] then []
    else
      var f := Canonical(fields[0]);
      if f == "" || f in seen then Collect(fields[1..], seen) else [f] + Collect(fields[1..], seen + {f})
  }

  function Normalize(fields: seq<string>): seq<string> {
    Sort(Collect(fields, {}))
  }

  predicate StrictlySorted(s: seq<string>) {
    Sorted(s) && Distinct(s)
  }

  lemma FieldSetStep(fields: seq<string>)
    requires fields != []
    ensures FieldSet(fields) ==
            FieldSet(fields[1..]) + if Canonical(fields[0]) == "" then {} else {Canonical(fields[0])}
  {
    hide Canonical;
    assert forall f :: f in fields <==> f == fields[0] || f in fields[1..];
  }

  lemma {:induction false} CollectExactly(fields: seq<string>, seen: set<string>)
    ensures Distinct(Collect(fields, seen))
    ensures forall x :: x in Collect(fields, seen) <==> x in FieldSet(fields) && x !in seen
    decreases |fields|
  {
    hide Canonical, FieldSet;
    if fields == [] {
      NoFields();
    } else {
      FieldSetStep(fields);
      var f := Canonical(fields[0]);
      CollectExactly(fields[1..], if f == "" then seen else seen + {f});
      if f != "" && f !in seen {
        var rest := Collect(fields[1..], seen + {f});
        assert f !in rest;
      } else if f != "" {
        assert seen + {f} == seen;
      }
    }
  }

  lemma NoFields()
    ensures FieldSet([]) == {}
  {
  }

  /** The normal form lists the canonical fields in strictly increasing order, and nothing else. */
  lemma NormalizeExactly(fields: seq<string>)
    ensures StrictlySorted(Normalize(fields))
    ensures forall x :: x in Normalize(fields) <==> x in FieldSet(fields)
  {
    hide FieldSet, Collect, Sorted, Sort;
    CollectExactly(fields, {});
    SortSorts(Collect(fields, {}));
    SortDistinct(Collect(fields, {}));
  }

  /** Two lists normalize alike exactly when they name the same fields. */
  lemma SameNormalForm(a: seq<string>, b: seq<string>)
    ensures Normalize(a) == Normalize(b) <==> FieldSet(a) == FieldSet(b)
  {
    hide FieldSet, Normalize, Sorted, Distinct;
    NormalizeExactly(a);
    NormalizeExactly(b);
    if FieldSet(a) == FieldSet(b) {
      DistinctMembers(Normalize(a), Normalize(b));
      SortedUnique(Normalize(a), Normalize(b));
    } else {
      assert exists x :: x in FieldSet(a) <==> x !in FieldSet(b);
    }
  }

  lemma NormalizeTwice(fields: seq<string>)
    ensures Normalize(Normalize(fields)) == Normalize(fields)
  {
    NormalizeExactly(fields);
    var once := Normalize(fields);
    forall x
      ensures x in FieldSet(once) <==> x in FieldSet(fields)
    {
      FieldsAreCanonical(fields, once, x);
    }
    SameNormalForm(once, fields);
  }

  lemma FieldsAreCanonical(fields: seq<string>, once: seq<string>, x: string)
    requires forall y :: y in once <==> y in FieldSet(fields)
    ensures x in FieldSet(once) <==> x in FieldSet(fields)
  {
    hide Canonical;
    if x in FieldSet(fields) {
      var f :| f in fields && Canonical(f) != "" && x == Canonical(f);
      CanonicalTwice(f);
      assert x in once;
    }
    if x in FieldSet(once) {
      var y :| y in once && Canonical(y) != "" && x == Canonical(y);
      var f :| f in fields && Canonical(f) != "" && y == Canonical(f);
      CanonicalTwice(f);
    }
  }

  /** A name shorter than every protected one is its own. */
  lemma ShortIsItself(c: char)
    requires !IsSpace(c)
    ensures Canonical([c]) == [c]
  {
    TrimOf("", [c], "");
    assert "" + [c] + "" == [c];
    assert forall i :: 0 <= i < |KNOWN| ==> |KNOWN[i]| > 1 by {
      assert |KNOWN[0]| == 8 && |KNOWN[1]| == 12 && |KNOWN[2]| == 15 && |KNOWN[3]| == 9;
      assert |KNOWN[4]| == 13 && |KNOWN[5]| == 17 && |KNOWN[6]| == 10 && |KNOWN[7]| == 7;
    }
    hide Trim, Canonical;
    CanonicalExactly([c], 0);
  }

  /** For two such names in the wrong order. */
  lemma NormalizeSorts(x: char, y: char)
    requires x < y && !IsSpace(x) && !IsSpace(y)
    ensures Normalize([[y], [x]]) == [[x], [y]]
  {
    var fields, sorted := [[y], [x]], [[x], [y]];
    ShortIsItself(x);
    ShortIsItself(y);
    NormalizeExactly(fields);
    assert Leq(sorted[0], sorted[1]);
    assert Sorted(sorted) && Distinct(sorted);
    hide Canonical, Normalize, Sorted, Distinct, Leq;
    assert FieldSet(fields) == {[x], [y]} by {
      assert fields[0] in fields && fields[1] in fields;
    }
    DistinctMembers(Normalize(fields), sorted);
    SortedUnique(Normalize(fields), sorted);
  }

  method NormalizeCacheVary(fields: seq<string>) returns (out: seq<string>)
    ensures out == Normalize(fields)
    ensures StrictlySorted(out) && forall x :: x in out <==> x in FieldSet(fields)
  {
    hide Canonical, Sort, FieldSet;
    var seen: set<string> := {};
    out := [];
    var i := 0;
    while i < |fields|
      invariant 0 <= i <= |fields|
      invariant out + Collect(fields[i..], seen) == Collect(fields, {})
    {
      assert fields[i..][0] == fields[i] && fields[i..][1..] == fields[i + 1..];
      var field := Canonical(fields[i]);
      if field != "" && field !in seen {
        assert out + ([field] + Collect(fields[i + 1..], seen + {field})) ==
               out + [field] + Collect(fields[i + 1..], seen + {field});
        seen := seen + {field};
        out := out + [field];
      }
      i := i + 1;
    }
    assert out == Collect(fields, {});
    out := Sort(out);
    NormalizeExactly(fields);
  }

  // ---------------------------------------------------------------- policies

  datatype Policy = Policy(directive: string, maxAge: int, vary: seq<string>)

  datatype Context = Context(securityState: bool, callerFields: seq<string>, sessionBound: bool,
          allowSessionPrivate: bool)

  datatype Error = UnsupportedDirective | MissingFreshness | Unsafe | MissingPartition

  datatype Directive = NoStore | Public | Private | Unsupported

  /** unicode.ToLower, as far as it can reach an ASCII letter */
  function LowerChar(c: char): char {
    if 'A' <= c <= 'Z' then c - 'A' + 'a'
    else if c == '\U{212A}' then 'k'
    else if c == '\U{130}' then 'i'
    else c
  }

  predicate LowersTo(s: string, word: string) {
    |s| == |word| && forall i :: 0 <= i < |s| ==> LowerChar(s[i]) == word[i]
  }

  function Effective(policy: Policy): Directive {
    var word := Trim(policy.directive);
    if word == "" || LowersTo(word, "no-store") then NoStore
    else if LowersTo(word, "public") then Public
    else if LowersTo(word, "private") then Private
    else Unsupported
  }

  /** `s` is `word` in some case; the Kelvin sign is a k and the dotted capital I an i. */
  predicate AnyCase(s: string, word: string) {
    |s| == |word| && forall i :: 0 <= i < |s| ==>
      || s[i] == word[i]
      || ('A' <= s[i] <= 'Z' && s[i] as int + 32 == word[i] as int)
      || (s[i] == '\U{212A}' && word[i] == 'k')
      || (s[i] == '\U{130}' && word[i] == 'i')
  }

  /** `s` is `word` in some case, with or without spaces around it. */
  ghost predicate Says(s: string, word: string) {
    exists l, w, r :: AllSpace(l) && AllSpace(r) && AnyCase(w, word) && s == l + w + r
  }

  predicate LowerWord(word: string) {
    forall i :: 0 <= i < |word| ==> 'a' <= word[i] <= 'z' || word[i] == '-'
  }

  lemma LowersExactly(s: string, word: string)
    requires LowerWord(word)
    ensures LowersTo(s, word) <==> AnyCase(s, word)
  {
  }

  lemma CasesAreBare(w: string, word: string)
    requires LowerWord(word) && AnyCase(w, word)
    ensures Bare(w)
  {
  }

  lemma SaysExactly(s: string, word: string)
    requires LowerWord(word)
    ensures LowersTo(Trim(s), word) <==> Says(s, word)
  {
    hide Trim, LowersTo, AnyCase, AllSpace, Bare;
    LowersExactly(Trim(s), word);
    if LowersTo(Trim(s), word) {
      var l, r := TrimCuts(s);
      assert s == l + Trim(s) + r;
    }
    if Says(s, word) {
      var l, w, r :| AllSpace(l) && AllSpace(r) && AnyCase(w, word) && s == l + w + r;
      CasesAreBare(w, word);
      TrimOf(l, w, r);
    }
  }

  /** Which directive a text is: one of three words, in any case and spacing, or nothing but spaces. */
  lemma EffectiveExactly(policy: Policy)
    ensures Effective(policy) == NoStore <==> AllSpace(policy.directive) || Says(policy.directive, "no-store")
    ensures Effective(policy) == Public <==> Says(policy.directive, "public")
    ensures Effective(policy) == Private <==> Says(policy.directive, "private")
  {
    SaysExactly(policy.directive, "no-store");
    SaysExactly(policy.directive, "public");
    SaysExactly(policy.directive, "private");
    assert Trim(policy.directive) == "" <==> AllSpace(policy.directive) by {
      BlankExactly(policy.directive);
    }
    hide Trim, Says, AllSpace;
    assert |"public"| == 6 && |"private"| == 7 && |"no-store"| == 8;
  }

  lemma BlankExactly(s: string)
    ensures Trim(s) == "" <==> AllSpace(s)
  {
    hide Trim;
    if Trim(s) == "" {
      var l, r := TrimCuts(s);
      assert s == l + "" + r;
    }
    if AllSpace(s) {
      assert s == s + "" + "";
      TrimOf(s, "", "");
    }
  }

  predicate ContainsAll(vary: seq<string>, required: seq<string>) {
    forall i :: 0 <= i < |required| ==> required[i] in vary
  }

  predicate ContainsProtected(vary: seq<string>) {
    exists i :: 0 <= i < |KNOWN| && KNOWN[i] in vary
  }

  function Validate(policy: Policy, ctx: Context): Option<Error> {
    var directive := Effective(policy);
    if directive == NoStore then None
    else if directive == Unsupported then Some(UnsupportedDirective)
    else if policy.maxAge <= 0 then Some(MissingFreshness)
    else if ctx.securityState then Some(Unsafe)
    else
      var vary, caller := Normalize(policy.vary), Normalize(ctx.callerFields);
      if directive == Public then if caller != [] || ContainsProtected(vary) then Some(Unsafe) else None
      else if ctx.sessionBound && (!ctx.allowSessionPrivate || SESSION_ID !in vary) then Some(MissingPartition)
      else if !ContainsAll(vary, caller) then Some(MissingPartition)
      else None
  }

  // ---------------------------------------------------------------- what a valid policy guarantees

  /** A request's field values, by canonical name; an absent field is the empty value. */
  type Request = map<string, string>

  function Value(r: Request, field: string): string {
    var name := Canonical(field);
    if name in r then r[name] else ""
  }

  /** A cache that keys its entries by `fields` cannot tell the two requests apart. */
  predicate Agree(r: Request, s: Request, fields: seq<string>) {
    forall f :: f in fields && Canonical(f) != "" ==> Value(r, f) == Value(s, f)
  }

  lemma AgreeByName(r: Request, s: Request, fields: seq<string>, f: string)
    requires Agree(r, s, fields) && Canonical(f) in FieldSet(fields)
    ensures Value(r, f) == Value(s, f)
  {
    hide Canonical;
    var g :| g in fields && Canonical(g) != "" && Canonical(g) == Canonical(f);
    assert Value(r, g) == Value(s, g);
  }

  /** The containment test decides exactly whether the Vary key separates whatever the callers' key does. */
  lemma PartitionExactly(vary: seq<string>, caller: seq<string>)
    ensures ContainsAll(Normalize(vary), Normalize(caller)) <==>
            forall r, s :: Agree(r, s, vary) ==> Agree(r, s, caller)
  {
    NormalizeExactly(vary);
    NormalizeExactly(caller);
    hide Canonical, Normalize, Sorted, Distinct;
    if ContainsAll(Normalize(vary), Normalize(caller)) {
      forall r, s | Agree(r, s, vary)
        ensures Agree(r, s, caller)
      {
        forall f | f in caller && Canonical(f) != ""
          ensures Value(r, f) == Value(s, f)
        {
          assert Canonical(f) in FieldSet(caller);
          assert Canonical(f) in Normalize(caller);
          AgreeByName(r, s, vary, f);
        }
      }
    } else {
      var i :| 0 <= i < |Normalize(caller)| && Normalize(caller)[i] !in Normalize(vary);
      var x := Normalize(caller)[i];
      assert x in FieldSet(caller) && x !in FieldSet(vary);
      Separated(vary, caller, x);
    }
  }

  lemma Separated(vary: seq<string>, caller: seq<string>, x: string)
    requires x in FieldSet(caller) && x !in FieldSet(vary)
    ensures exists r, s :: Agree(r, s, vary) && !Agree(r, s, caller)
  {
    hide Canonical;
    var r: Request, s: Request := map[], map[x := "other"];
    var f :| f in caller && Canonical(f) != "" && Canonical(f) == x;
    assert Value(r, f) != Value(s, f);
    assert !Agree(r, s, caller);
    forall g | g in vary && Canonical(g) != ""
      ensures Value(r, g) == Value(s, g)
    {
      assert Canonical(g) in FieldSet(vary);
    }
    assert Agree(r, s, vary);
  }

  /** When a fresh private policy outside security state is valid, in terms of requests alone. */
  lemma PrivateExactly(policy: Policy, ctx: Context)
    requires Effective(policy) == Private && policy.maxAge > 0 && !ctx.securityState
    ensures Validate(policy, ctx) == None <==>
            && (ctx.sessionBound ==>
                ctx.allowSessionPrivate && exists f :: f in policy.vary && EqualFold(Trim(f), SESSION_ID))
            && forall r, s :: Agree(r, s, policy.vary) ==> Agree(r, s, ctx.callerFields)
  {
    PartitionExactly(policy.vary, ctx.callerFields);
    SessionVary(policy.vary);
    hide Agree, Normalize, Effective, ContainsAll, EqualFold, Trim;
  }

  lemma SessionVary(vary: seq<string>)
    ensures SESSION_ID in Normalize(vary) <==> exists f :: f in vary && EqualFold(Trim(f), SESSION_ID)
  {
    NormalizeExactly(vary);
    KnownVary(vary, 6);
  }

  lemma KnownVary(vary: seq<string>, i: nat)
    requires i < |KNOWN|
    ensures KNOWN[i] in FieldSet(vary) <==> exists f :: f in vary && EqualFold(Trim(f), KNOWN[i])
  {
    forall f
      ensures Canonical(f) == KNOWN[i] <==> EqualFold(Trim(f), KNOWN[i])
    {
      CanonicalExactly(f, i);
    }
    assert KNOWN[i] != "" by {
      KnownEnds(i);
    }
    hide Canonical, EqualFold, Trim;
  }

  /** Two requests that a valid private, session-bound policy lets share an answer share the session. */
  lemma SessionIsKept(policy: Policy, ctx: Context, r: Request, s: Request)
    requires Effective(policy) == Private && Validate(policy, ctx) == None && ctx.sessionBound
    requires Agree(r, s, policy.vary)
    ensures Value(r, SESSION_ID) == Value(s, SESSION_ID)
  {
    NormalizeExactly(policy.vary);
    TrimKnown(6);
    FoldsToItself(SESSION_ID);
    CanonicalExactly(SESSION_ID, 6);
    hide Agree, Normalize, Effective, ContainsAll, EqualFold, Trim, Canonical;
    AgreeByName(r, s, policy.vary, SESSION_ID);
  }

  /** When a fresh public policy outside security state is valid. */
  lemma PublicExactly(policy: Policy, ctx: Context)
    requires Effective(policy) == Public && policy.maxAge > 0 && !ctx.securityState
    ensures Validate(policy, ctx) == None <==>
            && (forall f :: f in ctx.callerFields ==> Canonical(f) == "")
            && forall f, i :: f in policy.vary && 0 <= i < |KNOWN| ==> !EqualFold(Trim(f), KNOWN[i])
  {
    NormalizeExactly(ctx.callerFields);
    NormalizeExactly(policy.vary);
    forall i | 0 <= i < |KNOWN|
      ensures KNOWN[i] in FieldSet(policy.vary) <==> exists f :: f in policy.vary && EqualFold(Trim(f), KNOWN[i])
    {
      KnownVary(policy.vary, i);
    }
    NoCaller(ctx.callerFields);
    hide Normalize, Effective, EqualFold, Trim, Canonical, FieldSet;
  }

  lemma NoCaller(fields: seq<string>)
    ensures Normalize(fields) == [] <==> forall f :: f in fields ==> Canonical(f) == ""
  {
    NormalizeExactly(fields);
    hide Normalize, Canonical;
    if Normalize(fields) == [] {
      forall f | f in fields
        ensures Canonical(f) == ""
      {
        assert Canonical(f) != "" ==> Canonical(f) in FieldSet(fields);
      }
    } else {
      assert Normalize(fields)[0] in FieldSet(fields);
    }
  }

  /** No-store is always fine, and what is wrong with any other policy is told apart in this order. */
  lemma VerdictsInOrder(policy: Policy, ctx: Context)
    ensures var directive, verdict := Effective(policy), Validate(policy, ctx);
            && (directive == NoStore ==> verdict == None)
            && (verdict == Some(UnsupportedDirective) <==> directive == Unsupported)
            && (verdict == Some(MissingFreshness) <==> directive in {Public, Private} && policy.maxAge <= 0)
            && (directive in {Public, Private} && policy.maxAge > 0 && ctx.securityState ==> verdict == Some(Unsafe))
            && (directive == Public && policy.maxAge > 0 ==> verdict in {None, Some(Unsafe)})
            && (directive == Private && policy.maxAge > 0 && !ctx.securityState ==>
                  verdict in {None, Some(MissingPartition)})
  {
    hide Effective, Normalize;
  }

  /** Everything that is not no-store needs a lifetime and must be outside security state. */
  lemma StoredOnlyWhenFreshAndHarmless(policy: Policy, ctx: Context)
    requires Validate(policy, ctx) == None && Effective(policy) != NoStore
    ensures policy.maxAge > 0 && !ctx.securityState && Effective(policy) != Unsupported
    ensures forall r, s :: Agree(r, s, policy.vary) ==> Agree(r, s, ctx.callerFields)
  {
    PartitionExactly(policy.vary, ctx.callerFields);
    hide Agree, Normalize, Effective;
  }
}
