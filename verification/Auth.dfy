/** Request authentication and replay protection: agent/auth/auth.go. */
module Auth {
  import opened Results

  /** Instants and durations in nanoseconds. */
  type Time = int

  const MAX_SIGNATURE_AGE: Time := 5 * 60 * 1_000_000_000
  const MAX_FUTURE_SKEW: Time := 60 * 1_000_000_000

  const CONSUMER := "consumer"
  const DATA_PROVIDER := "data-provider"
  const ALGORITHM_PROVIDER := "algorithm-provider"

  datatype Error = MissingMetadata | InvalidMetadata | SignatureExpired | ReplayDetected | SignatureVerificationFailed

  // ---------------------------------------------------------------- the two encodings

  const PAYLOAD_VERSION := "agents-secure-binding-agent-auth-v1"
  const ISSUED_AT := "\nissued_at="
  const NONCE := "\nnonce="

  function SignaturePayload(role: string, rpc: string, issuedAt: string, nonce: string): string {
    PAYLOAD_VERSION + "\nrole=" + (role + "\nmethod=" + (rpc + "\nissued_at=" + (issuedAt + "\nnonce=" + nonce)))
  }

  function ReplayKey(role: string, rpc: string, nonce: string): string {
    role + "\0" + (rpc + "\0" + nonce)
  }

  /** A string without `c` is cut off again by the first `c` after it. */
  lemma CutAtSeparator(c: char, x1: string, rest1: string, x2: string, rest2: string)
    requires c !in x1 && c !in x2
    requires x1 + [c] + rest1 == x2 + [c] + rest2
    ensures x1 == x2 && rest1 == rest2
  {
    var s := x1 + [c] + rest1;
    assert s[|x1|] == c && s[|x2|] == c;
    assert forall k :: 0 <= k < |x1| ==> s[k] == x1[k] != c;
    assert forall k :: 0 <= k < |x2| ==> s[k] == x2[k] != c;
    assert x1 == s[..|x1|] && x2 == s[..|x2|];
    assert rest1 == s[|x1| + 1..] && rest2 == s[|x2| + 1..];
  }

  lemma CutAtLabel(tag: string, x1: string, rest1: string, x2: string, rest2: string)
    requires |tag| > 0 && tag[0] !in x1 && tag[0] !in x2
    requires x1 + tag + rest1 == x2 + tag + rest2
    ensures x1 == x2 && rest1 == rest2
  {
    var more := tag[1..];
    assert tag == [tag[0]] + more;
    assert x1 + tag + rest1 == x1 + [tag[0]] + (more + rest1);
    assert x2 + tag + rest2 == x2 + [tag[0]] + (more + rest2);
    CutAtSeparator(tag[0], x1, more + rest1, x2, more + rest2);
    assert rest1 == (more + rest1)[|more|..] && rest2 == (more + rest2)[|more|..];
  }

  /** Different requests never share a signed payload, whatever their nonces contain. */
  lemma PayloadInjective(role1: string, rpc1: string, at1: string, nonce1: string,
                         role2: string, rpc2: string, at2: string, nonce2: string)
    requires '\n' !in role1 && '\n' !in rpc1 && '\n' !in at1
    requires '\n' !in role2 && '\n' !in rpc2 && '\n' !in at2
    requires SignaturePayload(role1, rpc1, at1, nonce1) == SignaturePayload(role2, rpc2, at2, nonce2)
    ensures role1 == role2 && rpc1 == rpc2 && at1 == at2 && nonce1 == nonce2
  {
    var head := PAYLOAD_VERSION + "\nrole=";
    var t1 := at1 + "\nnonce=" + nonce1;
    var t2 := at2 + "\nnonce=" + nonce2;
    var m1 := rpc1 + "\nissued_at=" + t1;
    var m2 := rpc2 + "\nissued_at=" + t2;
    var r1 := role1 + "\nmethod=" + m1;
    var r2 := role2 + "\nmethod=" + m2;
    assert head + r1 == head + r2;
    assert r1 == (head + r1)[|head|..] && r2 == (head + r2)[|head|..];
    CutAtLabel("\nmethod=", role1, m1, role2, m2);
    CutAtLabel("\nissued_at=", rpc1, t1, rpc2, t2);
    CutAtLabel("\nnonce=", at1, nonce1, at2, nonce2);
  }

  /** The second request's method swallows the first one's issue time and the start of its nonce. */
  ghost predicate Swallows(rpc1: string, at1: string, nonce1: string, rpc2: string, at2: string, nonce2: string) {
    exists x :: SwallowsAt(x, rpc1, at1, nonce1, rpc2, at2, nonce2)
  }

  predicate SwallowsAt(x: string, rpc1: string, at1: string, nonce1: string, rpc2: string, at2: string,
          nonce2: string) {
    rpc2 == rpc1 + ISSUED_AT + at1 + NONCE + x && nonce1 == x + ISSUED_AT + at2 + NONCE + nonce2
  }

  /**
   Roles are constants and issue times must parse, so neither holds a newline. Then two requests share
   a payload exactly when they are the same request, or one's method swallows the other's issue time.
   */
  lemma SharedPayloadExactly(role1: string, rpc1: string, at1: string, nonce1: string,
                             role2: string, rpc2: string, at2: string, nonce2: string)
    requires '\n' !in role1 && '\n' !in at1 && '\n' !in role2 && '\n' !in at2
    ensures SignaturePayload(role1, rpc1, at1, nonce1) == SignaturePayload(role2, rpc2, at2, nonce2) <==>
            && role1 == role2
            && ((rpc1 == rpc2 && at1 == at2 && nonce1 == nonce2)
                || Swallows(rpc1, at1, nonce1, rpc2, at2, nonce2)
                || Swallows(rpc2, at2, nonce2, rpc1, at1, nonce1))
  {
    PayloadTail(role1, rpc1, at1, nonce1, role2, rpc2, at2, nonce2);
    hide SignaturePayload, Swallows, Tail;
    if Tail(rpc1, at1, nonce1) == Tail(rpc2, at2, nonce2) {
      if |rpc1| <= |rpc2| {
        TailsShared(rpc1, at1, nonce1, rpc2, at2, nonce2);
      } else {
        TailsShared(rpc2, at2, nonce2, rpc1, at1, nonce1);
      }
    }
    SwallowedTail(rpc1, at1, nonce1, rpc2, at2, nonce2);
    SwallowedTail(rpc2, at2, nonce2, rpc1, at1, nonce1);
  }

  function Tail(rpc: string, at: string, nonce: string): string {
    rpc + (ISSUED_AT + at + NONCE + nonce)
  }

  lemma PayloadTail(role1: string, rpc1: string, at1: string, nonce1: string,
                    role2: string, rpc2: string, at2: string, nonce2: string)
    requires '\n' !in role1 && '\n' !in role2
    ensures SignaturePayload(role1, rpc1, at1, nonce1) == SignaturePayload(role2, rpc2, at2, nonce2) <==>
            role1 == role2 && Tail(rpc1, at1, nonce1) == Tail(rpc2, at2, nonce2)
  {
    var head := PAYLOAD_VERSION + "\nrole=";
    var r1 := role1 + "\nmethod=" + Tail(rpc1, at1, nonce1);
    var r2 := role2 + "\nmethod=" + Tail(rpc2, at2, nonce2);
    assert SignaturePayload(role1, rpc1, at1, nonce1) == head + r1;
    assert SignaturePayload(role2, rpc2, at2, nonce2) == head + r2;
    hide SignaturePayload, Tail;
    if head + r1 == head + r2 {
      assert r1 == (head + r1)[|head|..] && r2 == (head + r2)[|head|..];
      CutAtLabel("\nmethod=", role1, Tail(rpc1, at1, nonce1), role2, Tail(rpc2, at2, nonce2));
    }
  }

  lemma SwallowedTail(rpc1: string, at1: string, nonce1: string, rpc2: string, at2: string, nonce2: string)
    ensures Swallows(rpc1, at1, nonce1, rpc2, at2, nonce2) ==> Tail(rpc1, at1, nonce1) == Tail(rpc2, at2, nonce2)
  {
    if Swallows(rpc1, at1, nonce1, rpc2, at2, nonce2) {
      var x :| SwallowsAt(x, rpc1, at1, nonce1, rpc2, at2, nonce2);
      assert rpc1 + (ISSUED_AT + at1 + NONCE + (x + ISSUED_AT + at2 + NONCE + nonce2))
          == (rpc1 + ISSUED_AT + at1 + NONCE + x) + (ISSUED_AT + at2 + NONCE + nonce2);
    }
  }

  /** Before the nonce, newlines stand only in front of the two labels. */
  lemma NewlinesBeforeNonce(at: string, nonce: string, k: nat)
    requires '\n' !in at && 0 < k < |ISSUED_AT + at + NONCE|
    ensures (ISSUED_AT + at + NONCE + nonce)[k] == '\n' ==> k == |ISSUED_AT + at|
  {
    var rest := ISSUED_AT + at + NONCE + nonce;
    var a, b := |ISSUED_AT|, |ISSUED_AT| + |at|;
    if k < a {
      assert rest[k] == ISSUED_AT[k];
    } else if k < b {
      assert rest[k] == at[k - a] && at[k - a] in at;
    } else {
      assert rest[k] == NONCE[k - b];
    }
  }

  /** One rest inside another, further in: it begins in the nonce. */
  lemma RestInNonce(at1: string, nonce1: string, at2: string, nonce2: string, k: nat)
    requires '\n' !in at1 && 0 < k <= |ISSUED_AT + at1 + NONCE + nonce1|
    requires (ISSUED_AT + at1 + NONCE + nonce1)[k..] == ISSUED_AT + at2 + NONCE + nonce2
    ensures k >= |ISSUED_AT + at1 + NONCE|
    ensures var x := nonce1[..k - |ISSUED_AT + at1 + NONCE|];
            && (ISSUED_AT + at1 + NONCE + nonce1)[..k] == ISSUED_AT + at1 + NONCE + x
            && nonce1 == x + (ISSUED_AT + at2 + NONCE + nonce2)
  {
    var rest1, rest2 := ISSUED_AT + at1 + NONCE + nonce1, ISSUED_AT + at2 + NONCE + nonce2;
    assert rest2[0] == '\n' && rest2[1] == 'i';
    assert rest1[k] == rest2[0] && rest1[k + 1] == rest2[1];
    assert rest1[|ISSUED_AT + at1| + 1] == NONCE[1] == 'n';
    if k < |ISSUED_AT + at1 + NONCE| {
      NewlinesBeforeNonce(at1, nonce1, k);
    }
  }

  /** Where the longer method ends, a newline stands in the shorter request's rest: only in its nonce. */
  lemma TailsShared(rpc1: string, at1: string, nonce1: string, rpc2: string, at2: string, nonce2: string)
    requires '\n' !in at1 && '\n' !in at2 && |rpc1| <= |rpc2|
    requires Tail(rpc1, at1, nonce1) == Tail(rpc2, at2, nonce2)
    ensures (rpc1 == rpc2 && at1 == at2 && nonce1 == nonce2) || Swallows(rpc1, at1, nonce1, rpc2, at2, nonce2)
  {
    var rest1, rest2 := ISSUED_AT + at1 + NONCE + nonce1, ISSUED_AT + at2 + NONCE + nonce2;
    Overlap(rpc1, rest1, rpc2, rest2);
    var k := |rpc2| - |rpc1|;
    hide Tail;
    if k == 0 {
      SameRest(at1, nonce1, at2, nonce2);
    } else {
      RestInNonce(at1, nonce1, at2, nonce2, k);
      var x := nonce1[..k - |ISSUED_AT + at1 + NONCE|];
      Regroup(rpc1, at1, x);
      Regroup(x, at2, nonce2);
      assert SwallowsAt(x, rpc1, at1, nonce1, rpc2, at2, nonce2);
    }
  }

  lemma Regroup(x: string, at: string, y: string)
    ensures x + (ISSUED_AT + at + NONCE + y) == x + ISSUED_AT + at + NONCE + y
  {
  }

  lemma Overlap(x1: string, y1: string, x2: string, y2: string)
    requires x1 + y1 == x2 + y2 && |x1| <= |x2|
    ensures var k := |x2| - |x1|; k <= |y1| && y1[k..] == y2 && x2 == x1 + y1[..k]
    ensures |x1| == |x2| ==> x1 == x2 && y1 == y2
  {
    var all := x1 + y1;
    assert y1 == all[|x1|..] && y2 == all[|x2|..];
    assert x1 == all[..|x1|] && x2 == all[..|x2|];
  }

  lemma SameRest(at1: string, nonce1: string, at2: string, nonce2: string)
    requires '\n' !in at1 && '\n' !in at2
    requires ISSUED_AT + at1 + NONCE + nonce1 == ISSUED_AT + at2 + NONCE + nonce2
    ensures at1 == at2 && nonce1 == nonce2
  {
    var rest1, rest2 := ISSUED_AT + at1 + NONCE + nonce1, ISSUED_AT + at2 + NONCE + nonce2;
    assert at1 + NONCE + nonce1 == rest1[|ISSUED_AT|..];
    assert at2 + NONCE + nonce2 == rest2[|ISSUED_AT|..];
    CutAtLabel(NONCE, at1, nonce1, at2, nonce2);
  }

  /** Different requests never share a replay slot, whatever their nonces contain. */
  lemma ReplayKeyInjective(role1: string, rpc1: string, nonce1: string, role2: string, rpc2: string, nonce2: string)
    requires '\0' !in role1 && '\0' !in rpc1 && '\0' !in role2 && '\0' !in rpc2
    requires ReplayKey(role1, rpc1, nonce1) == ReplayKey(role2, rpc2, nonce2)
    ensures role1 == role2 && rpc1 == rpc2 && nonce1 == nonce2
  {
    CutAtSeparator('\0', role1, rpc1 + "\0" + nonce1, role2, rpc2 + "\0" + nonce2);
    CutAtSeparator('\0', rpc1, nonce1, rpc2, nonce2);
  }

  // ---------------------------------------------------------------- the nonce table

  type Table = map<string, Time>

  function Purge(seen: Table, now: Time): Table {
    map k | k in seen && seen[k] > now :: seen[k]
  }

  /** The table after a mark, and whether the mark was accepted. */
  function Mark(seen: Table, key: string, expires: Time, now: Time): (Table, bool) {
    var live := Purge(seen, now);
    if key in live then (live, false) else (live[key := expires], true)
  }

  /** The reference: every accepted mark, never forgotten. */
  datatype Accepted = Accepted(key: string, expires: Time)

  /** A key is free at `now` when every accepted mark of it has expired. */
  predicate Free(history: seq<Accepted>, key: string, now: Time) {
    forall i :: 0 <= i < |history| ==> history[i].key == key ==> history[i].expires <= now
  }

  function MarkInHistory(history: seq<Accepted>, key: string, expires: Time, now: Time): (seq<Accepted>, bool) {
    if Free(history, key, now) then (history + [Accepted(key, expires)], true) else (history, false)
  }

  /** The table stands for the history from `now` on. */
  ghost predicate Represents(seen: Table, history: seq<Accepted>, now: Time) {
    && (forall k :: k in seen ==> Accepted(k, seen[k]) in history)
    && (forall i :: 0 <= i < |history| && history[i].expires > now ==>
          history[i].key in seen && seen[history[i].key] >= history[i].expires)
  }

  /** At any later reading the purged table decides as the history does, and stands for it again. */
  lemma MarkRefines(seen: Table, history: seq<Accepted>, was: Time, key: string, expires: Time, now: Time)
    requires Represents(seen, history, was) && was <= now
    ensures Mark(seen, key, expires, now).1 == MarkInHistory(history, key, expires, now).1
    ensures Represents(Mark(seen, key, expires, now).0, MarkInHistory(history, key, expires, now).0, now)
  {
    var live := Purge(seen, now);
    if key in live {
      var i :| 0 <= i < |history| && history[i] == Accepted(key, seen[key]);
      assert !Free(history, key, now);
    }
    if !Free(history, key, now) {
      var i :| 0 <= i < |history| && history[i].key == key && history[i].expires > now;
      assert key in live;
    }
    if Free(history, key, now) {
      var seen', history' := live[key := expires], history + [Accepted(key, expires)];
      forall k | k in seen'
        ensures Accepted(k, seen'[k]) in history'
      {
        if k == key {
          assert history'[|history|] == Accepted(key, expires);
        } else {
          var i :| 0 <= i < |history| && history[i] == Accepted(k, seen[k]);
          assert history'[i] == Accepted(k, seen'[k]);
        }
      }
    }
  }

  // ---------------------------------------------------------------- authentication

  /** The fields that a request's metadata presents. */
  datatype Fields = Fields(signature: string, issuedAt: string, nonce: string, issued: Time)

  type Metadata = map<string, seq<string>>

  function MetadataValue(md: Metadata, key: string): Option<string> {
    if key in md && |md[key]| == 1 && md[key][0] != "" then Some(md[key][0]) else None
  }

  function Presented(md: Option<Metadata>, parse: string -> Option<Time>): (r: Result<Fields, Error>)
    ensures r.Ok? ==> parse(r.value.issuedAt) == Some(r.value.issued) && r.value.nonce != "" && r.value.signature != ""
  {
    if md.None? then
      Err(MissingMetadata)
    else
      var sig := MetadataValue(md.value, "signature");
      var at := MetadataValue(md.value, "signature-timestamp");
      var nonce := MetadataValue(md.value, "signature-nonce");
      if sig.None? || at.None? || nonce.None? || parse(at.value).None? then
        Err(InvalidMetadata)
      else
        Ok(Fields(sig.value, at.value, nonce.value, parse(at.value).value))
  }

  predicate InWindow(issued: Time, now: Time) {
    now - MAX_SIGNATURE_AGE <= issued <= now + MAX_FUTURE_SKEW
  }

  /** The manifest's keys, and the two primitives that are not modelled further. */
  datatype Config<!Key> = Config(
    consumers: seq<Key>,
    dataProviders: seq<Key>,
    algorithmProvider: Key,
    verify: (Key, string, string) -> bool,
    parse: string -> Option<Time>)

  function KeysFor<Key>(cfg: Config<Key>, role: string): seq<Key> {
    if role == CONSUMER then cfg.consumers
    else if role == DATA_PROVIDER then cfg.dataProviders
    else if role == ALGORITHM_PROVIDER then [cfg.algorithmProvider]
    else []
  }

  /** The first key that verifies the signature, or |keys|. */
  function Signer<Key>(cfg: Config<Key>, keys: seq<Key>, payload: string, signature: string): (i: nat)
    ensures i <= |keys|
    ensures i < |keys| ==> cfg.verify(keys[i], payload, signature)
    ensures forall j :: 0 <= j < i ==> !cfg.verify(keys[j], payload, signature)
  {
    if keys == [] || cfg.verify(keys[0], payload, signature) then 0
    else 1 + Signer(cfg, keys[1..], payload, signature)
  }

  /** One call: `check` is the clock reading of the freshness check, `mark` that of the nonce table. */
  datatype Call = Call(role: string, rpc: string, md: Option<Metadata>, check: Time, mark: Time)

  /** Everything before the nonce table: the presented fields and the index of the signing key. */
  function Verified<Key>(cfg: Config<Key>, c: Call): Result<(Fields, nat), Error> {
    var f :- Presented(c.md, cfg.parse);
    if !InWindow(f.issued, c.check) then
      Err(SignatureExpired)
    else
      var keys := KeysFor(cfg, c.role);
      var i := Signer(cfg, keys, SignaturePayload(c.role, c.rpc, f.issuedAt, f.nonce), f.signature);
      if i == |keys| then Err(SignatureVerificationFailed) else Ok((f, i))
  }

  function Authenticate<Key>(cfg: Config<Key>, seen: Table, c: Call): (Table, Result<nat, Error>) {
    match Verified(cfg, c)
    case Err(e) => (seen, Err(e))
    case Ok((f, i)) =>
      var (seen', ok) := Mark(seen, ReplayKey(c.role, c.rpc, f.nonce), f.issued + MAX_SIGNATURE_AGE, c.mark);
      (seen', if ok then Ok(i) else Err(ReplayDetected))
  }

  function AuthenticateByHistory<Key>(cfg: Config<Key>, history: seq<Accepted>, c: Call)
    : (seq<Accepted>, Result<nat, Error>)
  {
    match Verified(cfg, c)
    case Err(e) => (history, Err(e))
    case Ok((f, i)) =>
      var (history', ok) := MarkInHistory(history, ReplayKey(c.role, c.rpc, f.nonce), f.issued + MAX_SIGNATURE_AGE,
          c.mark);
      (history', if ok then Ok(i) else Err(ReplayDetected))
  }

  // ---------------------------------------------------------------- who gets in

  /** The metadata hold `value` under `name`, once and not empty. */
  predicate Holds(md: Metadata, name: string, value: string) {
    name in md && md[name] == [value] && value != ""
  }

  /** What the call presents: a signature, an issue time that parses, and a nonce. */
  predicate Presents<Key>(cfg: Config<Key>, c: Call, signature: string, at: string, nonce: string, issued: Time) {
    && c.md.Some?
    && Holds(c.md.value, "signature", signature)
    && Holds(c.md.value, "signature-timestamp", at)
    && Holds(c.md.value, "signature-nonce", nonce)
    && cfg.parse(at) == Some(issued)
  }

  /** Issued at most five minutes ago and at most one minute ahead. */
  predicate Timely(c: Call, issued: Time) {
    c.check - 300_000_000_000 <= issued <= c.check + 60_000_000_000
  }

  /** The `i`-th key is the first of its role's own keys to verify the signature. */
  predicate SignedBy<Key>(cfg: Config<Key>, c: Call, payload: string, signature: string, i: nat) {
    || (c.role == "consumer" && FirstToVerify(cfg, cfg.consumers, payload, signature, i))
    || (c.role == "data-provider" && FirstToVerify(cfg, cfg.dataProviders, payload, signature, i))
    || (c.role == "algorithm-provider" && FirstToVerify(cfg, [cfg.algorithmProvider], payload, signature, i))
  }

  predicate FirstToVerify<Key>(cfg: Config<Key>, keys: seq<Key>, payload: string, signature: string, i: nat) {
    && i < |keys| && cfg.verify(keys[i], payload, signature)
    && forall j :: 0 <= j < i ==> !cfg.verify(keys[j], payload, signature)
  }

  /** The text that is signed. */
  function Signed(c: Call, at: string, nonce: string): string {
    "agents-secure-binding-agent-auth-v1\nrole=" + c.role + "\nmethod=" + c.rpc
    + "\nissued_at=" + at + "\nnonce=" + nonce
  }

  function SlotOf(c: Call, nonce: string): string {
    c.role + "\0" + c.rpc + "\0" + nonce
  }

  predicate Taken(seen: Table, slot: string, now: Time) {
    slot in seen && seen[slot] > now
  }

  lemma EncodingsSpelled(c: Call, at: string, nonce: string)
    ensures SignaturePayload(c.role, c.rpc, at, nonce) == Signed(c, at, nonce)
    ensures ReplayKey(c.role, c.rpc, nonce) == SlotOf(c, nonce)
  {
    var tail := at + "\nnonce=" + nonce;
    assert PAYLOAD_VERSION + "\nrole=" == "agents-secure-binding-agent-auth-v1\nrole=";
    assert Signed(c, at, nonce) ==
           PAYLOAD_VERSION + "\nrole=" + (c.role + "\nmethod=" + (c.rpc + "\nissued_at=" + tail));
    assert SlotOf(c, nonce) == c.role + "\0" + (c.rpc + "\0" + nonce);
  }

  lemma PresentedExactly<Key>(cfg: Config<Key>, c: Call, signature: string, at: string, nonce: string, issued: Time)
    ensures Presents(cfg, c, signature, at, nonce, issued) <==>
            Presented(c.md, cfg.parse) == Ok(Fields(signature, at, nonce, issued))
  {
  }

  lemma SignerExactly<Key>(cfg: Config<Key>, c: Call, payload: string, signature: string, i: nat)
    ensures var keys := KeysFor(cfg, c.role);
            SignedBy(cfg, c, payload, signature, i) <==>
            Signer(cfg, keys, payload, signature) == i && i < |keys|
  {
  }

  /**
   A call is accepted as the `i`-th of its role exactly when it presents its metadata properly and in
   time, the `i`-th key of that role is the first to verify them, and its nonce is not taken.
   */
  lemma AcceptsExactly<Key>(cfg: Config<Key>, seen: Table, c: Call, i: nat)
    ensures Authenticate(cfg, seen, c).1 == Ok(i) <==>
            exists signature, at, nonce, issued ::
              && Presents(cfg, c, signature, at, nonce, issued) && Timely(c, issued)
              && SignedBy(cfg, c, Signed(c, at, nonce), signature, i)
              && !Taken(seen, SlotOf(c, nonce), c.mark)
  {
    forall signature, at, nonce, issued | Presents(cfg, c, signature, at, nonce, issued)
      ensures Authenticate(cfg, seen, c).1 == Ok(i) <==>
              && Timely(c, issued) && SignedBy(cfg, c, Signed(c, at, nonce), signature, i)
              && !Taken(seen, SlotOf(c, nonce), c.mark)
    {
      RepliesTo(cfg, seen, c, signature, at, nonce, issued, i);
    }
    hide Presents, Timely, SignedBy, Signed, SlotOf, Taken, Holds;
    if Authenticate(cfg, seen, c).1 == Ok(i) {
      var f := Presented(c.md, cfg.parse).value;
      PresentedExactly(cfg, c, f.signature, f.issuedAt, f.nonce, f.issued);
      assert Presents(cfg, c, f.signature, f.issuedAt, f.nonce, f.issued);
    }
  }

  /** What becomes of a call that presents its metadata properly. */
  lemma RepliesTo<Key>(cfg: Config<Key>, seen: Table, c: Call, signature: string, at: string, nonce: string,
                       issued: Time, i: nat)
    requires Presents(cfg, c, signature, at, nonce, issued)
    ensures var r := Authenticate(cfg, seen, c).1;
            var payload, slot := Signed(c, at, nonce), SlotOf(c, nonce);
            && (r == Err(SignatureExpired) <==> !Timely(c, issued))
            && (r == Err(SignatureVerificationFailed) <==>
                  Timely(c, issued) && forall k :: !SignedBy(cfg, c, payload, signature, k))
            && (r == Err(ReplayDetected) <==>
                  && Timely(c, issued) && (exists k :: SignedBy(cfg, c, payload, signature, k))
                  && Taken(seen, slot, c.mark))
            && (r == Ok(i) <==>
                  Timely(c, issued) && SignedBy(cfg, c, payload, signature, i) && !Taken(seen, slot, c.mark))
  {
    EncodingsSpelled(c, at, nonce);
    PresentedExactly(cfg, c, signature, at, nonce, issued);
    hide Signed, SlotOf, SignaturePayload, ReplayKey, Presents, SignedBy, KeysFor, Presented;
    var payload := Signed(c, at, nonce);
    var k := Signer(cfg, KeysFor(cfg, c.role), payload, signature);
    SignerExactly(cfg, c, payload, signature, k);
    forall j: nat
      ensures SignedBy(cfg, c, payload, signature, j) <==> j == k < |KeysFor(cfg, c.role)|
    {
      SignerExactly(cfg, c, payload, signature, j);
    }
  }

  /** And of one that does not. */
  lemma RefusesImproper<Key>(cfg: Config<Key>, seen: Table, c: Call)
    ensures Authenticate(cfg, seen, c) == (seen, Err(MissingMetadata)) <==> c.md == None
    ensures Authenticate(cfg, seen, c) == (seen, Err(InvalidMetadata)) <==>
            c.md.Some? && forall signature, at, nonce, issued :: !Presents(cfg, c, signature, at, nonce, issued)
  {
    if Presented(c.md, cfg.parse).Ok? {
      var f := Presented(c.md, cfg.parse).value;
      PresentedExactly(cfg, c, f.signature, f.issuedAt, f.nonce, f.issued);
      assert Presents(cfg, c, f.signature, f.issuedAt, f.nonce, f.issued);
    } else {
      forall signature, at, nonce, issued
        ensures !Presents(cfg, c, signature, at, nonce, issued)
      {
        PresentedExactly(cfg, c, signature, at, nonce, issued);
      }
    }
  }

  /** An accepted call leaves the entries that have not expired, and its own until its lifetime ends. */
  lemma AcceptedIsRemembered<Key>(cfg: Config<Key>, seen: Table, c: Call, signature: string, at: string,
                                  nonce: string, issued: Time)
    requires Presents(cfg, c, signature, at, nonce, issued) && Authenticate(cfg, seen, c).1.Ok?
    ensures var seen', slot := Authenticate(cfg, seen, c).0, SlotOf(c, nonce);
            && (forall k :: k in seen' <==> k == slot || Taken(seen, k, c.mark))
            && (forall k :: k in seen' ==> seen'[k] == if k == slot then issued + 300_000_000_000 else seen[k])
  {
    EncodingsSpelled(c, at, nonce);
    PresentedExactly(cfg, c, signature, at, nonce, issued);
    hide Signed, SlotOf, SignaturePayload, ReplayKey, Presents, KeysFor, Presented;
  }

  // ---------------------------------------------------------------- every run

  /** The table's clock readings never go back, and each call checks freshness before it marks. */
  ghost predicate ClockNeverGoesBack(was: Time, calls: seq<Call>)
    decreases |calls|
  {
    calls != [] ==>
      && was <= calls[0].mark && calls[0].check <= calls[0].mark
      && ClockNeverGoesBack(calls[0].mark, calls[1..])
  }

  function Replies<Key>(cfg: Config<Key>, seen: Table, calls: seq<Call>): (rs: seq<Result<nat, Error>>)
    ensures |rs| == |calls|
    decreases |calls|
  {
    if calls == [] then []
    else
      var (seen', r) := Authenticate(cfg, seen, calls[0]);
      [r] + Replies(cfg, seen', calls[1..])
  }

  function RepliesByHistory<Key>(cfg: Config<Key>, history: seq<Accepted>, calls: seq<Call>)
    : (rs: seq<Result<nat, Error>>)
    ensures |rs| == |calls|
    decreases |calls|
  {
    if calls == [] then []
    else
      var (history', r) := AuthenticateByHistory(cfg, history, calls[0]);
      [r] + RepliesByHistory(cfg, history', calls[1..])
  }

  lemma RepresentsLater(seen: Table, history: seq<Accepted>, was: Time, now: Time)
    requires Represents(seen, history, was) && was <= now
    ensures Represents(seen, history, now)
  {
  }

  /** The self-purging table answers every run of calls exactly as the unpurged history would. */
  lemma {:induction false} PurgingIsInvisible<Key>(cfg: Config<Key>, seen: Table, history: seq<Accepted>, was: Time,
          calls: seq<Call>)
    requires Represents(seen, history, was) && ClockNeverGoesBack(was, calls)
    ensures Replies(cfg, seen, calls) == RepliesByHistory(cfg, history, calls)
    decreases |calls|
  {
    hide Represents, Verified, Mark, MarkInHistory, ReplayKey;
    if calls != [] {
      var c := calls[0];
      var seen', history' := Authenticate(cfg, seen, c).0, AuthenticateByHistory(cfg, history, c).0;
      if Verified(cfg, c).Ok? {
        var (f, i) := Verified(cfg, c).value;
        MarkRefines(seen, history, was, ReplayKey(c.role, c.rpc, f.nonce), f.issued + MAX_SIGNATURE_AGE, c.mark);
      } else {
        RepresentsLater(seen, history, was, c.mark);
      }
      PurgingIsInvisible(cfg, seen', history', c.mark, calls[1..]);
    }
  }

  lemma FreshTableAnswersByHistory<Key>(cfg: Config<Key>, was: Time, calls: seq<Call>)
    requires ClockNeverGoesBack(was, calls)
    ensures Replies(cfg, map[], calls) == RepliesByHistory(cfg, [], calls)
  {
    assert Represents(map[], [], was);
    PurgingIsInvisible(cfg, map[], [], was, calls);
  }

  // ---------------------------------------------------------------- a clock that may go back

  /** Whatever the table holds was accepted. */
  ghost predicate Within(seen: Table, history: seq<Accepted>) {
    forall k :: k in seen ==> Accepted(k, seen[k]) in history
  }

  /** If the history still forbids the key, the table still holds it. */
  predicate Remembered(seen: Table, history: seq<Accepted>, key: string, now: Time) {
    Free(history, key, now) || (key in seen && seen[key] > now)
  }

  /** At any reading, earlier ones included, table and history agree exactly when the key is remembered. */
  lemma MarkAgreesExactly(seen: Table, history: seq<Accepted>, key: string, expires: Time, now: Time)
    requires Within(seen, history)
    ensures Mark(seen, key, expires, now).1 == MarkInHistory(history, key, expires, now).1 <==>
            Remembered(seen, history, key, now)
    ensures Remembered(seen, history, key, now) ==>
              Within(Mark(seen, key, expires, now).0, MarkInHistory(history, key, expires, now).0)
  {
    var live := Purge(seen, now);
    if key in live {
      var i :| 0 <= i < |history| && history[i] == Accepted(key, seen[key]);
      assert !Free(history, key, now);
    } else if Free(history, key, now) {
      var seen', history' := live[key := expires], history + [Accepted(key, expires)];
      forall k | k in seen'
        ensures Accepted(k, seen'[k]) in history'
      {
        if k == key {
          assert history'[|history|] == Accepted(key, expires);
        } else {
          assert Accepted(k, seen[k]) in history;
        }
      }
    }
  }

  /** Every call that gets to the table finds its key remembered. */
  ghost predicate AllRemembered<Key>(cfg: Config<Key>, seen: Table, history: seq<Accepted>, calls: seq<Call>)
    decreases |calls|
  {
    calls == [] ||
    (&& (Verified(cfg, calls[0]).Ok? ==>
           var key := ReplayKey(calls[0].role, calls[0].rpc, Verified(cfg, calls[0]).value.0.nonce);
           Remembered(seen, history, key, calls[0].mark))
     && AllRemembered(cfg, Authenticate(cfg, seen, calls[0]).0, AuthenticateByHistory(cfg, history, calls[0]).0,
         calls[1..]))
  }

  /** Under any clock, the table answers a whole run as the history does exactly when nothing is forgotten. */
  lemma {:induction false} RepliesAgreeExactly<Key>(cfg: Config<Key>, seen: Table, history: seq<Accepted>,
          calls: seq<Call>)
    requires Within(seen, history)
    ensures Replies(cfg, seen, calls) == RepliesByHistory(cfg, history, calls) <==>
              AllRemembered(cfg, seen, history, calls)
    decreases |calls|
  {
    hide Verified, Mark, MarkInHistory, Within, Remembered, ReplayKey;
    if calls != [] {
      var c := calls[0];
      var (seen', r) := Authenticate(cfg, seen, c);
      var (history', q) := AuthenticateByHistory(cfg, history, c);
      if Verified(cfg, c).Ok? {
        var (f, i) := Verified(cfg, c).value;
        MarkAgreesExactly(seen, history, ReplayKey(c.role, c.rpc, f.nonce), f.issued + MAX_SIGNATURE_AGE, c.mark);
      }
      if r == q {
        RepliesAgreeExactly(cfg, seen', history', calls[1..]);
        HeadsOff(r, Replies(cfg, seen', calls[1..]), q, RepliesByHistory(cfg, history', calls[1..]));
      } else {
        assert Replies(cfg, seen, calls)[0] != RepliesByHistory(cfg, history, calls)[0];
      }
    }
  }

  lemma HeadsOff<T>(x: T, xs: seq<T>, y: T, ys: seq<T>)
    ensures [x] + xs == [y] + ys <==> x == y && xs == ys
  {
    if [x] + xs == [y] + ys {
      assert x == ([x] + xs)[0] && xs == ([x] + xs)[1..];
      assert y == ([y] + ys)[0] && ys == ([y] + ys)[1..];
    }
  }

  /** From the empty table of a new service. */
  lemma FreshTableAgreesExactly<Key>(cfg: Config<Key>, calls: seq<Call>)
    ensures Replies(cfg, map[], calls) == RepliesByHistory(cfg, [], calls) <==> AllRemembered(cfg, map[], [], calls)
  {
    RepliesAgreeExactly(cfg, map[], [], calls);
  }

  /**
   A reading that goes back can meet a purged entry: a mark of one key at its expiry or later purges
   another, and an earlier reading then accepts the other again.
   */
  lemma ClockGoingBackForgets(key: string, other: string, expires: Time, purge: Time, now: Time)
    requires key != other && now < expires <= purge
    ensures var seen := Mark(map[key := expires], other, purge + 1, purge).0;
            var history := MarkInHistory([Accepted(key, expires)], other, purge + 1, purge).0;
            !Remembered(seen, history, key, now)
            && Mark(seen, key, expires, now).1 && !MarkInHistory(history, key, expires, now).1
  {
    var history := [Accepted(key, expires)];
    assert Free(history, other, purge);
    var more := history + [Accepted(other, purge + 1)];
    assert more[0].key == key && more[0].expires > now;
  }

  // ---------------------------------------------------------------- readings and earlier verdicts

  /** A mark that is asked for: its key, its expiry, and the clock reading. */
  datatype Asked = Asked(key: string, expires: Time, now: Time)

  function TableAfter(ms: seq<Asked>): Table {
    if ms == [] then map[]
    else
      var m := ms[|ms| - 1];
      Mark(TableAfter(ms[..|ms| - 1]), m.key, m.expires, m.now).0
  }

  function HistoryAfter(ms: seq<Asked>): seq<Accepted> {
    if ms == [] then []
    else
      var m := ms[|ms| - 1];
      MarkInHistory(HistoryAfter(ms[..|ms| - 1]), m.key, m.expires, m.now).0
  }

  predicate TakenByTable(ms: seq<Asked>, j: nat)
    requires j < |ms|
  {
    Mark(TableAfter(ms[..j]), ms[j].key, ms[j].expires, ms[j].now).1
  }

  predicate TakenByHistory(ms: seq<Asked>, j: nat)
    requires j < |ms|
  {
    MarkInHistory(HistoryAfter(ms[..j]), ms[j].key, ms[j].expires, ms[j].now).1
  }

  /** The table took the mark at `i`, and no later reading has reached its expiry. */
  predicate Stands(ms: seq<Asked>, i: nat, key: string)
    requires i < |ms|
  {
    ms[i].key == key && TakenByTable(ms, i) && forall k :: i < k < |ms| ==> ms[k].now < ms[i].expires
  }

  lemma StandsBefore(ms: seq<Asked>, i: nat, key: string)
    requires i < |ms| - 1
    ensures Stands(ms, i, key) <==> Stands(ms[..|ms| - 1], i, key) && ms[|ms| - 1].now < ms[i].expires
  {
    hide TableAfter, Mark;
    var init := ms[..|ms| - 1];
    assert init[..i] == ms[..i];
    assert forall k :: 0 <= k < |init| ==> init[k] == ms[k];
  }

  lemma StandsLast(ms: seq<Asked>, key: string)
    requires ms != []
    ensures Stands(ms, |ms| - 1, key) <==> ms[|ms| - 1].key == key && TakenByTable(ms, |ms| - 1)
  {
    hide TakenByTable;
  }

  /** The last mark purges at its reading, and enters its own key if it is taken. */
  lemma TableLast(ms: seq<Asked>, key: string)
    requires ms != []
    ensures var seen, m := TableAfter(ms[..|ms| - 1]), ms[|ms| - 1];
            var live := key in seen && seen[key] > m.now;
            && (m.key == key ==> (TakenByTable(ms, |ms| - 1) <==> !live))
            && (key in TableAfter(ms) <==> live || m.key == key)
            && (live ==> TableAfter(ms)[key] == seen[key])
            && (!live && m.key == key ==> TableAfter(ms)[key] == m.expires)
  {
  }

  /** Under any clock: the table holds a key exactly as long as a mark of it stands, with that mark's expiry. */
  lemma {:induction false} TableHoldsExactly(ms: seq<Asked>, key: string)
    ensures key in TableAfter(ms) <==> exists i :: 0 <= i < |ms| && Stands(ms, i, key)
    ensures forall i :: 0 <= i < |ms| && Stands(ms, i, key) ==>
              key in TableAfter(ms) && TableAfter(ms)[key] == ms[i].expires
    decreases |ms|
  {
    hide Stands, TakenByTable, Mark;
    if ms != [] {
      hide TableAfter;
      var init, last := ms[..|ms| - 1], |ms| - 1;
      TableHoldsExactly(init, key);
      TableLast(ms, key);
      StandsLast(ms, key);
      forall i | 0 <= i < last
        ensures Stands(ms, i, key) <==> Stands(init, i, key) && ms[last].now < ms[i].expires
        ensures init[i] == ms[i]
      {
        StandsBefore(ms, i, key);
      }
      if key in TableAfter(init) && TableAfter(init)[key] > ms[last].now {
        var i :| 0 <= i < last && Stands(init, i, key);
        assert Stands(ms, i, key);
      }
    }
  }

  /** The table took a mark of the key at `i`, and it outlives this reading. */
  predicate Outlived(ms: seq<Asked>, i: nat, key: string, now: Time)
    requires i < |ms|
  {
    ms[i].key == key && TakenByTable(ms, i) && ms[i].expires > now
  }

  predicate NoneOutlives(ms: seq<Asked>, key: string, now: Time) {
    forall i :: 0 <= i < |ms| ==> !Outlived(ms, i, key, now)
  }

  predicate Unreached(ms: seq<Asked>, i: nat, j: nat)
    requires i < j <= |ms|
  {
    forall k :: i < k < j ==> ms[k].now < ms[i].expires
  }

  ghost predicate OneStillOutlives(ms: seq<Asked>, key: string, now: Time) {
    exists i :: 0 <= i < |ms| && Outlived(ms, i, key, now) && Unreached(ms, i, |ms|)
  }

  /**
   At the mark `j`: no earlier mark of its key outlives the reading, or one does whose expiry no
   reading in between has reached.
   */
  ghost predicate NotForgotten(ms: seq<Asked>, j: nat)
    requires j < |ms|
  {
    NoneOutlives(ms[..j], ms[j].key, ms[j].now) || OneStillOutlives(ms[..j], ms[j].key, ms[j].now)
  }

  ghost predicate AgreedOn(ms: seq<Asked>, n: nat)
    requires n <= |ms|
  {
    forall j :: 0 <= j < n ==> TakenByTable(ms, j) == TakenByHistory(ms, j)
  }

  lemma PrefixTaken(ms: seq<Asked>, n: nat, j: nat)
    requires j < n <= |ms|
    ensures ms[..n][j] == ms[j]
    ensures TakenByTable(ms[..n], j) == TakenByTable(ms, j) && TakenByHistory(ms[..n], j) == TakenByHistory(ms, j)
  {
    hide TableAfter, HistoryAfter, Mark, MarkInHistory;
    assert ms[..n][..j] == ms[..j];
  }

  lemma PrefixAgreed(ms: seq<Asked>, n: nat)
    requires n <= |ms| && AgreedOn(ms, n)
    ensures AgreedOn(ms[..n], n)
  {
    hide TakenByTable, TakenByHistory;
    forall j | 0 <= j < n
      ensures TakenByTable(ms[..n], j) == TakenByHistory(ms[..n], j)
    {
      PrefixTaken(ms, n, j);
    }
  }

  lemma OutlivesOneMore(ms: seq<Asked>, key: string, now: Time)
    requires ms != []
    ensures NoneOutlives(ms, key, now) <==>
            NoneOutlives(ms[..|ms| - 1], key, now) && !Outlived(ms, |ms| - 1, key, now)
  {
    hide TakenByTable, TakenByHistory;
    var init, last := ms[..|ms| - 1], |ms| - 1;
    forall i | 0 <= i < last
      ensures Outlived(init, i, key, now) == Outlived(ms, i, key, now)
    {
      PrefixTaken(ms, last, i);
    }
  }

  lemma HistoryLast(ms: seq<Asked>)
    requires ms != []
    ensures var was, m := HistoryAfter(ms[..|ms| - 1]), ms[|ms| - 1];
            && TakenByHistory(ms, |ms| - 1) == Free(was, m.key, m.now)
            && HistoryAfter(ms) == if TakenByHistory(ms, |ms| - 1) then was + [Accepted(m.key, m.expires)] else was
  {
    hide Free;
  }

  /** What the history holds is what the table took, as long as they agreed. */
  lemma {:induction false} HistoryIsTaken(ms: seq<Asked>, key: string, now: Time)
    requires AgreedOn(ms, |ms|)
    ensures Free(HistoryAfter(ms), key, now) <==> NoneOutlives(ms, key, now)
    decreases |ms|
  {
    hide TakenByTable, TakenByHistory, HistoryAfter, Free, NoneOutlives;
    if ms == [] {
      NothingTaken(key, now);
    } else {
      var last := |ms| - 1;
      PrefixAgreed(ms, last);
      HistoryIsTaken(ms[..last], key, now);
      HistoryLast(ms);
      OutlivesOneMore(ms, key, now);
      FreeOneMore(HistoryAfter(ms[..last]), Accepted(ms[last].key, ms[last].expires), key, now);
    }
  }

  lemma NothingTaken(key: string, now: Time)
    ensures Free(HistoryAfter([]), key, now) && NoneOutlives([], key, now)
  {
  }

  lemma FreeOneMore(history: seq<Accepted>, a: Accepted, key: string, now: Time)
    ensures Free(history + [a], key, now) <==> Free(history, key, now) && (a.key == key ==> a.expires <= now)
  {
    var more := history + [a];
    assert more[|history|] == a;
    assert forall i :: 0 <= i < |history| ==> more[i] == history[i];
  }

  lemma VerdictsAt(ms: seq<Asked>, j: nat)
    requires j < |ms|
    ensures var seen := TableAfter(ms[..j]);
            TakenByTable(ms, j) <==> !(ms[j].key in seen && seen[ms[j].key] > ms[j].now)
    ensures TakenByHistory(ms, j) == Free(HistoryAfter(ms[..j]), ms[j].key, ms[j].now)
  {
    hide TableAfter, HistoryAfter, Free;
  }

  /** The table refuses exactly while a mark that it took outlives the reading and has not been reached. */
  lemma TableRefusesExactly(ms: seq<Asked>, key: string, now: Time)
    ensures key in TableAfter(ms) && TableAfter(ms)[key] > now <==> OneStillOutlives(ms, key, now)
  {
    TableHoldsExactly(ms, key);
    hide TableAfter, TakenByTable;
    if key in TableAfter(ms) && TableAfter(ms)[key] > now {
      var i :| 0 <= i < |ms| && Stands(ms, i, key);
      assert Outlived(ms, i, key, now) && Unreached(ms, i, |ms|);
    }
    if OneStillOutlives(ms, key, now) {
      var i :| 0 <= i < |ms| && Outlived(ms, i, key, now) && Unreached(ms, i, |ms|);
      assert Stands(ms, i, key);
    }
  }

  lemma AgreesAtExactly(ms: seq<Asked>, j: nat)
    requires j < |ms| && AgreedOn(ms, j)
    ensures TakenByTable(ms, j) == TakenByHistory(ms, j) <==> NotForgotten(ms, j)
  {
    hide TakenByTable, TakenByHistory, TableAfter, HistoryAfter, Free, AgreedOn;
    var before, m := ms[..j], ms[j];
    PrefixAgreed(ms, j);
    VerdictsAt(ms, j);
    TableRefusesExactly(before, m.key, m.now);
    HistoryIsTaken(before, m.key, m.now);
  }

  /**
   Under any clock, the purging table takes and refuses the same marks as the history exactly when at
   every mark the readings have forgotten nothing.
   */
  lemma {:induction false} MarksAgreeExactly(ms: seq<Asked>, n: nat)
    requires n <= |ms|
    ensures AgreedOn(ms, n) <==> forall j :: 0 <= j < n ==> NotForgotten(ms, j)
    decreases n
  {
    hide TakenByTable, TakenByHistory, NotForgotten;
    if n > 0 {
      MarksAgreeExactly(ms, n - 1);
      if AgreedOn(ms, n - 1) {
        AgreesAtExactly(ms, n - 1);
      }
    }
  }

  // ---------------------------------------------------------------- readings alone

  /**
   The mark at `j` counts: no earlier one that counts, for the same key, outlives its reading with no
   reading in between having reached its expiry. Nothing but keys, expiries and readings is in this.
   */
  ghost predicate Counts(ms: seq<Asked>, j: nat)
    requires j < |ms|
    decreases j
  {
    forall i :: 0 <= i < j && ms[i].key == ms[j].key && ms[i].expires > ms[j].now && Unreached(ms, i, j) ==>
      !Counts(ms, i)
  }

  /** An earlier mark that counts, for the same key, outlives the reading at `j`. */
  ghost predicate Outlives(ms: seq<Asked>, i: nat, j: nat)
    requires i < j < |ms|
  {
    ms[i].key == ms[j].key && ms[i].expires > ms[j].now && Counts(ms, i)
  }

  /** None outlives the reading at `j`, or one does whose expiry no reading in between has reached. */
  ghost predicate Kept(ms: seq<Asked>, j: nat)
    requires j < |ms|
  {
    || (forall i :: 0 <= i < j ==> !Outlives(ms, i, j))
    || (exists i :: 0 <= i < j && Outlives(ms, i, j) && Unreached(ms, i, j))
  }

  /** What the prefix says of an earlier mark, said of the whole list. */
  lemma PrefixOutlives(ms: seq<Asked>, i: nat, j: nat)
    requires i < j < |ms|
    ensures Outlived(ms[..j], i, ms[j].key, ms[j].now) <==>
            ms[i].key == ms[j].key && ms[i].expires > ms[j].now && TakenByTable(ms, i)
    ensures Unreached(ms[..j], i, j) == Unreached(ms, i, j)
  {
    hide TakenByTable, TakenByHistory;
    PrefixTaken(ms, j, i);
  }

  /** The marks that count are those that the table takes. */
  lemma {:induction false} CountsExactly(ms: seq<Asked>, j: nat)
    requires j < |ms|
    ensures Counts(ms, j) == TakenByTable(ms, j)
    decreases j
  {
    var before, m := ms[..j], ms[j];
    VerdictsAt(ms, j);
    TableRefusesExactly(before, m.key, m.now);
    hide TakenByTable, TableAfter, Outlived, Unreached;
    forall i | 0 <= i < j
      ensures Counts(ms, i) == TakenByTable(ms, i)
      ensures Outlived(before, i, m.key, m.now) <==> m.key == ms[i].key && ms[i].expires > m.now && Counts(ms, i)
      ensures Unreached(before, i, j) == Unreached(ms, i, j)
    {
      CountsExactly(ms, i);
      PrefixOutlives(ms, i, j);
    }
  }

  lemma KeptExactly(ms: seq<Asked>, j: nat)
    requires j < |ms|
    ensures Kept(ms, j) == NotForgotten(ms, j)
  {
    hide TakenByTable, Outlived, Unreached, Counts;
    forall i | 0 <= i < j
      ensures Outlives(ms, i, j) == Outlived(ms[..j], i, ms[j].key, ms[j].now)
      ensures Unreached(ms[..j], i, j) == Unreached(ms, i, j)
    {
      CountsExactly(ms, i);
      PrefixOutlives(ms, i, j);
    }
  }

  /** The marks that a run of calls asks for: those of the calls that pass every other check. */
  function MarksOf<Key>(cfg: Config<Key>, calls: seq<Call>): seq<Asked>
    decreases |calls|
  {
    if calls == [] then []
    else MarkOf(cfg, calls[0]) + MarksOf(cfg, calls[1..])
  }

  function MarkOf<Key>(cfg: Config<Key>, c: Call): seq<Asked> {
    match Verified(cfg, c)
    case Err(_) => []
    case Ok((f, _)) => [Asked(ReplayKey(c.role, c.rpc, f.nonce), f.issued + MAX_SIGNATURE_AGE, c.mark)]
  }

  /** From `n` on, table and history give the same verdicts. */
  ghost predicate AgreedFrom(ms: seq<Asked>, n: nat) {
    forall j :: n <= j < |ms| ==> TakenByTable(ms, j) == TakenByHistory(ms, j)
  }

  /** One call after the marks in `done`. */
  lemma CallAfterMarks<Key>(cfg: Config<Key>, done: seq<Asked>, c: Call, ms: seq<Asked>)
    requires done + MarkOf(cfg, c) <= ms
    ensures var (seen, r) := Authenticate(cfg, TableAfter(done), c);
            var (history, q) := AuthenticateByHistory(cfg, HistoryAfter(done), c);
            var more := done + MarkOf(cfg, c);
            && seen == TableAfter(more) && history == HistoryAfter(more)
            && (r == q <==> |more| == |done| || TakenByTable(ms, |done|) == TakenByHistory(ms, |done|))
  {
    hide Mark, MarkInHistory, Verified, ReplayKey;
    var more := done + MarkOf(cfg, c);
    if Verified(cfg, c).Ok? {
      assert more[..|more| - 1] == done && ms[..|done|] == done && ms[|done|] == more[|done|];
    } else {
      assert more == done;
    }
  }

  lemma AgreedOneMore(ms: seq<Asked>, n: nat, k: nat)
    requires n <= k <= n + 1 && k <= |ms|
    ensures AgreedFrom(ms, n) <==>
            AgreedFrom(ms, k) && (k == n || TakenByTable(ms, n) == TakenByHistory(ms, n))
  {
    hide TakenByTable, TakenByHistory;
  }

  lemma {:induction false} RepliesAgreeOnMarks<Key>(cfg: Config<Key>, done: seq<Asked>, calls: seq<Call>)
    ensures Replies(cfg, TableAfter(done), calls) == RepliesByHistory(cfg, HistoryAfter(done), calls) <==>
            AgreedFrom(done + MarksOf(cfg, calls), |done|)
    decreases |calls|
  {
    hide TableAfter, HistoryAfter, Authenticate, AuthenticateByHistory, MarkOf, AgreedFrom;
    var ms := done + MarksOf(cfg, calls);
    if calls == [] {
      AgreedAtEnd(ms);
    } else {
      var c, more := calls[0], done + MarkOf(cfg, calls[0]);
      assert more + MarksOf(cfg, calls[1..]) == ms;
      OneMarkAtMost(cfg, c);
      CallAfterMarks(cfg, done, c, ms);
      RepliesAgreeOnMarks(cfg, more, calls[1..]);
      AgreedOneMore(ms, |done|, |more|);
      var r, q := Authenticate(cfg, TableAfter(done), c).1, AuthenticateByHistory(cfg, HistoryAfter(done), c).1;
      HeadsOff(r, Replies(cfg, TableAfter(more), calls[1..]), q, RepliesByHistory(cfg, HistoryAfter(more), calls[1..]));
    }
  }

  lemma OneMarkAtMost<Key>(cfg: Config<Key>, c: Call)
    ensures |MarkOf(cfg, c)| <= 1
  {
    hide Verified, ReplayKey;
  }

  lemma AgreedAtEnd(ms: seq<Asked>)
    ensures AgreedFrom(ms, |ms|)
  {
  }

  /**
   Under any clock, a new service answers a whole run of calls as the history does exactly when at every
   mark that the calls ask for the readings have forgotten nothing.
   */
  lemma RepliesAgreeByReadings<Key>(cfg: Config<Key>, calls: seq<Call>)
    ensures var ms := MarksOf(cfg, calls);
            Replies(cfg, map[], calls) == RepliesByHistory(cfg, [], calls) <==>
            forall j :: 0 <= j < |ms| ==> Kept(ms, j)
  {
    hide Replies, RepliesByHistory, MarksOf, NotForgotten, Kept, TakenByTable, TakenByHistory;
    var ms := MarksOf(cfg, calls);
    RepliesAgreeOnMarks(cfg, [], calls);
    assert [] + ms == ms;
    MarksAgreeExactly(ms, |ms|);
    assert AgreedFrom(ms, 0) <==> AgreedOn(ms, |ms|);
    forall j | 0 <= j < |ms|
      ensures Kept(ms, j) == NotForgotten(ms, j)
    {
      KeptExactly(ms, j);
    }
  }

  lemma {:induction false} HistoryBlocks<Key>(cfg: Config<Key>, history: seq<Accepted>, calls: seq<Call>, a: Accepted,
          j: nat)
    requires a in history && j < |calls| && RepliesByHistory(cfg, history, calls)[j].Ok?
    ensures Verified(cfg, calls[j]).Ok?
    ensures ReplayKey(calls[j].role, calls[j].rpc, Verified(cfg, calls[j]).value.0.nonce) == a.key ==>
              calls[j].mark >= a.expires
    decreases j
  {
    var c := calls[0];
    var history' := AuthenticateByHistory(cfg, history, c).0;
    if j > 0 {
      assert a in history' by {
        var i :| 0 <= i < |history| && history[i] == a;
        assert history'[i] == a;
      }
      HistoryBlocks(cfg, history', calls[1..], a, j - 1);
    }
  }

  lemma {:induction false} SeparatedByHistory<Key>(cfg: Config<Key>, history: seq<Accepted>, calls: seq<Call>, i: nat,
          j: nat)
    requires i < j < |calls|
    requires RepliesByHistory(cfg, history, calls)[i].Ok? && RepliesByHistory(cfg, history, calls)[j].Ok?
    ensures Verified(cfg, calls[i]).Ok? && Verified(cfg, calls[j]).Ok?
    ensures var (fi, fj) := (Verified(cfg, calls[i]).value.0, Verified(cfg, calls[j]).value.0);
            ReplayKey(calls[i].role, calls[i].rpc, fi.nonce) == ReplayKey(calls[j].role, calls[j].rpc, fj.nonce) ==>
              calls[j].mark >= fi.issued + MAX_SIGNATURE_AGE
    decreases i
  {
    var c := calls[0];
    var history' := AuthenticateByHistory(cfg, history, c).0;
    if i == 0 {
      var f := Verified(cfg, c).value.0;
      var a := Accepted(ReplayKey(c.role, c.rpc, f.nonce), f.issued + MAX_SIGNATURE_AGE);
      assert history'[|history|] == a;
      HistoryBlocks(cfg, history', calls[1..], a, j - 1);
    } else {
      SeparatedByHistory(cfg, history', calls[1..], i - 1, j - 1);
    }
  }

  /**
   In every run, two accepted calls of the same role, method and nonce are separated: the second
   one's table reading is not before the first one's issue time plus the maximal age.
   */
  lemma SameNonceIsSeparated<Key>(cfg: Config<Key>, was: Time, calls: seq<Call>, i: nat, j: nat)
    requires ClockNeverGoesBack(was, calls) && i < j < |calls|
    requires Replies(cfg, map[], calls)[i].Ok? && Replies(cfg, map[], calls)[j].Ok?
    requires calls[i].role == calls[j].role && calls[i].rpc == calls[j].rpc
    ensures Verified(cfg, calls[i]).Ok? && Verified(cfg, calls[j]).Ok?
    ensures var (fi, fj) := (Verified(cfg, calls[i]).value.0, Verified(cfg, calls[j]).value.0);
            fi.nonce == fj.nonce ==> calls[j].mark >= fi.issued + MAX_SIGNATURE_AGE
  {
    FreshTableAnswersByHistory(cfg, was, calls);
    SeparatedByHistory(cfg, [], calls, i, j);
  }

  /**
   So the very same signed request is accepted again only when its freshness check was read no later
   than its last instant and its table entry no earlier.
   */
  lemma SameRequestTwice<Key>(cfg: Config<Key>, was: Time, calls: seq<Call>, i: nat, j: nat)
    requires ClockNeverGoesBack(was, calls) && i < j < |calls|
    requires Replies(cfg, map[], calls)[i].Ok? && Replies(cfg, map[], calls)[j].Ok?
    requires calls[i].role == calls[j].role && calls[i].rpc == calls[j].rpc && calls[i].md == calls[j].md
    ensures Verified(cfg, calls[i]).Ok?
    ensures var last := Verified(cfg, calls[i]).value.0.issued + MAX_SIGNATURE_AGE;
            calls[j].check <= last <= calls[j].mark
  {
    SameNonceIsSeparated(cfg, was, calls, i, j);
  }

  /**
   And then it is: with one accepted mark for its nonce, the same request is accepted again exactly
   when the two readings straddle its last instant.
   */
  lemma SameRequestAgainExactly<Key>(cfg: Config<Key>, seen: Table, history: seq<Accepted>, was: Time, c: Call,
          again: Call)
    requires Represents(seen, history, was) && was <= again.mark
    requires Verified(cfg, c).Ok? && again.role == c.role && again.rpc == c.rpc && again.md == c.md
    requires var f := Verified(cfg, c).value.0;
             && again.check + MAX_FUTURE_SKEW >= f.issued
             && Accepted(ReplayKey(c.role, c.rpc, f.nonce), f.issued + MAX_SIGNATURE_AGE) in history
             && forall a | a in history :: a.key == ReplayKey(c.role, c.rpc, f.nonce) ==>
                 a.expires == f.issued + MAX_SIGNATURE_AGE
    ensures var last := Verified(cfg, c).value.0.issued + MAX_SIGNATURE_AGE;
            Authenticate(cfg, seen, again).1.Ok? <==> again.check <= last <= again.mark
  {
    var f := Verified(cfg, c).value.0;
    var key, last := ReplayKey(c.role, c.rpc, f.nonce), f.issued + MAX_SIGNATURE_AGE;
    MarkRefines(seen, history, was, key, last, again.mark);
    var i :| 0 <= i < |history| && history[i] == Accepted(key, last);
    assert Free(history, key, again.mark) <==> last <= again.mark by {
      assert forall m :: 0 <= m < |history| ==> history[m] in history;
    }
    assert InWindow(f.issued, again.check) <==> again.check <= last;
  }

  lemma {:induction false} BlockedByHistory<Key>(cfg: Config<Key>, history: seq<Accepted>, calls: seq<Call>, j: nat)
    returns (i: int)
    requires j < |calls| && RepliesByHistory(cfg, history, calls)[j] == Err(ReplayDetected)
    ensures Verified(cfg, calls[j]).Ok? && i < j
    ensures i < 0 ==>
              exists a :: a in history && a.expires > calls[j].mark
                && a.key == ReplayKey(calls[j].role, calls[j].rpc, Verified(cfg, calls[j]).value.0.nonce)
    ensures i >= 0 ==>
              && RepliesByHistory(cfg, history, calls)[i].Ok? && Verified(cfg, calls[i]).Ok?
              && Verified(cfg, calls[i]).value.0.issued + MAX_SIGNATURE_AGE > calls[j].mark
              && ReplayKey(calls[i].role, calls[i].rpc, Verified(cfg, calls[i]).value.0.nonce)
                   == ReplayKey(calls[j].role, calls[j].rpc, Verified(cfg, calls[j]).value.0.nonce)
    decreases j
  {
    var c := calls[0];
    var history' := AuthenticateByHistory(cfg, history, c).0;
    if j == 0 {
      var f := Verified(cfg, c).value.0;
      var m :| 0 <= m < |history| && history[m].key == ReplayKey(c.role, c.rpc, f.nonce) && history[m].expires > c.mark;
      assert history[m] in history;
      i := -1;
    } else {
      var i' := BlockedByHistory(cfg, history', calls[1..], j - 1);
      if i' >= 0 {
        i := i' + 1;
      } else {
        var a :| a in history' && a.expires > calls[j].mark
                 && a.key == ReplayKey(calls[j].role, calls[j].rpc, Verified(cfg, calls[j]).value.0.nonce);
        if a in history {
          i := -1;
        } else {
          i := 0;
        }
      }
    }
  }

  /**
   No request is refused as a replay for another one's sake: behind every such refusal there is an
   earlier accepted call of the same role, method and nonce that has not expired.
   */
  lemma ReplayOnlyOfItself<Key>(cfg: Config<Key>, was: Time, calls: seq<Call>, j: nat)
    requires ClockNeverGoesBack(was, calls) && j < |calls|
    requires forall i :: 0 <= i < |calls| ==> '\0' !in calls[i].role && '\0' !in calls[i].rpc
    requires Replies(cfg, map[], calls)[j] == Err(ReplayDetected)
    ensures Verified(cfg, calls[j]).Ok?
    ensures exists i :: 0 <= i < j
              && Replies(cfg, map[], calls)[i].Ok? && Verified(cfg, calls[i]).Ok?
              && calls[i].role == calls[j].role && calls[i].rpc == calls[j].rpc
              && Verified(cfg, calls[i]).value.0.nonce == Verified(cfg, calls[j]).value.0.nonce
              && Verified(cfg, calls[i]).value.0.issued + MAX_SIGNATURE_AGE > calls[j].mark
  {
    FreshTableAnswersByHistory(cfg, was, calls);
    var i := BlockedByHistory(cfg, [], calls, j);
    ReplayKeyInjective(calls[i].role, calls[i].rpc, Verified(cfg, calls[i]).value.0.nonce,
                       calls[j].role, calls[j].rpc, Verified(cfg, calls[j]).value.0.nonce);
  }

  // ---------------------------------------------------------------- the service

  class Service<Key> {
    const cfg: Config<Key>
    var seenNonces: Table

    constructor (cfg: Config<Key>)
      ensures this.cfg == cfg && seenNonces == map[]
    {
      this.cfg := cfg;
      seenNonces := map[];
    }

    /** Deletes the expired entries, then looks the key up and enters it. */
    method MarkNonce(role: string, rpc: string, nonce: string, expiresAt: Time, now: Time) returns (ok: bool)
      modifies this
      ensures (seenNonces, ok) == Mark(old(seenNonces), ReplayKey(role, rpc, nonce), expiresAt, now)
    {
      var keys := seenNonces.Keys;
      while keys != {}
        invariant keys <= seenNonces.Keys <= old(seenNonces).Keys
        invariant forall k :: k in seenNonces ==> seenNonces[k] == old(seenNonces)[k]
        invariant forall k :: k in old(seenNonces) && k !in keys ==> (k in seenNonces <==> old(seenNonces)[k] > now)
        decreases |keys|
      {
        var k :| k in keys;
        if seenNonces[k] <= now {
          seenNonces := seenNonces - {k};
        }
        keys := keys - {k};
      }
      assert seenNonces == Purge(old(seenNonces), now);
      var key := role + "\0" + (rpc + "\0" + nonce);
      if key in seenNonces && seenNonces[key] > now {
        return false;
      }
      seenNonces := seenNonces[key := expiresAt];
      return true;
    }

    /** The first key of the list that verifies the signature. */
    method FindSigner(keys: seq<Key>, payload: string, signature: string) returns (i: nat)
      ensures i == Signer(cfg, keys, payload, signature)
    {
      i := 0;
      while i < |keys|
        invariant 0 <= i <= |keys|
        invariant forall j :: 0 <= j < i ==> !cfg.verify(keys[j], payload, signature)
      {
        if cfg.verify(keys[i], payload, signature) {
          return;
        }
        i := i + 1;
      }
    }

    method AuthenticateUser(c: Call) returns (r: Result<nat, Error>)
      modifies this
      ensures (seenNonces, r) == Authenticate(cfg, old(seenNonces), c)
    {
      var fields := Presented(c.md, cfg.parse);
      if fields.Err? {
        return Err(fields.error);
      }
      var f := fields.value;
      if f.issued < c.check - MAX_SIGNATURE_AGE || f.issued > c.check + MAX_FUTURE_SKEW {
        return Err(SignatureExpired);
      }
      var keys := KeysFor(cfg, c.role);
      var i := FindSigner(keys, SignaturePayload(c.role, c.rpc, f.issuedAt, f.nonce), f.signature);
      if i == |keys| {
        return Err(SignatureVerificationFailed);
      }
      var ok := MarkNonce(c.role, c.rpc, f.nonce, f.issued + MAX_SIGNATURE_AGE, c.mark);
      if !ok {
        return Err(ReplayDetected);
      }
      return Ok(i);
    }
  }
}
