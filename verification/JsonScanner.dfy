/** The scanner that refuses JSON objects repeating a member name. */
module JsonScanner {
  import opened Results
  import opened Strings

  // ---------------------------------------------------------------- JSON texts

  datatype Lexeme =
    | OpenObject | CloseObject | OpenArray | CloseArray | Colon | Comma
    | Text(text: string)
    | Literal(spelling: string)
    | Bad

  datatype Json = Word(spelling: string) | Quoted(text: string) | Array(items: Items) | Object(members: Members)
  datatype Items = NoItems | Item(value: Json, rest: Items)
  datatype Members = NoMembers | Member(name: string, value: Json, rest: Members)

  function Spell(v: Json): (s: seq<Lexeme>)
    ensures s != [] && !Closer(s[0])
  {
    match v
    case Word(x) => [Literal(x)]
    case Quoted(x) => [Text(x)]
    case Array(items) => [OpenArray] + SpellItems(items, true) + [CloseArray]
    case Object(members) => [OpenObject] + SpellMembers(members, true) + [CloseObject]
  }

  function SpellItems(items: Items, first: bool): seq<Lexeme> {
    match items
    case NoItems => []
    case Item(v, rest) => (if first then [] else [Comma]) + Spell(v) + SpellItems(rest, false)
  }

  function SpellMembers(members: Members, first: bool): seq<Lexeme> {
    match members
    case NoMembers => []
    case Member(name, v, rest) =>
      (if first then [] else [Comma]) + [Text(name), Colon] + Spell(v) + SpellMembers(rest, false)
  }

  // ---------------------------------------------------------------- no repeated member names

  function MemberNames(members: Members): seq<string> {
    match members
    case NoMembers => []
    case Member(name, _, rest) => [name] + MemberNames(rest)
  }

  /** No object, at any depth, names two of its members alike. */
  predicate NoRepeats(v: Json) {
    match v
    case Word(_) => true
    case Quoted(_) => true
    case Array(items) => NoRepeatsInItems(items)
    case Object(members) => Distinct(MemberNames(members)) && NoRepeatsInMembers(members)
  }

  predicate NoRepeatsInItems(items: Items) {
    match items
    case NoItems => true
    case Item(v, rest) => NoRepeats(v) && NoRepeatsInItems(rest)
  }

  predicate NoRepeatsInMembers(members: Members) {
    match members
    case NoMembers => true
    case Member(_, v, rest) => NoRepeats(v) && NoRepeatsInMembers(rest)
  }

  predicate Unseen(names: seq<string>, seen: set<string>) {
    forall i :: 0 <= i < |names| ==> names[i] !in seen
  }

  /** Meeting the names one by one, none is met again. */
  lemma DistinctStep(name: string, rest: seq<string>, seen: set<string>)
    ensures Distinct([name] + rest) && Unseen([name] + rest, seen) <==>
            name !in seen && Distinct(rest) && Unseen(rest, seen + {name})
  {
    var all := [name] + rest;
    assert forall i :: 0 <= i < |rest| ==> all[i + 1] == rest[i];
    assert all[0] == name;
    if Distinct(all) && Unseen(all, seen) {
      forall i | 0 <= i < |rest|
        ensures rest[i] !in seen + {name}
      {
        assert all[i + 1] == rest[i];
      }
    }
  }

  // ---------------------------------------------------------------- the token decoder

  datatype State =
    | TopValue
    | ArrayStart | ArrayValue | ArrayComma
    | ObjectStart | ObjectKey | ObjectColon | ObjectValue | ObjectComma

  datatype Error = Eof | Syntax | NonStringKey | Duplicate | Trailing

  /** The decoder: where it stands in the innermost open value, the enclosing ones, what is left. */
  datatype Reader = Reader(state: State, stack: seq<State>, input: seq<Lexeme>)

  datatype Step = Step(token: Lexeme, reader: Reader)

  predicate Closer(x: Lexeme) {
    x == CloseArray || x == CloseObject
  }

  predicate ValueAllowed(s: State) {
    s == TopValue || s == ArrayStart || s == ArrayValue || s == ObjectValue
  }

  function ValueEnd(s: State): State {
    if s == ArrayStart || s == ArrayValue then ArrayComma else if s == ObjectValue then ObjectComma else s
  }

  predicate More(r: Reader) {
    r.input != [] && !Closer(r.input[0])
  }

  function Opened(r: Reader, inner: State): Reader
    requires r.input != []
  {
    Reader(inner, [r.state] + r.stack, r.input[1..])
  }

  function Closed(r: Reader): Reader
    requires r.input != []
  {
    if r.stack == [] then r.(input := r.input[1..]) else Reader(ValueEnd(r.stack[0]), r.stack[1..], r.input[1..])
  }

  /** The next token; commas and colons are checked against the grammar and skipped. */
  function Token(r: Reader): (t: Result<Step, Error>)
    ensures t.Ok? ==> |t.value.reader.input| < |r.input|
    decreases |r.input|
  {
    if r.input == [] then Err(Eof)
    else
      var x, rest := r.input[0], r.input[1..];
      match x
      case OpenArray => if ValueAllowed(r.state) then Ok(Step(x, Opened(r, ArrayStart))) else Err(Syntax)
      case OpenObject => if ValueAllowed(r.state) then Ok(Step(x, Opened(r, ObjectStart))) else Err(Syntax)
      case CloseArray => if r.state == ArrayStart || r.state == ArrayComma then Ok(Step(x, Closed(r))) else Err(Syntax)
      case CloseObject => if r.state == ObjectStart || r.state == ObjectComma then Ok(Step(x, Closed(r)))
          else Err(Syntax)
      case Colon => if r.state == ObjectColon then Token(r.(state := ObjectValue, input := rest)) else Err(Syntax)
      case Comma =>
        if r.state == ArrayComma then Token(r.(state := ArrayValue, input := rest))
        else if r.state == ObjectComma then Token(r.(state := ObjectKey, input := rest))
        else Err(Syntax)
      case Text(_) =>
        if r.state == ObjectStart || r.state == ObjectKey then Ok(Step(x, r.(state := ObjectColon, input := rest)))
        else if ValueAllowed(r.state) then Ok(Step(x, r.(state := ValueEnd(r.state), input := rest)))
        else Err(Syntax)
      case Literal(_) =>
        if ValueAllowed(r.state) then Ok(Step(x, r.(state := ValueEnd(r.state), input := rest))) else Err(Syntax)
      case Bad => Err(Syntax)
  }

  // ---------------------------------------------------------------- the scanner

  function EndValue(r: Reader): Result<Reader, Error> {
    match Token(r)
    case Err(e) => Err(e)
    case Ok(s) => Ok(s.reader)
  }

  function Scan(r: Reader): (t: Result<Reader, Error>)
    ensures t.Ok? ==> |t.value.input| < |r.input|
    decreases |r.input|, 0
  {
    match Token(r)
    case Err(e) => Err(e)
    case Ok(Step(OpenObject, inner)) =>
      (match ScanMembers(inner, {})
       case Err(e) => Err(e)
       case Ok(end) => EndValue(end))
    case Ok(Step(OpenArray, inner)) =>
      (match ScanItems(inner)
       case Err(e) => Err(e)
       case Ok(end) => EndValue(end))
    case Ok(Step(CloseObject, next)) => EndValue(next)
    case Ok(Step(CloseArray, next)) => EndValue(next)
    case Ok(Step(_, next)) => Ok(next)
  }

  function ScanMembers(r: Reader, seen: set<string>): (t: Result<Reader, Error>)
    ensures t.Ok? ==> |t.value.input| <= |r.input|
    decreases |r.input|, 1
  {
    if !More(r) then Ok(r)
    else match Token(r)
      case Err(e) => Err(e)
      case Ok(s) =>
        if !s.token.Text? then Err(NonStringKey)
        else if s.token.text in seen then Err(Duplicate)
        else match Scan(s.reader)
          case Err(e) => Err(e)
          case Ok(next) => ScanMembers(next, seen + {s.token.text})
  }

  function ScanItems(r: Reader): (t: Result<Reader, Error>)
    ensures t.Ok? ==> |t.value.input| <= |r.input|
    decreases |r.input|, 1
  {
    if !More(r) then Ok(r)
    else match Scan(r)
      case Err(e) => Err(e)
      case Ok(next) => ScanItems(next)
  }

  /** The whole text: one value and nothing after it. */
  function Check(input: seq<Lexeme>): Result<(), Error> {
    match Scan(Reader(TopValue, [], input))
    case Err(e) => Err(e)
    case Ok(end) =>
      match Token(end)
      case Err(Eof) => Ok(())
      case Err(e) => Err(e)
      case Ok(_) => Err(Trailing)
  }

  // ---------------------------------------------------------------- every value is scanned exactly

  /** Punctuation that the grammar expects before the next value. */
  function Lead(s: State): seq<Lexeme> {
    if s == ArrayComma then [Comma] else if s == ObjectColon then [Colon] else []
  }

  function Led(s: State): State {
    if s == ArrayComma then ArrayValue else if s == ObjectColon then ObjectValue else s
  }

  lemma TokenAfterLead(r: Reader, tail: seq<Lexeme>)
    requires r.input == Lead(r.state) + tail
    ensures Token(r) == Token(r.(state := Led(r.state), input := tail))
  {
    if r.state == ArrayComma || r.state == ObjectColon {
      assert r.input[1..] == tail;
    } else {
      assert r.input == tail;
    }
  }

  lemma ScanAfterLead(r: Reader, tail: seq<Lexeme>)
    requires r.input == Lead(r.state) + tail
    ensures Scan(r) == Scan(r.(state := Led(r.state), input := tail))
  {
    hide Token, ScanItems, ScanMembers, EndValue, Lead, Led;
    TokenAfterLead(r, tail);
  }

  lemma KeyToken(r: Reader, name: string, first: bool, tail: seq<Lexeme>)
    requires r.state == if first then ObjectStart else ObjectComma
    requires r.input == (if first then [] else [Comma]) + [Text(name), Colon] + tail
    ensures More(r)
    ensures Token(r) == Ok(Step(Text(name), r.(state := ObjectColon, input := [Colon] + tail)))
  {
    var keyed := [Text(name), Colon] + tail;
    assert keyed[1..] == [Colon] + tail;
    if first {
      assert r.input == keyed;
    } else {
      assert r.input == [Comma] + keyed;
      assert r.input[1..] == keyed;
    }
  }

  /**
    * From any place where a value may stand, with anything after the value: the scanner takes exactly
    * the value's lexemes, or refuses the value as repeating a name, and it refuses only such values.
    */
  lemma {:induction false} ScanIsExact(v: Json, r: Reader, rest: seq<Lexeme>)
    requires ValueAllowed(r.state) && r.input == Spell(v) + rest
    ensures Scan(r) == if NoRepeats(v) then Ok(r.(state := ValueEnd(r.state), input := rest)) else Err(Duplicate)
    decreases v, 0
  {
    match v
    case Word(x) =>
      assert r.input[1..] == rest;
    case Quoted(x) =>
      assert r.input[1..] == rest;
    case Array(items) =>
      ArrayIsExact(items, r, rest);
    case Object(members) =>
      ObjectIsExact(members, r, rest);
  }

  lemma {:induction false} ArrayIsExact(items: Items, r: Reader, rest: seq<Lexeme>)
    requires ValueAllowed(r.state) && r.input == Spell(Array(items)) + rest
    ensures Scan(r) == if NoRepeatsInItems(items) then Ok(r.(state := ValueEnd(r.state), input := rest))
              else Err(Duplicate)
    decreases items, 1
  {
    hide Scan, Token, ScanItems, SpellItems, NoRepeatsInItems, EndValue, ValueEnd;
    var body := SpellItems(items, true) + [CloseArray] + rest;
    assert r.input == [OpenArray] + body;
    var inner := Reader(ArrayStart, [r.state] + r.stack, body);
    OpenToken(r, OpenArray, body);
    ItemsAreExact(items, true, inner, rest);
    ScanArray(r, inner);
    if NoRepeatsInItems(items) {
      var end := inner.(state := if items.NoItems? then ArrayStart else ArrayComma, input := [CloseArray] + rest);
      CloseToken(end, CloseArray, r.state, r.stack, rest);
    }
  }

  lemma OpenToken(r: Reader, x: Lexeme, tail: seq<Lexeme>)
    requires ValueAllowed(r.state) && r.input == [x] + tail && (x == OpenArray || x == OpenObject)
    ensures Token(r) == Ok(Step(x,
              Reader(if x == OpenArray then ArrayStart else ObjectStart, [r.state] + r.stack, tail)))
  {
    assert r.input[1..] == tail;
  }

  lemma CloseToken(r: Reader, x: Lexeme, outer: State, stack: seq<State>, tail: seq<Lexeme>)
    requires r.stack == [outer] + stack && r.input == [x] + tail
    requires (x == CloseArray && (r.state == ArrayStart || r.state == ArrayComma))
          || (x == CloseObject && (r.state == ObjectStart || r.state == ObjectComma))
    ensures EndValue(r) == Ok(Reader(ValueEnd(outer), stack, tail))
  {
    assert r.input[1..] == tail && r.stack[1..] == stack;
  }

  lemma ScanArray(r: Reader, inner: Reader)
    requires Token(r) == Ok(Step(OpenArray, inner))
    ensures Scan(r) == match ScanItems(inner) case Err(e) => Err(e) case Ok(end) => EndValue(end)
  {
    hide Token, ScanItems, EndValue;
  }

  lemma ScanObject(r: Reader, inner: Reader)
    requires Token(r) == Ok(Step(OpenObject, inner))
    ensures Scan(r) == match ScanMembers(inner, {}) case Err(e) => Err(e) case Ok(end) => EndValue(end)
  {
    hide Token, ScanMembers, EndValue;
  }

  lemma {:induction false} ItemsAreExact(items: Items, first: bool, r: Reader, rest: seq<Lexeme>)
    requires r.state == (if first then ArrayStart else ArrayComma)
    requires r.input == SpellItems(items, first) + [CloseArray] + rest
    ensures ScanItems(r) ==
            if !NoRepeatsInItems(items) then Err(Duplicate)
            else Ok(r.(state := if items.NoItems? then r.state else ArrayComma, input := [CloseArray] + rest))
    decreases items, 0
  {
    hide Scan, Spell, NoRepeats;
    match items
    case NoItems =>
      assert r.input == [CloseArray] + rest;
    case Item(v, more) =>
      var tail := SpellItems(more, false) + [CloseArray] + rest;
      assert r.input == Lead(r.state) + (Spell(v) + tail);
      ScanAfterLead(r, Spell(v) + tail);
      var led := r.(state := Led(r.state), input := Spell(v) + tail);
      ScanIsExact(v, led, tail);
      var next := r.(state := ArrayComma, input := tail);
      assert More(r);
      ItemsAreExact(more, false, next, rest);
  }

  lemma {:induction false} ObjectIsExact(members: Members, r: Reader, rest: seq<Lexeme>)
    requires ValueAllowed(r.state) && r.input == Spell(Object(members)) + rest
    ensures Scan(r) == if NoRepeats(Object(members)) then Ok(r.(state := ValueEnd(r.state), input := rest))
              else Err(Duplicate)
    decreases members, 1
  {
    hide Scan, Token, ScanMembers, SpellMembers, NoRepeatsInMembers, EndValue, ValueEnd, MemberNames, Distinct;
    var body := SpellMembers(members, true) + [CloseObject] + rest;
    assert r.input == [OpenObject] + body;
    var inner := Reader(ObjectStart, [r.state] + r.stack, body);
    OpenToken(r, OpenObject, body);
    MembersAreExact(members, {}, true, inner, rest);
    ScanObject(r, inner);
    assert Fine(members, {}) <==> NoRepeats(Object(members));
    if Fine(members, {}) {
      var state := if members.NoMembers? then ObjectStart else ObjectComma;
      var end := inner.(state := state, input := [CloseObject] + rest);
      CloseToken(end, CloseObject, r.state, r.stack, rest);
    }
  }

  ghost predicate Fine(members: Members, seen: set<string>) {
    Distinct(MemberNames(members)) && Unseen(MemberNames(members), seen) && NoRepeatsInMembers(members)
  }

  lemma NoneIsFine(seen: set<string>)
    ensures Fine(NoMembers, seen)
  {
  }

  lemma {:induction false} MembersAreExact(members: Members, seen: set<string>, first: bool, r: Reader,
          rest: seq<Lexeme>)
    requires r.state == (if first then ObjectStart else ObjectComma)
    requires r.input == SpellMembers(members, first) + [CloseObject] + rest
    ensures ScanMembers(r, seen) ==
            if !Fine(members, seen) then Err(Duplicate)
            else Ok(r.(state := if members.NoMembers? then r.state else ObjectComma, input := [CloseObject] + rest))
    decreases members, 0
  {
    hide Scan, Token, Spell, NoRepeats, Distinct, Unseen;
    match members
    case NoMembers =>
      NoneIsFine(seen);
      assert r.input == [CloseObject] + rest;
    case Member(name, v, more) =>
      var tail := SpellMembers(more, false) + [CloseObject] + rest;
      assert r.input == (if first then [] else [Comma]) + [Text(name), Colon] + (Spell(v) + tail);
      KeyToken(r, name, first, Spell(v) + tail);
      var key := r.(state := ObjectColon, input := [Colon] + (Spell(v) + tail));
      ScanAfterLead(key, Spell(v) + tail);
      ScanIsExact(v, key.(state := ObjectValue, input := Spell(v) + tail), tail);
      var next := r.(state := ObjectComma, input := tail);
      DistinctStep(name, MemberNames(more), seen);
      MembersAreExact(more, seen + {name}, false, next, rest);
  }

  // ---------------------------------------------------------------- only values are accepted

  /** A value cannot start before the punctuation that the grammar expects there. */
  lemma LeadIsThere(r: Reader)
    requires r.state == ArrayComma || r.state == ObjectColon
    requires More(r) || r.state == ObjectColon
    requires Scan(r).Ok?
    ensures r.input == Lead(r.state) + r.input[1..]
  {
    assert Token(r).Ok?;
    assert r.input[0] == Lead(r.state)[0];
  }

  lemma KeyHere(r: Reader)
    requires (r.state == ObjectStart && More(r)) || r.state == ObjectKey
    requires Token(r).Ok?
    ensures Token(r).value.token.Text?
    ensures r.input == [Token(r).value.token] + Token(r).value.reader.input
    ensures Token(r).value.reader == r.(state := ObjectColon, input := Token(r).value.reader.input)
  {
    assert r.input == [r.input[0]] + r.input[1..];
  }

  lemma CommaHere(r: Reader)
    requires r.state == ObjectComma && More(r) && Token(r).Ok?
    ensures r.input == [Comma] + r.input[1..]
    ensures Token(r) == Token(r.(state := ObjectKey, input := r.input[1..]))
  {
  }

  /** In the place of a key the decoder itself refuses everything but a string. */
  lemma KeysAreText(r: Reader, first: bool)
    requires r.state == (if first then ObjectStart else ObjectComma)
    requires More(r) && Token(r).Ok?
    ensures Token(r).value.token.Text?
    ensures var s := Token(r).value;
            && r.input == (if first then [] else [Comma]) + [s.token] + s.reader.input
            && s.reader == r.(state := ObjectColon, input := s.reader.input)
  {
    hide Token;
    if first {
      KeyHere(r);
    } else {
      CommaHere(r);
      KeyHere(r.(state := ObjectKey, input := r.input[1..]));
    }
  }

  lemma ValueToken(r: Reader)
    requires ValueAllowed(r.state) && (r.state == ArrayStart ==> More(r)) && Token(r).Ok?
    ensures var x := r.input[0];
            && r.input == [x] + r.input[1..]
            && (x.Literal? || x.Text? ||
                (x == OpenArray && Token(r) == Ok(Step(x, Opened(r, ArrayStart)))) ||
                (x == OpenObject && Token(r) == Ok(Step(x, Opened(r, ObjectStart)))))
  {
  }

  /** Whatever the scanner gets through begins with a value. */
  lemma {:induction false} AcceptedIsValue(r: Reader) returns (v: Json, tail: seq<Lexeme>)
    requires ValueAllowed(r.state) && (r.state == ArrayStart ==> More(r)) && Scan(r).Ok?
    ensures r.input == Spell(v) + tail
    decreases |r.input|, 0
  {
    ValueToken(r);
    var x := r.input[0];
    tail := r.input[1..];
    if x.Literal? {
      v := Word(x.spelling);
    } else if x.Text? {
      v := Quoted(x.text);
    } else if x == OpenArray {
      var inner := Opened(r, ArrayStart);
      ScanArray(r, inner);
      var items, end := AcceptedIsItems(inner, true);
      tail := end[1..];
      v := Array(items);
      assert r.input == [OpenArray] + SpellItems(items, true) + [CloseArray] + tail;
    } else {
      var inner := Opened(r, ObjectStart);
      ScanObject(r, inner);
      var members, end := AcceptedIsMembers(inner, {}, true);
      tail := end[1..];
      v := Object(members);
      assert r.input == [OpenObject] + SpellMembers(members, true) + [CloseObject] + tail;
    }
  }

  lemma EndNeedsCloser(r: Reader, closer: Lexeme)
    requires !More(r) && EndValue(r).Ok?
    requires closer == if r.state == ArrayStart || r.state == ArrayComma then CloseArray else CloseObject
    ensures r.input != [] && r.input == [closer] + r.input[1..]
  {
  }

  /** The scanner got through an item, comma included. */
  lemma {:induction false} AcceptedIsItem(r: Reader, first: bool) returns (v: Json, tail: seq<Lexeme>)
    requires r.state == (if first then ArrayStart else ArrayComma) && More(r) && Scan(r).Ok?
    ensures r.input == (if first then [] else [Comma]) + (Spell(v) + tail)
    ensures Scan(r) == Ok(r.(state := ArrayComma, input := tail))
    decreases |r.input|, 1
  {
    hide Spell, Scan;
    if first {
      v, tail := AcceptedIsValue(r);
      ScanIsExact(v, r, tail);
    } else {
      LeadIsThere(r);
      var led := r.(state := ArrayValue, input := r.input[1..]);
      ScanAfterLead(r, led.input);
      v, tail := AcceptedIsValue(led);
      ScanIsExact(v, led, tail);
    }
  }

  lemma {:induction false} AcceptedIsItems(r: Reader, first: bool) returns (items: Items, end: seq<Lexeme>)
    requires r.state == (if first then ArrayStart else ArrayComma)
    requires ScanItems(r).Ok? && EndValue(ScanItems(r).value).Ok?
    ensures r.input == SpellItems(items, first) + end
    ensures end != [] && end == [CloseArray] + end[1..]
    decreases |r.input|, 2
  {
    hide Spell, Scan, EndValue;
    if !More(r) {
      items, end := NoItems, r.input;
      EndNeedsCloser(r, CloseArray);
    } else {
      var v, tail := AcceptedIsItem(r, first);
      var more;
      more, end := AcceptedIsItems(r.(state := ArrayComma, input := tail), false);
      items := Item(v, more);
      assert r.input == (if first then [] else [Comma]) + Spell(v) + SpellItems(more, false) + end;
    }
  }

  /** The scanner got through a value in its place after a key. */
  lemma {:induction false} AcceptedIsMember(r: Reader) returns (v: Json, tail: seq<Lexeme>)
    requires r.state == ObjectColon && Scan(r).Ok?
    ensures r.input == [Colon] + (Spell(v) + tail)
    ensures Scan(r) == Ok(r.(state := ObjectComma, input := tail))
    decreases |r.input|, 1
  {
    hide Spell, Scan;
    LeadIsThere(r);
    var led := r.(state := ObjectValue, input := r.input[1..]);
    ScanAfterLead(r, led.input);
    v, tail := AcceptedIsValue(led);
    ScanIsExact(v, led, tail);
  }

  lemma {:induction false} AcceptedIsMembers(r: Reader, seen: set<string>, first: bool)
    returns (members: Members, end: seq<Lexeme>)
    requires r.state == (if first then ObjectStart else ObjectComma)
    requires ScanMembers(r, seen).Ok? && EndValue(ScanMembers(r, seen).value).Ok?
    ensures r.input == SpellMembers(members, first) + end
    ensures end != [] && end == [CloseObject] + end[1..]
    decreases |r.input|, 2
  {
    hide Spell, Scan, EndValue, Token;
    if !More(r) {
      members, end := NoMembers, r.input;
      EndNeedsCloser(r, CloseObject);
    } else {
      KeysAreText(r, first);
      var key := Token(r).value;
      var v, tail := AcceptedIsMember(key.reader);
      var more;
      more, end := AcceptedIsMembers(r.(state := ObjectComma, input := tail), seen + {key.token.text}, false);
      members := Member(key.token.text, v, more);
      assert r.input == (if first then [] else [Comma]) + [key.token, Colon]
                        + Spell(v) + SpellMembers(more, false) + end;
    }
  }

  /** A text passes exactly when it is one JSON value without repeated member names. */
  lemma CheckExactly(input: seq<Lexeme>)
    ensures Check(input).Ok? <==> exists v :: Spell(v) == input && NoRepeats(v)
  {
    var r := Reader(TopValue, [], input);
    if Check(input).Ok? {
      var v, tail := AcceptedIsValue(r);
      ScanIsExact(v, r, tail);
      assert tail == [];
      assert Spell(v) == input;
    }
    if v :| Spell(v) == input && NoRepeats(v) {
      assert input == Spell(v) + [];
      ScanIsExact(v, r, []);
    }
  }

  /** The verdict on a value followed by anything. */
  lemma CheckOfValue(v: Json, rest: seq<Lexeme>)
    ensures !NoRepeats(v) ==> Check(Spell(v) + rest) == Err(Duplicate)
    ensures NoRepeats(v) && rest == [] ==> Check(Spell(v) + rest) == Ok(())
    ensures NoRepeats(v) && rest != [] ==>
              Check(Spell(v) + rest) == Err(Trailing) || Check(Spell(v) + rest) == Err(Syntax)
  {
    hide Scan, Spell, NoRepeats;
    ScanIsExact(v, Reader(TopValue, [], Spell(v) + rest), rest);
  }
}
