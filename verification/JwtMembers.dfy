/** The duplicate-member scan as it runs, over a decoder that it consumes. */
module JwtMembers {
  import opened Results
  import opened JsonScanner

  /** The token decoder of encoding/json. */
  class Decoder {
    var reader: Reader

    constructor (input: seq<Lexeme>)
      ensures reader == Reader(TopValue, [], input)
    {
      reader := Reader(TopValue, [], input);
    }

    method NextToken() returns (t: Result<Lexeme, Error>)
      modifies this
      ensures match Token(old(reader))
              case Err(e) => t == Err(e) && reader == old(reader)
              case Ok(s) => t == Ok(s.token) && reader == s.reader
    {
      match Token(reader) {
        case Err(e) =>
          t := Err(e);
        case Ok(s) =>
          reader := s.reader;
          t := Ok(s.token);
      }
    }
  }

  method RejectDuplicateObjectMembers(dec: Decoder) returns (failure: Option<Error>)
    modifies dec
    ensures match Scan(old(dec.reader))
            case Err(e) => failure == Some(e)
            case Ok(end) => failure == None && dec.reader == end
    decreases |dec.reader.input|, 1
  {
    hide Token;
    var token := dec.NextToken();
    if token.Err? {
      return Some(token.error);
    }
    failure := None;
    if token.value == OpenObject {
      failure := RejectInObject(dec);
    } else if token.value == OpenArray {
      failure := RejectInArray(dec);
    } else if !Closer(token.value) {
      return None;
    }
    if failure.Some? {
      return;
    }
    var end := dec.NextToken();
    failure := if end.Err? then Some(end.error) else None;
  }

  method RejectInObject(dec: Decoder) returns (failure: Option<Error>)
    modifies dec
    ensures match ScanMembers(old(dec.reader), {})
            case Err(e) => failure == Some(e)
            case Ok(end) => failure == None && dec.reader == end
    decreases |dec.reader.input|, 2
  {
    hide Token, Scan;
    var seen: set<string> := {};
    while More(dec.reader)
      invariant ScanMembers(dec.reader, seen) == ScanMembers(old(dec.reader), {})
      invariant |dec.reader.input| <= |old(dec.reader).input|
      decreases |dec.reader.input|
    {
      var member := dec.NextToken();
      if member.Err? {
        return Some(member.error);
      }
      if !member.value.Text? {
        return Some(NonStringKey);
      }
      if member.value.text in seen {
        return Some(Duplicate);
      }
      seen := seen + {member.value.text};
      failure := RejectDuplicateObjectMembers(dec);
      if failure.Some? {
        return;
      }
    }
    failure := None;
  }

  method RejectInArray(dec: Decoder) returns (failure: Option<Error>)
    modifies dec
    ensures match ScanItems(old(dec.reader))
            case Err(e) => failure == Some(e)
            case Ok(end) => failure == None && dec.reader == end
    decreases |dec.reader.input|, 2
  {
    hide Token, Scan;
    while More(dec.reader)
      invariant ScanItems(dec.reader) == ScanItems(old(dec.reader))
      invariant |dec.reader.input| <= |old(dec.reader).input|
      decreases |dec.reader.input|
    {
      failure := RejectDuplicateObjectMembers(dec);
      if failure.Some? {
        return;
      }
    }
    failure := None;
  }

  method RejectDuplicateMembers(input: seq<Lexeme>) returns (failure: Option<Error>)
    ensures failure.None? <==> exists v :: Spell(v) == input && NoRepeats(v)
    ensures failure.Some? ==> Check(input) == Err(failure.value)
  {
    CheckExactly(input);
    hide Token, Scan, Spell, NoRepeats;
    var dec := new Decoder(input);
    failure := RejectDuplicateObjectMembers(dec);
    if failure.Some? {
      return;
    }
    var end := dec.NextToken();
    if end.Ok? {
      return Some(Trailing);
    }
    failure := if end.error == Eof then None else Some(end.error);
  }

  // ---------------------------------------------------------------- the two JSON parts of a token

  /** A dot-separated part: its JSON text, or None when it is not base64url. */
  type Part = Option<seq<Lexeme>>

  predicate UniqueMembers(part: Part) {
    part.Some? && Check(part.value).Ok?
  }

  /** Header and payload of a three-part token; a part that does not decode ends the scan quietly. */
  method RejectDuplicateTokenMembers(parts: seq<Part>) returns (failure: Option<Error>)
    ensures |parts| == 3 && parts[0].Some? && parts[1].Some? ==>
              (failure.None? <==> UniqueMembers(parts[0]) && UniqueMembers(parts[1]))
    ensures |parts| == 3 && parts[0].Some? && parts[1].None? ==> (failure.None? <==> UniqueMembers(parts[0]))
    ensures |parts| != 3 || parts[0].None? ==> failure.None?
  {
    hide Check;
    if |parts| != 3 {
      return None;
    }
    var i := 0;
    while i < 2
      invariant 0 <= i <= 2
      invariant forall j :: 0 <= j < i ==> UniqueMembers(parts[j])
    {
      if parts[i].None? {
        return None;
      }
      CheckExactly(parts[i].value);
      failure := RejectDuplicateMembers(parts[i].value);
      if failure.Some? {
        return;
      }
      i := i + 1;
    }
    failure := None;
  }
}
