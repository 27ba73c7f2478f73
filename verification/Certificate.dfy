/** The handshake framing and the Certificate message of pkg/atls/ea/handshake.go and certificate.go. */
module Certificate {
  import opened Results
  import opened BigEndian
  import opened Extensions

  const CERTIFICATE: byte := 11

  datatype HandshakeMessage = HandshakeMessage(typ: byte, body: Bytes)

  datatype CertificateEntry = CertificateEntry(certDER: Bytes, extensions: seq<Extension>)

  datatype CertificateMessage = CertificateMessage(context: Bytes, entries: seq<CertificateEntry>)

  // ---------------------------------------------------------------- handshake framing

  function MarshalHandshake(m: HandshakeMessage): (r: Result<Bytes, Error>)
  {
    if |m.body| > 0xFF_FFFF then Err(InvalidLength) else Ok([m.typ] + Put24(|m.body|) + m.body)
  }

  function UnmarshalHandshake(b: Bytes): (r: Result<(HandshakeMessage, Bytes), Error>)
  {
    if |b| < 4 || |b| < 4 + Read24(b[1..4]) then
      Err(Truncated)
    else
      var n := Read24(b[1..4]);
      Ok((HandshakeMessage(b[0], b[4..4 + n]), b[4 + n..]))
  }

  lemma UnmarshalOfMarshalHandshake(m: HandshakeMessage, tail: Bytes)
    requires MarshalHandshake(m).Ok?
    ensures UnmarshalHandshake(MarshalHandshake(m).value + tail) == Ok((m, tail))
  {
    var b := MarshalHandshake(m).value + tail;
    ReadPut24(|m.body|);
    assert b[1..4] == Put24(|m.body|);
    assert b[4..4 + |m.body|] == m.body && b[4 + |m.body|..] == tail;
  }

  lemma MarshalOfUnmarshalHandshake(b: Bytes)
    requires UnmarshalHandshake(b).Ok?
    ensures var (m, rest) := UnmarshalHandshake(b).value;
            MarshalHandshake(m).Ok? && MarshalHandshake(m).value + rest == b
  {
    var n := Read24(b[1..4]);
    PutRead24(b[1..4]);
    assert b == [b[0]] + b[1..4] + b[4..4 + n] + b[4 + n..];
  }

  // ---------------------------------------------------------------- certificate entries

  function MarshalEntry(e: CertificateEntry): (r: Result<Bytes, Error>)
    ensures r.Ok? ==> |r.value| > 3
  {
    if |e.certDER| == 0 || |e.certDER| > 0xFF_FFFF then
      Err(InvalidLength)
    else
      var extVec :- Extensions.Marshal(e.extensions);
      Ok(Put24(|e.certDER|) + e.certDER + extVec)
  }

  function MarshalEntries(es: seq<CertificateEntry>): (r: Result<Bytes, Error>)
  {
    if es == [] then
      Ok([])
    else
      var front :- MarshalEntry(es[0]);
      var back :- MarshalEntries(es[1..]);
      Ok(front + back)
  }

  function UnmarshalEntry(list: Bytes): (r: Result<(CertificateEntry, Bytes), Error>)
    ensures r.Ok? ==> |r.value.1| < |list|
  {
    if |list| < 3 then
      Err(Truncated)
    else
      var certLen := Read24(list[..3]);
      if certLen <= 0 || certLen > |list| - 3 then
        Err(InvalidLength)
      else
        var (exts, leftover) :- Extensions.Unmarshal(list[3 + certLen..]);
        Ok((CertificateEntry(list[3..3 + certLen], exts), leftover))
  }

  function UnmarshalEntries(list: Bytes): (r: Result<seq<CertificateEntry>, Error>)
    decreases |list|
  {
    if list == [] then
      Ok([])
    else
      var (e, rest) :- UnmarshalEntry(list);
      var es :- UnmarshalEntries(rest);
      Ok([e] + es)
  }

  lemma UnmarshalOfMarshalEntry(e: CertificateEntry, tail: Bytes)
    requires MarshalEntry(e).Ok?
    ensures UnmarshalEntry(MarshalEntry(e).value + tail) == Ok((e, tail))
  {
    hide Extensions.Marshal, Extensions.Unmarshal;
    var list := MarshalEntry(e).value + tail;
    var n := |e.certDER|;
    var extVec := Extensions.Marshal(e.extensions).value;
    ReadPut24(n);
    assert list[..3] == Put24(n) && list[3..3 + n] == e.certDER && list[3 + n..] == extVec + tail;
    UnmarshalOfMarshal(e.extensions, tail);
  }

  lemma MarshalOfUnmarshalEntry(list: Bytes)
    requires UnmarshalEntry(list).Ok?
    ensures var (e, rest) := UnmarshalEntry(list).value;
            MarshalEntry(e).Ok? && MarshalEntry(e).value + rest == list
  {
    hide Extensions.Marshal, Extensions.Unmarshal;
    var n := Read24(list[..3]);
    PutRead24(list[..3]);
    MarshalOfUnmarshal(list[3 + n..]);
    assert list == list[..3] + list[3..3 + n] + list[3 + n..];
  }

  lemma {:induction false} UnmarshalOfMarshalEntries(es: seq<CertificateEntry>)
    requires MarshalEntries(es).Ok?
    ensures UnmarshalEntries(MarshalEntries(es).value) == Ok(es)
    decreases |es|
  {
    hide MarshalEntry, UnmarshalEntry;
    if es != [] {
      var back := MarshalEntries(es[1..]).value;
      UnmarshalOfMarshalEntry(es[0], back);
      UnmarshalOfMarshalEntries(es[1..]);
      assert es == [es[0]] + es[1..];
    }
  }

  lemma {:induction false} MarshalOfUnmarshalEntries(list: Bytes)
    requires UnmarshalEntries(list).Ok?
    ensures MarshalEntries(UnmarshalEntries(list).value) == Ok(list)
    decreases |list|
  {
    hide MarshalEntry, UnmarshalEntry;
    if list != [] {
      var (e, rest) := UnmarshalEntry(list).value;
      MarshalOfUnmarshalEntry(list);
      MarshalOfUnmarshalEntries(rest);
      var es := UnmarshalEntries(rest).value;
      assert ([e] + es)[0] == e && ([e] + es)[1..] == es;
    }
  }

  // ---------------------------------------------------------------- the Certificate message

  function Body(context: Bytes, list: Bytes): (body: Bytes)
    requires |context| <= 255
    ensures |body| == 4 + |context| + |list|
  {
    [|context|] + context + Put24(|list|) + list
  }

  function Marshal(m: CertificateMessage): (r: Result<Bytes, Error>)
  {
    if |m.context| > 255 then
      Err(InvalidLength)
    else
      var list :- MarshalEntries(m.entries);
      MarshalHandshake(HandshakeMessage(CERTIFICATE, Body(m.context, list)))
  }

  /** The context and the entry list of a Certificate body. */
  function SplitBody(body: Bytes): (r: Result<(Bytes, Bytes), Error>)
  {
    if |body| < 1 || |body| < 4 + body[0] as int then
      Err(Truncated)
    else
      var n := body[0] as int;
      if |body| != 4 + n + Read24(body[1 + n..4 + n]) then
        Err(InvalidLength)
      else
        Ok((body[1..1 + n], body[4 + n..]))
  }

  /** The message in `b`, and the raw handshake bytes it was read from. */
  function Unmarshal(b: Bytes): (r: Result<(CertificateMessage, Bytes), Error>)
  {
    var (hm, rest) :- UnmarshalHandshake(b);
    if rest != [] || hm.typ != CERTIFICATE then
      Err(InvalidLength)
    else
      var (context, list) :- SplitBody(hm.body);
      var entries :- UnmarshalEntries(list);
      var raw :- MarshalHandshake(hm);
      Ok((CertificateMessage(context, entries), raw))
  }

  lemma SplitOfBody(context: Bytes, list: Bytes)
    requires |context| <= 255 && |list| <= 0xFF_FFFF
    ensures SplitBody(Body(context, list)) == Ok((context, list))
  {
    var body, n := Body(context, list), |context|;
    ReadPut24(|list|);
    assert body[1..1 + n] == context && body[1 + n..4 + n] == Put24(|list|) && body[4 + n..] == list;
  }

  lemma BodyOfSplit(body: Bytes)
    requires SplitBody(body).Ok?
    ensures var (context, list) := SplitBody(body).value;
            |context| <= 255 && Body(context, list) == body
  {
    var n := body[0] as int;
    PutRead24(body[1 + n..4 + n]);
    assert body == [body[0]] + body[1..1 + n] + body[1 + n..4 + n] + body[4 + n..];
  }

  /** Every message that marshals parses back to itself, and the raw bytes are the input. */
  lemma UnmarshalOfMarshalCertificate(m: CertificateMessage)
    requires Marshal(m).Ok?
    ensures Unmarshal(Marshal(m).value) == Ok((m, Marshal(m).value))
  {
    hide MarshalEntries, UnmarshalEntries, MarshalHandshake, UnmarshalHandshake, SplitBody, Body;
    var list := MarshalEntries(m.entries).value;
    var hm := HandshakeMessage(CERTIFICATE, Body(m.context, list));
    var b := Marshal(m).value;
    UnmarshalOfMarshalHandshake(hm, []);
    assert b + [] == b;
    ListFits(m);
    SplitOfBody(m.context, list);
    UnmarshalOfMarshalEntries(m.entries);
  }

  /** Neither length field of a marshalled message is truncated. */
  lemma ListFits(m: CertificateMessage)
    requires Marshal(m).Ok?
    ensures |MarshalEntries(m.entries).value| <= 0xFF_FFFF
  {
  }

  /** Every accepted byte string is the marshalling of the message it parsed to. */
  lemma MarshalOfUnmarshalCertificate(b: Bytes)
    requires Unmarshal(b).Ok?
    ensures var (m, raw) := Unmarshal(b).value; raw == b && Marshal(m) == Ok(b)
  {
    hide MarshalEntries, UnmarshalEntries, MarshalHandshake, UnmarshalHandshake, SplitBody, Body;
    var (hm, rest) := UnmarshalHandshake(b).value;
    MarshalOfUnmarshalHandshake(b);
    assert MarshalHandshake(hm).value + [] == MarshalHandshake(hm).value;
    var (context, list) := SplitBody(hm.body).value;
    BodyOfSplit(hm.body);
    MarshalOfUnmarshalEntries(list);
  }

  // ---------------------------------------------------------------- what is on the wire

  /** Three bytes of length, a certificate that is not empty, and its extensions. */
  predicate IsEntry(b: Bytes, e: CertificateEntry) {
    var n := |e.certDER|;
    && n > 0 && |b| >= 3 + n && Number(b[..3]) == n && b[3..3 + n] == e.certDER && IsVector(b[3 + n..], e.extensions)
  }

  ghost predicate AreEntries(b: Bytes, es: seq<CertificateEntry>)
    decreases |es|
  {
    if es == [] then b == []
    else exists k :: 0 <= k <= |b| && IsEntry(b[..k], es[0]) && AreEntries(b[k..], es[1..])
  }

  /**
   The Certificate message of section 4.4.2 of RFC 8446 in its handshake frame: type 11, three bytes of
   length; one byte of length and the context; three bytes of length and the entries.
   */
  ghost predicate IsCertificate(b: Bytes, m: CertificateMessage) {
    var c := |m.context|;
    && |b| >= 8 + c && b[0] == 11 && Number(b[1..4]) == |b| - 4
    && b[4] == c && b[5..5 + c] == m.context
    && Number(b[5 + c..8 + c]) == |b| - 8 - c && AreEntries(b[8 + c..], m.entries)
  }

  lemma EntryOnWire(b: Bytes, e: CertificateEntry)
    ensures IsEntry(b, e) <==> MarshalEntry(e) == Ok(b)
  {
    hide Put24, Number, IsVector, Extensions.Marshal;
    var n := |e.certDER|;
    if |b| >= 3 + n {
      Put24Exactly(b[..3], n);
      VectorOnWire(b[3 + n..], e.extensions);
      assert b == b[..3] + b[3..3 + n] + b[3 + n..];
    }
    if MarshalEntry(e) == Ok(b) {
      var extVec := Extensions.Marshal(e.extensions).value;
      assert b[..3] == Put24(n) && b[3..3 + n] == e.certDER && b[3 + n..] == extVec;
    }
  }

  lemma {:induction false} EntriesOnWire(b: Bytes, es: seq<CertificateEntry>)
    ensures AreEntries(b, es) <==> MarshalEntries(es) == Ok(b)
    decreases |es|
  {
    hide IsEntry, MarshalEntry;
    if es != [] {
      if AreEntries(b, es) {
        var k :| 0 <= k <= |b| && IsEntry(b[..k], es[0]) && AreEntries(b[k..], es[1..]);
        EntryOnWire(b[..k], es[0]);
        EntriesOnWire(b[k..], es[1..]);
        assert b == b[..k] + b[k..];
      }
      if MarshalEntries(es) == Ok(b) {
        var front, back := MarshalEntry(es[0]).value, MarshalEntries(es[1..]).value;
        var k := |front|;
        assert b[..k] == front && b[k..] == back;
        EntryOnWire(front, es[0]);
        EntriesOnWire(back, es[1..]);
        assert IsEntry(b[..k], es[0]) && AreEntries(b[k..], es[1..]);
      }
    }
  }

  lemma BodyOnWire(b: Bytes, m: CertificateMessage, list: Bytes)
    requires |m.context| <= 255
    ensures var c := |m.context|;
            MarshalHandshake(HandshakeMessage(CERTIFICATE, Body(m.context, list))) == Ok(b) <==>
            && |b| >= 8 + c && b[0] == 11 && Number(b[1..4]) == |b| - 4
            && b[4] == c && b[5..5 + c] == m.context
            && Number(b[5 + c..8 + c]) == |b| - 8 - c && b[8 + c..] == list
  {
    hide Put24, Number;
    var c, body := |m.context|, Body(m.context, list);
    var enc: Bytes := [11] + Put24(|body|) + body;
    assert enc[1..4] == Put24(|body|) && enc[4..] == body;
    assert body[1..1 + c] == m.context && body[1 + c..4 + c] == Put24(|list|) && body[4 + c..] == list;
    assert enc[4] == c && enc[5..5 + c] == m.context && enc[5 + c..8 + c] == Put24(|list|) && enc[8 + c..] == list;
    if |b| >= 8 + c {
      Put24Exactly(b[1..4], |b| - 4);
      Put24Exactly(b[5 + c..8 + c], |b| - 8 - c);
      assert b == [b[0]] + b[1..4] + ([b[4]] + b[5..5 + c] + b[5 + c..8 + c] + b[8 + c..]);
    }
  }

  /** A message marshals to exactly the bytes that stand for it. */
  lemma CertificateOnWire(b: Bytes, m: CertificateMessage)
    ensures IsCertificate(b, m) <==> Marshal(m) == Ok(b)
  {
    hide AreEntries, MarshalEntries, MarshalHandshake, Body, Number;
    var c := |m.context|;
    if c <= 255 {
      if |b| >= 8 + c {
        EntriesOnWire(b[8 + c..], m.entries);
        BodyOnWire(b, m, b[8 + c..]);
      }
      if MarshalEntries(m.entries).Ok? {
        BodyOnWire(b, m, MarshalEntries(m.entries).value);
      }
    }
  }

  /** A frame that is cut off is told apart from one of another type or with something after it. */
  lemma FrameErrors(b: Bytes)
    ensures |b| < 4 || |b| < 4 + Number(b[1..4]) ==> Unmarshal(b) == Err(Truncated)
    ensures |b| >= 4 && (|b| > 4 + Number(b[1..4]) || (|b| == 4 + Number(b[1..4]) && b[0] != 11)) ==>
              Unmarshal(b) == Err(InvalidLength)
  {
    hide Number, SplitBody, UnmarshalEntries;
    if |b| >= 4 {
      NumberOfThree(b[1..4]);
    }
  }

  /** The same for the body, and for an entry at the front of the list. */
  lemma BodyErrors(body: Bytes)
    ensures |body| < 1 || |body| < 4 + body[0] as int ==> SplitBody(body) == Err(Truncated)
    ensures |body| >= 1 && |body| >= 4 + body[0] as int ==>
              var n := body[0] as int;
              SplitBody(body) == Err(InvalidLength) <==> |body| != 4 + n + Number(body[1 + n..4 + n])
  {
    hide Number;
    if |body| >= 1 && |body| >= 4 + body[0] as int {
      NumberOfThree(body[1 + body[0] as int..4 + body[0] as int]);
    }
  }

  lemma EntryErrors(list: Bytes)
    ensures |list| < 3 ==> UnmarshalEntry(list) == Err(Truncated)
    ensures |list| >= 3 && (Number(list[..3]) == 0 || Number(list[..3]) > |list| - 3) ==>
              UnmarshalEntry(list) == Err(InvalidLength)
  {
    hide Number, Extensions.Unmarshal;
    if |list| >= 3 {
      NumberOfThree(list[..3]);
    }
  }

  /** So the parser is the inverse of the encoder: it accepts exactly the encodings. */
  lemma AcceptsExactlyTheEncodings(b: Bytes, m: CertificateMessage)
    ensures Marshal(m) == Ok(b) <==> Unmarshal(b).Ok? && Unmarshal(b).value.0 == m
  {
    hide Marshal, Unmarshal;
    if Marshal(m) == Ok(b) {
      UnmarshalOfMarshalCertificate(m);
    }
    if Unmarshal(b).Ok? {
      MarshalOfUnmarshalCertificate(b);
    }
  }

  // ---------------------------------------------------------------- the program's loops

  lemma {:induction false} MarshalEntriesSplit(es: seq<CertificateEntry>, k: nat)
    requires k <= |es|
    ensures MarshalEntries(es) ==
            if MarshalEntries(es[..k]).Err? then MarshalEntries(es[..k])
            else if MarshalEntries(es[k..]).Err? then MarshalEntries(es[k..])
            else Ok(MarshalEntries(es[..k]).value + MarshalEntries(es[k..]).value)
    decreases k
  {
    hide MarshalEntry;
    if k == 0 {
      assert es[0..] == es && es[..0] == [];
      assert MarshalEntries(es).Ok? ==> [] + MarshalEntries(es).value == MarshalEntries(es).value;
    } else {
      var rest := es[1..];
      MarshalEntriesSplit(rest, k - 1);
      assert es[..k][0] == es[0] && es[..k][1..] == rest[..k - 1] && rest[k - 1..] == es[k..];
      if MarshalEntry(es[0]).Ok? && MarshalEntries(rest).Ok? {
        assert MarshalEntry(es[0]).value + (MarshalEntries(rest[..k - 1]).value + MarshalEntries(es[k..]).value)
            == MarshalEntry(es[0]).value + MarshalEntries(rest[..k - 1]).value + MarshalEntries(es[k..]).value;
      }
    }
  }

  lemma MarshalEntriesStep(es: seq<CertificateEntry>, k: nat)
    requires k < |es| && MarshalEntries(es[..k]).Ok?
    ensures MarshalEntry(es[k]).Err? ==> MarshalEntries(es) == Err(MarshalEntry(es[k]).error)
    ensures MarshalEntry(es[k]).Ok? ==>
              MarshalEntries(es[..k + 1]) == Ok(MarshalEntries(es[..k]).value + MarshalEntry(es[k]).value)
  {
    hide MarshalEntry;
    MarshalEntriesSplit(es, k);
    assert es[k..][0] == es[k];
    var upto := es[..k + 1];
    MarshalEntriesSplit(upto, k);
    assert upto[..k] == es[..k] && upto[k..] == [es[k]] && [es[k]][1..] == [];
    if MarshalEntry(es[k]).Ok? {
      assert MarshalEntry(es[k]).value + [] == MarshalEntry(es[k]).value;
    }
  }

  method MarshalCertificate(m: CertificateMessage) returns (r: Result<Bytes, Error>)
    ensures r == Marshal(m)
  {
    hide Extensions.Marshal;
    if |m.context| > 255 {
      return Err(InvalidLength);
    }
    var listPayload: Bytes := [];
    var k := 0;
    while k < |m.entries|
      invariant 0 <= k <= |m.entries|
      invariant MarshalEntries(m.entries[..k]) == Ok(listPayload)
    {
      var e := m.entries[k];
      MarshalEntriesStep(m.entries, k);
      if |e.certDER| == 0 || |e.certDER| > 0xFF_FFFF {
        return Err(InvalidLength);
      }
      var extVec := MarshalExtensions(e.extensions);
      if extVec.Err? {
        return Err(extVec.error);
      }
      var entry := Put24(|e.certDER|) + e.certDER + extVec.value;
      listPayload := listPayload + entry;
      k := k + 1;
    }
    assert m.entries[..k] == m.entries;
    r := MarshalHandshake(HandshakeMessage(CERTIFICATE, Body(m.context, listPayload)));
  }

  ghost function After(es: seq<CertificateEntry>, r: Result<seq<CertificateEntry>, Error>)
    : Result<seq<CertificateEntry>, Error>
  {
    if r.Ok? then Ok(es + r.value) else r
  }

  lemma AfterEnds(es: seq<CertificateEntry>, r: Result<seq<CertificateEntry>, Error>)
    ensures After([], r) == r && After(es, UnmarshalEntries([])) == Ok(es)
  {
    assert r.Ok? ==> [] + r.value == r.value;
    assert es + [] == es;
  }

  lemma UnmarshalEntriesStep(es: seq<CertificateEntry>, list: Bytes)
    requires list != []
    ensures UnmarshalEntry(list).Err? ==> After(es, UnmarshalEntries(list)) == Err(UnmarshalEntry(list).error)
    ensures UnmarshalEntry(list).Ok? ==>
              var (e, rest) := UnmarshalEntry(list).value;
              After(es, UnmarshalEntries(list)) == After(es + [e], UnmarshalEntries(rest))
  {
    hide UnmarshalEntry;
    if UnmarshalEntry(list).Ok? {
      var (e, rest) := UnmarshalEntry(list).value;
      if UnmarshalEntries(rest).Ok? {
        assert es + ([e] + UnmarshalEntries(rest).value) == es + [e] + UnmarshalEntries(rest).value;
      }
    }
  }

  lemma SliceOfTail(list: Bytes, i: nat, from: nat, to: nat)
    requires from <= to && i + to <= |list|
    ensures list[i..][from..to] == list[i + from..i + to] && list[i..][to..] == list[i + to..]
  {
  }

  method UnmarshalEntryLoop(list: Bytes) returns (r: Result<seq<CertificateEntry>, Error>)
    ensures r == UnmarshalEntries(list)
  {
    hide Extensions.Unmarshal, UnmarshalEntries, Read24;
    var entries: seq<CertificateEntry> := [];
    var i := 0;
    AfterEnds([], UnmarshalEntries(list));
    assert list[0..] == list;
    while i < |list|
      invariant 0 <= i <= |list|
      invariant UnmarshalEntries(list) == After(entries, UnmarshalEntries(list[i..]))
    {
      ghost var p := list[i..];
      UnmarshalEntriesStep(entries, p);
      if |list| - i < 3 {
        return Err(Truncated);
      }
      var certLen := Read24(list[i..i + 3]);
      assert p[..3] == list[i..i + 3];
      i := i + 3;
      if certLen <= 0 || certLen > |list| - i {
        return Err(InvalidLength);
      }
      var certDER := list[i..i + certLen];
      i := i + certLen;
      SliceOfTail(list, i - certLen - 3, 3, 3 + certLen);
      var exts := UnmarshalExtensions(list[i..]);
      if exts.Err? {
        return Err(exts.error);
      }
      MarshalOfUnmarshal(list[i..]);
      var consumed := |list[i..]| - |exts.value.1|;
      assert exts.value.1 == list[i..][consumed..];
      i := i + consumed;
      assert exts.value.1 == list[i..];
      entries := entries + [CertificateEntry(certDER, exts.value.0)];
    }
    assert list[i..] == [];
    AfterEnds(entries, Ok([]));
    return Ok(entries);
  }

  method UnmarshalCertificateMessage(b: Bytes) returns (r: Result<(CertificateMessage, Bytes), Error>)
    ensures r == Unmarshal(b)
  {
    hide UnmarshalHandshake, MarshalHandshake, UnmarshalEntries, Read24;
    var hm := UnmarshalHandshake(b);
    if hm.Err? {
      return Err(hm.error);
    }
    var (msg, rest) := hm.value;
    if |rest| != 0 || msg.typ != CERTIFICATE {
      return Err(InvalidLength);
    }
    if |msg.body| < 1 {
      return Err(Truncated);
    }
    var ctxLen := msg.body[0] as int;
    if |msg.body| < 1 + ctxLen + 3 {
      return Err(Truncated);
    }
    var ctx := msg.body[1..1 + ctxLen];
    var listLen := Read24(msg.body[1 + ctxLen..1 + ctxLen + 3]);
    if |msg.body| != 1 + ctxLen + 3 + listLen {
      return Err(InvalidLength);
    }
    var entries := UnmarshalEntryLoop(msg.body[1 + ctxLen + 3..]);
    if entries.Err? {
      return Err(entries.error);
    }
    var raw := MarshalHandshake(msg);
    MarshalOfUnmarshalHandshake(b);
    return Ok((CertificateMessage(ctx, entries.value), raw.value));
  }
}
