/** The extension vectors of pkg/atls/ea/extensions.go. */
module Extensions {
  import opened Results
  import opened BigEndian

  datatype Error = Truncated | InvalidLength | BadRequest

  datatype Extension = Extension(typ: uint16, data: Bytes)

  // ---------------------------------------------------------------- the wire format

  function EncodeOne(e: Extension): (b: Bytes)
    ensures |b| == 4 + |e.data|
  {
    Put16(e.typ) + Put16(|e.data|) + e.data
  }

  function Encode(exts: seq<Extension>): (b: Bytes)
    ensures |exts| > 0 ==> |b| >= 4
  {
    if exts == [] then [] else EncodeOne(exts[0]) + Encode(exts[1..])
  }

  /** A vector is encoded exactly when its payload fits the 16-bit length field. */
  function Marshal(exts: seq<Extension>): (r: Result<Bytes, Error>)
  {
    var payload := Encode(exts);
    if |payload| > 0xFFFF then Err(InvalidLength) else Ok(Put16(|payload|) + payload)
  }

  function DecodeOne(p: Bytes): (r: Result<(Extension, Bytes), Error>)
    ensures r.Ok? ==> |r.value.1| < |p|
  {
    if |p| < 4 then
      Err(Truncated)
    else
      var l := Read16(p[2..4]);
      if l > |p| - 4 then Err(InvalidLength) else Ok((Extension(Read16(p[..2]), p[4..4 + l]), p[4 + l..]))
  }

  function Decode(p: Bytes): (r: Result<seq<Extension>, Error>)
    decreases |p|
  {
    if p == [] then
      Ok([])
    else
      var (e, rest) :- DecodeOne(p);
      var es :- Decode(rest);
      Ok([e] + es)
  }

  /** The extensions at the front of `b`, and the bytes after them. */
  function Unmarshal(b: Bytes): (r: Result<(seq<Extension>, Bytes), Error>)
    ensures r.Ok? ==> |r.value.1| < |b|
  {
    if |b| < 2 || |b| < 2 + Read16(b[..2]) then
      Err(Truncated)
    else
      var total := Read16(b[..2]);
      var exts :- Decode(b[2..2 + total]);
      Ok((exts, b[2 + total..]))
  }

  // ---------------------------------------------------------------- decoding inverts encoding

  lemma DecodeOneOfEncodeOne(e: Extension, tail: Bytes)
    requires |e.data| <= 0xFFFF
    ensures DecodeOne(EncodeOne(e) + tail) == Ok((e, tail))
  {
    var p := EncodeOne(e) + tail;
    ReadPut16(e.typ);
    ReadPut16(|e.data|);
    assert p[..2] == Put16(e.typ) && p[2..4] == Put16(|e.data|);
    assert p[4..4 + |e.data|] == e.data && p[4 + |e.data|..] == tail;
  }

  lemma EncodeOneOfDecodeOne(p: Bytes)
    requires DecodeOne(p).Ok?
    ensures var (e, rest) := DecodeOne(p).value; |e.data| <= 0xFFFF && EncodeOne(e) + rest == p
  {
    PutRead16(p[..2]);
    PutRead16(p[2..4]);
    var l := Read16(p[2..4]);
    assert p == p[..2] + p[2..4] + p[4..4 + l] + p[4 + l..];
  }

  lemma {:induction false} DecodeOfEncode(exts: seq<Extension>)
    requires |Encode(exts)| <= 0xFFFF
    ensures Decode(Encode(exts)) == Ok(exts)
    decreases |exts|
  {
    if exts != [] {
      DecodeOneOfEncodeOne(exts[0], Encode(exts[1..]));
      DecodeOfEncode(exts[1..]);
      assert exts == [exts[0]] + exts[1..];
    }
  }

  lemma {:induction false} EncodeOfDecode(p: Bytes)
    requires Decode(p).Ok?
    ensures Encode(Decode(p).value) == p
    decreases |p|
  {
    if p != [] {
      var (e, rest) := DecodeOne(p).value;
      EncodeOneOfDecodeOne(p);
      EncodeOfDecode(rest);
      var es := Decode(rest).value;
      assert ([e] + es)[0] == e && ([e] + es)[1..] == es;
    }
  }

  /** A marshalled vector parses back to itself, whatever follows it. */
  lemma UnmarshalOfMarshal(exts: seq<Extension>, tail: Bytes)
    requires Marshal(exts).Ok?
    ensures Unmarshal(Marshal(exts).value + tail) == Ok((exts, tail))
  {
    var payload := Encode(exts);
    var b := Marshal(exts).value + tail;
    ReadPut16(|payload|);
    assert b[..2] == Put16(|payload|);
    assert b[2..2 + |payload|] == payload && b[2 + |payload|..] == tail;
    DecodeOfEncode(exts);
  }

  /** Whatever parses is the marshalling of the parsed vector, followed by the leftover bytes. */
  lemma MarshalOfUnmarshal(b: Bytes)
    requires Unmarshal(b).Ok?
    ensures var (exts, rest) := Unmarshal(b).value;
            Marshal(exts).Ok? && Marshal(exts).value + rest == b
  {
    var total := Read16(b[..2]);
    EncodeOfDecode(b[2..2 + total]);
    PutRead16(b[..2]);
    assert b == b[..2] + b[2..2 + total] + b[2 + total..];
  }

  // ---------------------------------------------------------------- what is on the wire

  /** Two bytes of type, two bytes of length, and the data (section 4.2 of RFC 8446). */
  predicate IsExtension(b: Bytes, e: Extension) {
    |b| == 4 + |e.data| && Number(b[..2]) == e.typ && Number(b[2..4]) == |e.data| && b[4..] == e.data
  }

  predicate AreExtensions(b: Bytes, exts: seq<Extension>)
    decreases |exts|
  {
    if exts == [] then b == []
    else
      var n := 4 + |exts[0].data|;
      |b| >= n && IsExtension(b[..n], exts[0]) && AreExtensions(b[n..], exts[1..])
  }

  /** Two bytes of length, and the extensions. */
  predicate IsVector(b: Bytes, exts: seq<Extension>) {
    |b| >= 2 && Number(b[..2]) == |b| - 2 && AreExtensions(b[2..], exts)
  }

  lemma ExtensionOnWire(b: Bytes, e: Extension)
    ensures IsExtension(b, e) <==> |e.data| <= 0xFFFF && b == EncodeOne(e)
  {
    hide Put16, Number;
    var enc := EncodeOne(e);
    assert enc[..2] == Put16(e.typ) && enc[2..4] == Put16(|e.data|) && enc[4..] == e.data;
    Put16Exactly(enc[..2], e.typ);
    Put16Exactly(enc[2..4], |e.data|);
    if IsExtension(b, e) {
      Put16Exactly(b[..2], e.typ);
      Put16Exactly(b[2..4], |e.data|);
      assert b == b[..2] + b[2..4] + b[4..];
    }
  }

  lemma {:induction false} ExtensionsOnWire(b: Bytes, exts: seq<Extension>)
    requires |b| <= 0xFFFF
    ensures AreExtensions(b, exts) <==> b == Encode(exts)
    decreases |exts|
  {
    hide IsExtension, EncodeOne;
    if exts != [] {
      var n := 4 + |exts[0].data|;
      if |b| >= n {
        ExtensionOnWire(b[..n], exts[0]);
        ExtensionsOnWire(b[n..], exts[1..]);
        assert b == b[..n] + b[n..];
        var enc := EncodeOne(exts[0]) + Encode(exts[1..]);
        assert enc[..n] == EncodeOne(exts[0]) && enc[n..] == Encode(exts[1..]);
      }
    }
  }

  /** A vector marshals to exactly the bytes that stand for it. */
  lemma VectorOnWire(b: Bytes, exts: seq<Extension>)
    ensures IsVector(b, exts) <==> Marshal(exts) == Ok(b)
  {
    hide Put16, Number, AreExtensions, Encode;
    if |b| >= 2 && |b| - 2 <= 0xFFFF {
      Put16Exactly(b[..2], |b| - 2);
      ExtensionsOnWire(b[2..], exts);
      assert b == b[..2] + b[2..];
      var enc := Put16(|Encode(exts)|) + Encode(exts);
      assert enc[..2] == Put16(|Encode(exts)|) && enc[2..] == Encode(exts);
    } else if |b| >= 2 {
      Put16Exactly(b[..2], |b| - 2);
    }
  }

  /** A vector that is cut off is told apart from an extension in it that is. */
  lemma VectorErrors(b: Bytes)
    ensures |b| < 2 || |b| < 2 + Number(b[..2]) ==> Unmarshal(b) == Err(Truncated)
    ensures |b| >= 4 && 1 <= Number(b[..2]) <= 3 && |b| >= 2 + Number(b[..2]) ==> Unmarshal(b) == Err(Truncated)
    ensures |b| >= 6 && 4 <= Number(b[..2]) <= |b| - 2 && Number(b[4..6]) > Number(b[..2]) - 4 ==>
              Unmarshal(b) == Err(InvalidLength)
  {
    hide Number;
    if |b| >= 2 {
      NumberOfTwo(b[..2]);
    }
    if |b| >= 6 && 4 <= Number(b[..2]) <= |b| - 2 {
      NumberOfTwo(b[4..6]);
      var p := b[2..2 + Read16(b[..2])];
      assert p[2..4] == [p[2], p[3]] == [b[4], b[5]] == b[4..6];
    }
  }

  // ---------------------------------------------------------------- the program's loops

  lemma {:induction false} EncodeSnoc(exts: seq<Extension>, e: Extension)
    ensures Encode(exts + [e]) == Encode(exts) + EncodeOne(e)
    decreases |exts|
  {
    hide EncodeOne;
    if exts == [] {
      assert exts + [e] == [e] && [e][1..] == [];
      assert EncodeOne(e) + [] == EncodeOne(e) == [] + EncodeOne(e);
    } else {
      var first, rest := EncodeOne(exts[0]), Encode(exts[1..]);
      EncodeSnoc(exts[1..], e);
      assert (exts + [e])[0] == exts[0] && (exts + [e])[1..] == exts[1..] + [e];
      assert first + (rest + EncodeOne(e)) == first + rest + EncodeOne(e);
    }
  }

  lemma {:induction false} EncodePrefixLength(exts: seq<Extension>, k: nat)
    requires k < |exts|
    ensures |Encode(exts[..k])| + 4 + |exts[k].data| == |Encode(exts[..k + 1])| <= |Encode(exts)|
    decreases |exts| - k
  {
    EncodeSnoc(exts[..k], exts[k]);
    assert exts[..k + 1] == exts[..k] + [exts[k]];
    if k + 1 == |exts| {
      assert exts[..k + 1] == exts;
    } else {
      EncodePrefixLength(exts, k + 1);
    }
  }

  /** The first loop: sums the lengths, stopping at the first sum that does not fit. */
  method PayloadLength(exts: seq<Extension>) returns (r: Result<nat, Error>)
    ensures r == if |Encode(exts)| > 0xFFFF then Err(InvalidLength) else Ok(|Encode(exts)|)
  {
    var payloadLen := 0;
    var k := 0;
    while k < |exts|
      invariant 0 <= k <= |exts|
      invariant payloadLen == |Encode(exts[..k])| <= 0xFFFF
    {
      EncodePrefixLength(exts, k);
      if |exts[k].data| > 0xFFFF {
        return Err(InvalidLength);
      }
      payloadLen := payloadLen + 4 + |exts[k].data|;
      if payloadLen > 0xFFFF {
        return Err(InvalidLength);
      }
      k := k + 1;
    }
    assert exts[..k] == exts;
    return Ok(payloadLen);
  }

  /** Writes one extension at a moving offset of the output buffer. */
  method WriteExtension(out: array<byte>, off: nat, e: Extension)
    requires off + 4 + |e.data| <= out.Length && |e.data| <= 0xFFFF
    modifies out
    ensures out[..off + 4 + |e.data|] == old(out[..off]) + EncodeOne(e)
  {
    var t, l := Put16(e.typ), Put16(|e.data|);
    out[off], out[off + 1], out[off + 2], out[off + 3] := t[0], t[1], l[0], l[1];
    forall m | 0 <= m < |e.data| {
      out[off + 4 + m] := e.data[m];
    }
    assert out[..off + 4 + |e.data|] == old(out[..off]) + (t + l + e.data);
  }

  /** The second loop: writes every extension after the first two bytes of the output buffer. */
  method WriteExtensions(out: array<byte>, exts: seq<Extension>)
    requires out.Length == 2 + |Encode(exts)| <= 2 + 0xFFFF
    modifies out
    ensures out[..2] == old(out[..2]) && out[2..] == Encode(exts)
  {
    hide EncodeOne;
    var off, k := 2, 0;
    ghost var head := out[..2];
    while k < |exts|
      invariant 0 <= k <= |exts|
      invariant off == 2 + |Encode(exts[..k])| <= out.Length
      invariant out[..off] == head + Encode(exts[..k])
    {
      EncodePrefixLength(exts, k);
      EncodeSnoc(exts[..k], exts[k]);
      assert exts[..k + 1] == exts[..k] + [exts[k]];
      WriteExtension(out, off, exts[k]);
      off := off + 4 + |exts[k].data|;
      k := k + 1;
    }
    assert exts[..k] == exts;
    assert out[..2] == out[..off][..2] && out[2..] == out[..off][2..];
  }

  method MarshalExtensions(exts: seq<Extension>) returns (r: Result<Bytes, Error>)
    ensures r == Marshal(exts)
  {
    hide Encode;
    var sum := PayloadLength(exts);
    if sum.Err? {
      return Err(sum.error);
    }
    var out := new byte[2 + sum.value];
    var head := Put16(sum.value);
    out[0], out[1] := head[0], head[1];
    assert out[..2] == head;
    WriteExtensions(out, exts);
    assert out[..] == out[..2] + out[2..];
    return Ok(out[..]);
  }

  /** The outcome of a parse that has already produced `exts`. */
  ghost function After(exts: seq<Extension>, r: Result<seq<Extension>, Error>): Result<seq<Extension>, Error> {
    if r.Ok? then Ok(exts + r.value) else r
  }

  /** One pass of the parsing loop: either it fails as the whole parse does, or it moves one extension over. */
  lemma DecodeStep(exts: seq<Extension>, p: Bytes)
    requires p != []
    ensures DecodeOne(p).Err? ==> After(exts, Decode(p)) == Err(DecodeOne(p).error)
    ensures DecodeOne(p).Ok? ==>
              var (e, rest) := DecodeOne(p).value;
              After(exts, Decode(p)) == After(exts + [e], Decode(rest))
  {
    if DecodeOne(p).Ok? {
      var (e, rest) := DecodeOne(p).value;
      if Decode(rest).Ok? {
        assert exts + ([e] + Decode(rest).value) == exts + [e] + Decode(rest).value;
      }
    }
  }

  method UnmarshalExtensions(b: Bytes) returns (r: Result<(seq<Extension>, Bytes), Error>)
    ensures r == Unmarshal(b)
  {
    if |b| < 2 {
      return Err(Truncated);
    }
    var total := Read16(b[0..2]);
    if |b| < 2 + total {
      return Err(Truncated);
    }
    var payload := b[2..2 + total];
    var exts := DecodeLoop(payload);
    if exts.Err? {
      return Err(exts.error);
    }
    return Ok((exts.value, b[2 + total..]));
  }

  method DecodeLoop(payload: Bytes) returns (r: Result<seq<Extension>, Error>)
    ensures r == Decode(payload)
  {
    hide Decode, Read16;
    var exts: seq<Extension> := [];
    var i := 0;
    assert payload[0..] == payload;
    AfterEnds([], Decode(payload));
    while i < |payload|
      invariant 0 <= i <= |payload|
      invariant Decode(payload) == After(exts, Decode(payload[i..]))
    {
      ghost var p := payload[i..];
      DecodeStep(exts, p);
      if |payload| - i < 4 {
        return Err(Truncated);
      }
      var typ := Read16(payload[i..i + 2]);
      var l := Read16(payload[i + 2..i + 4]);
      assert p[..2] == payload[i..i + 2] && p[2..4] == payload[i + 2..i + 4];
      i := i + 4;
      if l > |payload| - i {
        return Err(InvalidLength);
      }
      var data := payload[i..i + l];
      i := i + l;
      assert p[4..4 + l] == data && p[4 + l..] == payload[i..];
      exts := exts + [Extension(typ, data)];
    }
    assert payload[i..] == [];
    AfterEnds(exts, Ok([]));
    return Ok(exts);
  }

  lemma AfterEnds(exts: seq<Extension>, r: Result<seq<Extension>, Error>)
    ensures After([], r) == r && After(exts, Decode([])) == Ok(exts)
  {
    assert r.Ok? ==> [] + r.value == r.value;
    assert exts + [] == exts;
  }
}
