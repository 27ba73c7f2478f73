/** The CMW attestation extension of pkg/atls/ea/cmw_attestation.go. */
module CmwAttestation {
  import opened Results
  import opened BigEndian
  import opened Extensions
  import opened Certificate

  const CMW_ATTESTATION: uint16 := 0xFF00

  /** The payload behind its own 16-bit length; refused when empty or too long for one extension's data. */
  method DataExtension(cmw: Bytes) returns (r: Result<Extension, Error>)
    ensures r.Ok? <==> 1 <= |cmw| <= 0xFFFD
    ensures r.Err? ==> r.error == InvalidLength
    ensures r.Ok? ==> Carries(r.value, cmw)
  {
    if |cmw| == 0 || |cmw| + 2 > 0xFFFF {
      return Err(InvalidLength);
    }
    var data := new byte[2 + |cmw|];
    var head := Put16(|cmw|);
    data[0], data[1] := head[0], head[1];
    forall k | 0 <= k < |cmw| {
      data[2 + k] := cmw[k];
    }
    assert data[..] == head + cmw;
    return Ok(Extension(CMW_ATTESTATION, data[..]));
  }

  /** `e` is the attestation extension for `cmw`. */
  predicate Carries(e: Extension, cmw: Bytes) {
    e == Extension(CMW_ATTESTATION, Put16(|cmw|) + cmw)
  }

  /** A well-formed attestation extension: non-empty payload of exactly the announced length. */
  predicate Readable(e: Extension) {
    && e.typ == CMW_ATTESTATION && |e.data| > 2
    && Read16(e.data[..2]) == |e.data| - 2
  }

  predicate IsFirst(exts: seq<Extension>, k: nat) {
    && k < |exts| && exts[k].typ == CMW_ATTESTATION
    && forall i :: 0 <= i < k ==> exts[i].typ != CMW_ATTESTATION
  }

  predicate Absent(exts: seq<Extension>) {
    forall i :: 0 <= i < |exts| ==> exts[i].typ != CMW_ATTESTATION
  }

  /** Reads the first attestation extension: none, malformed, or its payload. Later ones are not looked at. */
  method ExtractFromExtensions(exts: seq<Extension>) returns (r: Result<Option<Bytes>, Error>)
    ensures r == Ok(None) <==> Absent(exts)
    ensures forall k: nat | IsFirst(exts, k) ::
              r == if Readable(exts[k]) then Ok(Some(exts[k].data[2..])) else Err(InvalidLength)
  {
    var i := 0;
    while i < |exts|
      invariant 0 <= i <= |exts|
      invariant Absent(exts[..i])
    {
      var e := exts[i];
      if e.typ == CMW_ATTESTATION {
        assert IsFirst(exts, i) by {
          assert forall j :: 0 <= j < i ==> exts[j] == exts[..i][j];
        }
        assert forall k: nat | IsFirst(exts, k) :: k == i;
        if |e.data| < 2 {
          return Err(InvalidLength);
        }
        var l := Read16(e.data[0..2]);
        if l <= 0 || l != |e.data| - 2 {
          return Err(InvalidLength);
        }
        return Ok(Some(e.data[2..]));
      }
      assert exts[..i + 1] == exts[..i] + [e];
      i := i + 1;
    }
    assert exts[..i] == exts;
    assert forall k: nat :: !IsFirst(exts, k);
    return Ok(None);
  }

  /** Only the leaf (first) entry carries attestation extensions. */
  predicate LeafOnly(entries: seq<CertificateEntry>) {
    forall i :: 0 < i < |entries| ==> Absent(entries[i].extensions)
  }

  method ValidatePlacement(entries: seq<CertificateEntry>) returns (r: Result<(), Error>)
    ensures r == if LeafOnly(entries) then Ok(()) else Err(BadRequest)
  {
    var i := 0;
    while i < |entries|
      invariant 0 <= i <= |entries|
      invariant forall k :: 0 < k < i ==> Absent(entries[k].extensions)
    {
      var exts := entries[i].extensions;
      var j := 0;
      while j < |exts|
        invariant 0 <= j <= |exts|
        invariant i > 0 ==> forall k :: 0 <= k < j ==> exts[k].typ != CMW_ATTESTATION
      {
        if exts[j].typ == CMW_ATTESTATION {
          if i != 0 {
            assert !Absent(entries[i].extensions);
            return Err(BadRequest);
          }
        }
        j := j + 1;
      }
      i := i + 1;
    }
    return Ok(());
  }

  // ---------------------------------------------------------------- size limits

  lemma {:induction false} EncodeContains(exts: seq<Extension>, k: nat)
    requires k < |exts|
    ensures |Encode(exts)| >= 4 + |exts[k].data|
  {
    EncodePrefixLength(exts, k);
  }

  /** A payload of 65530 to 65533 bytes builds an extension that no vector can be marshalled with. */
  lemma LongPayloadNeverMarshals(exts: seq<Extension>, k: nat, cmw: Bytes)
    requires k < |exts| && Carries(exts[k], cmw) && |cmw| > 65529
    ensures Extensions.Marshal(exts) == Err(InvalidLength)
  {
    EncodeContains(exts, k);
  }

  /** Alone in its vector, the extension marshals exactly up to 65529 payload bytes. */
  lemma SoleExtensionMarshalsIff(e: Extension, cmw: Bytes)
    requires Carries(e, cmw)
    ensures Extensions.Marshal([e]).Ok? <==> |cmw| <= 65529
  {
    assert [e][1..] == [];
    assert |Encode([e])| == 4 + |e.data|;
  }

  lemma {:induction false} LongPayloadNeverMarshalsInEntries(es: seq<CertificateEntry>, i: nat, k: nat, cmw: Bytes)
    requires i < |es| && k < |es[i].extensions| && Carries(es[i].extensions[k], cmw) && |cmw| > 65529
    ensures MarshalEntries(es).Err?
    decreases i
  {
    if i == 0 {
      LongPayloadNeverMarshals(es[0].extensions, k, cmw);
    } else {
      LongPayloadNeverMarshalsInEntries(es[1..], i - 1, k, cmw);
    }
  }

  /** Nor can any Certificate message that contains it. */
  lemma LongPayloadNeverMarshalsInMessage(m: CertificateMessage, i: nat, k: nat, cmw: Bytes)
    requires i < |m.entries| && k < |m.entries[i].extensions|
    requires Carries(m.entries[i].extensions[k], cmw) && |cmw| > 65529
    ensures Certificate.Marshal(m).Err?
  {
    LongPayloadNeverMarshalsInEntries(m.entries, i, k, cmw);
  }

  // ---------------------------------------------------------------- end to end

  lemma CarriedIsReadable(e: Extension, cmw: Bytes)
    requires Carries(e, cmw) && 1 <= |cmw| <= 0xFFFF
    ensures Readable(e) && e.data[2..] == cmw
  {
    ReadPut16(|cmw|);
    assert e.data[..2] == Put16(|cmw|);
  }

  /** The message with `cmw` as the only extension of its leaf. */
  function Attested(context: Bytes, leaf: Bytes, chain: seq<CertificateEntry>, cmw: Bytes): CertificateMessage {
    CertificateMessage(context,
      [CertificateEntry(leaf, [Extension(CMW_ATTESTATION, Put16(|cmw|) + cmw)])] + chain)
  }

  /** On the wire: type 0xFF00, two bytes of length, and the payload. */
  lemma CarriesOnWire(e: Extension, cmw: Bytes)
    ensures Carries(e, cmw) && |cmw| <= 0xFFFF <==>
            e.typ == 0xFF00 && |e.data| == 2 + |cmw| && Number(e.data[..2]) == |cmw| && e.data[2..] == cmw
  {
    hide Put16, Number;
    var data := Put16(|cmw|) + cmw;
    assert data[..2] == Put16(|cmw|) && data[2..] == cmw;
    if |e.data| >= 2 {
      Put16Exactly(e.data[..2], |cmw|);
      assert e.data == e.data[..2] + e.data[2..];
    }
  }

  /**
   The attestation travels: built from `cmw`, placed as the only extension of the leaf, marshalled,
   parsed, checked for placement and extracted, it comes out unchanged whenever the message marshals
   at all, which takes a payload of 1 to 65529 bytes. A second attestation further up the chain is
   refused by the placement check.
   */
  method SendAndReceive(context: Bytes, leaf: Bytes, chain: seq<CertificateEntry>, cmw: Bytes)
    returns (sent: Result<Bytes, Error>, got: Result<Option<Bytes>, Error>)
    ensures sent == if 1 <= |cmw| <= 0xFFFD then Certificate.Marshal(Attested(context, leaf, chain, cmw))
                    else Err(InvalidLength)
    ensures sent.Ok? ==> 1 <= |cmw| <= 65529
    ensures sent.Ok? ==>
              got == if forall i :: 0 <= i < |chain| ==> Absent(chain[i].extensions)
                     then Ok(Some(cmw)) else Err(BadRequest)
    ensures sent.Err? ==> got == Err(sent.error)
  {
    hide Certificate.Marshal, Certificate.Unmarshal, Put16;
    var built := DataExtension(cmw);
    if built.Err? {
      return Err(built.error), Err(built.error);
    }
    var e := built.value;
    CarriedIsReadable(e, cmw);
    var m := CertificateMessage(context, [CertificateEntry(leaf, [e])] + chain);
    sent := MarshalCertificate(m);
    if sent.Err? {
      return sent, Err(sent.error);
    }
    if |cmw| > 65529 {
      LongPayloadNeverMarshalsInMessage(m, 0, 0, cmw);
    }
    UnmarshalOfMarshalCertificate(m);
    var parsed := UnmarshalCertificateMessage(sent.value);
    var entries := parsed.value.0.entries;
    assert forall i :: 0 <= i < |chain| ==> entries[i + 1] == chain[i];
    var placed := ValidatePlacement(entries);
    if placed.Err? {
      return sent, Err(placed.error);
    }
    assert IsFirst(entries[0].extensions, 0);
    got := ExtractFromExtensions(entries[0].extensions);
  }
}
