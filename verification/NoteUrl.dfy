/** The payload of a note link: a version, the key, sometimes the psi, the value without its leading zero
    bytes, and a referral code that takes the rest. */
module NoteUrl {
  import opened Wrappers
  import opened Bytes

  /** The 32 bytes of an element, most significant first. */
  type ElementBytes = s: seq<byte> | |s| == 32 witness Zeros(32)

  datatype Payload = Payload(version: byte, privateKey: ElementBytes, psi: Option<ElementBytes>, value: ElementBytes,
                             referral: seq<byte>)

  datatype Note = Note(kind: ElementBytes, contract: ElementBytes, address: ElementBytes, psi: ElementBytes, value: ElementBytes)

  datatype InputNote = InputNote(note: Note, secretKey: ElementBytes)

  /** The hashes a note is derived with, the constants of its kind, and which bytes are valid UTF-8. */
  datatype Setup = Setup(
    keccak: ElementBytes -> ElementBytes, psiOf: ElementBytes -> ElementBytes, addressOf: ElementBytes -> ElementBytes,
    kind: ElementBytes, contract: ElementBytes, isUtf8: seq<byte> -> bool)

  function LeadingZeros(bytes: seq<byte>): (n: nat)
    ensures n <= |bytes|
    ensures forall i | 0 <= i < n :: bytes[i] == 0
    ensures n < |bytes| ==> bytes[n] != 0
  {
    if bytes == [] || bytes[0] != 0 then 0 else 1 + LeadingZeros(bytes[1..])
  }

  function ValueBytes(value: ElementBytes): seq<byte> {
    var zeros := LeadingZeros(value);
    [zeros] + value[zeros..]
  }

  function Encode(p: Payload): seq<byte> {
    [p.version] + p.privateKey + (if p.version == 0 && p.psi.Some? then p.psi.value else []) + ValueBytes(p.value) + p.referral
  }

  method EncodePayload(p: Payload) returns (bytes: seq<byte>)
    ensures bytes == Encode(p)
  {
    bytes := [];
    bytes := bytes + [p.version];
    bytes := bytes + p.privateKey;
    if p.psi.Some? && p.version == 0 {
      bytes := bytes + p.psi.value;
    }
    var leadingZeros := LeadingZeros(p.value);
    ghost var head := bytes;
    bytes := bytes + [leadingZeros];
    bytes := bytes + p.value[leadingZeros..];
    assert bytes == head + ValueBytes(p.value);
    bytes := bytes + p.referral;
  }

  // Decoding; an error stands for a panic.

  function DecodeReferral(setup: Setup, version: byte, key: ElementBytes, psi: ElementBytes, value: ElementBytes, rest: seq<byte>)
    : Result<Payload, string>
  {
    if !setup.isUtf8(rest) then Err("Invalid UTF-8 in referral code") else Ok(Payload(version, key, Some(psi), value, rest))
  }

  function DecodeValue(rest: seq<byte>): Result<(ElementBytes, seq<byte>), string> {
    if rest == [] then Err("missing value length")
    else if rest[0] > 32 then Err("too many leading zeros")
    else
      var zeros: nat := rest[0];
      if |rest| < 1 + (32 - zeros) then Err("not enough bytes for value")
      else Ok((Zeros(zeros) + rest[1..33 - zeros], rest[33 - zeros..]))
  }

  function DecodePsi(setup: Setup, version: byte, key: ElementBytes, rest: seq<byte>): Result<(ElementBytes, seq<byte>), string> {
    if version == 0 then
      if |rest| < 32 then Err("Not enough bytes for psi") else Ok((rest[..32], rest[32..]))
    else if version == 1 then Ok((setup.keccak(key), rest))
    else if version == 2 then Ok((setup.psiOf(key), rest))
    else Err("unsupported version")
  }

  function Decode(setup: Setup, bytes: seq<byte>): Result<Payload, string> {
    if |bytes| < 33 then Err("Not enough bytes for private_key")
    else
      var version, key := bytes[0], bytes[1..33];
      var (psi, afterPsi) :- DecodePsi(setup, version, key, bytes[33..]);
      var (value, rest) :- DecodeValue(afterPsi);
      DecodeReferral(setup, version, key, psi, value, rest)
  }

  /** Reads field by field, moving along the bytes. */
  method DecodePayload(setup: Setup, bytes: seq<byte>) returns (r: Result<Payload, string>)
    ensures r.Ok? == Decode(setup, bytes).Ok?
    ensures r.Ok? ==> r == Decode(setup, bytes)
  {
    var rest := bytes;
    if rest == [] {
      return Err("missing version");
    }
    var version := rest[0];
    rest := rest[1..];
    if |rest| < 32 {
      return Err("Not enough bytes for private_key");
    }
    var key: ElementBytes := rest[..32];
    rest := rest[32..];
    assert bytes[1..][..32] == bytes[1..33] && bytes[1..][32..] == bytes[33..];
    var psi: ElementBytes;
    if version == 0 {
      if |rest| < 32 {
        return Err("Not enough bytes for psi");
      }
      psi := rest[..32];
      rest := rest[32..];
    } else if version == 1 {
      psi := setup.keccak(key);
    } else if version == 2 {
      psi := setup.psiOf(key);
    } else {
      return Err("unsupported version");
    }
    if rest == [] {
      return Err("missing value length");
    }
    var leadingZeros := rest[0];
    ghost var valuePart := rest;
    rest := rest[1..];
    if leadingZeros > 32 {
      return Err("too many leading zeros");
    }
    var valueLen := 32 - leadingZeros;
    if |rest| < valueLen {
      return Err("not enough bytes for value");
    }
    var valueBytes := Zeros(leadingZeros) + rest[..valueLen];
    rest := rest[valueLen..];
    assert valuePart[1..][..valueLen] == valuePart[1..33 - leadingZeros];
    assert valuePart[1..][valueLen..] == valuePart[33 - leadingZeros..];
    assert DecodeValue(valuePart) == Ok((valueBytes, rest));
    r := DecodeReferral(setup, version, key, psi, valueBytes, rest);
  }

  /** The psi a payload stands for; older versions derive it from the key. */
  function EffectivePsi(setup: Setup, p: Payload): Option<ElementBytes> {
    if p.version == 1 then Some(setup.keccak(p.privateKey))
    else if p.version == 2 then Some(setup.psiOf(p.privateKey))
    else p.psi
  }

  lemma ValueRoundTrip(value: ElementBytes, tail: seq<byte>)
    ensures DecodeValue(ValueBytes(value) + tail) == Ok((value, tail))
  {
    var zeros := LeadingZeros(value);
    var bytes := ValueBytes(value) + tail;
    assert bytes[1..33 - zeros] == value[zeros..] && bytes[33 - zeros..] == tail;
    assert Zeros(zeros) + value[zeros..] == value;
  }

  lemma DecodeEncoded(setup: Setup, p: Payload)
    requires p.version <= 2 && (p.version == 0 ==> p.psi.Some?)
    ensures var bytes := Encode(p);
            && |bytes| >= 33 && bytes[0] == p.version && bytes[1..33] == p.privateKey
            && DecodePsi(setup, p.version, p.privateKey, bytes[33..])
               == Ok((EffectivePsi(setup, p).value, ValueBytes(p.value) + p.referral))
  {
    var bytes := Encode(p);
    var tail := ValueBytes(p.value) + p.referral;
    if p.version == 0 {
      assert bytes == [p.version] + p.privateKey + (p.psi.value + tail);
      assert bytes[33..] == p.psi.value + tail;
      assert bytes[33..][..32] == p.psi.value && bytes[33..][32..] == tail;
    } else {
      assert bytes == [p.version] + p.privateKey + tail;
    }
  }

  /** Round trip: decoding an encoded payload gives it back, with its effective psi made explicit, exactly when the
      version is known, a version 0 payload has a psi and the referral code is valid UTF-8. Key, value and referral are kept for every value, zero
      included, and every referral code. */
  lemma RoundTripIff(setup: Setup, p: Payload)
    ensures Decode(setup, Encode(p)) == Ok(p.(psi := EffectivePsi(setup, p)))
       <==> p.version <= 2 && (p.version == 0 ==> p.psi.Some?) && setup.isUtf8(p.referral)
  {
    if p.version <= 2 && (p.version == 0 ==> p.psi.Some?) {
      DecodeEncoded(setup, p);
      ValueRoundTrip(p.value, p.referral);
    }
  }

  /** Writing a decoded value back gives the bytes it came from exactly when those count its leading zeros right. */
  lemma ValueReencodes(rest: seq<byte>)
    requires DecodeValue(rest).Ok?
    ensures var (value, tail) := DecodeValue(rest).value;
            ValueBytes(value) + tail == rest <==> rest[0] == LeadingZeros(value)
  {
    var (value, tail) := DecodeValue(rest).value;
    var zeros: nat := rest[0];
    assert value[zeros..] == rest[1..33 - zeros];
    assert rest == [rest[0]] + value[zeros..] + tail;
    assert (ValueBytes(value) + tail)[0] == LeadingZeros(value);
  }

  /** Where the count of leading zeros is. */
  function ValueAt(version: byte): nat {
    if version == 0 then 65 else 33
  }

  lemma DecodedParts(setup: Setup, bytes: seq<byte>)
    requires Decode(setup, bytes).Ok?
    ensures var p, at := Decode(setup, bytes).value, ValueAt(bytes[0]);
            && p.version == bytes[0] && |bytes| >= at
            && DecodeValue(bytes[at..]) == Ok((p.value, p.referral))
            && bytes[..at] == [p.version] + p.privateKey + if p.version == 0 then p.psi.value else []
  {
    if bytes[0] == 0 {
      assert bytes[33..][32..] == bytes[65..];
      assert bytes[..65] == [bytes[0]] + bytes[1..33] + bytes[33..][..32];
    } else {
      assert bytes[..33] == [bytes[0]] + bytes[1..33];
    }
  }

  /** The other direction: bytes that decode are what the payload encodes to exactly when the count of leading
      zeros in them is the value's own. */
  lemma ReencodeIff(setup: Setup, bytes: seq<byte>)
    requires Decode(setup, bytes).Ok?
    ensures var p := Decode(setup, bytes).value;
            |bytes| > ValueAt(p.version) &&
            (Encode(p) == bytes <==> bytes[ValueAt(p.version)] == LeadingZeros(p.value))
  {
    var p := Decode(setup, bytes).value;
    var at := ValueAt(p.version);
    DecodedParts(setup, bytes);
    var head, rest, back := bytes[..at], bytes[at..], ValueBytes(p.value) + p.referral;
    ValueReencodes(rest);
    assert bytes == head + rest;
    assert Encode(p) == head + back;
    assert (head + back)[at..] == back && (head + rest)[at..] == rest;
  }

  /** The bytes of a payload: version, key, the psi in version 0, the count of the value's leading zeros, the rest of the
      value, the referral code. */
  lemma EncodedFields(p: Payload)
    requires p.version == 0 ==> p.psi.Some?
    ensures var bytes, at, zeros := Encode(p), ValueAt(p.version), LeadingZeros(p.value);
            && |bytes| == at + 33 - zeros + |p.referral|
            && bytes[0] == p.version && bytes[1..33] == p.privateKey
            && (p.version == 0 ==> bytes[33..65] == p.psi.value)
            && bytes[at] == zeros && bytes[at + 1..at + 33 - zeros] == p.value[zeros..]
            && bytes[at + 33 - zeros..] == p.referral
  {
    var bytes, at, zeros := Encode(p), ValueAt(p.version), LeadingZeros(p.value);
    var head := [p.version] + p.privateKey + if p.version == 0 then p.psi.value else [];
    assert bytes == head + ([zeros] + p.value[zeros..] + p.referral);
  }

  // ---- notes ----

  /** The note a payload stands for; without an explicit psi the current derivation is used. */
  function ToInputNote(setup: Setup, p: Payload): InputNote {
    InputNote(Note(setup.kind, setup.contract, setup.addressOf(p.privateKey), p.psi.GetOr(setup.psiOf(p.privateKey)), p.value),
              p.privateKey)
  }

  function FromInputNote(input: InputNote): Payload {
    Payload(2, input.secretKey, None, input.note.value, [])
  }

  /** A link made from a note leads back to that note exactly when the note is the one derived from its key:
      everything but key and value is dropped from the link. */
  lemma LinkRoundTripIff(setup: Setup, input: InputNote)
    requires setup.isUtf8([])
    ensures var decoded := Decode(setup, Encode(FromInputNote(input)));
            && decoded.Ok?
            && (ToInputNote(setup, decoded.value) == input
                <==> input.note == Note(setup.kind, setup.contract, setup.addressOf(input.secretKey),
                                        setup.psiOf(input.secretKey), input.note.value))
  {
    RoundTripIff(setup, FromInputNote(input));
  }

  /** Sending a version 1 payload without psi through a link changes the note it stands for, unless the two
      derivations agree on its key. */
  lemma LinkKeepsNoteIff(setup: Setup, p: Payload)
    requires setup.isUtf8(p.referral) && p.version <= 2 && (p.version == 0 ==> p.psi.Some?)
    ensures var decoded := Decode(setup, Encode(p));
            && decoded.Ok?
            && (ToInputNote(setup, decoded.value) == ToInputNote(setup, p)
                <==> EffectivePsi(setup, p) == Some(p.psi.GetOr(setup.psiOf(p.privateKey))))
  {
    RoundTripIff(setup, p);
  }
}
