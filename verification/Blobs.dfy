/** Transaction blobs: the structured form that names a blob's caller and callees, and the two
    payloads the state contract reads. */
module Blobs {
  import opened Wrappers
  import opened Bytes

  datatype Blob = Blob(contractName: string, data: seq<byte>)

  /** What a contract is called with: all blobs of the transaction, and which of them is its own. */
  datatype Calldata = Calldata(blobs: seq<Blob>, index: nat)

  /** A blob read as structured data; `parameters` are the bytes after the two optional fields. */
  datatype Structured = Structured(caller: Option<nat>, callees: Option<seq<nat>>, parameters: seq<byte>)

  /** The first eight bytes of a notes root. */
  type Fingerprint = s: seq<byte> | |s| == 8 witness Zeros(8)

  const ZERO_FINGERPRINT: Fingerprint := Zeros(8)

  function FingerprintOf(root: H256): Fingerprint {
    root[..8]
  }

  /** The state contract's action carries no information: one zero byte. */
  const STATE_ACTION: seq<byte> := [0]

  function EncodeIndices(indices: seq<nat>): seq<byte> {
    if indices == [] then [] else LittleEndian(indices[0], 8) + EncodeIndices(indices[1..])
  }

  function EncodeCaller(caller: Option<nat>): seq<byte> {
    match caller
    case None => [0]
    case Some(i) => [1] + LittleEndian(i, 8)
  }

  function EncodeCallees(callees: Option<seq<nat>>): seq<byte> {
    match callees
    case None => [0]
    case Some(indices) => [1] + LittleEndian(|indices|, 4) + EncodeIndices(indices)
  }

  function EncodeStructured(s: Structured): seq<byte> {
    EncodeCaller(s.caller) + (EncodeCallees(s.callees) + s.parameters)
  }

  function DecodeIndices(bytes: seq<byte>, count: nat): Option<(seq<nat>, seq<byte>)>
    decreases count
  {
    if count == 0 then Some(([], bytes))
    else if |bytes| < 8 then None
    else
      match DecodeIndices(bytes[8..], count - 1)
      case None => None
      case Some((indices, rest)) => Some(([FromLittleEndian(bytes[..8])] + indices, rest))
  }

  function DecodeCaller(bytes: seq<byte>): Option<(Option<nat>, seq<byte>)> {
    if bytes == [] then None
    else if bytes[0] == 0 then Some((None, bytes[1..]))
    else if bytes[0] == 1 && |bytes| >= 9 then Some((Some(FromLittleEndian(bytes[1..9])), bytes[9..]))
    else None
  }

  function DecodeCallees(bytes: seq<byte>): Option<(Option<seq<nat>>, seq<byte>)> {
    if bytes == [] then None
    else if bytes[0] == 0 then Some((None, bytes[1..]))
    else if bytes[0] == 1 && |bytes| >= 5 then
      match DecodeIndices(bytes[5..], FromLittleEndian(bytes[1..5]))
      case None => None
      case Some((indices, rest)) => Some((Some(indices), rest))
    else None
  }

  function DecodeStructured(bytes: seq<byte>): Option<Structured> {
    match DecodeCaller(bytes)
    case None => None
    case Some((caller, rest)) =>
      match DecodeCallees(rest)
      case None => None
      case Some((callees, parameters)) => Some(Structured(caller, callees, parameters))
  }

  ghost predicate Encodable(s: Structured) {
    && (s.caller.Some? ==> s.caller.value < U64_LIMIT)
    && (s.callees.Some? ==> |s.callees.value| < U32_LIMIT && forall i <- s.callees.value :: i < U64_LIMIT)
  }

  lemma DecodeFirstIndex(first: seq<byte>, rest: seq<byte>, indices: seq<nat>, tail: seq<byte>)
    requires |first| == 8 && DecodeIndices(rest, |indices|) == Some((indices, tail))
    ensures DecodeIndices(first + rest, |indices| + 1) == Some(([FromLittleEndian(first)] + indices, tail))
  {
    ConcatSlices(first, rest);
  }

  lemma {:induction false} IndicesRoundTrip(indices: seq<nat>, tail: seq<byte>)
    requires forall i <- indices :: i < U64_LIMIT
    ensures DecodeIndices(EncodeIndices(indices) + tail, |indices|) == Some((indices, tail))
  {
    if indices == [] {
      assert EncodeIndices(indices) + tail == tail;
    } else {
      var first, rest := LittleEndian(indices[0], 8), EncodeIndices(indices[1..]) + tail;
      assert EncodeIndices(indices) + tail == first + rest;
      assert indices[0] in indices && forall i <- indices[1..] :: i in indices;
      U64RoundTrip(indices[0]);
      IndicesRoundTrip(indices[1..], tail);
      DecodeFirstIndex(first, rest, indices[1..], tail);
      assert [indices[0]] + indices[1..] == indices;
    }
  }

  lemma CallerRoundTrip(caller: Option<nat>, tail: seq<byte>)
    requires caller.Some? ==> caller.value < U64_LIMIT
    ensures DecodeCaller(EncodeCaller(caller) + tail) == Some((caller, tail))
  {
    var bytes := EncodeCaller(caller) + tail;
    match caller
    case None =>
      assert bytes[1..] == tail;
    case Some(i) =>
      assert bytes[1..9] == LittleEndian(i, 8) && bytes[9..] == tail;
      U64RoundTrip(i);
  }

  lemma CalleesDecode(count: seq<byte>, indices: seq<nat>, tail: seq<byte>)
    requires forall i <- indices :: i < U64_LIMIT
    requires |count| == 4 && FromLittleEndian(count) == |indices|
    ensures DecodeCallees([1] + count + EncodeIndices(indices) + tail) == Some((Some(indices), tail))
  {
    var body := EncodeIndices(indices) + tail;
    var bytes := [1] + count + EncodeIndices(indices) + tail;
    assert bytes == ([1] + count) + body;
    ConcatSlices([1] + count, body);
    assert bytes[1..5] == count;
    IndicesRoundTrip(indices, tail);
  }

  lemma CalleesRoundTrip(callees: Option<seq<nat>>, tail: seq<byte>)
    requires callees.Some? ==> |callees.value| < U32_LIMIT && forall i <- callees.value :: i < U64_LIMIT
    ensures DecodeCallees(EncodeCallees(callees) + tail) == Some((callees, tail))
  {
    match callees
    case None =>
      assert (EncodeCallees(callees) + tail)[1..] == tail;
    case Some(indices) =>
      U32Exact(|indices|);
      CalleesDecode(LittleEndian(|indices|, 4), indices, tail);
  }

  lemma StructuredRoundTrip(s: Structured)
    requires Encodable(s)
    ensures DecodeStructured(EncodeStructured(s)) == Some(s)
  {
    CallerRoundTrip(s.caller, EncodeCallees(s.callees) + s.parameters);
    CalleesRoundTrip(s.callees, s.parameters);
  }

  lemma EncodeFirst(first: nat, indices: seq<nat>, rest: seq<byte>)
    ensures EncodeIndices([first] + indices) + rest == LittleEndian(first, 8) + (EncodeIndices(indices) + rest)
  {
    assert ([first] + indices)[1..] == indices;
  }

  lemma EightBytes(bytes: seq<byte>)
    requires |bytes| == 8
    ensures FromLittleEndian(bytes) < U64_LIMIT && LittleEndian(FromLittleEndian(bytes), 8) == bytes
  {
    Reencodes(bytes);
    Limits();
  }

  lemma FourBytesRead(bytes: seq<byte>)
    requires |bytes| == 4
    ensures FromLittleEndian(bytes) < U32_LIMIT && LittleEndian(FromLittleEndian(bytes), 4) == bytes
  {
    Reencodes(bytes);
    Limits();
  }

  lemma {:induction false} IndicesReencode(bytes: seq<byte>, count: nat)
    requires DecodeIndices(bytes, count).Some?
    ensures var (indices, rest) := DecodeIndices(bytes, count).value;
            |indices| == count && (forall i <- indices :: i < U64_LIMIT) && bytes == EncodeIndices(indices) + rest
    decreases count
  {
    if count == 0 {
      assert bytes == [] + bytes;
    } else {
      IndicesReencode(bytes[8..], count - 1);
      var (indices, rest) := DecodeIndices(bytes[8..], count - 1).value;
      EightBytes(bytes[..8]);
      EncodeFirst(FromLittleEndian(bytes[..8]), indices, rest);
      assert bytes == bytes[..8] + bytes[8..];
    }
  }

  lemma CallerReencodes(bytes: seq<byte>)
    requires DecodeCaller(bytes).Some?
    ensures var (caller, rest) := DecodeCaller(bytes).value;
            (caller.Some? ==> caller.value < U64_LIMIT) && bytes == EncodeCaller(caller) + rest
  {
    if bytes[0] == 0 {
      assert bytes == [0] + bytes[1..];
    } else {
      EightBytes(bytes[1..9]);
      assert bytes == [1] + bytes[1..9] + bytes[9..];
    }
  }

  lemma CalleesReencode(bytes: seq<byte>)
    requires DecodeCallees(bytes).Some?
    ensures var (callees, rest) := DecodeCallees(bytes).value;
            && (callees.Some? ==> |callees.value| < U32_LIMIT && forall i <- callees.value :: i < U64_LIMIT)
            && bytes == EncodeCallees(callees) + rest
  {
    if bytes[0] == 0 {
      assert bytes == [0] + bytes[1..];
    } else {
      IndicesReencode(bytes[5..], FromLittleEndian(bytes[1..5]));
      FourBytesRead(bytes[1..5]);
      assert bytes == [1] + bytes[1..5] + bytes[5..];
    }
  }

  /** The bytes that decode to a structured blob are those it encodes to, and no others. */
  lemma StructuredIff(bytes: seq<byte>, s: Structured)
    ensures DecodeStructured(bytes) == Some(s) <==> Encodable(s) && bytes == EncodeStructured(s)
  {
    if Encodable(s) {
      StructuredRoundTrip(s);
    }
    if DecodeStructured(bytes) == Some(s) {
      CallerReencodes(bytes);
      var (caller, rest) := DecodeCaller(bytes).value;
      CalleesReencode(rest);
    }
  }

  lemma SmallNumber(n: byte, count: nat)
    requires count > 0
    ensures LittleEndian(n, count) == [n] + Zeros(count - 1)
  {
    ZeroBytes(count - 1);
  }

  lemma {:induction false} ZeroBytes(count: nat)
    ensures LittleEndian(0, count) == Zeros(count)
  {
    if count > 0 {
      ZeroBytes(count - 1);
    }
  }

  /** On the wire: a tag for the caller and its position in eight bytes, a tag for the callees, their number in four bytes
      and their positions in eight bytes each, least significant first, and then the parameters. */
  lemma StructuredBytes(caller: byte, callee: byte, parameters: seq<byte>)
    ensures EncodeStructured(Structured(Some(caller), None, parameters)) == [1, caller] + Zeros(7) + [0] + parameters
    ensures EncodeStructured(Structured(None, Some([callee]), parameters))
         == [0] + [1, 1, 0, 0, 0] + ([callee] + Zeros(7)) + parameters
  {
    SmallNumber(caller, 8);
    SmallNumber(callee, 8);
    SmallNumber(1, 4);
    assert [callee as nat][1..] == [] && EncodeIndices([callee as nat]) == LittleEndian(callee, 8) + EncodeIndices([]);
    assert [1] + LittleEndian(1, 4) == [1, 1, 0, 0, 0];
  }

  /** A byte vector as structured parameters: a 32-bit length, then exactly that many bytes. */
  function EncodeVec(bytes: seq<byte>): seq<byte> {
    LittleEndian(|bytes|, 4) + bytes
  }

  function DecodeVec(bytes: seq<byte>): Option<seq<byte>> {
    if |bytes| >= 4 && FromLittleEndian(bytes[..4]) == |bytes| - 4 then Some(bytes[4..]) else None
  }

  lemma VecRoundTrip(bytes: seq<byte>)
    requires |bytes| < U32_LIMIT
    ensures DecodeVec(EncodeVec(bytes)) == Some(bytes)
  {
    assert EncodeVec(bytes)[..4] == LittleEndian(|bytes|, 4) && EncodeVec(bytes)[4..] == bytes;
    U32Exact(|bytes|);
  }

  lemma VecIff(bytes: seq<byte>, v: seq<byte>)
    ensures DecodeVec(bytes) == Some(v) <==> |v| < U32_LIMIT && bytes == EncodeVec(v)
  {
    if |v| < U32_LIMIT {
      VecRoundTrip(v);
    }
    if DecodeVec(bytes) == Some(v) {
      FourBytesRead(bytes[..4]);
      assert bytes == bytes[..4] + bytes[4..];
    }
  }

  /** The first blob of a contract. */
  function FindBlob(blobs: seq<Blob>, contractName: string): Option<Blob> {
    if blobs == [] then None
    else if blobs[0].contractName == contractName then Some(blobs[0])
    else FindBlob(blobs[1..], contractName)
  }

  predicate NamesCaller(blob: Blob, caller: nat) {
    var parsed := DecodeStructured(blob.data);
    parsed.Some? && parsed.value.caller == Some(caller)
  }

  /** The positions, from `start` on, of the blobs that name blob `caller` as their caller. */
  function CalleePositions(blobs: seq<Blob>, caller: nat, start: nat): seq<nat>
    requires start <= |blobs|
    decreases |blobs| - start
  {
    if start == |blobs| then []
    else (if NamesCaller(blobs[start], caller) then [start] else []) + CalleePositions(blobs, caller, start + 1)
  }

  /** The blobs that name blob `caller` as their caller, in order. */
  function BlobsNaming(blobs: seq<Blob>, caller: nat): seq<Blob> {
    if blobs == [] then []
    else (if NamesCaller(blobs[0], caller) then [blobs[0]] else []) + BlobsNaming(blobs[1..], caller)
  }

  /** The action blob must parse, and the callees it declares must be exactly the blobs naming it as caller. */
  function ParseCalldata(calldata: Calldata): Result<seq<Blob>, string> {
    if calldata.index >= |calldata.blobs| then Err("blob index out of range")
    else
      var parsed := DecodeStructured(calldata.blobs[calldata.index].data);
      if parsed.None? || |parsed.value.parameters| != 1 then Err("action does not parse")
      else
        var declared := parsed.value.callees.GetOr([]);
        var actual := CalleePositions(calldata.blobs, calldata.index, 0);
        if (set i | i in declared) == (set i | i in actual) then Ok(BlobsNaming(calldata.blobs, calldata.index))
        else Err("Blob callees do not match actual callees")
  }

  datatype UtxoPayload = UtxoPayload(created: seq<H256>, nullified: seq<H256>)

  /** 128 bytes: two created commitments, then two nullifiers. */
  function ParseUtxoBlob(bytes: seq<byte>): (r: Result<UtxoPayload, string>)
    ensures r.Ok? <==> |bytes| == 128
    ensures r.Ok? ==> |r.value.created| == |r.value.nullified| == 2
  {
    if |bytes| != 128 then Err("hyli_utxo blob must be 128 bytes")
    else Ok(UtxoPayload([bytes[..32], bytes[32..64]], [bytes[64..96], bytes[96..]]))
  }

  datatype SmtInclPayload = SmtInclPayload(nullifier0: H256, nullifier1: H256, notesRoot: Fingerprint)

  /** 96 bytes: two nullifiers, then a notes root of which only the fingerprint is read. */
  function ParseSmtInclBlob(bytes: seq<byte>): (r: Result<SmtInclPayload, string>)
    ensures r.Ok? <==> |bytes| == 96
  {
    if |bytes| != 96 then Err("hyli_smt_incl blob must be 96 bytes")
    else Ok(SmtInclPayload(bytes[..32], bytes[32..64], bytes[64..72]))
  }
}
