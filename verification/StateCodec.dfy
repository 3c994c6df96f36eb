/** The executor is cloned by storing its state and reading it back. */
module StateCodec {
  import opened Wrappers
  import opened Bytes
  import opened SparseMerkle
  import opened SmtCodec
  import opened Blobs
  import opened UtxoState

  function EncodeRoots(roots: seq<Fingerprint>): seq<byte> {
    if roots == [] then [] else roots[0] + EncodeRoots(roots[1..])
  }

  function DecodeRoots(bytes: seq<byte>, count: nat): Option<(seq<Fingerprint>, seq<byte>)>
    decreases count
  {
    if count == 0 then Some(([], bytes))
    else if |bytes| < 8 then None
    else
      match DecodeRoots(bytes[8..], count - 1)
      case None => None
      case Some((roots, rest)) => Some(([bytes[..8]] + roots, rest))
  }

  /** Both trees, each in whatever order its leaves are enumerated, then the root window. */
  function EncodeState(merge: Merge, ledger: Ledger, notesOrder: seq<H256>, nullifiedOrder: seq<H256>): seq<byte>
    requires Enumerates(notesOrder, ledger.notes) && Enumerates(nullifiedOrder, ledger.nullified)
  {
    Encode(Root(merge, ledger.notes), ledger.notes, notesOrder)
    + (Encode(Root(merge, ledger.nullified), ledger.nullified, nullifiedOrder)
       + (LittleEndian(|ledger.roots|, 4) + EncodeRoots(ledger.roots)))
  }

  /** All bytes must be used up. */
  function DecodeState(merge: Merge, bytes: seq<byte>): Option<Ledger> {
    match Decode(merge, bytes)
    case None => None
    case Some((notes, rest)) =>
      match Decode(merge, rest)
      case None => None
      case Some((nullified, tail)) =>
        match DecodeWindow(tail)
        case None => None
        case Some(roots) => Some(Ledger(notes, nullified, roots))
  }

  function DecodeWindow(bytes: seq<byte>): Option<seq<Fingerprint>> {
    if |bytes| < 4 then None
    else
      match DecodeRoots(bytes[4..], FromLittleEndian(bytes[..4]))
      case None => None
      case Some((roots, rest)) => if rest == [] then Some(roots) else None
  }

  lemma {:induction false} RootsRoundTrip(roots: seq<Fingerprint>, extra: seq<byte>)
    ensures DecodeRoots(EncodeRoots(roots) + extra, |roots|) == Some((roots, extra))
  {
    if roots == [] {
      assert EncodeRoots(roots) + extra == extra;
    } else {
      var bytes, rest := EncodeRoots(roots) + extra, EncodeRoots(roots[1..]) + extra;
      assert bytes[..8] == roots[0] && bytes[8..] == rest;
      RootsRoundTrip(roots[1..], extra);
      assert [roots[0]] + roots[1..] == roots;
    }
  }

  lemma WindowDecodes(count: seq<byte>, roots: seq<Fingerprint>, extra: seq<byte>)
    requires |count| == 4 && FromLittleEndian(count) == |roots|
    ensures DecodeWindow(count + (EncodeRoots(roots) + extra)) == if extra == [] then Some(roots) else None
  {
    ConcatSlices(count, EncodeRoots(roots) + extra);
    RootsRoundTrip(roots, extra);
  }

  lemma WindowRoundTrip(roots: seq<Fingerprint>)
    requires |roots| < U32_LIMIT
    ensures DecodeWindow(LittleEndian(|roots|, 4) + EncodeRoots(roots)) == Some(roots)
  {
    U32Exact(|roots|);
    WindowDecodes(LittleEndian(|roots|, 4), roots, []);
    assert EncodeRoots(roots) + [] == EncodeRoots(roots);
  }

  /** The notes tree comes first, then the tree of nullifiers, then the number of roots. */
  lemma StateBytes(merge: Merge, ledger: Ledger, notesOrder: seq<H256>, nullifiedOrder: seq<H256>)
    requires Enumerates(notesOrder, ledger.notes) && Enumerates(nullifiedOrder, ledger.nullified)
    ensures var bytes := EncodeState(merge, ledger, notesOrder, nullifiedOrder);
            var notes := Encode(Root(merge, ledger.notes), ledger.notes, notesOrder);
            var nullified := Encode(Root(merge, ledger.nullified), ledger.nullified, nullifiedOrder);
            && notes <= bytes && nullified <= bytes[|notes|..]
            && LittleEndian(|ledger.roots|, 4) <= bytes[|notes| + |nullified|..]
  {
    var notes := Encode(Root(merge, ledger.notes), ledger.notes, notesOrder);
    var nullified := Encode(Root(merge, ledger.nullified), ledger.nullified, nullifiedOrder);
    var window := LittleEndian(|ledger.roots|, 4) + EncodeRoots(ledger.roots);
    var bytes := EncodeState(merge, ledger, notesOrder, nullifiedOrder);
    assert bytes == notes + (nullified + window);
    assert bytes[|notes|..] == nullified + window;
    assert bytes[|notes| + |nullified|..] == window;
  }

  /** A clone is the same state, in whatever order the trees were enumerated, exactly when both trees have
      fewer than 2^32 leaves. */
  lemma CloneRoundTrip(merge: Merge, ledger: Ledger, notesOrder: seq<H256>, nullifiedOrder: seq<H256>)
    requires WellFormed(ledger)
    requires Enumerates(notesOrder, ledger.notes) && Enumerates(nullifiedOrder, ledger.nullified)
    ensures DecodeState(merge, EncodeState(merge, ledger, notesOrder, nullifiedOrder)) == Some(ledger)
       <==> |ledger.notes| < U32_LIMIT && |ledger.nullified| < U32_LIMIT
  {
    var window := LittleEndian(|ledger.roots|, 4) + EncodeRoots(ledger.roots);
    var second := Encode(Root(merge, ledger.nullified), ledger.nullified, nullifiedOrder) + window;
    WindowRoundTrip(ledger.roots);
    if |ledger.notes| >= U32_LIMIT {
      TooManyLeaves(merge, ledger.notes, notesOrder, second);
    } else {
      RoundTrip(merge, ledger.notes, notesOrder, second);
      if |ledger.nullified| >= U32_LIMIT {
        TooManyLeaves(merge, ledger.nullified, nullifiedOrder, window);
      } else {
        RoundTrip(merge, ledger.nullified, nullifiedOrder, window);
      }
    }
  }

  lemma TreesDecode(merge: Merge, ledger: Ledger, notesOrder: seq<H256>, nullifiedOrder: seq<H256>, window: seq<byte>)
    requires WellFormed(ledger) && |ledger.notes| < U32_LIMIT && |ledger.nullified| < U32_LIMIT
    requires Enumerates(notesOrder, ledger.notes) && Enumerates(nullifiedOrder, ledger.nullified)
    ensures var roots := DecodeWindow(window);
            DecodeState(merge, Encode(Root(merge, ledger.notes), ledger.notes, notesOrder)
                               + (Encode(Root(merge, ledger.nullified), ledger.nullified, nullifiedOrder) + window))
            == if roots.Some? then Some(ledger.(roots := roots.value)) else None
  {
    RoundTrip(merge, ledger.notes, notesOrder, Encode(Root(merge, ledger.nullified), ledger.nullified, nullifiedOrder) + window);
    RoundTrip(merge, ledger.nullified, nullifiedOrder, window);
  }

  /** Bytes beyond the stored state are an error. */
  lemma TrailingBytesRejected(merge: Merge, ledger: Ledger, notesOrder: seq<H256>, nullifiedOrder: seq<H256>, extra: seq<byte>)
    requires WellFormed(ledger) && |ledger.notes| < U32_LIMIT && |ledger.nullified| < U32_LIMIT
    requires Enumerates(notesOrder, ledger.notes) && Enumerates(nullifiedOrder, ledger.nullified)
    ensures DecodeState(merge, EncodeState(merge, ledger, notesOrder, nullifiedOrder) + extra)
         == if extra == [] then Some(ledger) else None
  {
    var notes := Encode(Root(merge, ledger.notes), ledger.notes, notesOrder);
    var nullified := Encode(Root(merge, ledger.nullified), ledger.nullified, nullifiedOrder);
    var window := LittleEndian(|ledger.roots|, 4) + (EncodeRoots(ledger.roots) + extra);
    U32Exact(|ledger.roots|);
    WindowDecodes(LittleEndian(|ledger.roots|, 4), ledger.roots, extra);
    TreesDecode(merge, ledger, notesOrder, nullifiedOrder, window);
    Appended(notes, nullified, LittleEndian(|ledger.roots|, 4), EncodeRoots(ledger.roots), extra);
  }

  lemma Appended(a: seq<byte>, b: seq<byte>, c: seq<byte>, d: seq<byte>, extra: seq<byte>)
    ensures (a + (b + (c + d))) + extra == a + (b + (c + (d + extra)))
  {
  }
}
