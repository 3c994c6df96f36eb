/** Which notes roots a transaction may refer to: the window over whole runs. */
module RootWindow {
  import opened SparseMerkle
  import opened Blobs
  import opened UtxoState
  import opened ZkVm
  import opened Executor

  /** The fingerprints recorded by the successful calls of a run, newest first. */
  function Recorded(merge: Merge, config: ContractConfig, ledger: Ledger, txs: seq<Calldata>): seq<Fingerprint>
    decreases |txs|
  {
    if txs == [] then []
    else
      var (after, result) := Handle(merge, config, ledger, txs[0]);
      Recorded(merge, config, after, txs[1..])
      + if result.Applied? then [FingerprintOf(Root(merge, after.notes))] else []
  }

  function Newest(s: seq<Fingerprint>): seq<Fingerprint> {
    if |s| <= MAX_ROOTS then s else s[..MAX_ROOTS]
  }

  lemma NewestOfNewest(a: seq<Fingerprint>, b: seq<Fingerprint>)
    ensures Newest(a + Newest(b)) == Newest(a + b)
  {
  }

  lemma HandleRoots(merge: Merge, config: ContractConfig, ledger: Ledger, tx: Calldata)
    requires |ledger.roots| <= MAX_ROOTS
    ensures var (after, result) := Handle(merge, config, ledger, tx);
            after.roots == if result.Applied? then Newest([FingerprintOf(Root(merge, after.notes))] + ledger.roots)
                           else ledger.roots
  {
    var payload := PayloadOf(config, tx);
    if payload.Ok? {
      ApplyRoots(merge, ledger, payload.value);
    }
  }

  lemma ApplyRoots(merge: Merge, ledger: Ledger, payload: UtxoPayload)
    requires |ledger.roots| <= MAX_ROOTS
    ensures var (after, ok) := ApplyCommitments(merge, ledger, payload);
            after.roots == if ok then Newest([FingerprintOf(Root(merge, after.notes))] + ledger.roots) else ledger.roots
  {
  }

  /** After any run the window holds the newest recorded fingerprints, at most a thousand, newest first;
      failed calls leave no trace in it. */
  lemma {:induction false} RootsAfterRun(merge: Merge, config: ContractConfig, ledger: Ledger, txs: seq<Calldata>)
    requires |ledger.roots| <= MAX_ROOTS
    ensures Run(merge, config, ledger, txs).roots == Newest(Recorded(merge, config, ledger, txs) + ledger.roots)
    decreases |txs|
  {
    if txs != [] {
      var (after, result) := Handle(merge, config, ledger, txs[0]);
      HandleRoots(merge, config, ledger, txs[0]);
      RootsAfterRun(merge, config, after, txs[1..]);
      var later := Recorded(merge, config, after, txs[1..]);
      if result.Applied? {
        var first := [FingerprintOf(Root(merge, after.notes))];
        NewestOfNewest(later, first + ledger.roots);
        assert later + (first + ledger.roots) == later + first + ledger.roots;
      }
    }
  }

  /** The array handed to the zkVM accepts the recorded window and, until it is full, also the zero fingerprint. */
  lemma AcceptedIff(roots: seq<Fingerprint>, f: Fingerprint)
    requires |roots| <= MAX_ROOTS
    ensures f in Resized(roots) <==> f in roots || (f == ZERO_FINGERPRINT && |roots| < MAX_ROOTS)
  {
    var padding := ZeroFingerprints(MAX_ROOTS - |roots|);
    assert Resized(roots) == roots + padding;
    if |roots| < MAX_ROOTS {
      assert padding[0] in padding;
    }
  }

  /** A root recorded by a successful call stays accepted through the next 999 successful calls. After that it
      is accepted only as long as one of the last thousand calls recorded the same fingerprint again. */
  lemma RootStaysAccepted(merge: Merge, config: ContractConfig, ledger: Ledger, tx: Calldata, later: seq<Calldata>)
    requires |ledger.roots| <= MAX_ROOTS
    requires Handle(merge, config, ledger, tx).1.Applied?
    ensures var after := Handle(merge, config, ledger, tx).0;
            var f, recorded := FingerprintOf(Root(merge, after.notes)), Recorded(merge, config, after, later);
            f in Resized(Run(merge, config, after, later).roots) <==> |recorded| < MAX_ROOTS || f in recorded[..MAX_ROOTS]
  {
    var after := Handle(merge, config, ledger, tx).0;
    var f, recorded := FingerprintOf(Root(merge, after.notes)), Recorded(merge, config, after, later);
    HandleRoots(merge, config, ledger, tx);
    RootsAfterRun(merge, config, after, later);
    var roots := Run(merge, config, after, later).roots;
    AcceptedIff(roots, f);
    assert after.roots[0] == f;
    if |recorded| < MAX_ROOTS {
      assert roots[|recorded|] == f;
    } else {
      assert roots == recorded[..MAX_ROOTS];
    }
  }
}
