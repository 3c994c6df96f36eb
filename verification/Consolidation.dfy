/** Transfers against the stored notes, and merging notes until two of them cover an amount. */
module Consolidation {
  import opened Wrappers
  import opened Sequences
  import opened NoteSelection
  import opened Selection
  import opened Wallet

  /** Everything outside the wallet that one transfer depends on: the clock when its notes are marked and cleared and
      when the wallet is read again, whether proving and submitting go through, and the random psis of its outputs. */
  datatype Attempt = Attempt(markedAt: int, clearedAt: int, reloadedAt: int, succeeds: bool, notePsi: string, changePsi: string)

  function Psis(inputs: seq<Input>): (psis: seq<string>)
    ensures |psis| == |inputs|
    ensures forall i | 0 <= i < |inputs| :: psis[i] == inputs[i].psi
  {
    seq(|inputs|, i requires 0 <= i < |inputs| => inputs[i].psi)
  }

  /** A transfer's note; an amount below zero prints as a note without value. */
  function TransferNote(attempt: Attempt, amount: int, recipient: string): StoredNote {
    StoredNote(attempt.notePsi, if amount > 0 then amount else 0, recipient, false)
  }

  /** What spending a selection makes of the stored notes and of the pending records. */
  ghost predicate Spent(notes: seq<StoredNote>, pending: seq<PendingTransfer>, s: Selected, attempt: Attempt, owner: string,
                        after: seq<StoredNote>, later: seq<PendingTransfer>) {
    && after == (if attempt.succeeds then Settle(notes, PsiSet(s.Inputs()), s.change, attempt.changePsi, owner) else notes)
    && later == Cleared(Marked(pending, Psis(s.Inputs()), attempt.markedAt), Psis(s.Inputs()), attempt.clearedAt)
  }

  /** The stored notes after merging: the merged note comes first. */
  function Merged(notes: seq<StoredNote>, a: Input, b: Input, notePsi: string, owner: string): seq<StoredNote> {
    [StoredNote(notePsi, a.value + b.value, owner, false)] + RemoveSpent(notes, {a.psi, b.psi})
  }

  /** No transfer is under way for any stored note. */
  ghost predicate Idle(notes: seq<StoredNote>, pending: seq<PendingTransfer>) {
    forall p <- pending, n <- notes :: n.psi !in p.psis
  }

  ghost predicate IsNew(psi: string, notes: seq<StoredNote>, pending: seq<PendingTransfer>) {
    psi != "" && psi != MissingPsi() && (forall n <- notes :: n.psi != psi) && (forall p <- pending :: psi !in p.psis)
  }

  /** From attempt `k` on, the random psis are new and differ from one another. */
  ghost predicate FreshFrom(env: nat -> Attempt, k: nat, notes: seq<StoredNote>, pending: seq<PendingTransfer>) {
    && (forall i: nat | i >= k :: IsNew(env(i).notePsi, notes, pending) && IsNew(env(i).changePsi, notes, pending))
    && (forall i: nat, j: nat | k <= i && k <= j :: env(i).notePsi != env(j).changePsi)
    && (forall i: nat, j: nat | k <= i < j :: env(i).notePsi != env(j).notePsi)
  }

  /** How a wallet starts a transfer: unique psis, nothing under way, all its spendable notes on offer. */
  ghost predicate Ready(notes: seq<StoredNote>, pending: seq<PendingTransfer>, owner: string, available: seq<Input>,
                        env: nat -> Attempt, k: nat) {
    && UniquePsis(notes) && Idle(notes, pending)
    && available == Spendable(notes, {}, owner)
    && FreshFrom(env, k, notes, pending)
  }

  /** Every note that can be spent is stored with a psi. */
  predicate CarriesPsis(notes: seq<StoredNote>, owner: string) {
    forall n <- notes | IsSpendable(n, {}, owner) :: n.psi != ""
  }

  ghost predicate Settled(notes: seq<StoredNote>, pending: seq<PendingTransfer>, owner: string, available: seq<Input>,
                          env: nat -> Attempt, k: nat) {
    Ready(notes, pending, owner, available, env, k) && CarriesPsis(notes, owner)
  }

  lemma OfferedIsCarried(notes: seq<StoredNote>, pendingPsis: set<string>, owner: string, x: Input)
    requires UniquePsis(notes) && CarriesPsis(notes, owner) && x in Spendable(notes, pendingPsis, owner)
    ensures !Misses(notes, {x.psi})
  {
    SpendableIff(notes, pendingPsis, owner, x);
    var n :| n in notes && IsSpendable(n, pendingPsis, owner) && AsInput(n) == x;
    assert IsSpendable(n, {}, owner);
    NotMissed(notes, n);
  }

  lemma NoneMissed(notes: seq<StoredNote>, pendingPsis: set<string>, owner: string, inputs: seq<Input>)
    requires UniquePsis(notes) && CarriesPsis(notes, owner)
    requires forall x <- inputs :: x in Spendable(notes, pendingPsis, owner)
    ensures !Misses(notes, PsiSet(inputs))
  {
    forall x <- inputs
      ensures !Misses(notes, {x.psi})
    {
      OfferedIsCarried(notes, pendingPsis, owner, x);
    }
  }

  lemma NeitherMissed(notes: seq<StoredNote>, pendingPsis: set<string>, owner: string, a: Input, b: Input)
    requires UniquePsis(notes) && CarriesPsis(notes, owner)
    requires multiset([a, b]) <= multiset(Spendable(notes, pendingPsis, owner))
    ensures !Misses(notes, {a.psi, b.psi})
  {
    BothIn(Spendable(notes, pendingPsis, owner), a, b);
    OfferedIsCarried(notes, pendingPsis, owner, a);
    OfferedIsCarried(notes, pendingPsis, owner, b);
    MissesOneOf(notes, a, b);
  }

  lemma {:induction false} IdleSpendable(notes: seq<StoredNote>, pending: seq<PendingTransfer>, owner: string, now: int)
    requires Idle(notes, pending)
    ensures Spendable(notes, PendingPsis(pending, now), owner) == Spendable(notes, {}, owner)
  {
    if notes != [] {
      assert notes[0] in notes && forall n <- notes[1..] :: n in notes;
      IdleSpendable(notes[1..], pending, owner, now);
    }
  }

  /** Only the two notes themselves can pay for a transfer of all they hold. */
  lemma WholePairSelected(a: Input, b: Input, selection: Option<Selected>)
    requires a.value > 0 && b.value > 0
    requires IsSelection(Positive([a, b]), a.value + b.value, selection)
    ensures selection.Some? && selection.value.change == 0
    ensures PsiSet(selection.value.Inputs()) == {a.psi, b.psi}
  {
    PairIsEnough(a, b);
    var s := selection.value;
    if s.second.None? {
      OneOfTwo(a, b, s);
    } else {
      BothSelected(a, b, s);
    }
  }

  lemma BothSpent(a: Input, b: Input, inputs: seq<Input>, amount: int, selection: Option<Selected>) returns (s: Selected)
    requires a.value > 0 && b.value > 0 && inputs == [a, b] && amount == a.value + b.value
    requires IsSelection(Positive(inputs), amount, selection)
    ensures selection == Some(s) && s.change == 0 && PsiSet(s.Inputs()) == {a.psi, b.psi}
  {
    WholePairSelected(a, b, selection);
    s := selection.value;
  }

  lemma PairIsEnough(a: Input, b: Input)
    requires a.value > 0 && b.value > 0
    ensures Positive([a, b]) == [a, b] && BestSum(Values([a, b]), 2) == a.value + b.value
  {
    assert [a, b][1..] == [b] && [b][1..] == [];
    BestSumOfAll(Values([a, b]), 2);
    SumOfPair(a, b);
  }

  lemma OneOfTwo(a: Input, b: Input, s: Selected)
    requires s.second.None? && multiset(s.Inputs()) <= multiset([a, b]) && s.total == Sum(Values(s.Inputs()))
    ensures s.total == a.value || s.total == b.value
  {
    assert s.Inputs() == [s.first] && s.first in multiset(s.Inputs());
    assert s.first in [a, b];
    PsisOfOne(s.first);
  }

  lemma BothSelected(a: Input, b: Input, s: Selected)
    requires s.second.Some? && multiset(s.Inputs()) <= multiset([a, b]) && s.total == Sum(Values(s.Inputs()))
    ensures s.total == a.value + b.value && PsiSet(s.Inputs()) == {a.psi, b.psi}
  {
    InputsOfTwo(s);
    SameSums(s.first, s.second.value, a, b);
    PsisOfTwo(s.first, s.second.value);
  }

  lemma InputsOfTwo(s: Selected)
    requires s.second.Some?
    ensures s.Inputs() == [s.first, s.second.value]
  {
  }

  lemma SameSums(x: Input, y: Input, a: Input, b: Input)
    requires multiset([x, y]) <= multiset([a, b])
    ensures x.value + y.value == a.value + b.value && {x.psi, y.psi} == {a.psi, b.psi}
  {
    SameTwo(x, y, a, b);
  }

  lemma SameTwo(x: Input, y: Input, a: Input, b: Input)
    requires multiset([x, y]) <= multiset([a, b])
    ensures (x == a && y == b) || (x == b && y == a)
  {
    var i, j := TwoPositions([a, b], x, y);
  }

  /** One note fewer, the same total, and `m` notes now reach exactly what `m + 1` reached before. */
  ghost predicate OneFewer(before: seq<nat>, after: seq<nat>) {
    && |after| + 1 == |before| && Sum(after) == Sum(before)
    && forall m: nat {:trigger BestSum(after, m)} | m > 0 :: BestSum(after, m) == BestSum(before, m + 1)
  }

  lemma LargestPairMerged(before: seq<nat>, a: nat, b: nat, rest: seq<nat>, after: seq<nat>)
    requires multiset(before) == multiset([a, b] + rest) && after == [a + b] + rest
    requires forall v <- rest :: v <= a && v <= b
    ensures OneFewer(before, after)
  {
    assert |before| == |multiset(before)| == |[a, b] + rest|;
    SumPermutes(before, [a, b] + rest);
    SumOfMerged(a, b, rest);
    forall m: nat {:trigger BestSum(after, m)} | m > 0
      ensures BestSum(after, m) == BestSum(before, m + 1)
    {
      MergedPairGainsOne(a, b, rest, m);
      BestSumPermutes(before, [a, b] + rest, m + 1);
    }
  }

  lemma ValuesOfPairFirst(a: Input, b: Input, others: seq<Input>)
    ensures Values([a] + ([b] + others)) == [a.value, b.value] + Values(others)
  {
    ValuesCons(a, [b] + others);
    ValuesCons(b, others);
    PairInFront(a.value, b.value, Values(others));
  }

  lemma PairFirst(before: seq<Input>, a: Input, b: Input, others: seq<Input>)
    requires multiset(before) == multiset{a} + (multiset{b} + multiset(others))
    ensures multiset(Values(before)) == multiset([a.value, b.value] + Values(others))
  {
    assert multiset([a] + ([b] + others)) == multiset(before);
    ValuesPermute(before, [a] + ([b] + others));
    ValuesOfPairFirst(a, b, others);
  }

  lemma PairAsMultiset(a: Input, b: Input)
    ensures multiset([a, b]) == multiset{a} + multiset{b}
  {
  }

  lemma Leftover(all: multiset<Input>, pair: multiset<Input>, others: multiset<Input>, a: multiset<Input>, b: multiset<Input>)
    requires all == a + (b + others) && pair == a + b
    ensures all - pair == others
  {
  }

  lemma OthersAreSmaller(before: seq<Input>, a: Input, b: Input, others: seq<Input>)
    requires multiset(before) == multiset{a} + (multiset{b} + multiset(others))
    requires IsLargestPair(before, a, b)
    ensures forall v <- Values(others) :: v <= a.value && v <= b.value
  {
    PairAsMultiset(a, b);
    Leftover(multiset(before), multiset([a, b]), multiset(others), multiset{a}, multiset{b});
    forall v <- Values(others)
      ensures v <= a.value && v <= b.value
    {
      var k :| 0 <= k < |others| && Values(others)[k] == v;
      assert others[k] in multiset(others);
    }
  }

  /** What merging the two largest spendable notes does to the wallet. */
  lemma MergeStep(notes: seq<StoredNote>, pending: seq<PendingTransfer>, owner: string, a: Input, b: Input, notePsi: string)
    requires UniquePsis(notes) && IsNew(notePsi, notes, pending) && !Misses(notes, {a.psi, b.psi})
    requires IsLargestPair(Spendable(notes, {}, owner), a, b)
    requires a.value > 0
    ensures var merged := Merged(notes, a, b, notePsi, owner);
            && Total(merged) == Total(notes)
            && OneFewer(Values(Spendable(notes, {}, owner)), Values(Spendable(merged, {}, owner)))
  {
    var kept, merged := RemoveSpent(notes, {a.psi, b.psi}), Merged(notes, a, b, notePsi, owner);
    RemoveLargestPair(notes, owner, a, b);
    PrependMerged(notes, a, b, notePsi, owner);
    LargestInputsMerged(Values(Spendable(notes, {}, owner)), Values(Spendable(kept, {}, owner)),
                        Values(Spendable(merged, {}, owner)), a, b);
  }

  /** A merge keeps the stored total exactly when neither note lacks a psi; otherwise the wallet counts it twice. */
  lemma MergeConservesIff(notes: seq<StoredNote>, pending: seq<PendingTransfer>, pendingPsis: set<string>, owner: string,
                          a: Input, b: Input, notePsi: string)
    requires UniquePsis(notes) && IsNew(notePsi, notes, pending)
    requires multiset([a, b]) <= multiset(Spendable(notes, pendingPsis, owner))
    ensures Total(Merged(notes, a, b, notePsi, owner)) == Total(notes) <==> !Misses(notes, {a.psi, b.psi})
    ensures Total(Merged(notes, a, b, notePsi, owner)) >= Total(notes)
  {
    RemovePairTotals(notes, pendingPsis, owner, a, b);
    MissesOneOf(notes, a, b);
    PrependMerged(notes, a, b, notePsi, owner);
  }

  lemma LargestInputsMerged(before: seq<nat>, rest: seq<nat>, after: seq<nat>, a: Input, b: Input)
    requires multiset(before) == multiset([a.value, b.value] + rest) && after == [a.value + b.value] + rest
    requires forall v <- rest :: v <= a.value && v <= b.value
    ensures OneFewer(before, after)
  {
    LargestPairMerged(before, a.value, b.value, rest, after);
  }

  lemma RemoveLargestPair(notes: seq<StoredNote>, owner: string, a: Input, b: Input)
    requires UniquePsis(notes) && IsLargestPair(Spendable(notes, {}, owner), a, b) && !Misses(notes, {a.psi, b.psi})
    ensures var kept := RemoveSpent(notes, {a.psi, b.psi});
            var rest := Values(Spendable(kept, {}, owner));
            && Total(kept) == Total(notes) - a.value - b.value
            && multiset(Values(Spendable(notes, {}, owner))) == multiset([a.value, b.value] + rest)
            && forall v <- rest :: v <= a.value && v <= b.value
  {
    var before, others := Spendable(notes, {}, owner), Spendable(RemoveSpent(notes, {a.psi, b.psi}), {}, owner);
    RemovePair(notes, {}, owner, a, b);
    PairFirst(before, a, b, others);
    OthersAreSmaller(before, a, b, others);
  }

  lemma PrependMerged(notes: seq<StoredNote>, a: Input, b: Input, notePsi: string, owner: string)
    requires notePsi != "" && a.value > 0
    ensures var kept, merged := RemoveSpent(notes, {a.psi, b.psi}), Merged(notes, a, b, notePsi, owner);
            && Total(merged) == a.value + b.value + Total(kept)
            && Spendable(merged, {}, owner) == [Input(notePsi, a.value + b.value)] + Spendable(kept, {}, owner)
            && Values(Spendable(merged, {}, owner)) == [a.value + b.value] + Values(Spendable(kept, {}, owner))
  {
    PrependNew(StoredNote(notePsi, a.value + b.value, owner, false), RemoveSpent(notes, {a.psi, b.psi}), owner);
  }

  lemma PrependNew(note: StoredNote, kept: seq<StoredNote>, owner: string)
    requires IsSpendable(note, {}, owner) && note.psi != ""
    ensures Total([note] + kept) == note.value + Total(kept)
    ensures Spendable([note] + kept, {}, owner) == [Input(note.psi, note.value)] + Spendable(kept, {}, owner)
    ensures Values(Spendable([note] + kept, {}, owner)) == [note.value] + Values(Spendable(kept, {}, owner))
  {
    SpendableCons(note, kept, {}, owner);
    assert ([note] + kept)[1..] == kept;
    ValuesCons(Input(note.psi, note.value), Spendable(kept, {}, owner));
  }

  lemma ValuesCons(first: Input, rest: seq<Input>)
    ensures Values([first] + rest) == [first.value] + Values(rest)
  {
  }

  lemma MergedKeepsUnique(notes: seq<StoredNote>, pending: seq<PendingTransfer>, a: Input, b: Input, notePsi: string, owner: string)
    requires UniquePsis(notes) && IsNew(notePsi, notes, pending)
    ensures UniquePsis(Merged(notes, a, b, notePsi, owner))
  {
    RemainingNotes(notes, {a.psi, b.psi});
    RemoveKeepsUnique(notes, {a.psi, b.psi});
    NewNoteKeepsUnique(StoredNote(notePsi, a.value + b.value, owner, false), RemoveSpent(notes, {a.psi, b.psi}));
  }

  lemma NewNoteKeepsUnique(note: StoredNote, kept: seq<StoredNote>)
    requires UniquePsis(kept) && note.psi != "" && note.psi != MissingPsi()
    requires forall n <- kept :: n.psi != note.psi
    ensures UniquePsis([note] + kept)
  {
    var all := [note] + kept;
    forall i, j | 0 <= i < |all| && 0 <= j < |all| && i != j
      ensures all[i].psi != PsiOf(all[j])
    {
      assert i > 0 ==> all[i] == kept[i - 1] && kept[i - 1] in kept;
      assert j > 0 ==> all[j] == kept[j - 1] && kept[j - 1] in kept;
    }
  }

  /** Pending records left after marking and clearing the same notes: only older ones. */
  lemma MarkThenClear(pending: seq<PendingTransfer>, psis: seq<string>, markedAt: int, clearedAt: int)
    requires psis != []
    ensures forall p <- Cleared(Marked(pending, psis, markedAt), psis, clearedAt) :: p in pending
  {
    assert psis[0] in psis && Touches(PendingTransfer(psis, markedAt), psis);
  }

  /** What a transfer of two notes to oneself leaves behind: the sent note joins the remaining ones. */
  lemma PairTransferred(notes: seq<StoredNote>, pending: seq<PendingTransfer>, a: Input, b: Input, attempt: Attempt,
                        owner: string, s: Selected, note: StoredNote, after: seq<StoredNote>, later: seq<PendingTransfer>)
    requires a.value > 0 && b.value > 0 && attempt.succeeds
    requires s.change == 0 && PsiSet(s.Inputs()) == {a.psi, b.psi}
    requires note == TransferNote(attempt, a.value + b.value, owner)
    requires Spent(notes, pending, s, attempt, owner, after, later)
    ensures [note] + after == Merged(notes, a, b, attempt.notePsi, owner)
  {
  }

  lemma OnlyOlderPending(notes: seq<StoredNote>, pending: seq<PendingTransfer>, s: Selected, attempt: Attempt, owner: string,
                         after: seq<StoredNote>, later: seq<PendingTransfer>)
    requires Spent(notes, pending, s, attempt, owner, after, later)
    ensures forall p <- later :: p in pending
  {
    MarkThenClear(pending, Psis(s.Inputs()), attempt.markedAt, attempt.clearedAt);
  }

  /** The psis to come are still new once one of them is used. */
  lemma StillFresh(notes: seq<StoredNote>, pending: seq<PendingTransfer>, owner: string, env: nat -> Attempt, k: nat, next: nat,
                   a: Input, b: Input, later: seq<PendingTransfer>)
    requires FreshFrom(env, k, notes, pending) && next == k + 1 && forall p <- later :: p in pending
    ensures FreshFrom(env, next, Merged(notes, a, b, env(k).notePsi, owner), later)
  {
    var merged := Merged(notes, a, b, env(k).notePsi, owner);
    RemainingNotes(notes, {a.psi, b.psi});
    assert forall m :: m in merged ==> m.psi == env(k).notePsi || m in notes;
    forall i: nat | i >= next
      ensures IsNew(env(i).notePsi, merged, later) && IsNew(env(i).changePsi, merged, later)
    {
      assert IsNew(env(i).notePsi, notes, pending) && IsNew(env(i).changePsi, notes, pending);
    }
  }

  lemma MergedIsIdle(notes: seq<StoredNote>, pending: seq<PendingTransfer>, owner: string, a: Input, b: Input, notePsi: string,
                     later: seq<PendingTransfer>)
    requires Idle(notes, pending) && IsNew(notePsi, notes, pending) && forall p <- later :: p in pending
    ensures Idle(Merged(notes, a, b, notePsi, owner), later)
  {
    var merged := Merged(notes, a, b, notePsi, owner);
    RemainingNotes(notes, {a.psi, b.psi});
    assert forall m :: m in merged ==> m.psi == notePsi || m in notes;
  }

  /** A round of merging leaves the wallet ready for the next one. */
  lemma RoundKeepsReady(notes: seq<StoredNote>, pending: seq<PendingTransfer>, owner: string, available: seq<Input>,
                        env: nat -> Attempt, k: nat, a: Input, b: Input, later: seq<PendingTransfer>)
    requires Ready(notes, pending, owner, available, env, k)
    requires a.value > 0 && forall p <- later :: p in pending
    ensures var merged := Merged(notes, a, b, env(k).notePsi, owner);
            Ready(merged, later, owner, Spendable(merged, {}, owner), env, k + 1)
  {
    assert IsNew(env(k).notePsi, notes, pending);
    MergedKeepsUnique(notes, pending, a, b, env(k).notePsi, owner);
    MergedIsIdle(notes, pending, owner, a, b, env(k).notePsi, later);
    StillFresh(notes, pending, owner, env, k, k + 1, a, b, later);
  }

  /** Merging neither brings in a note without psi nor gets rid of one. */
  lemma CarriesPsisKept(notes: seq<StoredNote>, owner: string, a: Input, b: Input, notePsi: string)
    requires notePsi != "" && a.psi != "" && b.psi != ""
    ensures CarriesPsis(Merged(notes, a, b, notePsi, owner), owner) <==> CarriesPsis(notes, owner)
  {
    var merged := Merged(notes, a, b, notePsi, owner);
    RemainingNotes(notes, {a.psi, b.psi});
    assert forall n :: n in merged <==> n == merged[0] || n in RemoveSpent(notes, {a.psi, b.psi});
  }

  /** How far `n` rounds of merging the largest two have come. */
  ghost predicate Progress(start: seq<nat>, values: seq<nat>, n: nat) {
    && |values| + n == |start| && Sum(values) == Sum(start)
    && forall m: nat {:trigger BestSum(values, m)} | m > 0 :: BestSum(values, m) == BestSum(start, m + n)
  }

  lemma ProgressStep(start: seq<nat>, values: seq<nat>, next: seq<nat>, n: nat)
    requires Progress(start, values, n) && OneFewer(values, next)
    ensures Progress(start, next, n + 1)
  {
    forall m: nat {:trigger BestSum(next, m)} | m > 0
      ensures BestSum(next, m) == BestSum(start, m + (n + 1))
    {
      assert BestSum(next, m) == BestSum(values, m + 1) == BestSum(start, m + 1 + n);
    }
  }

  /** The number of rounds a transfer needs before it can be made: as many as it takes notes to cover the amount,
      less the two that a transfer spends anyway. */
  function RoundsNeeded(values: seq<nat>, amount: int): nat
    requires Sum(values) >= amount
  {
    if Needed(values, amount) > 2 then Needed(values, amount) - 2 else 0
  }

  /** The rounds made are the rounds needed once two notes cover the amount, if they did not a round earlier. */
  lemma RoundsAreNeeded(start: seq<nat>, values: seq<nat>, amount: int, n: nat)
    requires Sum(start) >= amount && Progress(start, values, n)
    requires BestSum(values, 2) >= amount
    requires n > 0 ==> BestSum(start, n + 1) < amount
    ensures n == RoundsNeeded(start, amount)
  {
    NeededIff(start, amount, n + 2);
    NeededIff(start, amount, n + 1);
  }

  /** Removing the psis of two inputs found among the spendable notes removes at least two stored notes, whatever
      psis they share, if every spendable note carries one. */
  lemma RemovalShrinks(notes: seq<StoredNote>, pendingPsis: set<string>, owner: string, a: Input, b: Input)
    requires CarriesPsis(notes, owner)
    requires multiset([a, b]) <= multiset(Spendable(notes, pendingPsis, owner))
    ensures |RemoveSpent(notes, {a.psi, b.psi})| + 2 <= |notes|
  {
    var all := Spendable(notes, pendingPsis, owner);
    var i, j := TwoPositions(all, a, b);
    HitsAtTwo(all, {a.psi, b.psi}, i, j);
    RemovedAtLeastHits(notes, pendingPsis, owner, {a.psi, b.psi});
  }

  /** With unique psis it removes both notes exactly when neither of them lacks a psi. */
  lemma RemovalShrinksIff(notes: seq<StoredNote>, pendingPsis: set<string>, owner: string, a: Input, b: Input)
    requires UniquePsis(notes)
    requires multiset([a, b]) <= multiset(Spendable(notes, pendingPsis, owner))
    ensures |RemoveSpent(notes, {a.psi, b.psi})| + 2 <= |notes| <==> !Misses(notes, {a.psi, b.psi})
  {
    RemovePairTotals(notes, pendingPsis, owner, a, b);
    MissesOneOf(notes, a, b);
  }

  function Hits(inputs: seq<Input>, psis: set<string>): nat {
    if inputs == [] then 0 else (if inputs[0].psi in psis then 1 else 0) + Hits(inputs[1..], psis)
  }

  lemma {:induction false} HitsAtOne(inputs: seq<Input>, psis: set<string>, i: nat)
    requires i < |inputs| && inputs[i].psi in psis
    ensures Hits(inputs, psis) >= 1
  {
    if i > 0 {
      HitsAtOne(inputs[1..], psis, i - 1);
    }
  }

  lemma {:induction false} HitsAtTwo(inputs: seq<Input>, psis: set<string>, i: nat, j: nat)
    requires i < j < |inputs| && inputs[i].psi in psis && inputs[j].psi in psis
    ensures Hits(inputs, psis) >= 2
  {
    if i > 0 {
      HitsAtTwo(inputs[1..], psis, i - 1, j - 1);
    } else {
      HitsAtOne(inputs[1..], psis, j - 1);
    }
  }

  lemma {:induction false} RemovedAtLeastHits(notes: seq<StoredNote>, pendingPsis: set<string>, owner: string, psis: set<string>)
    requires CarriesPsis(notes, owner)
    ensures |RemoveSpent(notes, psis)| + Hits(Spendable(notes, pendingPsis, owner), psis) <= |notes|
  {
    if notes != [] {
      assert forall n <- notes[1..] :: n in notes;
      RemovedAtLeastHits(notes[1..], pendingPsis, owner, psis);
      var rest := Spendable(notes[1..], pendingPsis, owner);
      if IsSpendable(notes[0], pendingPsis, owner) {
        assert notes[0] in notes && IsSpendable(notes[0], {}, owner);
        assert Spendable(notes, pendingPsis, owner)[1..] == rest;
      } else {
        assert Spendable(notes, pendingPsis, owner) == rest;
      }
    }
  }

  predicate IsNeeded(notes: seq<Input>, amount: int) {
    Sum(Values(notes)) >= amount && (notes == [] || BestSum(Values(notes), 2) < amount)
  }

  /** A wallet that started settled, after `n` rounds of merging; `current` is what it can spend now. */
  ghost predicate Merging(start: seq<StoredNote>, notes: seq<StoredNote>, pending: seq<PendingTransfer>, owner: string,
                          available: seq<Input>, current: seq<Input>, env: nat -> Attempt, n: nat) {
    && Settled(notes, pending, owner, current, env, n)
    && Total(notes) == Total(start)
    && Positive(current) == current
    && Progress(Values(available), Values(current), n)
    && (n == 0 ==> notes == start && current == available)
  }

  lemma MergingStart(notes: seq<StoredNote>, pending: seq<PendingTransfer>, owner: string, available: seq<Input>,
                     env: nat -> Attempt)
    requires Settled(notes, pending, owner, available, env, 0)
    ensures Merging(notes, notes, pending, owner, available, available, env, 0)
  {
    PositiveSpendable(notes, {}, owner);
  }

  /** One more round. */
  lemma MergingStep(start: seq<StoredNote>, notes: seq<StoredNote>, pending: seq<PendingTransfer>, owner: string,
                    available: seq<Input>, current: seq<Input>, env: nat -> Attempt, n: nat,
                    a: Input, b: Input, later: seq<PendingTransfer>, now: int)
    requires Merging(start, notes, pending, owner, available, current, env, n)
    requires IsLargestPair(current, a, b) && a.value > 0
    requires forall p <- later :: p in pending
    ensures var merged := Merged(notes, a, b, env(n).notePsi, owner);
            var next := Spendable(merged, PendingPsis(later, now), owner);
            Merging(start, merged, later, owner, available, next, env, n + 1) && |next| + 1 == |current|
  {
    var merged := Merged(notes, a, b, env(n).notePsi, owner);
    assert IsNew(env(n).notePsi, notes, pending);
    OfferedPsis(notes, owner, a, b);
    NeitherMissed(notes, {}, owner, a, b);
    MergeStep(notes, pending, owner, a, b, env(n).notePsi);
    RoundKeepsReady(notes, pending, owner, current, env, n, a, b, later);
    CarriesPsisKept(notes, owner, a, b, env(n).notePsi);
    IdleSpendable(merged, later, owner, now);
    PositiveSpendable(merged, {}, owner);
    ProgressStep(Values(available), Values(current), Values(Spendable(merged, {}, owner)), n);
  }

  lemma OfferedPsis(notes: seq<StoredNote>, owner: string, a: Input, b: Input)
    requires multiset([a, b]) <= multiset(Spendable(notes, {}, owner))
    ensures a.psi != "" && b.psi != "" && a.value > 0 && b.value > 0
  {
    BothIn(Spendable(notes, {}, owner), a, b);
    SpendableIff(notes, {}, owner, a);
    SpendableIff(notes, {}, owner, b);
  }

  /** The rounds made so far were needed for a transfer of `amount`. */
  ghost predicate Towards(available: seq<nat>, current: seq<nat>, amount: int, n: nat) {
    n > 0 ==> Sum(available) >= amount && current != [] && BestSum(available, n + 1) < amount
  }

  lemma TowardsStep(available: seq<nat>, current: seq<nat>, after: seq<nat>, amount: int, n: nat, next: nat)
    requires next == n + 1 && Progress(available, current, n) && Progress(available, after, next)
    requires Sum(current) >= amount && BestSum(current, 2) < amount && |current| >= 2
    ensures Towards(available, after, amount, next)
  {
  }

  /** The wallet is in order and its total is what it was less what was sent. */
  ghost predicate InOrder(start: seq<StoredNote>, notes: seq<StoredNote>, pending: seq<PendingTransfer>, sent: int) {
    UniquePsis(notes) && Idle(notes, pending) && Total(notes) == Total(start) - sent
  }

  /** A transfer that is made took exactly the rounds needed, and one that is not took no more; it is made whenever the
      balance covers the amount, there is a note, and no step fails. */
  ghost predicate RoundsAsNeeded(values: seq<nat>, amount: int, env: nat -> Attempt, done: bool, rounds: nat) {
    && (done ==> Sum(values) >= amount && values != [] && rounds == RoundsNeeded(values, amount))
    && (Sum(values) >= amount && values != [] ==> rounds <= RoundsNeeded(values, amount))
    && (Sum(values) >= amount && values != [] && (forall i: nat :: env(i).succeeds) ==> done)
  }

  /** What becomes of a settled wallet: its total, and what can be spent of it, go down by the amount if the transfer is
      made and stay the same otherwise, and no round is made in vain. */
  ghost predicate Outcome(start: seq<StoredNote>, owner: string, available: seq<Input>, amount: int, env: nat -> Attempt,
                          notes: seq<StoredNote>, pending: seq<PendingTransfer>, done: bool, rounds: nat) {
    && InOrder(start, notes, pending, if done then amount else 0)
    && OfferedTotal(notes, {}, owner) == Sum(Values(available)) - (if done then amount else 0)
    && RoundsAsNeeded(Values(available), amount, env, done, rounds)
    && (Sum(Values(available)) < amount || available == [] ==> notes == start)
  }

  lemma FailedRounds(available: seq<nat>, current: seq<nat>, amount: int, env: nat -> Attempt, n: nat, made: nat)
    requires Progress(available, current, n) && made == n + 1
    requires Sum(current) >= amount && BestSum(current, 2) < amount && !env(n).succeeds
    ensures RoundsAsNeeded(available, amount, env, false, made)
  {
    assert BestSum(current, 2) == BestSum(available, n + 2);
    NeededIff(available, amount, n + 2);
  }

  lemma MergeFailed(start: seq<StoredNote>, notes: seq<StoredNote>, pending: seq<PendingTransfer>, owner: string,
                    available: seq<Input>, current: seq<Input>, amount: int, env: nat -> Attempt, n: nat,
                    later: seq<PendingTransfer>, made: nat)
    requires Merging(start, notes, pending, owner, available, current, env, n) && made == n + 1
    requires Towards(Values(available), Values(current), amount, n)
    requires IsNeeded(current, amount) && current != [] && !env(n).succeeds
    requires forall p <- later :: p in pending
    ensures Outcome(start, owner, available, amount, env, notes, later, false, made)
  {
    FailedRounds(Values(available), Values(current), amount, env, n, made);
  }

  lemma TriedRounds(available: seq<nat>, current: seq<nat>, amount: int, env: nat -> Attempt, n: nat, selected: bool, done: bool)
    requires Progress(available, current, n) && Towards(available, current, amount, n)
    requires Sum(current) < amount || (current != [] && BestSum(current, 2) >= amount)
    requires selected <==> current != [] && BestSum(current, 2) >= amount
    requires done <==> selected && env(n).succeeds
    ensures RoundsAsNeeded(available, amount, env, done, n)
    ensures Sum(available) < amount || available == [] ==> n == 0 && !done
  {
    if selected {
      BestSumMonotone(current, 2, |current| + 2);
      BestSumOfAll(current, |current| + 2);
      RoundsAreNeeded(available, current, amount, n);
    }
  }

  lemma TriedBooks(start: seq<StoredNote>, notes: seq<StoredNote>, pending: seq<PendingTransfer>, owner: string,
                   current: seq<Input>, amount: int, selected: Selected, changePsi: string, later: seq<PendingTransfer>)
    requires UniquePsis(notes) && Idle(notes, pending) && CarriesPsis(notes, owner) && Total(notes) == Total(start)
    requires current == Spendable(notes, {}, owner) && IsSelection(current, amount, Some(selected))
    requires IsNew(changePsi, notes, pending) && forall p <- later :: p in pending
    ensures var after := Settle(notes, PsiSet(selected.Inputs()), selected.change, changePsi, owner);
            InOrder(start, after, later, amount) && OfferedTotal(after, {}, owner) == Sum(Values(current)) - amount
  {
    assert forall x <- selected.Inputs() :: x in multiset(selected.Inputs());
    NoneMissed(notes, {}, owner, selected.Inputs());
    TransferConservesIff(notes, amount, selected, changePsi, {}, owner);
    OfferFallsIff(notes, amount, selected, changePsi, {}, owner);
    SettleKeepsUnique(notes, pending, selected, changePsi, owner, later);
  }

  /** The books of a transfer that was tried, made or not. */
  lemma AttemptBooks(start: seq<StoredNote>, notes: seq<StoredNote>, pending: seq<PendingTransfer>, owner: string,
                     current: seq<Input>, amount: int, attempt: Attempt, selection: Option<Selected>, done: bool,
                     after: seq<StoredNote>, later: seq<PendingTransfer>)
    requires UniquePsis(notes) && Idle(notes, pending) && CarriesPsis(notes, owner) && Total(notes) == Total(start)
    requires current == Spendable(notes, {}, owner) && IsSelection(current, amount, selection)
    requires IsNew(attempt.changePsi, notes, pending) && forall p <- later :: p in pending
    requires done ==> selection.Some?
    requires after == if done then Settle(notes, PsiSet(selection.value.Inputs()), selection.value.change, attempt.changePsi, owner)
                      else notes
    ensures var sent := if done then amount else 0;
            InOrder(start, after, later, sent) && OfferedTotal(after, {}, owner) == Sum(Values(current)) - sent
  {
    if done {
      TriedBooks(start, notes, pending, owner, current, amount, selection.value, attempt.changePsi, later);
    }
  }

  /** No merge was needed any more, and the transfer was tried. */
  lemma TransferTried(start: seq<StoredNote>, notes: seq<StoredNote>, pending: seq<PendingTransfer>, owner: string,
                      available: seq<Input>, current: seq<Input>, amount: int, env: nat -> Attempt, n: nat,
                      selection: Option<Selected>, done: bool, after: seq<StoredNote>, later: seq<PendingTransfer>)
    requires Merging(start, notes, pending, owner, available, current, env, n)
    requires Towards(Values(available), Values(current), amount, n)
    requires !IsNeeded(current, amount) && IsSelection(current, amount, selection)
    requires done <==> selection.Some? && env(n).succeeds
    requires after == if done then Settle(notes, PsiSet(selection.value.Inputs()), selection.value.change, env(n).changePsi, owner)
                      else notes
    requires forall p <- later :: p in pending
    ensures Outcome(start, owner, available, amount, env, after, later, done, n)
  {
    TriedRounds(Values(available), Values(current), amount, env, n, selection.Some?, done);
    assert IsNew(env(n).changePsi, notes, pending);
    AttemptBooks(start, notes, pending, owner, current, amount, env(n), selection, done, after, later);
  }

  lemma SettleKeepsUnique(notes: seq<StoredNote>, pending: seq<PendingTransfer>, s: Selected, changePsi: string, owner: string,
                          later: seq<PendingTransfer>)
    requires UniquePsis(notes) && Idle(notes, pending) && IsNew(changePsi, notes, pending)
    requires forall p <- later :: p in pending
    ensures var after := Settle(notes, PsiSet(s.Inputs()), s.change, changePsi, owner);
            UniquePsis(after) && Idle(after, later)
  {
    var kept := RemoveSpent(notes, PsiSet(s.Inputs()));
    RemoveKeepsUnique(notes, PsiSet(s.Inputs()));
    RemainingNotes(notes, PsiSet(s.Inputs()));
    NewNoteKeepsUnique(StoredNote(changePsi, s.change, owner, false), kept);
  }

  /** Nothing to merge although merging is reported as needed: there is no note, and no transfer is made. */
  lemma NothingToMerge(start: seq<StoredNote>, notes: seq<StoredNote>, pending: seq<PendingTransfer>, owner: string,
                       available: seq<Input>, current: seq<Input>, amount: int, env: nat -> Attempt, n: nat,
                       made: nat)
    requires Merging(start, notes, pending, owner, available, current, env, n) && made == n + 1
    requires Towards(Values(available), Values(current), amount, n)
    requires IsNeeded(current, amount) && |current| < 2
    ensures current == [] && n == 0
    ensures Outcome(start, owner, available, amount, env, notes, pending, false, made)
  {
    if current != [] {
      BestSumOfAll(Values(current), 2);
    }
  }

  /** The random psis of the notes to come are not empty. */
  ghost predicate RandomPsis(env: nat -> Attempt) {
    forall i: nat :: env(i).notePsi != ""
  }

  /** A round in a wallet with a spendable note without psi: that note is still there, beside the merged one, so there
      are two notes to merge again. */
  lemma RoundWithoutPsi(notes: seq<StoredNote>, owner: string, a: Input, b: Input, notePsi: string)
    requires notePsi != "" && !CarriesPsis(notes, owner)
    requires a.psi != "" && b.psi != "" && a.value > 0
    ensures var merged := Merged(notes, a, b, notePsi, owner);
            !CarriesPsis(merged, owner) && |Spendable(merged, {}, owner)| >= 2
  {
    CarriesPsisKept(notes, owner, a, b, notePsi);
    NoteWithoutPsiStays(notes, owner, {a.psi, b.psi});
    OneMoreOffered(notes, owner, a, b, notePsi);
  }

  lemma OneMoreOffered(notes: seq<StoredNote>, owner: string, a: Input, b: Input, notePsi: string)
    requires notePsi != "" && a.value > 0
    ensures |Spendable(Merged(notes, a, b, notePsi, owner), {}, owner)|
         == |Spendable(RemoveSpent(notes, {a.psi, b.psi}), {}, owner)| + 1
  {
    PrependMerged(notes, a, b, notePsi, owner);
  }

  lemma NoteWithoutPsiStays(notes: seq<StoredNote>, owner: string, psis: set<string>)
    requires !CarriesPsis(notes, owner) && "" !in psis
    ensures Spendable(RemoveSpent(notes, psis), {}, owner) != []
  {
    var m :| m in notes && IsSpendable(m, {}, owner) && m.psi == "";
    RemainingNotes(notes, psis);
    SpendableIff(RemoveSpent(notes, psis), {}, owner, AsInput(m));
  }

  lemma LargestPairIsBest(notes: seq<StoredNote>, owner: string, a: Input, b: Input)
    requires IsLargestPair(Spendable(notes, {}, owner), a, b)
    ensures BestSum(Values(Spendable(notes, {}, owner)), 2) == a.value + b.value
  {
    var current := Spendable(notes, {}, owner);
    var others := PairAndOthers(current, a, b);
    BestOfPair(current, a, b, others);
  }

  lemma BestOfPair(current: seq<Input>, a: Input, b: Input, others: seq<Input>)
    requires multiset(current) == multiset{a} + (multiset{b} + multiset(others))
    requires IsLargestPair(current, a, b)
    ensures BestSum(Values(current), 2) == a.value + b.value
  {
    PairFirst(current, a, b, others);
    OthersAreSmaller(current, a, b, others);
    BestOfLargest(Values(current), a.value, b.value, Values(others));
  }

  /** As long as merging is needed, a round raises what two notes reach, even if a merged note stays. */
  lemma RoundGains(notes: seq<StoredNote>, owner: string, a: Input, b: Input, amount: int, notePsi: string)
    requires notePsi != ""
    requires IsLargestPair(Spendable(notes, {}, owner), a, b) && IsNeeded(Spendable(notes, {}, owner), amount)
    ensures var before, after := Values(Spendable(notes, {}, owner)), Values(Spendable(Merged(notes, a, b, notePsi, owner), {}, owner));
            Sum(after) >= amount ==> BestSum(after, 2) > BestSum(before, 2)
  {
    OfferedPsis(notes, owner, a, b);
    LargestPairIsBest(notes, owner, a, b);
    MergedOffer(notes, owner, a, b, amount, notePsi);
  }

  lemma MergedOffer(notes: seq<StoredNote>, owner: string, a: Input, b: Input, amount: int, notePsi: string)
    requires notePsi != "" && a.value + b.value < amount && a.value > 0
    ensures var after := Values(Spendable(Merged(notes, a, b, notePsi, owner), {}, owner));
            Sum(after) >= amount ==> BestSum(after, 2) > a.value + b.value
  {
    var kept := RemoveSpent(notes, {a.psi, b.psi});
    PrependMerged(notes, a, b, notePsi, owner);
    MergedGains(kept, owner, a.value + b.value, amount, Values(Spendable(Merged(notes, a, b, notePsi, owner), {}, owner)));
  }

  lemma MergedGains(kept: seq<StoredNote>, owner: string, value: nat, amount: int, after: seq<nat>)
    requires value < amount && after == [value] + Values(Spendable(kept, {}, owner))
    ensures Sum(after) >= amount ==> BestSum(after, 2) > value
  {
    ValuesArePositive(kept, owner);
    GainsOrEnds(value, Values(Spendable(kept, {}, owner)), amount);
  }

  lemma ValuesArePositive(notes: seq<StoredNote>, owner: string)
    ensures forall v <- Values(Spendable(notes, {}, owner)) :: v > 0
  {
    var offered := Spendable(notes, {}, owner);
    PositiveSpendable(notes, {}, owner);
    forall v <- Values(offered)
      ensures v > 0
    {
      var k :| 0 <= k < |offered| && Values(offered)[k] == v;
      assert offered[k] in Positive(offered);
    }
  }

  lemma GainsOrEnds(first: nat, rest: seq<nat>, amount: int)
    requires first < amount && forall v <- rest :: v > 0
    ensures Sum([first] + rest) >= amount ==> BestSum([first] + rest, 2) > first
  {
    assert ([first] + rest)[1..] == rest;
    assert Sum([first] + rest) == first + Sum(rest);
    if rest != [] {
      BestSumStep(first, rest, 2);
      assert rest == [rest[0]] + rest[1..] && rest[0] in rest;
      BestSumStep(rest[0], rest[1..], 1);
      assert BestSum(rest, 1) >= rest[0];
    }
  }

  /** Merging brings in no note without psi, and one note at most. */
  lemma MergedCarries(notes: seq<StoredNote>, owner: string, a: Input, b: Input, notePsi: string)
    requires CarriesPsis(notes, owner) && notePsi != ""
    ensures CarriesPsis(Merged(notes, a, b, notePsi, owner), owner)
    ensures |Merged(notes, a, b, notePsi, owner)| <= |notes| + 1
  {
    RemainingNotes(notes, {a.psi, b.psi});
    RemovedLength(notes, {a.psi, b.psi});
  }

  lemma {:induction false} RemovedLength(notes: seq<StoredNote>, psis: set<string>)
    ensures |RemoveSpent(notes, psis)| <= |notes|
  {
    if notes != [] {
      RemovedLength(notes[1..], psis);
    }
  }

  lemma {:induction false} SpendableLength(notes: seq<StoredNote>, pendingPsis: set<string>, owner: string)
    ensures |Spendable(notes, pendingPsis, owner)| <= |notes|
  {
    if notes != [] {
      SpendableLength(notes[1..], pendingPsis, owner);
    }
  }

  /** What merging everything comes to: one note with all the value, after one round less than there were notes,
      whenever no merge fails; and nothing lost when one does. */
  ghost predicate AllMerged(start: seq<StoredNote>, available: seq<Input>, env: nat -> Attempt, notes: seq<StoredNote>,
                            pending: seq<PendingTransfer>, owner: string, r: Result<nat, string>) {
    && InOrder(start, notes, pending, 0)
    && (r.Ok? ==> var left := Spendable(notes, {}, owner);
                  && r.value == (if |available| > 1 then |available| - 1 else 0)
                  && |left| == (if available == [] then 0 else 1) && Sum(Values(left)) == Sum(Values(available)))
    && ((forall i: nat :: env(i).succeeds) ==> r.Ok?)
  }

  /** Where the psis of the notes of a wallet that never comes down to one note come from: two notes without psi, and
      attempts that all succeed with psis of their own. */
  function TwoWithoutPsi(owner: string): seq<StoredNote> {
    [StoredNote("", 2, owner, false), StoredNote("", 3, owner, false)]
  }

  function AllSucceed(): nat -> Attempt {
    (i: nat) => Attempt(0, 0, 0, true, "a" + seq(i + 65, _ => 'n'), "b" + seq(i + 65, _ => 'n'))
  }

  lemma TwoWithoutPsiAreReady(owner: string)
    ensures var notes := TwoWithoutPsi(owner);
            && Ready(notes, [], owner, Spendable(notes, {}, owner), AllSucceed(), 0)
            && !CarriesPsis(notes, owner) && |Spendable(notes, {}, owner)| == 2
            && forall i: nat :: AllSucceed()(i).succeeds
  {
    var notes := TwoWithoutPsi(owner);
    SpendableCons(notes[0], [notes[1]], {}, owner);
    SpendableCons(notes[1], [], {}, owner);
    assert notes == [notes[0]] + [notes[1]] && [notes[1]] == [notes[1]] + [];
    assert notes[0] in notes;
    AllSucceedIsFresh(notes);
  }

  lemma AllSucceedIsFresh(notes: seq<StoredNote>)
    requires forall n <- notes :: n.psi == ""
    ensures FreshFrom(AllSucceed(), 0, notes, [])
  {
    var env := AllSucceed();
    forall i: nat
      ensures IsNew(env(i).notePsi, notes, []) && IsNew(env(i).changePsi, notes, [])
    {
      assert |env(i).notePsi| == i + 66 && |env(i).changePsi| == i + 66 && |MissingPsi()| == 64;
    }
    forall i: nat, j: nat
      ensures env(i).notePsi != env(j).changePsi
    {
      assert env(i).notePsi[0] == 'a' && env(j).changePsi[0] == 'b';
    }
    forall i: nat, j: nat | i < j
      ensures env(i).notePsi != env(j).notePsi
    {
      assert |env(i).notePsi| != |env(j).notePsi|;
    }
  }

  lemma MergingFailed(start: seq<StoredNote>, notes: seq<StoredNote>, pending: seq<PendingTransfer>, owner: string,
                      available: seq<Input>, current: seq<Input>, env: nat -> Attempt, n: nat,
                      later: seq<PendingTransfer>, message: string)
    requires Merging(start, notes, pending, owner, available, current, env, n)
    requires !env(n).succeeds && forall p <- later :: p in pending
    ensures AllMerged(start, available, env, notes, later, owner, Err(message))
  {
  }

  lemma MergingEnds(start: seq<StoredNote>, notes: seq<StoredNote>, pending: seq<PendingTransfer>, owner: string,
                    available: seq<Input>, current: seq<Input>, env: nat -> Attempt, n: nat)
    requires Merging(start, notes, pending, owner, available, current, env, n)
    requires n > 0 ==> current != []
    requires |current| < 2
    ensures AllMerged(start, available, env, notes, pending, owner, Ok(n))
  {
  }
}
