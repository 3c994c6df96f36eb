/** The wallet's stored notes and pending transfers, and the transfers that change them. */
module Wallet {
  import opened Wrappers
  import opened Sequences
  import opened NoteSelection
  import opened Selection

  /** How long a pending transfer blocks its notes, in milliseconds. */
  const PENDING_TIMEOUT: int := 5 * 60 * 1000

  datatype StoredNote = StoredNote(psi: string, value: nat, address: string, optimistic: bool)

  datatype PendingTransfer = PendingTransfer(psis: seq<string>, timestamp: int)

  // ---- pending transfers ----

  /** The records that have not expired at `now`. */
  function Active(pending: seq<PendingTransfer>, now: int): (r: seq<PendingTransfer>)
    ensures forall p :: p in r <==> p in pending && now - p.timestamp < PENDING_TIMEOUT
  {
    if pending == [] then []
    else (if now - pending[0].timestamp < PENDING_TIMEOUT then [pending[0]] else []) + Active(pending[1..], now)
  }

  predicate Touches(p: PendingTransfer, psis: seq<string>) {
    exists psi <- p.psis :: psi in psis
  }

  function Untouched(pending: seq<PendingTransfer>, psis: seq<string>): (r: seq<PendingTransfer>)
    ensures forall p :: p in r <==> p in pending && !Touches(p, psis)
  {
    if pending == [] then []
    else (if Touches(pending[0], psis) then [] else [pending[0]]) + Untouched(pending[1..], psis)
  }

  function Marked(pending: seq<PendingTransfer>, psis: seq<string>, now: int): seq<PendingTransfer> {
    Active(pending, now) + [PendingTransfer(psis, now)]
  }

  function Cleared(pending: seq<PendingTransfer>, psis: seq<string>, now: int): seq<PendingTransfer> {
    Untouched(Active(pending, now), psis)
  }

  predicate IsPending(pending: seq<PendingTransfer>, psi: string, now: int) {
    exists p <- Active(pending, now) :: psi in p.psis
  }

  /** Anything that is done to the records: marking, clearing, or dropping what expired. */
  datatype PendingEvent = Mark(psis: seq<string>, now: int) | Clear(psis: seq<string>, now: int) | Cleanup(now: int)

  function Apply(pending: seq<PendingTransfer>, e: PendingEvent): seq<PendingTransfer> {
    match e
    case Mark(psis, now) => Marked(pending, psis, now)
    case Clear(psis, now) => Cleared(pending, psis, now)
    case Cleanup(now) => Active(pending, now)
  }

  function ApplyAll(pending: seq<PendingTransfer>, events: seq<PendingEvent>): seq<PendingTransfer>
    decreases |events|
  {
    if events == [] then pending else ApplyAll(Apply(pending, events[0]), events[1..])
  }

  lemma {:induction false} RecordSurvives(pending: seq<PendingTransfer>, record: PendingTransfer, events: seq<PendingEvent>)
    requires record in pending
    requires forall e <- events :: e.now - record.timestamp < PENDING_TIMEOUT
    requires forall e <- events :: e.Clear? ==> !Touches(record, e.psis)
    ensures record in ApplyAll(pending, events)
    decreases |events|
  {
    if events != [] {
      assert events[0] in events && forall e <- events[1..] :: e in events;
      assert record in Apply(pending, events[0]);
      RecordSurvives(Apply(pending, events[0]), record, events[1..]);
    }
  }

  /** A psi is pending exactly while a record with it is younger than five minutes. */
  lemma PendingIff(pending: seq<PendingTransfer>, psi: string, now: int)
    ensures IsPending(pending, psi, now) <==> exists p <- pending :: psi in p.psis && now - p.timestamp < 300_000
    ensures psi in PendingPsis(pending, now) <==> IsPending(pending, psi, now)
  {
  }

  /** A marked note stays pending through everything that happens until its own timeout, other transfers being
      marked and cleared included, unless one that shares a note with it is cleared. */
  lemma MarkedStaysPending(pending: seq<PendingTransfer>, psis: seq<string>, at: int, events: seq<PendingEvent>,
                           psi: string, now: int)
    requires psi in psis
    requires forall e <- events :: e.now - at < PENDING_TIMEOUT
    requires forall e <- events :: e.Clear? ==> !Touches(PendingTransfer(psis, at), e.psis)
    requires now - at < PENDING_TIMEOUT
    ensures IsPending(ApplyAll(Marked(pending, psis, at), events), psi, now)
  {
    RecordSurvives(Marked(pending, psis, at), PendingTransfer(psis, at), events);
    assert PendingTransfer(psis, at) in Active(ApplyAll(Marked(pending, psis, at), events), now);
  }

  /** After clearing, none of the cleared notes is pending any more, at any time. */
  lemma ClearedIsNotPending(pending: seq<PendingTransfer>, psis: seq<string>, at: int, psi: string, now: int)
    requires psi in psis
    ensures !IsPending(Cleared(pending, psis, at), psi, now)
  {
  }

  // ---- stored notes ----

  function PendingPsis(pending: seq<PendingTransfer>, now: int): set<string> {
    set p, psi | p in Active(pending, now) && psi in p.psis :: psi
  }

  /** A note without psi is never taken for pending. */
  predicate IsSpendable(n: StoredNote, pendingPsis: set<string>, owner: string) {
    !n.optimistic && !(n.psi != "" && n.psi in pendingPsis) && n.address == owner && n.value > 0
  }

  /** What stands in for the psi of a note without one when the note is offered for spending: 64 zeros. */
  function MissingPsi(): (psi: string)
    ensures psi != ""
  {
    seq(64, _ => '0')
  }

  function PsiOf(n: StoredNote): string {
    if n.psi == "" then MissingPsi() else n.psi
  }

  function AsInput(n: StoredNote): Input {
    Input(PsiOf(n), n.value)
  }

  function Spendable(notes: seq<StoredNote>, pendingPsis: set<string>, owner: string): seq<Input> {
    if notes == [] then [] else Own(notes[0], pendingPsis, owner) + Spendable(notes[1..], pendingPsis, owner)
  }

  function Own(n: StoredNote, pendingPsis: set<string>, owner: string): seq<Input> {
    if IsSpendable(n, pendingPsis, owner) then [AsInput(n)] else []
  }

  function Total(notes: seq<StoredNote>): nat {
    if notes == [] then 0 else notes[0].value + Total(notes[1..])
  }

  /** Takes out what is stored under one of the psis; a note without psi is stored under none. */
  function RemoveSpent(notes: seq<StoredNote>, psis: set<string>): seq<StoredNote> {
    if notes == [] then []
    else if notes[0].psi in psis then RemoveSpent(notes[1..], psis)
    else [notes[0]] + RemoveSpent(notes[1..], psis)
  }

  lemma {:induction false} RemainingNotes(notes: seq<StoredNote>, psis: set<string>)
    ensures forall n :: n in RemoveSpent(notes, psis) <==> n in notes && n.psi !in psis
  {
    if notes != [] {
      RemainingNotes(notes[1..], psis);
      assert notes == [notes[0]] + notes[1..];
    }
  }

  /** No note's own psi is also what another one is offered under. Any number of notes may lack a psi, but not
      beside one whose psi is the 64 zeros. */
  predicate UniquePsis(notes: seq<StoredNote>) {
    forall i, j | 0 <= i < |notes| && 0 <= j < |notes| && i != j :: notes[i].psi != PsiOf(notes[j])
  }

  /** Among the psis is the one under which a stored note without psi is offered. */
  predicate Misses(notes: seq<StoredNote>, psis: set<string>) {
    MissingPsi() in psis && exists n <- notes :: n.psi == ""
  }

  function PsiSet(inputs: seq<Input>): set<string> {
    set n | n in inputs :: n.psi
  }

  lemma {:induction false} RemoveKeepsUnique(notes: seq<StoredNote>, psis: set<string>)
    requires UniquePsis(notes)
    ensures UniquePsis(RemoveSpent(notes, psis))
  {
    if notes != [] {
      RemoveKeepsUnique(notes[1..], psis);
      RemainingNotes(notes[1..], psis);
      HeadPsiIsUnique(notes);
    }
  }

  lemma HeadPsiIsUnique(notes: seq<StoredNote>)
    requires UniquePsis(notes) && notes != []
    ensures UniquePsis(notes[1..])
    ensures forall n <- notes[1..] :: n.psi != PsiOf(notes[0]) && notes[0].psi != PsiOf(n)
  {
    forall n <- notes[1..]
      ensures n.psi != PsiOf(notes[0]) && notes[0].psi != PsiOf(n)
    {
      var k :| 0 <= k < |notes[1..]| && notes[1..][k] == n;
      assert notes[k + 1] == n;
    }
  }

  lemma {:induction false} RemoveNothing(notes: seq<StoredNote>, psis: set<string>)
    requires forall n <- notes :: n.psi !in psis
    ensures RemoveSpent(notes, psis) == notes
  {
    if notes != [] {
      assert notes[0] in notes && forall n <- notes[1..] :: n in notes;
      RemoveNothing(notes[1..], psis);
    }
  }

  /** With unique psis, removing one psi takes out exactly its note. */
  lemma {:induction false} RemoveOne(notes: seq<StoredNote>, n: StoredNote)
    requires UniquePsis(notes) && n in notes && n.psi != ""
    ensures Total(RemoveSpent(notes, {n.psi})) == Total(notes) - n.value
    ensures |RemoveSpent(notes, {n.psi})| == |notes| - 1
  {
    HeadPsiIsUnique(notes);
    assert notes == [notes[0]] + notes[1..];
    if notes[0].psi == n.psi {
      assert notes[0] == n;
      RemoveNothing(notes[1..], {n.psi});
    } else {
      RemoveOne(notes[1..], n);
      var rest := RemoveSpent(notes[1..], {n.psi});
      assert ([notes[0]] + rest)[1..] == rest;
    }
  }

  /** A note without psi stays when what it was offered under is removed. */
  lemma RemoveMissed(notes: seq<StoredNote>, n: StoredNote)
    requires UniquePsis(notes) && n in notes && n.psi == ""
    ensures RemoveSpent(notes, {MissingPsi()}) == notes
  {
    var k :| 0 <= k < |notes| && notes[k] == n;
    forall m <- notes
      ensures m.psi != MissingPsi()
    {
      var i :| 0 <= i < |notes| && notes[i] == m;
      assert i != k ==> notes[i].psi != PsiOf(notes[k]);
    }
    RemoveNothing(notes, {MissingPsi()});
  }

  lemma {:induction false} RemoveInTurn(notes: seq<StoredNote>, a: set<string>, b: set<string>)
    ensures RemoveSpent(notes, a + b) == RemoveSpent(RemoveSpent(notes, a), b)
  {
    if notes != [] {
      RemoveInTurn(notes[1..], a, b);
      var rest := RemoveSpent(notes[1..], a);
      assert ([notes[0]] + rest)[1..] == rest;
    }
  }

  /** A stored note that is the owner's, settled, of value and not pending under its own psi; and how it is offered: under
      its psi, or under 64 zeros if it has none. */
  predicate Offers(n: StoredNote, pendingPsis: set<string>, owner: string, input: Input) {
    && n.address == owner && !n.optimistic && n.value > 0 && (n.psi == "" || n.psi !in pendingPsis)
    && input.value == n.value
    && if n.psi == "" then |input.psi| == 64 && forall c <- input.psi :: c == '0' else input.psi == n.psi
  }

  lemma OffersIff(n: StoredNote, pendingPsis: set<string>, owner: string, input: Input)
    ensures Offers(n, pendingPsis, owner, input) <==> IsSpendable(n, pendingPsis, owner) && AsInput(n) == input
  {
    if n.psi == "" && Offers(n, pendingPsis, owner, input) {
      forall i | 0 <= i < 64
        ensures input.psi[i] == '0'
      {
        assert input.psi[i] in input.psi;
      }
      assert input.psi == MissingPsi();
    }
  }

  lemma {:induction false} SpendableIff(notes: seq<StoredNote>, pendingPsis: set<string>, owner: string, input: Input)
    ensures input in Spendable(notes, pendingPsis, owner)
       <==> exists n <- notes :: IsSpendable(n, pendingPsis, owner) && AsInput(n) == input
  {
    if notes != [] {
      SpendableIff(notes[1..], pendingPsis, owner, input);
      assert notes == [notes[0]] + notes[1..];
    }
  }

  /** What is offered is exactly such notes. */
  lemma SpendableExactly(notes: seq<StoredNote>, pendingPsis: set<string>, owner: string)
    ensures forall x :: x in Spendable(notes, pendingPsis, owner) <==> exists n <- notes :: Offers(n, pendingPsis, owner, x)
  {
    forall x
      ensures x in Spendable(notes, pendingPsis, owner) <==> exists n <- notes :: Offers(n, pendingPsis, owner, x)
    {
      SpendableIff(notes, pendingPsis, owner, x);
      forall n <- notes
        ensures Offers(n, pendingPsis, owner, x) <==> IsSpendable(n, pendingPsis, owner) && AsInput(n) == x
      {
        OffersIff(n, pendingPsis, owner, x);
      }
    }
  }

  lemma SpendableFrom(notes: seq<StoredNote>, pendingPsis: set<string>, owner: string, i: nat)
    requires i < |notes|
    ensures Spendable(notes[i..], pendingPsis, owner)
         == Own(notes[i], pendingPsis, owner) + Spendable(notes[i + 1..], pendingPsis, owner)
  {
    assert notes[i..][1..] == notes[i + 1..];
  }

  /** A pending psi is not on offer, except that a note without psi stays on offer while the psi it is offered under
      is pending. */
  lemma PendingSpendableIff(notes: seq<StoredNote>, pending: seq<PendingTransfer>, owner: string, input: Input, now: int)
    requires input.psi != "" && IsPending(pending, input.psi, now)
    ensures input in Spendable(notes, PendingPsis(pending, now), owner)
       <==> exists n <- notes :: n.psi == "" && IsSpendable(n, {}, owner) && AsInput(n) == input
  {
    SpendableIff(notes, PendingPsis(pending, now), owner, input);
    assert input.psi in PendingPsis(pending, now) by {
      var p :| p in Active(pending, now) && input.psi in p.psis;
    }
    forall n <- notes | AsInput(n) == input
      ensures IsSpendable(n, PendingPsis(pending, now), owner) <==> n.psi == "" && IsSpendable(n, {}, owner)
    {
    }
  }

  /** The stored notes after a transfer went through: the spent notes go, the change comes first. */
  function Settle(notes: seq<StoredNote>, spent: set<string>, change: nat, changePsi: string, owner: string): seq<StoredNote> {
    if change > 0 then [StoredNote(changePsi, change, owner, false)] + RemoveSpent(notes, spent)
    else RemoveSpent(notes, spent)
  }

  lemma SettledTotal(notes: seq<StoredNote>, spent: set<string>, change: nat, changePsi: string, owner: string)
    ensures Total(Settle(notes, spent, change, changePsi, owner)) == change + Total(RemoveSpent(notes, spent))
  {
    var kept := RemoveSpent(notes, spent);
    assert ([StoredNote(changePsi, change, owner, false)] + kept)[1..] == kept;
  }

  lemma {:induction false} PositiveSpendable(notes: seq<StoredNote>, pendingPsis: set<string>, owner: string)
    ensures Positive(Spendable(notes, pendingPsis, owner)) == Spendable(notes, pendingPsis, owner)
  {
    if notes != [] {
      PositiveSpendable(notes[1..], pendingPsis, owner);
      var rest := Spendable(notes[1..], pendingPsis, owner);
      if IsSpendable(notes[0], pendingPsis, owner) {
        assert Spendable(notes, pendingPsis, owner)[1..] == rest;
      } else {
        assert Spendable(notes, pendingPsis, owner) == rest;
      }
    }
  }

  lemma HeadIsNotSpendableAgain(notes: seq<StoredNote>, pendingPsis: set<string>, owner: string, x: Input)
    requires UniquePsis(notes) && notes != []
    requires x in Spendable(notes[1..], pendingPsis, owner) && x.psi == PsiOf(notes[0])
    ensures Misses(notes, {x.psi})
  {
    SpendableIff(notes[1..], pendingPsis, owner, x);
    HeadPsiIsUnique(notes);
  }

  /** A psi occurs at most once among the spendable notes, unless it stands for notes without psi. */
  lemma {:induction false} SpendableOnce(notes: seq<StoredNote>, pendingPsis: set<string>, owner: string, i: nat, j: nat)
    requires UniquePsis(notes)
    requires i < j < |Spendable(notes, pendingPsis, owner)|
    requires Spendable(notes, pendingPsis, owner)[i].psi == Spendable(notes, pendingPsis, owner)[j].psi
    ensures Misses(notes, {Spendable(notes, pendingPsis, owner)[i].psi})
  {
    HeadPsiIsUnique(notes);
    var all, rest := Spendable(notes, pendingPsis, owner), Spendable(notes[1..], pendingPsis, owner);
    if !IsSpendable(notes[0], pendingPsis, owner) {
      assert all == rest;
      SpendableOnce(notes[1..], pendingPsis, owner, i, j);
    } else if i == 0 {
      assert all[j] == rest[j - 1];
      HeadIsNotSpendableAgain(notes, pendingPsis, owner, rest[j - 1]);
    } else {
      assert all[i] == rest[i - 1] && all[j] == rest[j - 1];
      SpendableOnce(notes[1..], pendingPsis, owner, i - 1, j - 1);
    }
  }

  /** Two inputs taken from a sequence stand at two different positions of it. */
  lemma TwoPositions(all: seq<Input>, a: Input, b: Input) returns (i: nat, j: nat)
    requires multiset([a, b]) <= multiset(all)
    ensures i < j < |all| && ((all[i] == a && all[j] == b) || (all[i] == b && all[j] == a))
  {
    assert a in multiset([a, b]) && a in multiset(all);
    var p :| 0 <= p < |all| && all[p] == a;
    var rest := Without(all, p);
    MultisetWithout(all, p);
    assert b in multiset(rest) by {
      assert multiset([a, b]) == multiset{a} + multiset{b};
    }
    var q :| 0 <= q < |rest| && rest[q] == b;
    if q < p {
      i, j := q, p;
    } else {
      i, j := p, q + 1;
    }
  }

  lemma BothIn(all: seq<Input>, a: Input, b: Input)
    requires multiset([a, b]) <= multiset(all)
    ensures a in all && b in all
  {
    assert a in multiset([a, b]) && b in multiset([a, b]);
    assert a in multiset(all) && b in multiset(all);
  }

  /** Taking out two inputs leaves the others. */
  lemma PairAndOthers(all: seq<Input>, a: Input, b: Input) returns (others: seq<Input>)
    requires multiset([a, b]) <= multiset(all)
    ensures multiset(all) == multiset{a} + (multiset{b} + multiset(others))
  {
    assert a in multiset([a, b]) && a in multiset(all);
    var p :| 0 <= p < |all| && all[p] == a;
    var rest := Without(all, p);
    TakeOut(all, p);
    assert multiset([a, b]) == multiset{a} + multiset{b};
    assert b in multiset(rest);
    var q :| 0 <= q < |rest| && rest[q] == b;
    TakeOut(rest, q);
    others := Without(rest, q);
  }

  /** What removing the psi of a spendable input does: nothing if it stands for a note without psi. */
  lemma RemoveInput(notes: seq<StoredNote>, pendingPsis: set<string>, owner: string, a: Input)
    requires UniquePsis(notes) && a in Spendable(notes, pendingPsis, owner)
    ensures var kept := RemoveSpent(notes, {a.psi});
            && UniquePsis(kept) && a.value > 0
            && Total(kept) == Total(notes) - CarriedValue(notes, a)
            && |kept| == |notes| - (if Misses(notes, {a.psi}) then 0 else 1)
  {
    SpendableIff(notes, pendingPsis, owner, a);
    var n :| n in notes && IsSpendable(n, pendingPsis, owner) && AsInput(n) == a;
    RemoveKeepsUnique(notes, {a.psi});
    if n.psi == "" {
      RemoveMissed(notes, n);
    } else {
      NotMissed(notes, n);
      RemoveOne(notes, n);
    }
  }

  lemma NotMissed(notes: seq<StoredNote>, n: StoredNote)
    requires UniquePsis(notes) && n in notes && n.psi != ""
    ensures !Misses(notes, {n.psi})
  {
    var k :| 0 <= k < |notes| && notes[k] == n;
    forall m <- notes | m.psi == ""
      ensures n.psi != MissingPsi()
    {
      var i :| 0 <= i < |notes| && notes[i] == m;
      assert notes[k].psi != PsiOf(notes[i]);
    }
  }

  /** How much of an input's value removal by its psi takes out. */
  function CarriedValue(notes: seq<StoredNote>, a: Input): nat {
    if Misses(notes, {a.psi}) then 0 else a.value
  }

  lemma SpendableCons(n: StoredNote, rest: seq<StoredNote>, pendingPsis: set<string>, owner: string)
    ensures Spendable([n] + rest, pendingPsis, owner) == Own(n, pendingPsis, owner) + Spendable(rest, pendingPsis, owner)
  {
    assert ([n] + rest)[1..] == rest;
  }

  lemma HeadIsOffered(notes: seq<StoredNote>, pendingPsis: set<string>, owner: string, a: Input)
    requires UniquePsis(notes) && notes != [] && !Misses(notes, {a.psi})
    requires a in Spendable(notes, pendingPsis, owner)
    ensures notes[0].psi == a.psi ==> Own(notes[0], pendingPsis, owner) == [a]
    ensures notes[0].psi != a.psi ==> a in Spendable(notes[1..], pendingPsis, owner)
  {
    SpendableIff(notes, pendingPsis, owner, a);
    assert notes == [notes[0]] + notes[1..];
    if a in Spendable(notes[1..], pendingPsis, owner) && a.psi == PsiOf(notes[0]) {
      HeadIsNotSpendableAgain(notes, pendingPsis, owner, a);
    }
  }

  lemma {:induction false} SpendableAfterRemoving(notes: seq<StoredNote>, pendingPsis: set<string>, owner: string, a: Input)
    requires UniquePsis(notes) && a in Spendable(notes, pendingPsis, owner) && !Misses(notes, {a.psi})
    ensures multiset(Spendable(notes, pendingPsis, owner))
         == multiset{a} + multiset(Spendable(RemoveSpent(notes, {a.psi}), pendingPsis, owner))
  {
    var head, tail := notes[0], notes[1..];
    HeadPsiIsUnique(notes);
    HeadIsOffered(notes, pendingPsis, owner, a);
    if head.psi == a.psi {
      assert a.psi != "" by {
        SpendableIff(notes, pendingPsis, owner, a);
      }
      RemoveNothing(tail, {a.psi});
    } else {
      assert forall n <- tail :: n in notes;
      SpendableAfterRemoving(tail, pendingPsis, owner, a);
      SpendableCons(head, RemoveSpent(tail, {a.psi}), pendingPsis, owner);
    }
  }

  lemma PairOf(all: seq<Input>, a: Input, b: Input, others: multiset<Input>)
    requires multiset([a, b]) <= multiset(all) && multiset(all) == multiset{a} + others
    ensures a in all && b in others
  {
    assert multiset([a, b]) == multiset{a} + multiset{b};
    assert (multiset{a} + multiset{b})[b] >= 1 + multiset{a}[b];
    assert a in multiset([a, b]);
  }

  lemma MissesOneOf(notes: seq<StoredNote>, a: Input, b: Input)
    ensures Misses(notes, {a.psi, b.psi}) <==> Misses(notes, {a.psi}) || Misses(notes, {b.psi})
  {
  }

  lemma RemainingMisses(notes: seq<StoredNote>, psis: set<string>, others: set<string>)
    requires "" !in psis
    ensures Misses(RemoveSpent(notes, psis), others) <==> Misses(notes, others)
  {
    RemainingNotes(notes, psis);
  }

  /** Removing two spendable notes picked together takes out what they carry under their psis. */
  lemma RemovePairTotals(notes: seq<StoredNote>, pendingPsis: set<string>, owner: string, a: Input, b: Input)
    requires UniquePsis(notes)
    requires multiset([a, b]) <= multiset(Spendable(notes, pendingPsis, owner))
    ensures var removed := RemoveSpent(notes, {a.psi, b.psi});
            && UniquePsis(removed) && a.value > 0 && b.value > 0
            && Total(removed) == Total(notes) - CarriedValue(notes, a) - CarriedValue(notes, b)
            && |removed| == |notes| - (if Misses(notes, {a.psi}) then 0 else 1) - (if Misses(notes, {b.psi}) then 0 else 1)
  {
    var once := RemoveSpent(notes, {a.psi});
    BothIn(Spendable(notes, pendingPsis, owner), a, b);
    SpendableIff(notes, pendingPsis, owner, a);
    SpendableIff(notes, pendingPsis, owner, b);
    RemoveInput(notes, pendingPsis, owner, a);
    RemoveInTurn(notes, {a.psi}, {b.psi});
    assert {a.psi} + {b.psi} == {a.psi, b.psi};
    RemainingMisses(notes, {a.psi}, {b.psi});
    if Misses(notes, {a.psi}) {
      NoneUnderMissing(notes);
      RemoveInput(once, pendingPsis, owner, b);
    } else {
      SpendableAfterRemoving(notes, pendingPsis, owner, a);
      PairOf(Spendable(notes, pendingPsis, owner), a, b, multiset(Spendable(once, pendingPsis, owner)));
      RemoveInput(once, pendingPsis, owner, b);
    }
  }

  lemma NoneUnderMissing(notes: seq<StoredNote>)
    requires UniquePsis(notes) && Misses(notes, {MissingPsi()})
    ensures RemoveSpent(notes, {MissingPsi()}) == notes
  {
    var n :| n in notes && n.psi == "";
    RemoveMissed(notes, n);
  }

  lemma OfferWithoutPair(notes: seq<StoredNote>, pendingPsis: set<string>, owner: string, a: Input, b: Input,
                         once: seq<StoredNote>, twice: seq<StoredNote>)
    requires UniquePsis(notes) && UniquePsis(once) && !Misses(notes, {a.psi}) && !Misses(once, {b.psi})
    requires multiset([a, b]) <= multiset(Spendable(notes, pendingPsis, owner))
    requires once == RemoveSpent(notes, {a.psi}) && twice == RemoveSpent(once, {b.psi})
    ensures multiset(Spendable(notes, pendingPsis, owner))
         == multiset{a} + (multiset{b} + multiset(Spendable(twice, pendingPsis, owner)))
  {
    BothIn(Spendable(notes, pendingPsis, owner), a, b);
    SpendableAfterRemoving(notes, pendingPsis, owner, a);
    PairOf(Spendable(notes, pendingPsis, owner), a, b, multiset(Spendable(once, pendingPsis, owner)));
    SpendableAfterRemoving(once, pendingPsis, owner, b);
  }

  lemma RemovedOneByOne(notes: seq<StoredNote>, a: Input, b: Input)
    requires UniquePsis(notes) && !Misses(notes, {a.psi, b.psi}) && a.psi != ""
    ensures var once := RemoveSpent(notes, {a.psi});
            && UniquePsis(once) && !Misses(notes, {a.psi}) && !Misses(once, {b.psi})
            && RemoveSpent(notes, {a.psi, b.psi}) == RemoveSpent(once, {b.psi})
  {
    MissesOneOf(notes, a, b);
    RemainingMisses(notes, {a.psi}, {b.psi});
    RemoveKeepsUnique(notes, {a.psi});
    RemoveInTurn(notes, {a.psi}, {b.psi});
    assert {a.psi} + {b.psi} == {a.psi, b.psi};
  }

  lemma NothingCarriedLess(notes: seq<StoredNote>, a: Input, b: Input)
    requires !Misses(notes, {a.psi, b.psi})
    ensures CarriedValue(notes, a) == a.value && CarriedValue(notes, b) == b.value
  {
    MissesOneOf(notes, a, b);
  }

  /** ... and if none of them lacks a psi, exactly those two are no longer on offer. */
  lemma RemovePair(notes: seq<StoredNote>, pendingPsis: set<string>, owner: string, a: Input, b: Input)
    requires UniquePsis(notes) && !Misses(notes, {a.psi, b.psi})
    requires multiset([a, b]) <= multiset(Spendable(notes, pendingPsis, owner))
    ensures var removed := RemoveSpent(notes, {a.psi, b.psi});
            && UniquePsis(removed) && Total(removed) == Total(notes) - a.value - b.value
            && multiset(Spendable(notes, pendingPsis, owner))
               == multiset{a} + (multiset{b} + multiset(Spendable(removed, pendingPsis, owner)))
  {
    BothIn(Spendable(notes, pendingPsis, owner), a, b);
    SpendableIff(notes, pendingPsis, owner, a);
    RemovedOneByOne(notes, a, b);
    var once := RemoveSpent(notes, {a.psi});
    OfferWithoutPair(notes, pendingPsis, owner, a, b, once, RemoveSpent(once, {b.psi}));
    RemovePairTotals(notes, pendingPsis, owner, a, b);
    NothingCarriedLess(notes, a, b);
  }

  lemma PsisOfOne(a: Input)
    ensures PsiSet([a]) == {a.psi} && Sum(Values([a])) == a.value
  {
    assert a in [a];
    assert Values([a])[1..] == [];
  }

  lemma PsisOfTwo(a: Input, b: Input)
    ensures PsiSet([a, b]) == {a.psi, b.psi} && Sum(Values([a, b])) == a.value + b.value
  {
    assert a in [a, b] && b in [a, b];
    SumOfPair(a, b);
  }

  /** The inputs' total as far as removal by psi takes it out. */
  function CarriedTotal(notes: seq<StoredNote>, inputs: seq<Input>): nat {
    if inputs == [] then 0 else CarriedValue(notes, inputs[0]) + CarriedTotal(notes, inputs[1..])
  }

  lemma CarriedTotals(notes: seq<StoredNote>, a: Input, b: Input)
    ensures CarriedTotal(notes, [a]) == CarriedValue(notes, a)
    ensures CarriedTotal(notes, [a, b]) == CarriedValue(notes, a) + CarriedValue(notes, b)
  {
    assert [a][1..] == [] && [b][1..] == [] && [a, b][1..] == [b];
    assert CarriedTotal(notes, [b]) == CarriedValue(notes, b);
  }

  /** What a settled transfer does to the stored total. */
  lemma SettledBy(notes: seq<StoredNote>, s: Selected, changePsi: string, pendingPsis: set<string>, owner: string)
    requires UniquePsis(notes)
    requires multiset(s.Inputs()) <= multiset(Spendable(notes, pendingPsis, owner))
    requires s.total == Sum(Values(s.Inputs()))
    ensures Total(Settle(notes, PsiSet(s.Inputs()), s.change, changePsi, owner))
         == Total(notes) + s.change - CarriedTotal(notes, s.Inputs())
    ensures CarriedTotal(notes, s.Inputs()) <= s.total
    ensures CarriedTotal(notes, s.Inputs()) == s.total <==> !Misses(notes, PsiSet(s.Inputs()))
  {
    SettledTotal(notes, PsiSet(s.Inputs()), s.change, changePsi, owner);
    if s.second.None? {
      assert s.Inputs() == [s.first] && s.first in multiset(s.Inputs());
      CarriedTotals(notes, s.first, s.first);
      PsisOfOne(s.first);
      RemoveInput(notes, pendingPsis, owner, s.first);
    } else {
      var b := s.second.value;
      assert s.Inputs() == [s.first, b];
      CarriedTotals(notes, s.first, b);
      PsisOfTwo(s.first, b);
      MissesOneOf(notes, s.first, b);
      RemovePairTotals(notes, pendingPsis, owner, s.first, b);
    }
  }

  /** Conservation: a settled transfer lowers the stored total by exactly the amount, change included, exactly when
      no note without psi is spent. Such a note stays stored. */
  lemma TransferConservesIff(notes: seq<StoredNote>, amount: int, s: Selected, changePsi: string, pendingPsis: set<string>,
                             owner: string)
    requires UniquePsis(notes)
    requires multiset(s.Inputs()) <= multiset(Spendable(notes, pendingPsis, owner))
    requires s.total == Sum(Values(s.Inputs())) && s.total - amount == s.change
    ensures var after := Total(Settle(notes, PsiSet(s.Inputs()), s.change, changePsi, owner));
            after >= Total(notes) - amount && (after == Total(notes) - amount <==> !Misses(notes, PsiSet(s.Inputs())))
  {
    SettledBy(notes, s, changePsi, pendingPsis, owner);
  }

  /** A wallet of one note without psi, spent whole: its total stays what it was. */
  lemma TransferWithoutPsi(owner: string, changePsi: string)
    ensures var notes, s := [StoredNote("", 5, owner, false)], Selected(Input(MissingPsi(), 5), None, 0, 5);
            && UniquePsis(notes) && Spendable(notes, {}, owner) == s.Inputs() && IsSelection(s.Inputs(), 5, Some(s))
            && Settle(notes, PsiSet(s.Inputs()), s.change, changePsi, owner) == notes && Total(notes) == 5
  {
    var note := StoredNote("", 5, owner, false);
    var notes, s := [note], Selected(Input(MissingPsi(), 5), None, 0, 5);
    assert notes[1..] == [] && notes == [note] + [];
    assert s.Inputs() == [s.first] && Values(s.Inputs()) == [5] && [5][1..] == [];
    SpendableCons(note, [], {}, owner);
    BestSumOfAll([5], 2);
    PsisOfOne(s.first);
    RemoveMissed(notes, note);
  }

  // ---- what is on offer after a transfer ----

  /** The change can be spent, and comes before what was not spent. */
  lemma ChangeIsOffered(notes: seq<StoredNote>, spent: set<string>, change: nat, changePsi: string, pendingPsis: set<string>,
                        owner: string)
    requires changePsi != "" && changePsi !in pendingPsis
    ensures Spendable(Settle(notes, spent, change, changePsi, owner), pendingPsis, owner)
         == (if change > 0 then [Input(changePsi, change)] else []) + Spendable(RemoveSpent(notes, spent), pendingPsis, owner)
  {
    SpendableCons(StoredNote(changePsi, change, owner, false), RemoveSpent(notes, spent), pendingPsis, owner);
  }

  /** What all notes on offer are worth. */
  function OfferedTotal(notes: seq<StoredNote>, pendingPsis: set<string>, owner: string): nat {
    Sum(Values(Spendable(notes, pendingPsis, owner)))
  }

  lemma SumCons(first: Input, rest: seq<Input>)
    ensures Sum(Values([first] + rest)) == first.value + Sum(Values(rest))
  {
    assert Values([first] + rest)[1..] == Values(rest);
  }

  lemma SumWithoutOne(all: seq<Input>, a: Input, rest: seq<Input>)
    requires multiset(all) == multiset{a} + multiset(rest)
    ensures Sum(Values(all)) == a.value + Sum(Values(rest))
  {
    assert multiset([a] + rest) == multiset(all);
    ValuesPermute(all, [a] + rest);
    SumPermutes(Values(all), Values([a] + rest));
    SumCons(a, rest);
  }

  lemma OfferedWithoutOne(notes: seq<StoredNote>, pendingPsis: set<string>, owner: string, a: Input)
    requires UniquePsis(notes) && a in Spendable(notes, pendingPsis, owner)
    ensures OfferedTotal(RemoveSpent(notes, {a.psi}), pendingPsis, owner) == OfferedTotal(notes, pendingPsis, owner) - CarriedValue(notes, a)
  {
    if Misses(notes, {a.psi}) {
      NoneUnderMissing(notes);
    } else {
      SpendableAfterRemoving(notes, pendingPsis, owner, a);
      SumWithoutOne(Spendable(notes, pendingPsis, owner), a, Spendable(RemoveSpent(notes, {a.psi}), pendingPsis, owner));
    }
  }

  /** With one of two inputs taken out the other is still there, and carries what it carried before. */
  lemma SecondStillOffered(notes: seq<StoredNote>, pendingPsis: set<string>, owner: string, a: Input, b: Input)
    requires UniquePsis(notes) && multiset([a, b]) <= multiset(Spendable(notes, pendingPsis, owner))
    ensures var once := RemoveSpent(notes, {a.psi});
            && UniquePsis(once) && b in Spendable(once, pendingPsis, owner) && CarriedValue(once, b) == CarriedValue(notes, b)
            && RemoveSpent(notes, {a.psi, b.psi}) == RemoveSpent(once, {b.psi})
  {
    var once := RemoveSpent(notes, {a.psi});
    BothIn(Spendable(notes, pendingPsis, owner), a, b);
    SpendableIff(notes, pendingPsis, owner, a);
    RemoveKeepsUnique(notes, {a.psi});
    RemoveInTurn(notes, {a.psi}, {b.psi});
    assert {a.psi} + {b.psi} == {a.psi, b.psi};
    RemainingMisses(notes, {a.psi}, {b.psi});
    if Misses(notes, {a.psi}) {
      NoneUnderMissing(notes);
    } else {
      SpendableAfterRemoving(notes, pendingPsis, owner, a);
      PairOf(Spendable(notes, pendingPsis, owner), a, b, multiset(Spendable(once, pendingPsis, owner)));
    }
  }

  lemma OfferedWithout(notes: seq<StoredNote>, s: Selected, pendingPsis: set<string>, owner: string)
    requires UniquePsis(notes) && multiset(s.Inputs()) <= multiset(Spendable(notes, pendingPsis, owner))
    ensures OfferedTotal(RemoveSpent(notes, PsiSet(s.Inputs())), pendingPsis, owner)
         == OfferedTotal(notes, pendingPsis, owner) - CarriedTotal(notes, s.Inputs())
  {
    if s.second.None? {
      assert s.Inputs() == [s.first] && s.first in multiset(s.Inputs());
      PsisOfOne(s.first);
      CarriedTotals(notes, s.first, s.first);
      OfferedWithoutOne(notes, pendingPsis, owner, s.first);
    } else {
      var b := s.second.value;
      assert s.Inputs() == [s.first, b];
      PsisOfTwo(s.first, b);
      CarriedTotals(notes, s.first, b);
      BothIn(Spendable(notes, pendingPsis, owner), s.first, b);
      SecondStillOffered(notes, pendingPsis, owner, s.first, b);
      OfferedWithoutOne(notes, pendingPsis, owner, s.first);
      OfferedWithoutOne(RemoveSpent(notes, {s.first.psi}), pendingPsis, owner, b);
    }
  }

  /** What can be spent falls by the amount, change included, exactly when no note without psi is spent. */
  lemma OfferFallsIff(notes: seq<StoredNote>, amount: int, s: Selected, changePsi: string, pendingPsis: set<string>, owner: string)
    requires UniquePsis(notes)
    requires multiset(s.Inputs()) <= multiset(Spendable(notes, pendingPsis, owner))
    requires s.total == Sum(Values(s.Inputs())) && s.total - amount == s.change
    requires changePsi != "" && changePsi !in pendingPsis
    ensures OfferedTotal(Settle(notes, PsiSet(s.Inputs()), s.change, changePsi, owner), pendingPsis, owner)
            == OfferedTotal(notes, pendingPsis, owner) - amount
       <==> !Misses(notes, PsiSet(s.Inputs()))
  {
    var kept := RemoveSpent(notes, PsiSet(s.Inputs()));
    SettledBy(notes, s, changePsi, pendingPsis, owner);
    OfferedWithout(notes, s, pendingPsis, owner);
    ChangeIsOffered(notes, PsiSet(s.Inputs()), s.change, changePsi, pendingPsis, owner);
    SumCons(Input(changePsi, s.change), Spendable(kept, pendingPsis, owner));
  }
}
