/** The wallet as it changes: one transfer, one merge, and the loops that merge until a transfer is possible or
    a single note is left. */
module TransferService {
  import opened Wrappers
  import opened Sequences
  import opened NoteSelection
  import opened Selection
  import opened Wallet
  import opened Consolidation
  import opened Rounds

  class PlayerWallet {
    const owner: string
    var notes: seq<StoredNote>
    var pending: seq<PendingTransfer>

    constructor (owner: string, notes: seq<StoredNote>)
      ensures this.owner == owner && this.notes == notes && pending == []
    {
      this.owner, this.notes, pending := owner, notes, [];
    }

    method MarkNotesPending(psis: seq<string>, now: int)
      modifies `pending
      ensures pending == Marked(old(pending), psis, now)
      ensures forall p :: p in pending <==> (p in old(pending) && now - p.timestamp < 300_000) || p == PendingTransfer(psis, now)
    {
      var active := Active(pending, now);
      active := active + [PendingTransfer(psis, now)];
      pending := active;
    }

    method ClearPendingNotes(psis: seq<string>, now: int)
      modifies `pending
      ensures pending == Cleared(old(pending), psis, now)
      ensures forall p :: p in pending <==> p in old(pending) && now - p.timestamp < 300_000 && forall psi <- psis :: psi !in p.psis
    {
      var active := Active(pending, now);
      pending := Untouched(active, psis);
    }

    /** The notes that can be spent while the given psis are pending, in the order in which they are stored. */
    method NotesNotPending(pendingPsis: set<string>) returns (r: seq<Input>)
      ensures r == Spendable(notes, pendingPsis, owner)
    {
      r := [];
      for i := 0 to |notes|
        invariant r + Spendable(notes[i..], pendingPsis, owner) == Spendable(notes, pendingPsis, owner)
      {
        SpendableFrom(notes, pendingPsis, owner, i);
        Regroup(r, Own(notes[i], pendingPsis, owner), Spendable(notes[i + 1..], pendingPsis, owner));
        if IsSpendable(notes[i], pendingPsis, owner) {
          r := r + [AsInput(notes[i])];
        }
      }
    }

    /** The notes that can be spent now, each under its own psi or, without one, under the 64 zeros. */
    method GetSpendableNotes(now: int) returns (r: seq<Input>)
      ensures r == Spendable(notes, PendingPsis(pending, now), owner)
      ensures forall x :: x in r <==> exists n <- notes :: Offers(n, PendingPsis(pending, now), owner, x)
    {
      r := NotesNotPending(PendingPsis(pending, now));
      SpendableExactly(notes, PendingPsis(pending, now), owner);
    }

    /** Takes the spent notes out of the store and puts the change, if any, in front. */
    method ReplaceSpent(spent: seq<Input>, change: nat, changePsi: string)
      modifies `notes
      ensures notes == Settle(old(notes), PsiSet(spent), change, changePsi, owner)
    {
      var updated := RemoveSpent(notes, PsiSet(spent));
      if change > 0 {
        updated := [StoredNote(changePsi, change, owner, false)] + updated;
      }
      notes := updated;
    }

    /** Spends the selected notes: marks them and, when everything goes through, replaces them by the change; every exit
        clears the marks. */
    method SpendSelected(s: Selected, attempt: Attempt)
      modifies this
      ensures Spent(old(notes), old(pending), s, attempt, owner, notes, pending)
    {
      var spent := s.Inputs();
      MarkNotesPending(Psis(spent), attempt.markedAt);
      if attempt.succeeds {
        ReplaceSpent(spent, s.change, attempt.changePsi);
      }
      ClearPendingNotes(Psis(spent), attempt.clearedAt);
    }

    /** Selects notes and spends them. A transfer that throws leaves the notes as they were. */
    method ExecuteTransfer(recipient: string, amount: int, available: seq<Input>, attempt: Attempt)
      returns (r: Result<StoredNote, string>, ghost selection: Option<Selected>)
      modifies this
      ensures IsSelection(Positive(available), amount, selection)
      ensures r == if selection.None? then Err("Insufficient balance")
                   else if attempt.succeeds then Ok(TransferNote(attempt, amount, recipient))
                   else Err("transfer failed")
      ensures if selection.Some? then Spent(old(notes), old(pending), selection.value, attempt, owner, notes, pending)
              else notes == old(notes) && pending == old(pending)
    {
      var found := SelectNotes(available, amount);
      selection := found;
      if found.None? {
        return Err("Insufficient balance"), selection;
      }
      SpendSelected(found.value, attempt);
      r := if attempt.succeeds then Ok(TransferNote(attempt, amount, recipient)) else Err("transfer failed");
    }

    /** A transfer to oneself of all that two notes hold: both are spent and nothing is left over. */
    method TransferPair(a: Input, b: Input, attempt: Attempt) returns (r: Result<StoredNote, string>, ghost spent: Selected)
      requires a.value > 0 && b.value > 0
      modifies this
      ensures spent.change == 0 && PsiSet(spent.Inputs()) == {a.psi, b.psi}
      ensures r == if attempt.succeeds then Ok(TransferNote(attempt, a.value + b.value, owner)) else Err("transfer failed")
      ensures Spent(old(notes), old(pending), spent, attempt, owner, notes, pending)
    {
      var inputs, amount := [a, b], a.value + b.value;
      ghost var selection;
      r, selection := ExecuteTransfer(owner, amount, inputs, attempt);
      spent := BothSpent(a, b, inputs, amount, selection);
    }

    /** Sends two notes to oneself as one. */
    method ExecuteConsolidation(a: Input, b: Input, attempt: Attempt) returns (ok: bool)
      requires a.value > 0 && b.value > 0
      modifies this
      ensures ok <==> attempt.succeeds
      ensures notes == if ok then Merged(old(notes), a, b, attempt.notePsi, owner) else old(notes)
      ensures forall p <- pending :: p in old(pending)
    {
      ghost var spent;
      var r;
      r, spent := TransferPair(a, b, attempt);
      OnlyOlderPending(old(notes), old(pending), spent, attempt, owner, notes, pending);
      if r.Err? {
        return false;
      }
      PairTransferred(old(notes), old(pending), a, b, attempt, owner, spent, r.value, notes, pending);
      notes := [r.value] + notes;
      return true;
    }

    ghost function Now(current: seq<Input>): Stage
      reads this
    {
      Stage(notes, pending, current)
    }

    /** One round of merging: the two notes become one and the wallet is read again. */
    method MergeRound(pair: (Input, Input), current: seq<Input>, attempt: Attempt)
      returns (ok: bool, reloaded: seq<Input>, ghost step: Round)
      requires IsLargestPair(Positive(current), pair.0, pair.1)
      modifies this
      ensures ok <==> attempt.succeeds
      ensures ok ==> IsRound(step, owner, attempt) && step.before == old(Now(current)) && step.after == Now(reloaded)
      ensures !ok ==> notes == old(notes) && forall p <- pending :: p in old(pending)
    {
      ghost var before, i, j := Now(current), 0, 0;
      i, j := TwoPositions(Positive(current), pair.0, pair.1);
      ok := ExecuteConsolidation(pair.0, pair.1, attempt);
      reloaded := [];
      if ok {
        reloaded := GetSpendableNotes(attempt.reloadedAt);
      }
      step := Round(before, pair.0, pair.1, Now(reloaded));
    }

    /** ... and the run of rounds goes on with it. */
    method NextRound(pair: (Input, Input), current: seq<Input>, env: nat -> Attempt, rounds: nat, ghost run: Run)
      returns (ok: bool, reloaded: seq<Input>, ghost longer: Run)
      requires IsRun(owner, env, run) && Now(current) == Reached(run) && rounds == Length(run)
      requires IsLargestPair(Positive(current), pair.0, pair.1)
      modifies this
      ensures ok <==> env(rounds).succeeds
      ensures ok ==> IsRun(owner, env, longer) && First(longer) == First(run) && Length(longer) == rounds + 1
      ensures ok ==> Now(reloaded) == Reached(longer)
      ensures ok ==> forall amount :: AllNeeded(longer, amount) <==> AllNeeded(run, amount) && IsNeeded(Positive(current), amount)
      ensures !ok ==> notes == old(notes) && forall p <- pending :: p in old(pending)
    {
      ghost var step;
      ok, reloaded, step := MergeRound(pair, current, env(rounds));
      longer := run;
      if ok {
        longer := OneMoreRound(owner, env, run, step, rounds);
      }
    }

    /** The transfer once no merge is needed any more. */
    method FinalTransfer(recipient: string, amount: int, current: seq<Input>, env: nat -> Attempt, rounds: nat, maxRounds: nat,
                         ghost start: Stage, ghost run: Run)
      returns (r: Result<StoredNote, string>)
      requires IsRun(owner, env, run) && First(run) == start && Now(current) == Reached(run) && rounds == Length(run)
      requires AllNeeded(run, amount) && !IsNeeded(Positive(current), amount)
      modifies this
      ensures TransferEnded(owner, env, start, amount, maxRounds, notes, pending, Some(r.Ok?), rounds)
      ensures r.Ok? ==> r.value == TransferNote(env(rounds), amount, recipient)
    {
      ghost var selection;
      r, selection := ExecuteTransfer(recipient, amount, current, env(rounds));
      Transferred(owner, env, start, run, amount, maxRounds, selection, r.Ok?, notes, pending, rounds);
    }

    /** The transfer when merging is still reported as needed but there are no two notes to merge. */
    method TransferUnmerged(recipient: string, amount: int, current: seq<Input>, env: nat -> Attempt, rounds: nat, maxRounds: nat,
                            ghost start: Stage, ghost run: Run)
      returns (r: Result<StoredNote, string>, made: nat)
      requires IsRun(owner, env, run) && First(run) == start && Now(current) == Reached(run) && rounds == Length(run)
      requires AllNeeded(run, amount) && IsNeeded(Positive(current), amount) && |Positive(current)| < 2
      modifies this
      ensures TransferEnded(owner, env, start, amount, maxRounds, notes, pending, Some(r.Ok?), made)
      ensures made == rounds + 1 && (r.Ok? ==> r.value == TransferNote(env(made), amount, recipient))
    {
      ghost var selection;
      made := rounds + 1;
      r, selection := ExecuteTransfer(recipient, amount, current, env(made));
      NothingMerged(owner, env, start, run, amount, maxRounds, selection, r.Ok?, notes, pending, made);
    }

    /** Merges the two largest notes as long as two notes do not cover the amount but all together do. */
    method MergeWhileNeeded(amount: int, available: seq<Input>, env: nat -> Attempt, maxRounds: nat)
      returns (stop: Stop, current: seq<Input>, ghost run: Run)
      modifies this
      ensures IsRun(owner, env, run) && First(run) == old(Now(available)) && AllNeeded(run, amount)
      ensures notes == Reached(run).notes && current == Reached(run).current
      ensures Stopped(stop, Reached(run), pending, amount, env(Length(run)), maxRounds, Length(run))
    {
      run := Start(Now(available));
      current := available;
      var rounds: nat := 0;
      var needed := NeedsConsolidation(current, amount);
      while needed
        invariant rounds == Length(run) <= maxRounds
        invariant IsRun(owner, env, run) && First(run) == old(Now(available)) && Now(current) == Reached(run)
        invariant AllNeeded(run, amount)
        invariant needed <==> IsNeeded(Positive(current), amount)
        decreases maxRounds - rounds
      {
        var pair := NotesForConsolidation(current);
        if pair.None? {
          return NoPair(rounds), current, run;
        }
        if rounds == maxRounds {
          return OutOfRounds, current, run;
        }
        var ok, reloaded;
        ghost var longer;
        ok, reloaded, longer := NextRound(pair.value, current, env, rounds, run);
        if !ok {
          return Threw(rounds), current, run;
        }
        run := longer;
        current, rounds := reloaded, rounds + 1;
        needed := NeedsConsolidation(current, amount);
      }
      stop := Covered(rounds);
    }

    /** Merges as long as needed, then transfers. Nothing comes out if that is not done after `maxRounds` rounds. */
    method ExecuteTransferWithConsolidation(recipient: string, amount: int, available: seq<Input>, env: nat -> Attempt,
                                            maxRounds: nat)
      returns (r: Option<Result<StoredNote, string>>, rounds: nat, ghost done: Option<bool>)
      modifies this
      ensures done == if r.Some? then Some(r.value.Ok?) else None
      ensures TransferEnded(owner, env, old(Now(available)), amount, maxRounds, notes, pending, done, rounds)
      ensures r.Some? && r.value.Ok? ==> exists k: nat :: r.value.value == TransferNote(env(k), amount, recipient)
    {
      ghost var start, run := Now(available), Start(Now(available));
      var stop, current;
      stop, current, run := MergeWhileNeeded(amount, available, env, maxRounds);
      match stop {
        case Covered(made) =>
          rounds := made;
          var last := FinalTransfer(recipient, amount, current, env, made, maxRounds, start, run);
          r, done := Some(last), Some(last.Ok?);
        case NoPair(made) =>
          var last;
          last, rounds := TransferUnmerged(recipient, amount, current, env, made, maxRounds, start, run);
          r, done := Some(last), Some(last.Ok?);
        case Threw(made) =>
          rounds := made + 1;
          MergeThrew(owner, env, start, run, amount, maxRounds, notes, pending, rounds);
          r, done := Some(Err("consolidation failed")), Some(false);
        case OutOfRounds =>
          rounds := maxRounds;
          GivenUp(owner, env, start, run, amount, maxRounds, notes, pending);
          r, done := None, None;
      }
    }

    /** Merges the two largest notes until one is left. */
    method MergeWhileTwo(available: seq<Input>, env: nat -> Attempt, maxRounds: nat)
      returns (stop: Stop, current: seq<Input>, ghost run: Run)
      modifies this
      ensures IsRun(owner, env, run) && First(run) == old(Now(available))
      ensures notes == Reached(run).notes && current == Reached(run).current
      ensures StoppedAtOne(stop, Reached(run), pending, env(Length(run)), maxRounds, Length(run))
    {
      run := Start(Now(available));
      current := available;
      var rounds: nat := 0;
      while |current| >= 2
        invariant rounds == Length(run) <= maxRounds
        invariant IsRun(owner, env, run) && First(run) == old(Now(available)) && Now(current) == Reached(run)
        decreases maxRounds - rounds
      {
        var pair := NotesForConsolidation(current);
        if pair.None? {
          return NoPair(rounds), current, run;
        }
        if rounds == maxRounds {
          return OutOfRounds, current, run;
        }
        var ok, reloaded;
        ghost var longer;
        ok, reloaded, longer := NextRound(pair.value, current, env, rounds, run);
        if !ok {
          return Threw(rounds), current, run;
        }
        run := longer;
        current, rounds := reloaded, rounds + 1;
      }
      stop := Covered(rounds);
    }

    /** Merges everything and counts the rounds, the one that finds no two notes to merge included. Nothing comes out if
        that is not done after `maxRounds` rounds. */
    method ConsolidateAll(available: seq<Input>, env: nat -> Attempt, maxRounds: nat) returns (r: Option<Result<nat, string>>)
      modifies this
      ensures AllMergedEnded(owner, env, old(Now(available)), maxRounds, notes, pending, r)
    {
      ghost var start, run := Now(available), Start(Now(available));
      var stop, current;
      stop, current, run := MergeWhileTwo(available, env, maxRounds);
      match stop {
        case Covered(made) =>
          AllMergedDone(owner, env, start, run, maxRounds, notes, pending, made);
          r := Some(Ok(made));
        case NoPair(made) =>
          var counted := made + 1;
          AllMergedDone(owner, env, start, run, maxRounds, notes, pending, counted);
          r := Some(Ok(counted));
        case Threw(_) =>
          AllMergedThrew(owner, env, start, run, maxRounds, notes, pending, "consolidation failed");
          r := Some(Err("consolidation failed"));
        case OutOfRounds =>
          AllMergedGivenUp(owner, env, start, run, maxRounds, notes, pending);
          r := None;
      }
    }
  }
}
