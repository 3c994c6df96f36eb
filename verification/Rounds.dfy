/** Whole runs of merging rounds, and what the loops over them come to. */
module Rounds {
  import opened Wrappers
  import opened NoteSelection
  import opened Selection
  import opened Wallet
  import opened Consolidation

  /** The wallet at the start of a round, and what was on offer when it was last read. */
  datatype Stage = Stage(notes: seq<StoredNote>, pending: seq<PendingTransfer>, current: seq<Input>)

  datatype Round = Round(before: Stage, a: Input, b: Input, after: Stage)

  /** A successful merge of the two largest notes on offer, and the wallet read again. */
  ghost predicate IsRound(r: Round, owner: string, attempt: Attempt) {
    && attempt.succeeds
    && IsLargestPair(Positive(r.before.current), r.a, r.b)
    && r.after.notes == Merged(r.before.notes, r.a, r.b, attempt.notePsi, owner)
    && (forall p <- r.after.pending :: p in r.before.pending)
    && r.after.current == Spendable(r.after.notes, PendingPsis(r.after.pending, attempt.reloadedAt), owner)
  }

  datatype Run = Start(stage: Stage) | Then(earlier: Run, round: Round)

  function Length(run: Run): nat {
    match run
    case Start(_) => 0
    case Then(earlier, _) => Length(earlier) + 1
  }

  function First(run: Run): Stage {
    match run
    case Start(stage) => stage
    case Then(earlier, _) => First(earlier)
  }

  function Reached(run: Run): Stage {
    match run
    case Start(stage) => stage
    case Then(_, round) => round.after
  }

  /** Each round starts where the one before it ended and is the attempt of its number. */
  ghost predicate IsRun(owner: string, env: nat -> Attempt, run: Run) {
    match run
    case Start(_) => true
    case Then(earlier, round) =>
      IsRun(owner, env, earlier) && round.before == Reached(earlier) && IsRound(round, owner, env(Length(earlier)))
  }

  lemma OneMoreRound(owner: string, env: nat -> Attempt, run: Run, round: Round, n: nat) returns (longer: Run)
    requires IsRun(owner, env, run) && n == Length(run)
    requires round.before == Reached(run) && IsRound(round, owner, env(n))
    ensures longer == Then(run, round) && IsRun(owner, env, longer)
    ensures First(longer) == First(run) && Reached(longer) == round.after && Length(longer) == n + 1
  {
    longer := Then(run, round);
  }

  /** Every round was made because the amount asked for it. */
  ghost predicate AllNeeded(run: Run, amount: int) {
    match run
    case Start(_) => true
    case Then(earlier, round) => AllNeeded(earlier, amount) && IsNeeded(Positive(round.before.current), amount)
  }

  // ---- what a run keeps ----

  ghost predicate ReadyAt(s: Stage, owner: string, env: nat -> Attempt, n: nat) {
    Ready(s.notes, s.pending, owner, s.current, env, n)
  }

  ghost predicate SettledAt(s: Stage, owner: string, env: nat -> Attempt, n: nat) {
    Settled(s.notes, s.pending, owner, s.current, env, n)
  }

  ghost predicate MergingAt(start: Stage, s: Stage, owner: string, env: nat -> Attempt, n: nat) {
    Merging(start.notes, s.notes, s.pending, owner, start.current, s.current, env, n)
  }

  lemma RoundIsReady(r: Round, owner: string, env: nat -> Attempt, n: nat, next: nat)
    requires IsRound(r, owner, env(n)) && ReadyAt(r.before, owner, env, n) && next == n + 1
    ensures Positive(r.before.current) == r.before.current
    ensures ReadyAt(r.after, owner, env, next) && r.after.current == Spendable(r.after.notes, {}, owner)
  {
    PositiveSpendable(r.before.notes, {}, owner);
    OfferedPsis(r.before.notes, owner, r.a, r.b);
    RoundKeepsReady(r.before.notes, r.before.pending, owner, r.before.current, env, n, r.a, r.b, r.after.pending);
    IdleSpendable(r.after.notes, r.after.pending, owner, env(n).reloadedAt);
  }

  lemma {:induction false} RunIsReady(owner: string, env: nat -> Attempt, run: Run)
    requires IsRun(owner, env, run) && ReadyAt(First(run), owner, env, 0)
    ensures ReadyAt(Reached(run), owner, env, Length(run))
  {
    match run
    case Start(_) =>
    case Then(earlier, round) =>
      RunIsReady(owner, env, earlier);
      RoundIsReady(round, owner, env, Length(earlier), Length(run));
  }

  lemma RoundMerges(start: Stage, r: Round, owner: string, env: nat -> Attempt, n: nat, next: nat)
    requires IsRound(r, owner, env(n)) && MergingAt(start, r.before, owner, env, n) && next == n + 1
    ensures MergingAt(start, r.after, owner, env, next)
    ensures r.before.current == Positive(r.before.current)
    ensures |r.after.current| + 1 == |r.before.current| && |r.before.current| >= 2
  {
    OfferedPsis(r.before.notes, owner, r.a, r.b);
    MergingStep(start.notes, r.before.notes, r.before.pending, owner, start.current, r.before.current, env, n, r.a, r.b,
                r.after.pending, env(n).reloadedAt);
    var i, j := TwoPositions(r.before.current, r.a, r.b);
  }

  lemma {:induction false} RunMerges(owner: string, env: nat -> Attempt, run: Run)
    requires IsRun(owner, env, run) && SettledAt(First(run), owner, env, 0)
    ensures MergingAt(First(run), Reached(run), owner, env, Length(run))
    ensures run.Then? ==> Reached(run).current != []
  {
    match run
    case Start(stage) => MergingStart(stage.notes, stage.pending, owner, stage.current, env);
    case Then(earlier, round) =>
      RunMerges(owner, env, earlier);
      RoundMerges(First(run), round, owner, env, Length(earlier), Length(run));
  }

  lemma RunProgress(owner: string, env: nat -> Attempt, run: Run)
    requires IsRun(owner, env, run) && SettledAt(First(run), owner, env, 0)
    ensures Progress(Values(First(run).current), Values(Reached(run).current), Length(run))
    ensures Positive(Reached(run).current) == Reached(run).current
  {
    RunMerges(owner, env, run);
  }

  lemma RunTowards(owner: string, env: nat -> Attempt, run: Run, amount: int)
    requires IsRun(owner, env, run) && AllNeeded(run, amount) && SettledAt(First(run), owner, env, 0)
    ensures Towards(Values(First(run).current), Values(Reached(run).current), amount, Length(run))
  {
    if run.Then? {
      var r := run.round;
      RunProgress(owner, env, run.earlier);
      RunProgress(owner, env, run);
      var i, j := TwoPositions(Positive(r.before.current), r.a, r.b);
      TowardsStep(Values(First(run).current), Values(r.before.current), Values(r.after.current), amount,
                  Length(run.earlier), Length(run));
    }
  }

  /** What was pending when the wallet was last read. */
  function Blocked(env: nat -> Attempt, run: Run): set<string>
    requires run.Then?
  {
    PendingPsis(run.round.after.pending, env(Length(run.earlier)).reloadedAt)
  }

  /** The stored notes bound the number of rounds if all of those that can be spent carry psis. */
  lemma {:induction false} RunShrinks(owner: string, env: nat -> Attempt, run: Run)
    requires IsRun(owner, env, run)
    requires CarriesPsis(First(run).notes, owner) && RandomPsis(env)
    ensures CarriesPsis(Reached(run).notes, owner)
    ensures |Reached(run).notes| + Length(run) <= |First(run).notes| + if run.Start? then 0 else 2
  {
    match run
    case Start(_) =>
    case Then(earlier, r) =>
      RunShrinks(owner, env, earlier);
      MergedCarries(r.before.notes, owner, r.a, r.b, env(Length(earlier)).notePsi);
      if earlier.Then? {
        PositiveSpendable(r.before.notes, Blocked(env, earlier), owner);
        RemovalShrinks(r.before.notes, Blocked(env, earlier), owner, r.a, r.b);
      }
  }

  lemma RoundGainsAt(r: Round, owner: string, env: nat -> Attempt, n: nat, amount: int)
    requires IsRound(r, owner, env(n)) && ReadyAt(r.before, owner, env, n)
    requires IsNeeded(Positive(r.before.current), amount)
    ensures IsNeeded(Positive(r.after.current), amount) ==>
              BestSum(Values(r.after.current), 2) > BestSum(Values(r.before.current), 2)
  {
    RoundIsReady(r, owner, env, n, n + 1);
    PositiveSpendable(r.after.notes, {}, owner);
    assert IsNew(env(n).notePsi, r.before.notes, r.before.pending);
    RoundGains(r.before.notes, owner, r.a, r.b, amount, env(n).notePsi);
  }

  /** The amount bounds the number of rounds made towards it, whether notes carry psis or not. */
  lemma {:induction false} RunGains(owner: string, env: nat -> Attempt, run: Run, amount: int)
    requires IsRun(owner, env, run) && AllNeeded(run, amount) && ReadyAt(First(run), owner, env, 0)
    ensures IsNeeded(Positive(Reached(run).current), amount) ==> BestSum(Values(Reached(run).current), 2) >= Length(run)
  {
    match run
    case Start(_) =>
    case Then(earlier, round) =>
      RunGains(owner, env, earlier, amount);
      RunIsReady(owner, env, earlier);
      RoundGainsAt(round, owner, env, Length(earlier), amount);
  }

  /** With a spendable note without psi there are always two notes left to merge. */
  lemma {:induction false} RunNeverEnds(owner: string, env: nat -> Attempt, run: Run)
    requires IsRun(owner, env, run) && ReadyAt(First(run), owner, env, 0)
    requires !CarriesPsis(First(run).notes, owner) && |First(run).current| >= 2
    ensures !CarriesPsis(Reached(run).notes, owner) && |Reached(run).current| >= 2
  {
    match run
    case Start(_) =>
    case Then(earlier, r) =>
      RunNeverEnds(owner, env, earlier);
      RunIsReady(owner, env, earlier);
      RoundIsReady(r, owner, env, Length(earlier), Length(run));
      assert IsNew(env(Length(earlier)).notePsi, r.before.notes, r.before.pending);
      OfferedPsis(r.before.notes, owner, r.a, r.b);
      RoundWithoutPsi(r.before.notes, owner, r.a, r.b, env(Length(earlier)).notePsi);
  }

  /** From any ready stage with two notes on offer a merge that succeeds leads on. */
  lemma RoundFrom(s: Stage, owner: string, env: nat -> Attempt, n: nat) returns (r: Round)
    requires ReadyAt(s, owner, env, n) && |s.current| >= 2 && env(n).succeeds
    ensures r.before == s && IsRound(r, owner, env(n))
  {
    PositiveSpendable(s.notes, {}, owner);
    var sorted := SortBy(s.current, Descending);
    SortBySorts(s.current, Descending);
    assert |sorted| == |multiset(sorted)| == |s.current|;
    LargestFirst(s.current, sorted);
    var merged := Merged(s.notes, sorted[0], sorted[1], env(n).notePsi, owner);
    r := Round(s, sorted[0], sorted[1],
               Stage(merged, s.pending, Spendable(merged, PendingPsis(s.pending, env(n).reloadedAt), owner)));
  }

  function StartWithoutPsi(owner: string): Stage {
    Stage(TwoWithoutPsi(owner), [], Spendable(TwoWithoutPsi(owner), {}, owner))
  }

  /** Two notes without psi and merges that all succeed: for every number of rounds there is a run of that many, and
      after it there are two notes to merge again. */
  lemma {:induction false} EndlessRun(owner: string, n: nat) returns (run: Run)
    ensures First(run) == StartWithoutPsi(owner) && IsRun(owner, AllSucceed(), run) && Length(run) == n
    ensures |Reached(run).current| >= 2
  {
    TwoWithoutPsiAreReady(owner);
    run := Start(StartWithoutPsi(owner));
    if n > 0 {
      var earlier := EndlessRun(owner, n - 1);
      RunIsReady(owner, AllSucceed(), earlier);
      var next := RoundFrom(Reached(earlier), owner, AllSucceed(), Length(earlier));
      run := Then(earlier, next);
      RunNeverEnds(owner, AllSucceed(), run);
    }
  }

  // ---- the books of any wallet, other transfers under way or not ----

  /** What is on offer was read from the store, whatever was pending then. */
  ghost predicate Offered(s: Stage, owner: string) {
    exists blocked: set<string> :: s.current == Spendable(s.notes, blocked, owner)
  }

  /** A wallet at any time: unique psis, and random ones to come that are not stored. Nothing is asked of the records of
      other transfers. */
  ghost predicate OpenAt(s: Stage, owner: string, env: nat -> Attempt, n: nat) {
    UniquePsis(s.notes) && Offered(s, owner) && FreshFrom(env, n, s.notes, [])
  }

  /** No round merges a note without psi. */
  predicate NoneMissedIn(run: Run) {
    match run
    case Start(_) => true
    case Then(earlier, r) => NoneMissedIn(earlier) && !Misses(r.before.notes, {r.a.psi, r.b.psi})
  }

  lemma PairOffered(s: Stage, owner: string, a: Input, b: Input) returns (blocked: set<string>)
    requires Offered(s, owner) && IsLargestPair(Positive(s.current), a, b)
    ensures multiset([a, b]) <= multiset(Spendable(s.notes, blocked, owner))
    ensures a.value > 0 && b.value > 0
  {
    blocked :| s.current == Spendable(s.notes, blocked, owner);
    PositiveSpendable(s.notes, blocked, owner);
    BothIn(s.current, a, b);
    SpendableIff(s.notes, blocked, owner, a);
    SpendableIff(s.notes, blocked, owner, b);
  }

  lemma RoundTotals(r: Round, owner: string, env: nat -> Attempt, n: nat, next: nat)
    requires IsRound(r, owner, env(n)) && OpenAt(r.before, owner, env, n) && next == n + 1
    ensures OpenAt(r.after, owner, env, next)
    ensures Total(r.after.notes) >= Total(r.before.notes)
    ensures Total(r.after.notes) == Total(r.before.notes) <==> !Misses(r.before.notes, {r.a.psi, r.b.psi})
  {
    var blocked := PairOffered(r.before, owner, r.a, r.b);
    assert IsNew(env(n).notePsi, r.before.notes, []);
    MergeConservesIff(r.before.notes, [], blocked, owner, r.a, r.b, env(n).notePsi);
    MergedKeepsUnique(r.before.notes, [], r.a, r.b, env(n).notePsi, owner);
    StillFresh(r.before.notes, [], owner, env, n, next, r.a, r.b, []);
  }

  /** Rounds of merging never lower the stored total, and keep it exactly when no merged note lacks a psi, whatever records
      of other transfers are pending or expire meanwhile. */
  lemma {:induction false} RunTotalsIff(owner: string, env: nat -> Attempt, run: Run)
    requires IsRun(owner, env, run) && OpenAt(First(run), owner, env, 0)
    ensures OpenAt(Reached(run), owner, env, Length(run))
    ensures Total(Reached(run).notes) >= Total(First(run).notes)
    ensures Total(Reached(run).notes) == Total(First(run).notes) <==> NoneMissedIn(run)
  {
    match run
    case Start(_) =>
    case Then(earlier, r) =>
      RunTotalsIff(owner, env, earlier);
      RoundTotals(r, owner, env, Length(earlier), Length(run));
  }

  lemma RoundCarries(r: Round, owner: string, attempt: Attempt)
    requires IsRound(r, owner, attempt) && UniquePsis(r.before.notes) && Offered(r.before, owner)
    requires CarriesPsis(r.before.notes, owner) && attempt.notePsi != ""
    ensures CarriesPsis(r.after.notes, owner) && !Misses(r.before.notes, {r.a.psi, r.b.psi})
  {
    var blocked := PairOffered(r.before, owner, r.a, r.b);
    NeitherMissed(r.before.notes, blocked, owner, r.a, r.b);
    MergedCarries(r.before.notes, owner, r.a, r.b, attempt.notePsi);
  }

  lemma {:induction false} CarriersNeverMissed(owner: string, env: nat -> Attempt, run: Run)
    requires IsRun(owner, env, run) && OpenAt(First(run), owner, env, 0) && CarriesPsis(First(run).notes, owner)
    ensures CarriesPsis(Reached(run).notes, owner) && NoneMissedIn(run)
  {
    match run
    case Start(_) =>
    case Then(earlier, r) =>
      CarriersNeverMissed(owner, env, earlier);
      RunTotalsIff(owner, env, earlier);
      assert IsNew(env(Length(earlier)).notePsi, r.before.notes, []);
      RoundCarries(r, owner, env(Length(earlier)));
  }

  /** The books: at least what there was less what was sent, and exactly that if every spendable note carries a psi. */
  ghost predicate Booked(start: Stage, owner: string, env: nat -> Attempt, notes: seq<StoredNote>, sent: int) {
    OpenAt(start, owner, env, 0) ==>
      && UniquePsis(notes) && Total(notes) >= Total(start.notes) - sent
      && (CarriesPsis(start.notes, owner) ==> Total(notes) == Total(start.notes) - sent)
  }

  lemma RunBooked(owner: string, env: nat -> Attempt, run: Run)
    requires IsRun(owner, env, run)
    ensures Booked(First(run), owner, env, Reached(run).notes, 0)
  {
    if OpenAt(First(run), owner, env, 0) {
      RunTotalsIff(owner, env, run);
      if CarriesPsis(First(run).notes, owner) {
        CarriersNeverMissed(owner, env, run);
      }
    }
  }

  lemma SettledTotals(s: Stage, owner: string, amount: int, selected: Selected, changePsi: string)
    requires UniquePsis(s.notes) && Offered(s, owner) && IsNew(changePsi, s.notes, [])
    requires IsSelection(Positive(s.current), amount, Some(selected))
    ensures var after := Settle(s.notes, PsiSet(selected.Inputs()), selected.change, changePsi, owner);
            && UniquePsis(after) && Total(after) >= Total(s.notes) - amount
            && (CarriesPsis(s.notes, owner) ==> Total(after) == Total(s.notes) - amount)
  {
    var blocked :| s.current == Spendable(s.notes, blocked, owner);
    PositiveSpendable(s.notes, blocked, owner);
    TransferConservesIff(s.notes, amount, selected, changePsi, blocked, owner);
    SettleKeepsUnique(s.notes, [], selected, changePsi, owner, []);
    if CarriesPsis(s.notes, owner) {
      assert forall x <- selected.Inputs() :: x in multiset(selected.Inputs());
      NoneMissed(s.notes, blocked, owner, selected.Inputs());
    }
  }

  lemma TransferBooked(owner: string, env: nat -> Attempt, run: Run, amount: int, selected: Selected, n: nat)
    requires IsRun(owner, env, run) && n == Length(run)
    requires IsSelection(Positive(Reached(run).current), amount, Some(selected))
    ensures Booked(First(run), owner, env,
                   Settle(Reached(run).notes, PsiSet(selected.Inputs()), selected.change, env(n).changePsi, owner), amount)
  {
    if OpenAt(First(run), owner, env, 0) {
      RunTotalsIff(owner, env, run);
      assert IsNew(env(n).changePsi, Reached(run).notes, []);
      SettledTotals(Reached(run), owner, amount, selected, env(n).changePsi);
      if CarriesPsis(First(run).notes, owner) {
        CarriersNeverMissed(owner, env, run);
      }
    }
  }

  // ---- how the loops end ----

  /** Why merging stops, and after how many rounds: there is enough, or no two notes are left, or a merge failed. */
  datatype Stop = Covered(made: nat) | NoPair(made: nat) | Threw(made: nat) | OutOfRounds

  ghost predicate Stopped(stop: Stop, s: Stage, pending: seq<PendingTransfer>, amount: int, next: Attempt, maxRounds: nat,
                          made: nat) {
    && (stop.Threw? || pending == s.pending)
    && (!stop.Covered? <==> IsNeeded(Positive(s.current), amount))
    && (stop.NoPair? ==> |Positive(s.current)| < 2) && (stop.Threw? || stop.OutOfRounds? ==> |Positive(s.current)| >= 2)
    && (stop.Threw? ==> !next.succeeds && forall p <- pending :: p in s.pending)
    && made == if stop.OutOfRounds? then maxRounds else stop.made
  }

  ghost predicate StoppedAtOne(stop: Stop, s: Stage, pending: seq<PendingTransfer>, next: Attempt, maxRounds: nat, made: nat) {
    && (stop.Threw? || pending == s.pending)
    && (stop.Covered? ==> |s.current| < 2)
    && (stop.NoPair? ==> |s.current| >= 2 && |Positive(s.current)| < 2)
    && (stop.OutOfRounds? ==> |Positive(s.current)| >= 2)
    && (stop.Threw? ==> !next.succeeds && forall p <- pending :: p in s.pending)
    && made == if stop.OutOfRounds? then maxRounds else stop.made
  }

  /** What becomes of a transfer with merging, started at `start` and given up after `maxRounds` rounds: it is not
      given up if every spendable note carries a psi and there are fewer notes than rounds, nor if the wallet starts
      ready and the amount is no more than the rounds; the total changes by what was sent, other transfers under way or
      not; and in a settled wallet no round is made in vain. */
  ghost predicate TransferEnded(owner: string, env: nat -> Attempt, start: Stage, amount: int, maxRounds: nat,
                                notes: seq<StoredNote>, pending: seq<PendingTransfer>, done: Option<bool>, rounds: nat) {
    && (done.None? ==> rounds == maxRounds)
    && (CarriesPsis(start.notes, owner) && RandomPsis(env) && maxRounds > |start.notes| ==> done.Some?)
    && (ReadyAt(start, owner, env, 0) && maxRounds >= amount ==> done.Some?)
    && Booked(start, owner, env, notes, if done == Some(true) then amount else 0)
    && (SettledAt(start, owner, env, 0) ==>
          if done.Some? then Outcome(start.notes, owner, start.current, amount, env, notes, pending, done.value, rounds)
          else InOrder(start.notes, notes, pending, 0))
  }

  lemma StoredBoundsRounds(owner: string, env: nat -> Attempt, run: Run)
    requires IsRun(owner, env, run) && |Positive(Reached(run).current)| >= 2
    requires CarriesPsis(First(run).notes, owner) && RandomPsis(env)
    ensures run.Then? ==> Length(run) <= |First(run).notes|
  {
    RunShrinks(owner, env, run);
    if run.Then? {
      AtMostStored(owner, env, run);
    }
  }

  lemma AmountBoundsRounds(owner: string, env: nat -> Attempt, run: Run, amount: int)
    requires IsRun(owner, env, run) && AllNeeded(run, amount) && IsNeeded(Positive(Reached(run).current), amount)
    requires ReadyAt(First(run), owner, env, 0) && Reached(run).current != []
    ensures Length(run) < amount
  {
    RunIsReady(owner, env, run);
    RunGains(owner, env, run, amount);
    PositiveSpendable(Reached(run).notes, {}, owner);
  }

  lemma GivenUp(owner: string, env: nat -> Attempt, start: Stage, run: Run, amount: int, maxRounds: nat,
                notes: seq<StoredNote>, pending: seq<PendingTransfer>)
    requires IsRun(owner, env, run) && First(run) == start && AllNeeded(run, amount)
    requires var s := Reached(run);
             && IsNeeded(Positive(s.current), amount) && |Positive(s.current)| >= 2 && maxRounds == Length(run)
             && notes == s.notes && pending == s.pending
    ensures TransferEnded(owner, env, start, amount, maxRounds, notes, pending, None, maxRounds)
  {
    RunBooked(owner, env, run);
    if CarriesPsis(start.notes, owner) && RandomPsis(env) {
      StoredBoundsRounds(owner, env, run);
    }
    if ReadyAt(start, owner, env, 0) {
      AmountBoundsRounds(owner, env, run, amount);
    }
    if SettledAt(start, owner, env, 0) {
      RunMerges(owner, env, run);
    }
  }

  lemma AtMostStored(owner: string, env: nat -> Attempt, run: Run)
    requires IsRun(owner, env, run) && run.Then?
    ensures |Positive(Reached(run).current)| <= |Reached(run).notes|
  {
    SpendableLength(Reached(run).notes, Blocked(env, run), owner);
  }

  lemma MergeThrew(owner: string, env: nat -> Attempt, start: Stage, run: Run, amount: int, maxRounds: nat,
                   notes: seq<StoredNote>, later: seq<PendingTransfer>, made: nat)
    requires IsRun(owner, env, run) && First(run) == start && AllNeeded(run, amount) && made == Length(run) + 1
    requires var s := Reached(run);
             && IsNeeded(Positive(s.current), amount) && Positive(s.current) != []
             && notes == s.notes && forall p <- later :: p in s.pending
    requires !env(Length(run)).succeeds
    ensures TransferEnded(owner, env, start, amount, maxRounds, notes, later, Some(false), made)
  {
    RunBooked(owner, env, run);
    var s := Reached(run);
    if SettledAt(start, owner, env, 0) {
      RunMerges(owner, env, run);
      RunTowards(owner, env, run, amount);
      MergeFailed(start.notes, s.notes, s.pending, owner, start.current, s.current, amount, env, Length(run), later, made);
    }
  }

  lemma NothingMerged(owner: string, env: nat -> Attempt, start: Stage, run: Run, amount: int, maxRounds: nat,
                      selection: Option<Selected>, done: bool, notes: seq<StoredNote>, later: seq<PendingTransfer>, made: nat)
    requires IsRun(owner, env, run) && First(run) == start && AllNeeded(run, amount)
    requires var s := Reached(run);
             && IsNeeded(Positive(s.current), amount) && |Positive(s.current)| < 2
             && IsSelection(Positive(s.current), amount, selection)
             && (selection.None? ==> !done && notes == s.notes && later == s.pending)
    requires made == Length(run) + 1
    ensures TransferEnded(owner, env, start, amount, maxRounds, notes, later, Some(done), made)
  {
    RunBooked(owner, env, run);
    var s := Reached(run);
    if SettledAt(start, owner, env, 0) {
      RunMerges(owner, env, run);
      RunTowards(owner, env, run, amount);
      NothingToMerge(start.notes, s.notes, s.pending, owner, start.current, s.current, amount, env, Length(run), made);
    }
  }

  lemma AttemptBooked(owner: string, env: nat -> Attempt, run: Run, amount: int, selection: Option<Selected>, done: bool,
                      notes: seq<StoredNote>, later: seq<PendingTransfer>, made: nat)
    requires IsRun(owner, env, run) && made == Length(run)
    requires Attempted(Reached(run), amount, selection, env(made), owner, done, notes, later)
    ensures Booked(First(run), owner, env, notes, if done then amount else 0)
  {
    if done {
      TransferBooked(owner, env, run, amount, selection.value, made);
    } else {
      RunBooked(owner, env, run);
    }
  }

  lemma AttemptSettled(owner: string, env: nat -> Attempt, run: Run, amount: int, selection: Option<Selected>, done: bool,
                       notes: seq<StoredNote>, later: seq<PendingTransfer>, made: nat)
    requires IsRun(owner, env, run) && AllNeeded(run, amount) && made == Length(run)
    requires !IsNeeded(Positive(Reached(run).current), amount)
    requires Attempted(Reached(run), amount, selection, env(made), owner, done, notes, later)
    requires SettledAt(First(run), owner, env, 0)
    ensures Outcome(First(run).notes, owner, First(run).current, amount, env, notes, later, done, made)
  {
    var start, s := First(run), Reached(run);
    RunMerges(owner, env, run);
    RunTowards(owner, env, run, amount);
    if selection.Some? {
      OnlyOlderPending(s.notes, s.pending, selection.value, env(made), owner, notes, later);
    }
    TransferTried(start.notes, s.notes, s.pending, owner, start.current, s.current, amount, env, made, selection, done,
                  notes, later);
  }

  /** A transfer was tried with what was on offer. */
  ghost predicate Attempted(s: Stage, amount: int, selection: Option<Selected>, attempt: Attempt, owner: string, done: bool,
                            notes: seq<StoredNote>, later: seq<PendingTransfer>) {
    && IsSelection(Positive(s.current), amount, selection)
    && (done <==> selection.Some? && attempt.succeeds)
    && if selection.Some? then Spent(s.notes, s.pending, selection.value, attempt, owner, notes, later)
       else notes == s.notes && later == s.pending
  }

  lemma Transferred(owner: string, env: nat -> Attempt, start: Stage, run: Run, amount: int, maxRounds: nat,
                    selection: Option<Selected>, done: bool, notes: seq<StoredNote>, later: seq<PendingTransfer>, made: nat)
    requires IsRun(owner, env, run) && First(run) == start && AllNeeded(run, amount) && made == Length(run)
    requires !IsNeeded(Positive(Reached(run).current), amount)
    requires Attempted(Reached(run), amount, selection, env(made), owner, done, notes, later)
    ensures TransferEnded(owner, env, start, amount, maxRounds, notes, later, Some(done), made)
  {
    AttemptBooked(owner, env, run, amount, selection, done, notes, later, made);
    if SettledAt(start, owner, env, 0) {
      AttemptSettled(owner, env, run, amount, selection, done, notes, later, made);
    }
  }

  /** What becomes of merging everything: it is not given up if every spendable note carries a psi and there are fewer
      notes than rounds; when every merge succeeds in a wallet of two or more notes that starts ready, it is not given up
      exactly if every spendable note carries a psi; the total stays, other transfers under way or not; and a settled
      wallet comes down to one note. */
  ghost predicate AllMergedEnded(owner: string, env: nat -> Attempt, start: Stage, maxRounds: nat,
                                 notes: seq<StoredNote>, pending: seq<PendingTransfer>, r: Option<Result<nat, string>>) {
    && (CarriesPsis(start.notes, owner) && RandomPsis(env) && maxRounds > |start.notes| ==> r.Some?)
    && ((ReadyAt(start, owner, env, 0) && |start.current| >= 2 && maxRounds > |start.notes|
         && forall i: nat :: env(i).succeeds) ==>
          (r.Some? <==> CarriesPsis(start.notes, owner)))
    && Booked(start, owner, env, notes, 0)
    && (SettledAt(start, owner, env, 0) ==>
          if r.Some? then AllMerged(start.notes, start.current, env, notes, pending, owner, r.value)
          else InOrder(start.notes, notes, pending, 0))
  }

  lemma ReadyIsRandom(start: Stage, owner: string, env: nat -> Attempt)
    requires ReadyAt(start, owner, env, 0)
    ensures RandomPsis(env)
  {
    forall i: nat
      ensures env(i).notePsi != ""
    {
      assert IsNew(env(i).notePsi, start.notes, start.pending);
    }
  }

  lemma AllMergedGivenUp(owner: string, env: nat -> Attempt, start: Stage, run: Run, maxRounds: nat,
                         notes: seq<StoredNote>, pending: seq<PendingTransfer>)
    requires IsRun(owner, env, run) && First(run) == start
    requires var s := Reached(run);
             |Positive(s.current)| >= 2 && maxRounds == Length(run) && notes == s.notes && pending == s.pending
    ensures AllMergedEnded(owner, env, start, maxRounds, notes, pending, None)
  {
    RunBooked(owner, env, run);
    if CarriesPsis(start.notes, owner) && RandomPsis(env) {
      RunShrinks(owner, env, run);
      if run.Then? {
        AtMostStored(owner, env, run);
      }
    }
    if ReadyAt(start, owner, env, 0) {
      ReadyIsRandom(start, owner, env);
    }
    if SettledAt(start, owner, env, 0) {
      RunMerges(owner, env, run);
    }
  }

  lemma AllMergedThrew(owner: string, env: nat -> Attempt, start: Stage, run: Run, maxRounds: nat,
                       notes: seq<StoredNote>, later: seq<PendingTransfer>, message: string)
    requires IsRun(owner, env, run) && First(run) == start
    requires !env(Length(run)).succeeds && notes == Reached(run).notes
    requires forall p <- later :: p in Reached(run).pending
    ensures AllMergedEnded(owner, env, start, maxRounds, notes, later, Some(Err(message)))
  {
    RunBooked(owner, env, run);
    var s := Reached(run);
    if SettledAt(start, owner, env, 0) {
      RunMerges(owner, env, run);
      MergingFailed(start.notes, s.notes, s.pending, owner, start.current, s.current, env, Length(run), later, message);
    }
  }

  lemma DoneMeansCarried(owner: string, env: nat -> Attempt, run: Run)
    requires IsRun(owner, env, run) && ReadyAt(First(run), owner, env, 0) && |First(run).current| >= 2
    requires |Positive(Reached(run).current)| < 2
    ensures CarriesPsis(First(run).notes, owner)
  {
    if !CarriesPsis(First(run).notes, owner) {
      RunNeverEnds(owner, env, run);
      RunIsReady(owner, env, run);
      PositiveSpendable(Reached(run).notes, {}, owner);
    }
  }

  lemma DoneSettled(owner: string, env: nat -> Attempt, run: Run, made: nat)
    requires IsRun(owner, env, run) && SettledAt(First(run), owner, env, 0)
    requires var s := Reached(run); if |s.current| < 2 then made == Length(run) else |Positive(s.current)| < 2
    ensures AllMerged(First(run).notes, First(run).current, env, Reached(run).notes, Reached(run).pending, owner, Ok(made))
  {
    var start, s := First(run), Reached(run);
    RunMerges(owner, env, run);
    MergingEnds(start.notes, s.notes, s.pending, owner, start.current, s.current, env, made);
  }

  lemma AllMergedDone(owner: string, env: nat -> Attempt, start: Stage, run: Run, maxRounds: nat,
                      notes: seq<StoredNote>, pending: seq<PendingTransfer>, made: nat)
    requires IsRun(owner, env, run) && First(run) == start
    requires var s := Reached(run);
             && (if |s.current| < 2 then made == Length(run) else |Positive(s.current)| < 2)
             && notes == s.notes && pending == s.pending
    ensures AllMergedEnded(owner, env, start, maxRounds, notes, pending, Some(Ok(made)))
  {
    RunBooked(owner, env, run);
    if ReadyAt(start, owner, env, 0) && |start.current| >= 2 {
      DoneMeansCarried(owner, env, run);
    }
    if SettledAt(start, owner, env, 0) {
      DoneSettled(owner, env, run, made);
    }
  }
}
