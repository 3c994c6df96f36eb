/** Callers and workers around one batch queue, interleaved in every possible way between lock acquisitions. */
module BatchProtocol {
  import opened Wrappers
  import opened Sequences
  import opened BatchQueue

  datatype Reply<R, E> = Done(value: R) | ProcessorError(error: E) | TaskDropped

  datatype Answer<R, E> = Answer(ticket: nat, reply: Reply<R, E>)

  /** Where a spawned worker is: about to read when the batch is due, asleep, in the processor with its batch, sending
      the results, about to record the execution, or gone. */
  datatype Pc<Item, R, E> =
    | Start
    | Sleeping(until: int)
    | Running(batch: seq<Call<Item>>, startedAt: int)
    | Replying(batch: seq<Call<Item>>, outcome: Result<seq<R>, E>, sent: nat)
    | Finishing
    | Stopped

  /** Who scheduled the batch that is due next. */
  datatype Origin = ByCall(calledAt: int, config: Config) | ByWorker

  /** A batch the processor has answered, and when the worker before it was done. */
  datatype Entry<Item, R, E> =
    Entry(batch: seq<Call<Item>>, outcome: Result<seq<R>, E>, startedAt: int, origin: Origin, previousEnd: Option<int>)

  /** The queue and the workers, and what happened: the calls in the order their items were queued, the batches
      answered, the results sent, and the times at which workers were done with a batch. */
  datatype State<Item, R, E> =
    State(queue: Queue<Item>, config: Config, workers: seq<Pc<Item, R, E>>, origin: Origin,
          calls: seq<Call<Item>>, log: seq<Entry<Item, R, E>>, answers: seq<Answer<R, E>>, ends: seq<int>)

  function Latest(ends: seq<int>): Option<int> {
    if ends == [] then None else Some(ends[|ends| - 1])
  }

  /** What may happen next; `w` is the worker that moves. */
  datatype Event<Item, R, E> =
    | Configure(config: Config)
    | CallArrives(item: Item, now: int)
    | ReadDue(w: nat, now: int)
    | WakeUp(w: nat, now: int)
    | Process(w: nat, outcome: Result<seq<R>, E>)
    | Send(w: nat)
    | Record(w: nat, finishedAt: int, now: int, measuredAt: int)

  function Init<Item, R, E>(config: Config): State<Item, R, E> {
    State(Queue([], None, None, false), config, [], ByWorker, [], [], [], [])
  }

  /** The result at the caller's own position; a caller beyond the results finds its channel closed. */
  function ReplyAt<R, E>(outcome: Result<seq<R>, E>, position: nat): Reply<R, E> {
    match outcome
    case Err(error) => ProcessorError(error)
    case Ok(results) => if position < |results| then Done(results[position]) else TaskDropped
  }

  predicate Enabled<Item, R, E>(s: State<Item, R, E>, e: Event<Item, R, E>) {
    match e
    case Configure(_) => true
    case CallArrives(_, _) => true
    case ReadDue(w, _) => w < |s.workers| && s.workers[w].Start?
    case WakeUp(w, now) => w < |s.workers| && s.workers[w].Sleeping? && now >= s.workers[w].until
    case Process(w, _) => w < |s.workers| && s.workers[w].Running?
    case Send(w) => w < |s.workers| && s.workers[w].Replying?
    case Record(w, _, _, _) => w < |s.workers| && s.workers[w].Finishing?
  }

  function Next<Item, R, E>(s: State<Item, R, E>, e: Event<Item, R, E>): State<Item, R, E>
    requires Enabled(s, e)
  {
    match e
    case Configure(config) => s.(config := config)
    case CallArrives(item, now) =>
      var call := Call(item, |s.calls|);
      var queued := s.(queue := Enqueued(s.queue, call, s.config, now), calls := s.calls + [call]);
      if CallSchedules(s.queue) then queued.(workers := s.workers + [Start], origin := ByCall(now, s.config)) else queued
    case ReadDue(w, now) =>
      var wait := Wait(s.queue, now);
      s.(workers := s.workers[w := if wait.None? then Stopped else Sleeping(now + wait.value)])
    case WakeUp(w, now) =>
      s.(queue := Taken(s.queue),
         workers := s.workers[w := if s.queue.items == [] then Finishing else Running(s.queue.items, now)])
    case Process(w, outcome) =>
      var pc := s.workers[w];
      s.(workers := s.workers[w := Replying(pc.batch, outcome, 0)],
         log := s.log + [Entry(pc.batch, outcome, pc.startedAt, s.origin, Latest(s.ends))])
    case Send(w) =>
      var pc := s.workers[w];
      if pc.sent < |pc.batch| then
        s.(workers := s.workers[w := pc.(sent := pc.sent + 1)],
           answers := s.answers + [Answer(pc.batch[pc.sent].ticket, ReplyAt(pc.outcome, pc.sent))])
      else s.(workers := s.workers[w := Finishing])
    case Record(w, finishedAt, now, measuredAt) =>
      var recorded := s.(queue := Finished(s.queue, finishedAt, now, measuredAt), ends := s.ends + [finishedAt]);
      if FinishSchedules(s.queue) then recorded.(workers := s.workers[w := Start], origin := ByWorker)
      else recorded.(workers := s.workers[w := Stopped])
  }

  predicate IsRun<Item, R, E>(s: State<Item, R, E>, events: seq<Event<Item, R, E>>)
    decreases |events|
  {
    events == [] || (Enabled(s, events[0]) && IsRun(Next(s, events[0]), events[1..]))
  }

  function After<Item, R, E>(s: State<Item, R, E>, events: seq<Event<Item, R, E>>): State<Item, R, E>
    requires IsRun(s, events)
    decreases |events|
  {
    if events == [] then s else After(Next(s, events[0]), events[1..])
  }

  // ---- what every step keeps ----

  /** The worker spawned last; all before it have stopped. */
  function Current<Item, R, E>(s: State<Item, R, E>): Pc<Item, R, E> {
    if s.workers == [] then Stopped else s.workers[|s.workers| - 1]
  }

  ghost predicate OthersStopped<Item, R, E>(s: State<Item, R, E>) {
    forall i | 0 <= i < |s.workers| - 1 :: s.workers[i].Stopped?
  }

  ghost predicate InStep<Item, R, E>(q: Queue<Item>, pc: Pc<Item, R, E>) {
    match pc
    case Start => q.nextExecution.Some? && !q.processing && q.items != []
    case Sleeping(until) => q.nextExecution.Some? && !q.processing && q.items != [] && until >= q.nextExecution.value
    case Running(batch, _) => q.nextExecution.None? && q.processing && batch != []
    case Replying(batch, _, sent) => q.nextExecution.None? && q.processing && sent <= |batch|
    case Finishing => q.nextExecution.None? && q.processing
    case Stopped => q.nextExecution.None? && !q.processing && q.items == []
  }

  function InFlight<Item, R, E>(pc: Pc<Item, R, E>): seq<Call<Item>> {
    if pc.Running? then pc.batch else []
  }

  function Processed<Item, R, E>(log: seq<Entry<Item, R, E>>): seq<Call<Item>> {
    if log == [] then [] else Processed(log[..|log| - 1]) + log[|log| - 1].batch
  }

  function AnswersOf<Item, R, E>(batch: seq<Call<Item>>, outcome: Result<seq<R>, E>): (r: seq<Answer<R, E>>)
    ensures |r| == |batch|
    ensures forall j | 0 <= j < |batch| :: r[j] == Answer(batch[j].ticket, ReplyAt(outcome, j))
  {
    seq(|batch|, j requires 0 <= j < |batch| => Answer(batch[j].ticket, ReplyAt(outcome, j)))
  }

  function Owed<Item, R, E>(log: seq<Entry<Item, R, E>>): seq<Answer<R, E>> {
    if log == [] then [] else Owed(log[..|log| - 1]) + AnswersOf(log[|log| - 1].batch, log[|log| - 1].outcome)
  }

  function Unsent<Item, R, E>(pc: Pc<Item, R, E>): seq<Answer<R, E>> {
    if pc.Replying? && pc.sent <= |pc.batch| then AnswersOf(pc.batch, pc.outcome)[pc.sent..] else []
  }

  ghost predicate Numbered<Item>(calls: seq<Call<Item>>) {
    forall i | 0 <= i < |calls| :: calls[i].ticket == i
  }

  ghost predicate CallsInOrder<Item, R, E>(s: State<Item, R, E>) {
    && Numbered(s.calls)
    && Processed(s.log) + InFlight(Current(s)) + s.queue.items == s.calls
  }

  ghost predicate AnswersInOrder<Item, R, E>(s: State<Item, R, E>) {
    && s.answers + Unsent(Current(s)) == Owed(s.log)
    && forall entry <- s.log :: entry.batch != []
  }

  /** The queue knows when the last worker was done, whether or not that worker had another batch to schedule. */
  predicate EndKept<Item, R, E>(s: State<Item, R, E>) {
    s.queue.lastExecution == Latest(s.ends)
  }

  ghost predicate Inv<Item, R, E>(s: State<Item, R, E>) {
    OthersStopped(s) && InStep(s.queue, Current(s)) && CallsInOrder(s) && AnswersInOrder(s) && EndKept(s)
  }

  lemma StepKeepsWorkers<Item, R, E>(s: State<Item, R, E>, e: Event<Item, R, E>)
    requires OthersStopped(s) && InStep(s.queue, Current(s)) && Enabled(s, e)
    ensures OthersStopped(Next(s, e)) && InStep(Next(s, e).queue, Current(Next(s, e)))
  {
  }

  /** The only worker that can move is the one spawned last. */
  lemma MovesLast<Item, R, E>(s: State<Item, R, E>, w: nat)
    requires OthersStopped(s) && w < |s.workers| && !s.workers[w].Stopped?
    ensures w == |s.workers| - 1 && s.workers[w] == Current(s)
  {
  }

  lemma OneMoreEntry<Item, R, E>(log: seq<Entry<Item, R, E>>, entry: Entry<Item, R, E>)
    ensures Processed(log + [entry]) == Processed(log) + entry.batch
    ensures Owed(log + [entry]) == Owed(log) + AnswersOf(entry.batch, entry.outcome)
  {
    assert (log + [entry])[..|log + [entry]| - 1] == log;
  }

  lemma ProcessKeepsOrder<Item, R, E>(s: State<Item, R, E>, w: nat, outcome: Result<seq<R>, E>)
    requires Inv(s) && Enabled(s, Process(w, outcome))
    ensures CallsInOrder(Next(s, Process(w, outcome))) && AnswersInOrder(Next(s, Process(w, outcome)))
  {
    MovesLast(s, w);
    var pc, t := Current(s), Next(s, Process(w, outcome));
    var entry := Entry(pc.batch, outcome, pc.startedAt, s.origin, Latest(s.ends));
    OneMoreEntry(s.log, entry);
    assert Current(t) == Replying(pc.batch, outcome, 0) && t.log == s.log + [entry];
    assert Processed(t.log) + [] == Processed(t.log);
    assert Unsent(Current(t)) == AnswersOf(pc.batch, outcome);
    assert s.answers + [] == s.answers;
  }

  lemma OneMoreSent<T>(sent: seq<T>, all: seq<T>, k: nat)
    requires k < |all|
    ensures (sent + [all[k]]) + all[k + 1..] == sent + all[k..]
  {
  }

  lemma SendKeepsOrder<Item, R, E>(s: State<Item, R, E>, w: nat)
    requires Inv(s) && Enabled(s, Send(w))
    ensures CallsInOrder(Next(s, Send(w))) && AnswersInOrder(Next(s, Send(w)))
  {
    var pc := Current(s);
    assert w == |s.workers| - 1 && s.workers[w] == pc;
    var t := Next(s, Send(w));
    assert InFlight(Current(t)) == InFlight(pc) == [];
    if pc.sent < |pc.batch| {
      OneMoreSent(s.answers, AnswersOf(pc.batch, pc.outcome), pc.sent);
    } else {
      assert Unsent(pc) == [] == Unsent(Current(t));
    }
  }

  lemma OneMoreCall<Item>(front: seq<Call<Item>>, items: seq<Call<Item>>, calls: seq<Call<Item>>, call: Call<Item>)
    requires front + items == calls && Numbered(calls) && call.ticket == |calls|
    ensures front + (items + [call]) == calls + [call] && Numbered(calls + [call])
  {
  }

  lemma CallKeepsRest<Item, R, E>(s: State<Item, R, E>, item: Item, now: int)
    requires InStep(s.queue, Current(s))
    ensures var t, call := Next(s, CallArrives(item, now)), Call(item, |s.calls|);
            && t.calls == s.calls + [call] && t.queue.items == s.queue.items + [call]
            && t.log == s.log && t.answers == s.answers
            && InFlight(Current(t)) == InFlight(Current(s)) && Unsent(Current(t)) == Unsent(Current(s))
  {
  }

  lemma CallKeepsOrder<Item, R, E>(s: State<Item, R, E>, item: Item, now: int)
    requires Inv(s)
    ensures var t := Next(s, CallArrives(item, now)); CallsInOrder(t) && AnswersInOrder(t)
  {
    var t, front := Next(s, CallArrives(item, now)), Processed(s.log) + InFlight(Current(s));
    CallKeepsRest(s, item, now);
    OneMoreCall(front, s.queue.items, s.calls, Call(item, |s.calls|));
    assert Processed(t.log) + InFlight(Current(t)) == front;
  }

  lemma QuietStepKeepsOrder<Item, R, E>(s: State<Item, R, E>, e: Event<Item, R, E>)
    requires Inv(s) && Enabled(s, e) && (e.ReadDue? || e.WakeUp? || e.Record?)
    ensures CallsInOrder(Next(s, e)) && AnswersInOrder(Next(s, e))
  {
    var t := Next(s, e);
    assert e.w == |s.workers| - 1 && s.workers[e.w] == Current(s);
    assert Unsent(Current(s)) == [] == Unsent(Current(t));
    assert InFlight(Current(t)) + t.queue.items == InFlight(Current(s)) + s.queue.items;
  }

  lemma StepKeepsEnd<Item, R, E>(s: State<Item, R, E>, e: Event<Item, R, E>)
    requires EndKept(s) && Enabled(s, e)
    ensures EndKept(Next(s, e))
  {
  }

  lemma StepKeepsInv<Item, R, E>(s: State<Item, R, E>, e: Event<Item, R, E>)
    requires Inv(s) && Enabled(s, e)
    ensures Inv(Next(s, e))
  {
    StepKeepsWorkers(s, e);
    StepKeepsEnd(s, e);
    match e
    case Process(w, outcome) => ProcessKeepsOrder(s, w, outcome);
    case Send(w) => SendKeepsOrder(s, w);
    case CallArrives(item, now) => CallKeepsOrder(s, item, now);
    case Configure(_) =>
    case _ => QuietStepKeepsOrder(s, e);
  }

  /** In every interleaving of calls and workers. */
  lemma {:induction false} RunKeepsInv<Item, R, E>(s: State<Item, R, E>, events: seq<Event<Item, R, E>>)
    requires Inv(s) && IsRun(s, events)
    ensures Inv(After(s, events))
    decreases |events|
  {
    if events != [] {
      StepKeepsInv(s, events[0]);
      RunKeepsInv(Next(s, events[0]), events[1..]);
    }
  }

  ghost predicate Reachable<Item(!new), R(!new), E(!new)>(s: State<Item, R, E>) {
    exists config: Config, events: seq<Event<Item, R, E>> {:trigger After(Init(config), events)} ::
      IsRun(Init<Item, R, E>(config), events) && After(Init(config), events) == s
  }

  lemma {:induction false} RunThenStep<Item, R, E>(s: State<Item, R, E>, events: seq<Event<Item, R, E>>, e: Event<Item, R, E>)
    requires IsRun(s, events) && Enabled(After(s, events), e)
    ensures IsRun(s, events + [e]) && After(s, events + [e]) == Next(After(s, events), e)
    decreases |events|
  {
    if events == [] {
      assert [e][1..] == [];
      assert events + [e] == [e];
    } else {
      assert (events + [e])[1..] == events[1..] + [e];
      RunThenStep(Next(s, events[0]), events[1..], e);
    }
  }

  lemma Step<Item(!new), R(!new), E(!new)>(s: State<Item, R, E>, e: Event<Item, R, E>) returns (t: State<Item, R, E>)
    requires Reachable(s) && Enabled(s, e)
    ensures t == Next(s, e) && Reachable(t)
  {
    var config: Config, events: seq<Event<Item, R, E>> :|
      IsRun(Init<Item, R, E>(config), events) && After(Init(config), events) == s;
    RunThenStep(Init<Item, R, E>(config), events, e);
    t := Next(s, e);
  }

  lemma ReachableInv<Item(!new), R(!new), E(!new)>(s: State<Item, R, E>)
    requires Reachable(s)
    ensures Inv(s)
  {
    var config: Config, events: seq<Event<Item, R, E>> :|
      IsRun(Init<Item, R, E>(config), events) && After(Init(config), events) == s;
    RunKeepsInv(Init<Item, R, E>(config), events);
  }

  /** At most one worker is alive; one is whenever an item waits; and the processor never sees an empty batch. */
  lemma OneWorker<Item(!new), R(!new), E(!new)>(s: State<Item, R, E>)
    requires Reachable(s)
    ensures forall v, w | 0 <= v < w < |s.workers| :: s.workers[v].Stopped? || s.workers[w].Stopped?
    ensures s.queue.items != [] ==> exists w | 0 <= w < |s.workers| :: !s.workers[w].Stopped?
    ensures forall w | 0 <= w < |s.workers| :: s.workers[w].Running? ==> s.workers[w].batch != []
  {
    ReachableInv(s);
    assert s.queue.items != [] ==> !Current(s).Stopped?;
  }

  // ---- every caller gets its own answer ----

  lemma {:induction false} Located<Item, R, E>(log: seq<Entry<Item, R, E>>, k: nat) returns (b: nat, j: nat)
    requires k < |Owed(log)|
    ensures |Owed(log)| == |Processed(log)|
    ensures b < |log| && j < |log[b].batch| && log[b].batch[j] == Processed(log)[k]
    ensures Owed(log)[k] == Answer(Processed(log)[k].ticket, ReplyAt(log[b].outcome, j))
    decreases |log|
  {
    SameLength(log);
    var last := |log| - 1;
    SameLength(log[..last]);
    if k < |Owed(log[..last])| {
      b, j := Located(log[..last], k);
    } else {
      b, j := last, k - |Owed(log[..last])|;
    }
  }

  lemma {:induction false} SameLength<Item, R, E>(log: seq<Entry<Item, R, E>>)
    ensures |Owed(log)| == |Processed(log)|
    decreases |log|
  {
    if log != [] {
      SameLength(log[..|log| - 1]);
    }
  }

  /** The answers go out in the order the calls came in, to each caller at most once, and each is the result at the
      caller's own position of the batch the call was in, or that batch's error. */
  lemma OwnAnswer<Item(!new), R(!new), E(!new)>(s: State<Item, R, E>, k: nat) returns (b: nat, j: nat)
    requires Reachable(s) && k < |s.answers|
    ensures k < |s.calls| && s.answers[k].ticket == k
    ensures b < |s.log| && j < |s.log[b].batch| && s.log[b].batch[j] == s.calls[k]
    ensures s.answers[k].reply == ReplyAt(s.log[b].outcome, j)
  {
    ReachableInv(s);
    assert Owed(s.log)[k] == s.answers[k];
    b, j := Located(s.log, k);
    assert s.calls[k] == Processed(s.log)[k];
  }

  /** When no worker is left every call has been answered, exactly once. */
  lemma QuietMeansAnswered<Item(!new), R(!new), E(!new)>(s: State<Item, R, E>)
    requires Reachable(s)
    requires forall w | 0 <= w < |s.workers| :: s.workers[w].Stopped?
    ensures |s.answers| == |s.calls|
    ensures forall k | 0 <= k < |s.calls| :: s.answers[k].ticket == s.calls[k].ticket == k
  {
    ReachableInv(s);
    SameLength(s.log);
    forall k | 0 <= k < |s.calls|
      ensures s.answers[k].ticket == k
    {
      var b, j := OwnAnswer(s, k);
    }
  }

  ghost predicate IsElementwise<Item, R, E>(entry: Entry<Item, R, E>, f: Item -> R) {
    && entry.outcome.Ok? && |entry.outcome.value| == |entry.batch|
    && forall j | 0 <= j < |entry.batch| :: entry.outcome.value[j] == f(entry.batch[j].item)
  }

  /** With a processor that returns one result per item, in order, every caller gets its own item's result. */
  lemma ElementwiseAnswer<Item(!new), R(!new), E(!new)>(s: State<Item, R, E>, f: Item -> R, k: nat)
    requires Reachable(s) && k < |s.answers|
    requires forall entry <- s.log :: IsElementwise(entry, f)
    ensures k < |s.calls| && s.answers[k] == Answer(k, Done(f(s.calls[k].item)))
  {
    var b, j := OwnAnswer(s, k);
    assert s.log[b] in s.log;
  }

  predicate EnoughResults<Item, R, E>(entry: Entry<Item, R, E>) {
    entry.outcome.Ok? ==> |entry.outcome.value| >= |entry.batch|
  }

  lemma {:induction false} PositionOf<Item, R, E>(log: seq<Entry<Item, R, E>>, b: nat, j: nat) returns (k: nat)
    requires b < |log| && j < |log[b].batch|
    ensures k < |Owed(log)| && Owed(log)[k] == Answer(log[b].batch[j].ticket, ReplyAt(log[b].outcome, j))
    decreases |log|
  {
    var last := |log| - 1;
    if b == last {
      k := |Owed(log[..last])| + j;
    } else {
      k := PositionOf(log[..last], b, j);
    }
  }

  /** Nobody is told that the worker was dropped, exactly when no batch got fewer results than it had items. */
  lemma NobodyDroppedIff<Item(!new), R(!new), E(!new)>(s: State<Item, R, E>)
    requires Reachable(s)
    requires forall w | 0 <= w < |s.workers| :: s.workers[w].Stopped?
    ensures (forall a <- s.answers :: a.reply != TaskDropped) <==> (forall entry <- s.log :: EnoughResults(entry))
  {
    ReachableInv(s);
    if entry :| entry in s.log && !EnoughResults(entry) {
      var b :| 0 <= b < |s.log| && s.log[b] == entry;
      var k := PositionOf(s.log, b, |entry.outcome.value|);
      assert s.answers[k] in s.answers;
    }
    if (forall entry <- s.log :: EnoughResults(entry)) {
      forall k | 0 <= k < |s.answers|
        ensures s.answers[k].reply != TaskDropped
      {
        var b, j := OwnAnswer(s, k);
        assert s.log[b] in s.log;
      }
    }
  }

  // ---- every call is answered in the end ----

  /** A bound on the steps the workers still take if no more calls arrive. */
  function Remaining<Item, R, E>(s: State<Item, R, E>): nat {
    6 * |s.queue.items| +
    match Current(s)
    case Start => 1
    case Sleeping(_) => 0
    case Running(batch, _) => |batch| + 4
    case Replying(batch, _, sent) => (if sent <= |batch| then |batch| - sent else 0) + 3
    case Finishing => 2
    case Stopped => 0
  }

  predicate IsWorkerStep<Item, R, E>(e: Event<Item, R, E>) {
    !e.Configure? && !e.CallArrives?
  }

  /** Each step of a worker brings the bound down, so workers cannot keep each other from answering. */
  lemma WorkerStepsEnd<Item(!new), R(!new), E(!new)>(s: State<Item, R, E>, e: Event<Item, R, E>)
    requires Reachable(s) && Enabled(s, e) && IsWorkerStep(e)
    ensures Remaining(Next(s, e)) < Remaining(s)
  {
    ReachableInv(s);
  }

  /** As long as a call is unanswered a worker can take a step: nothing is stuck. */
  lemma SomeWorkerCanStep<Item(!new), R(!new), E(!new)>(s: State<Item, R, E>, outcome: Result<seq<R>, E>)
    returns (e: Event<Item, R, E>)
    requires Reachable(s) && |s.answers| < |s.calls|
    ensures Enabled(s, e) && IsWorkerStep(e)
  {
    ReachableInv(s);
    SameLength(s.log);
    var w := |s.workers| - 1;
    match Current(s)
    case Start => e := ReadDue(w, 0);
    case Sleeping(until) => e := WakeUp(w, until);
    case Running(_, _) => e := Process(w, outcome);
    case Replying(_, _, _) => e := Send(w);
    case Finishing => e := Record(w, 0, 0, 0);
    case Stopped => assert false;
  }

  /** If no more calls arrive the workers come to rest within the bound, whatever order they move in, and when they
      have, every call has been answered. */
  lemma {:induction false} WorkersComeToRest<Item(!new), R(!new), E(!new)>(s: State<Item, R, E>, events: seq<Event<Item, R, E>>)
    requires Reachable(s) && IsRun(s, events)
    requires forall e <- events :: IsWorkerStep(e)
    ensures |events| + Remaining(After(s, events)) <= Remaining(s)
    ensures var t := After(s, events);
            (forall e: Event<Item, R, E> | IsWorkerStep(e) :: !Enabled(t, e)) ==> |t.answers| == |t.calls| == |s.calls|
    decreases |events|
  {
    if events == [] {
      RestMeansAnswered(s);
    } else {
      assert events[0] in events && forall e <- events[1..] :: e in events;
      WorkerStepsEnd(s, events[0]);
      var t := Step(s, events[0]);
      WorkersComeToRest(t, events[1..]);
    }
  }

  lemma RestMeansAnswered<Item(!new), R(!new), E(!new)>(s: State<Item, R, E>)
    requires Reachable(s)
    ensures |s.answers| == |s.calls| || exists e: Event<Item, R, E> :: IsWorkerStep(e) && Enabled(s, e)
  {
    ReachableInv(s);
    SameLength(s.log);
    if |s.answers| < |s.calls| {
      var e := SomeWorkerCanStep(s, Ok([]));
      assert IsWorkerStep(e) && Enabled(s, e);
    }
  }

  // ---- ... however busy the queue is ----

  /** Whether call `k` is in the batch being processed or answered. */
  predicate InBatch<Item, R, E>(s: State<Item, R, E>, k: nat) {
    match Current(s)
    case Running(batch, _) => k < |s.answers| + |batch|
    case Replying(batch, _, sent) => k + sent < |s.answers| + |batch|
    case _ => false
  }

  /** The steps to the first answer of call `k`'s batch, apart from the answers that others get before: to end the batch
      under way and start the next, if the call is not in it. */
  function StepsToBatch<Item, R, E>(s: State<Item, R, E>, k: nat): (steps: nat)
    ensures steps <= 6
  {
    match Current(s)
    case Start => 3
    case Sleeping(_) => 2
    case Running(_, _) => if InBatch(s, k) then 1 else 6
    case Replying(_, _, _) => if InBatch(s, k) then 0 else 5
    case Finishing => 4
    case Stopped => 0
  }

  /** How many steps the workers take until call `k` is answered. */
  function StepsToAnswer<Item, R, E>(s: State<Item, R, E>, k: nat): (steps: nat)
    ensures k >= |s.answers| ==> 1 <= steps <= k - |s.answers| + 7
  {
    if k < |s.answers| then 0 else k - |s.answers| + 1 + StepsToBatch(s, k)
  }

  /** The workers' steps among what happens. */
  function WorkerSteps<Item, R, E>(events: seq<Event<Item, R, E>>): nat {
    if events == [] then 0 else (if IsWorkerStep(events[0]) then 1 else 0) + WorkerSteps(events[1..])
  }

  /** Where the calls are: answered, about to be answered, in the processor, or queued. */
  lemma CallsAccounted<Item, R, E>(s: State<Item, R, E>)
    requires Inv(s)
    ensures |s.calls| == |s.answers| + |Unsent(Current(s))| + |InFlight(Current(s))| + |s.queue.items|
    ensures Current(s).Replying? ==> |Unsent(Current(s))| == |Current(s).batch| - Current(s).sent
  {
    SameLength(s.log);
    assert |s.answers + Unsent(Current(s))| == |Owed(s.log)|;
    assert |Processed(s.log) + InFlight(Current(s)) + s.queue.items| == |s.calls|;
  }

  lemma WorkerStepNearer<Item, R, E>(s: State<Item, R, E>, e: Event<Item, R, E>, k: nat)
    requires Inv(s) && Enabled(s, e) && IsWorkerStep(e) && |s.answers| <= k < |s.calls|
    ensures StepsToAnswer(Next(s, e), k) + 1 == StepsToAnswer(s, k)
  {
    CallsAccounted(s);
    MovesLast(s, e.w);
  }

  lemma OtherStepNoFurther<Item, R, E>(s: State<Item, R, E>, e: Event<Item, R, E>, k: nat)
    requires Inv(s) && Enabled(s, e) && !IsWorkerStep(e) && k < |s.calls|
    ensures StepsToAnswer(Next(s, e), k) == StepsToAnswer(s, k)
  {
    CallsAccounted(s);
  }

  /** Answers are never taken back, and no call either. */
  lemma NothingTakenBack<Item, R, E>(s: State<Item, R, E>, e: Event<Item, R, E>)
    requires Enabled(s, e)
    ensures |Next(s, e).answers| >= |s.answers| && |Next(s, e).calls| >= |s.calls|
  {
  }

  lemma {:induction false} StepsCountDown<Item, R, E>(s: State<Item, R, E>, events: seq<Event<Item, R, E>>, k: nat)
    requires Inv(s) && IsRun(s, events) && k < |s.calls|
    ensures var before, made := StepsToAnswer(s, k), WorkerSteps(events);
            StepsToAnswer(After(s, events), k) == if made < before then before - made else 0
    decreases |events|
  {
    if events != [] {
      StepKeepsInv(s, events[0]);
      NothingTakenBack(s, events[0]);
      if !IsWorkerStep(events[0]) {
        OtherStepNoFurther(s, events[0], k);
      } else if k >= |s.answers| {
        WorkerStepNearer(s, events[0], k);
      }
      StepsCountDown(Next(s, events[0]), events[1..], k);
    }
  }

  /** A busy service starves nobody: whatever calls arrive meanwhile, a call is answered once the workers have taken a
      number of steps that is fixed when it is queued, and no sooner. That number is at most the calls still
      unanswered before it and seven. */
  lemma AnsweredAfter<Item(!new), R(!new), E(!new)>(s: State<Item, R, E>, events: seq<Event<Item, R, E>>, k: nat)
    requires Reachable(s) && IsRun(s, events) && |s.answers| <= k < |s.calls|
    ensures k < |After(s, events).answers| <==> WorkerSteps(events) >= StepsToAnswer(s, k)
    ensures StepsToAnswer(s, k) <= k - |s.answers| + 7
  {
    ReachableInv(s);
    StepsCountDown(s, events, k);
  }

  // ---- the ends of batches ----

  /** When workers were done, as their events say. */
  function EndsOf<Item, R, E>(events: seq<Event<Item, R, E>>): seq<int> {
    if events == [] then [] else EndOf(events[0]) + EndsOf(events[1..])
  }

  function EndOf<Item, R, E>(e: Event<Item, R, E>): seq<int> {
    if e.Record? then [e.finishedAt] else []
  }

  lemma StepRecordsEnd<Item, R, E>(s: State<Item, R, E>, e: Event<Item, R, E>)
    requires Enabled(s, e)
    ensures Next(s, e).ends == s.ends + EndOf(e)
  {
  }

  lemma {:induction false} EndsRecorded<Item, R, E>(s: State<Item, R, E>, events: seq<Event<Item, R, E>>)
    requires IsRun(s, events)
    ensures After(s, events).ends == s.ends + EndsOf(events)
    decreases |events|
  {
    if events == [] {
      assert s.ends + [] == s.ends;
    } else {
      StepRecordsEnd(s, events[0]);
      EndsRecorded(Next(s, events[0]), events[1..]);
      Regroup(s.ends, EndOf(events[0]), EndsOf(events[1..]));
    }
  }

  /** After every run the queue holds the end that the last worker to be done recorded, and none if there was none. */
  lemma LastEndKept<Item, R, E>(config: Config, events: seq<Event<Item, R, E>>)
    requires IsRun(Init<Item, R, E>(config), events)
    ensures After(Init<Item, R, E>(config), events).queue.lastExecution == Latest(EndsOf(events))
  {
    EndsRecorded(Init<Item, R, E>(config), events);
    RunKeepsInv(Init<Item, R, E>(config), events);
    assert [] + EndsOf(events) == EndsOf(events);
  }

  // ---- throttling ----

  /** The batch waited as configured: the delay after the call that scheduled it, and the minimum interval after the
      batch before it. */
  predicate Throttled<Item, R, E>(entry: Entry<Item, R, E>) {
    entry.origin.ByCall? ==>
      && entry.startedAt >= entry.origin.calledAt + entry.origin.config.batchDelayMs * MILLISECOND
      && (entry.previousEnd.Some? ==>
            entry.startedAt >= entry.previousEnd.value + entry.origin.config.minIntervalMs * MILLISECOND)
  }

  predicate DueThrottled(last: Option<int>, origin: Origin, due: int) {
    origin.ByCall? ==>
      && due >= origin.calledAt + origin.config.batchDelayMs * MILLISECOND
      && (last.Some? ==> due >= last.value + origin.config.minIntervalMs * MILLISECOND)
  }

  ghost predicate ThrottleInv<Item, R, E>(s: State<Item, R, E>) {
    && (forall entry <- s.log :: Throttled(entry))
    && (s.queue.nextExecution.Some? ==> DueThrottled(s.queue.lastExecution, s.origin, s.queue.nextExecution.value))
    && (Current(s).Running? ==> DueThrottled(s.queue.lastExecution, s.origin, Current(s).startedAt))
  }

  lemma StepKeepsThrottle<Item, R, E>(s: State<Item, R, E>, e: Event<Item, R, E>)
    requires Inv(s) && ThrottleInv(s) && Enabled(s, e)
    ensures ThrottleInv(Next(s, e))
  {
  }

  lemma {:induction false} RunKeepsThrottle<Item, R, E>(s: State<Item, R, E>, events: seq<Event<Item, R, E>>)
    requires Inv(s) && ThrottleInv(s) && IsRun(s, events)
    ensures ThrottleInv(After(s, events))
    decreases |events|
  {
    if events != [] {
      StepKeepsInv(s, events[0]);
      StepKeepsThrottle(s, events[0]);
      RunKeepsThrottle(Next(s, events[0]), events[1..]);
    }
  }

  /** A batch that a call scheduled never starts early, in any interleaving. */
  lemma IdleBatchesAreThrottled<Item(!new), R(!new), E(!new)>(s: State<Item, R, E>)
    requires Reachable(s)
    ensures forall entry <- s.log :: Throttled(entry)
  {
    var config: Config, events: seq<Event<Item, R, E>> :|
      IsRun(Init<Item, R, E>(config), events) && After(Init(config), events) == s;
    RunKeepsThrottle(Init<Item, R, E>(config), events);
  }

  // ---- ... told by the events alone ----

  ghost predicate AllStopped<Item, R, E>(s: State<Item, R, E>) {
    forall w | 0 <= w < |s.workers| :: s.workers[w].Stopped?
  }

  /** Nothing is taken before it is woken for: what is due stays due. */
  lemma {:induction false} StaysDue<Item, R, E>(s: State<Item, R, E>, events: seq<Event<Item, R, E>>)
    requires Inv(s) && IsRun(s, events) && s.queue.nextExecution.Some?
    requires forall e <- events :: !e.WakeUp?
    ensures Inv(After(s, events)) && After(s, events).queue.nextExecution == s.queue.nextExecution
    decreases |events|
  {
    if events != [] {
      assert events[0] in events && forall e <- events[1..] :: e in events;
      StepKeepsInv(s, events[0]);
      StepStaysDue(s, events[0]);
      StaysDue(Next(s, events[0]), events[1..]);
    }
  }

  lemma StepStaysDue<Item, R, E>(s: State<Item, R, E>, e: Event<Item, R, E>)
    requires Inv(s) && Enabled(s, e) && s.queue.nextExecution.Some? && !e.WakeUp?
    ensures Next(s, e).queue.nextExecution == s.queue.nextExecution
  {
    if !e.Configure? && !e.CallArrives? {
      MovesLast(s, e.w);
    }
  }

  lemma WokenWhenDue<Item, R, E>(s: State<Item, R, E>, w: nat, now: int)
    requires Inv(s) && Enabled(s, WakeUp(w, now))
    ensures s.queue.nextExecution.Some? && now >= s.queue.nextExecution.value
  {
    MovesLast(s, w);
  }

  lemma CallSetsDue<Item, R, E>(s: State<Item, R, E>, item: Item, now: int)
    requires Inv(s) && AllStopped(s)
    ensures var next := Next(s, CallArrives(item, now)).queue.nextExecution;
            && next.Some? && next.value >= now + s.config.batchDelayMs * MILLISECOND
            && (s.ends != [] ==> next.value >= s.ends[|s.ends| - 1] + s.config.minIntervalMs * MILLISECOND)
  {
    assert Current(s).Stopped?;
  }

  lemma {:induction false} RunsSplit<Item, R, E>(s: State<Item, R, E>, events: seq<Event<Item, R, E>>, more: seq<Event<Item, R, E>>)
    requires IsRun(s, events + more)
    ensures IsRun(s, events) && IsRun(After(s, events), more) && After(s, events + more) == After(After(s, events), more)
    decreases |events|
  {
    if events == [] {
      assert events + more == more;
    } else {
      assert (events + more)[1..] == events[1..] + more;
      RunsSplit(Next(s, events[0]), events[1..], more);
    }
  }

  /** In any run: when a call arrives while no worker is alive, the next time that a worker wakes up for a batch is neither
      before the delay after that call nor before the minimum interval after the last time that a worker was done. */
  lemma IdleCallWaits<Item, R, E>(config: Config, before: seq<Event<Item, R, E>>, item: Item, calledAt: int,
                                  between: seq<Event<Item, R, E>>, w: nat, wokenAt: int)
    requires IsRun(Init<Item, R, E>(config), before + ([CallArrives(item, calledAt)] + (between + [WakeUp(w, wokenAt)])))
    requires forall e <- between :: !e.WakeUp?
    ensures IsRun(Init<Item, R, E>(config), before)
    ensures var idle := After(Init<Item, R, E>(config), before);
            AllStopped(idle) ==>
              && wokenAt >= calledAt + idle.config.batchDelayMs * MILLISECOND
              && (EndsOf(before) != [] ==>
                    wokenAt >= EndsOf(before)[|EndsOf(before)| - 1] + idle.config.minIntervalMs * MILLISECOND)
  {
    var rest := [CallArrives(item, calledAt)] + (between + [WakeUp(w, wokenAt)]);
    RunsSplit(Init<Item, R, E>(config), before, rest);
    RunKeepsInv(Init<Item, R, E>(config), before);
    EndsRecorded(Init<Item, R, E>(config), before);
    assert [] + EndsOf(before) == EndsOf(before);
    var idle := After(Init<Item, R, E>(config), before);
    if AllStopped(idle) {
      assert rest[1..] == between + [WakeUp(w, wokenAt)];
      IdleThenWoken(idle, item, calledAt, between, w, wokenAt);
    }
  }

  lemma IdleThenWoken<Item, R, E>(idle: State<Item, R, E>, item: Item, calledAt: int, between: seq<Event<Item, R, E>>, w: nat,
                                  wokenAt: int)
    requires Inv(idle) && AllStopped(idle)
    requires IsRun(Next(idle, CallArrives(item, calledAt)), between + [WakeUp(w, wokenAt)])
    requires forall e <- between :: !e.WakeUp?
    ensures wokenAt >= calledAt + idle.config.batchDelayMs * MILLISECOND
    ensures idle.ends != [] ==> wokenAt >= idle.ends[|idle.ends| - 1] + idle.config.minIntervalMs * MILLISECOND
  {
    var called := Next(idle, CallArrives(item, calledAt));
    CallSetsDue(idle, item, calledAt);
    StepKeepsInv(idle, CallArrives(item, calledAt));
    RunsSplit(called, between, [WakeUp(w, wokenAt)]);
    StaysDue(called, between);
    WokenWhenDue(After(called, between), w, wokenAt);
  }

  /** What is due next respects the minimum interval after the last batch. */
  predicate Spaced<Item, R, E>(s: State<Item, R, E>) {
    s.queue.nextExecution.Some? && s.ends != [] ==>
      s.queue.nextExecution.value >= s.ends[|s.ends| - 1] + s.config.minIntervalMs * MILLISECOND
  }

  /** The readings of the clock in one step follow one another. */
  predicate InClockOrder<Item, R, E>(e: Event<Item, R, E>) {
    e.Record? ==> e.finishedAt <= e.now <= e.measuredAt
  }

  /** A worker that ends a batch while items wait schedules the next one; that one is due a minimum interval later
      exactly when the interval went by while the worker held the lock. */
  lemma ChainedThrottledIff<Item(!new), R(!new), E(!new)>(s: State<Item, R, E>, w: nat, finishedAt: int, now: int, measuredAt: int)
    requires Reachable(s) && s.queue.items != []
    requires w < |s.workers| && s.workers[w].Finishing? && finishedAt <= now <= measuredAt
    ensures var t := Next(s, Record(w, finishedAt, now, measuredAt));
            && t.queue.nextExecution.Some? && t.queue.lastExecution == Some(finishedAt)
            && (Spaced(t) <==> measuredAt >= finishedAt + s.config.minIntervalMs * MILLISECOND)
  {
    ReachableInv(s);
    assert s.workers[w] == Current(s);
    var elapsed := measuredAt - finishedAt;
    assert elapsed / MILLISECOND * MILLISECOND <= elapsed;
    if elapsed >= s.config.minIntervalMs * MILLISECOND {
      assert elapsed / MILLISECOND >= s.config.minIntervalMs;
    }
  }

  predicate Schedules<Item, R, E>(s: State<Item, R, E>, e: Event<Item, R, E>) {
    Enabled(s, e) && s.queue.nextExecution.None? && Next(s, e).queue.nextExecution.Some?
  }

  /** The same step at another time. */
  predicate SameStep<Item, R, E>(e: Event<Item, R, E>, f: Event<Item, R, E>) {
    (e.CallArrives? && f.CallArrives?) || (e.Record? && f.Record? && e.w == f.w)
  }

  /** Whatever the clock shows, a step that schedules a batch respects the minimum interval, in any reachable state,
      exactly when it is a call or the interval is zero. */
  lemma ThrottledStepIff<Item(!new), R(!new), E(!new)>(s: State<Item, R, E>, e: Event<Item, R, E>)
    requires Reachable(s) && Schedules(s, e)
    ensures (forall f: Event<Item, R, E> | SameStep(e, f) && Enabled(s, f) && InClockOrder(f) :: Spaced(Next(s, f)))
       <==> e.CallArrives? || s.config.minIntervalMs == 0
  {
    ReachableInv(s);
    if e.Record? {
      var at: Event<Item, R, E> := Record(e.w, 0, 0, 0);
      ChainedThrottledIff(s, e.w, 0, 0, 0);
      assert SameStep(e, at) && Enabled(s, at) && InClockOrder(at);
      forall f: Event<Item, R, E> | SameStep(e, f) && Enabled(s, f) && InClockOrder(f)
        ensures s.config.minIntervalMs == 0 ==> Spaced(Next(s, f))
      {
        ChainedThrottledIff(s, f.w, f.finishedAt, f.now, f.measuredAt);
      }
    }
  }

  // ---- throttling over runs ----

  /** The configuration stays what it is and the clock moves on. */
  ghost predicate Timely<Item, R, E>(events: seq<Event<Item, R, E>>) {
    forall e <- events :: !e.Configure? && InClockOrder(e)
  }

  predicate StartsSpaced<Item, R, E>(entry: Entry<Item, R, E>, config: Config) {
    entry.previousEnd.Some? ==> entry.startedAt >= entry.previousEnd.value + config.minIntervalMs * MILLISECOND
  }

  ghost predicate SpacedSoFar<Item, R, E>(s: State<Item, R, E>) {
    && s.config.minIntervalMs == 0 && Spaced(s)
    && (forall entry <- s.log :: StartsSpaced(entry, s.config))
    && (Current(s).Running? && s.ends != [] ==> Current(s).startedAt >= s.ends[|s.ends| - 1])
  }

  lemma StepKeepsSpaced<Item, R, E>(s: State<Item, R, E>, e: Event<Item, R, E>)
    requires Inv(s) && SpacedSoFar(s) && Enabled(s, e) && !e.Configure? && InClockOrder(e)
    ensures SpacedSoFar(Next(s, e))
  {
  }

  lemma {:induction false} RunKeepsSpaced<Item, R, E>(s: State<Item, R, E>, events: seq<Event<Item, R, E>>)
    requires Inv(s) && SpacedSoFar(s) && IsRun(s, events) && Timely(events)
    ensures SpacedSoFar(After(s, events))
    decreases |events|
  {
    if events != [] {
      assert events[0] in events && forall e <- events[1..] :: e in events;
      StepKeepsInv(s, events[0]);
      StepKeepsSpaced(s, events[0]);
      RunKeepsSpaced(Next(s, events[0]), events[1..]);
    }
  }

  ghost predicate TimelyReachable<Item(!new), R(!new), E(!new)>(config: Config, s: State<Item, R, E>) {
    exists events: seq<Event<Item, R, E>> {:trigger After(Init(config), events)} ::
      IsRun(Init<Item, R, E>(config), events) && Timely(events) && After(Init(config), events) == s
  }

  lemma TimelyStep<Item(!new), R(!new), E(!new)>(config: Config, s: State<Item, R, E>, e: Event<Item, R, E>)
    returns (t: State<Item, R, E>)
    requires TimelyReachable(config, s) && Enabled(s, e) && !e.Configure? && InClockOrder(e)
    ensures t == Next(s, e) && TimelyReachable(config, t)
  {
    var events: seq<Event<Item, R, E>> :|
      IsRun(Init<Item, R, E>(config), events) && Timely(events) && After(Init(config), events) == s;
    RunThenStep(Init<Item, R, E>(config), events, e);
    t := Next(s, e);
    assert Timely(events + [e]);
  }

  /** Two calls, the second while the processor has the first. */
  lemma CallWhileProcessing(config: Config, due: int) returns (s: State<int, int, int>)
    requires due == config.batchDelayMs * MILLISECOND
    ensures TimelyReachable(config, s)
    ensures s == State(Queue([Call(6, 1)], None, None, true), config, [Running([Call(5, 0)], due)], ByCall(0, config),
                       [Call(5, 0), Call(6, 1)], [], [], [])
  {
    s := Init(config);
    assert IsRun(s, []) && After(s, []) == s && Timely<int, int, int>([]);
    s := TimelyStep(config, s, CallArrives(5, 0));
    assert s.calls == s.queue.items == [Call(5, 0)] && s.workers == [Start];
    s := TimelyStep(config, s, ReadDue(0, 0));
    assert s.workers == [Sleeping(due)];
    s := TimelyStep(config, s, WakeUp(0, due));
    assert s.workers == [Running([Call(5, 0)], due)];
    s := TimelyStep(config, s, CallArrives(6, due));
  }

  lemma FirstBatchEnds(config: Config, before: State<int, int, int>, due: int) returns (s: State<int, int, int>)
    requires TimelyReachable(config, before) && before.workers == [Running([Call(5, 0)], due)] && before.answers == []
    requires before.queue == Queue([Call(6, 1)], None, None, true) && before.ends == []
    ensures TimelyReachable(config, s) && |s.log| == |before.log| + 1 && s.config == before.config
    ensures s.workers == [Start] && s.queue == Queue([Call(6, 1)], Some(due), Some(due), false) && s.ends == [due]
  {
    s := TimelyStep(config, before, Process(0, Ok([10])));
    s := TimelyStep(config, s, Send(0));
    s := TimelyStep(config, s, Send(0));
    s := TimelyStep(config, s, Record(0, due, due, due));
  }

  /** A call that arrives while a batch is being processed is not throttled: whatever the configuration, there is a run
      in which its batch starts at the very instant the one before it ends. */
  lemma ChainedBatchIsNotThrottled(config: Config) returns (s: State<int, int, int>)
    ensures TimelyReachable(config, s) && |s.log| == 2
    ensures s.log[1].previousEnd.Some? && s.log[1].startedAt == s.log[1].previousEnd.value
  {
    var due := config.batchDelayMs * MILLISECOND;
    s := CallWhileProcessing(config, due);
    s := FirstBatchEnds(config, s, due);
    s := TimelyStep(config, s, ReadDue(0, due));
    s := TimelyStep(config, s, WakeUp(0, due));
    s := TimelyStep(config, s, Process(0, Ok([12])));
  }

  /** Every batch of every run starts a minimum interval after the one before it exactly when that interval is zero. */
  lemma AllBatchesSpacedIff(config: Config)
    ensures (forall s: State<int, int, int> | TimelyReachable(config, s) :: forall entry <- s.log :: StartsSpaced(entry, config))
       <==> config.minIntervalMs == 0
  {
    var s := ChainedBatchIsNotThrottled(config);
    assert s.log[1] in s.log;
    if config.minIntervalMs == 0 {
      forall t: State<int, int, int> | TimelyReachable(config, t)
        ensures forall entry <- t.log :: StartsSpaced(entry, config)
      {
        var events: seq<Event<int, int, int>> :|
          IsRun(Init<int, int, int>(config), events) && Timely(events) && After(Init(config), events) == t;
        RunKeepsSpaced(Init<int, int, int>(config), events);
        ConfigKept(Init<int, int, int>(config), events);
      }
    }
  }

  lemma {:induction false} ConfigKept<Item, R, E>(s: State<Item, R, E>, events: seq<Event<Item, R, E>>)
    requires IsRun(s, events) && Timely(events)
    ensures After(s, events).config == s.config
    decreases |events|
  {
    if events != [] {
      assert events[0] in events && forall e <- events[1..] :: e in events;
      ConfigKept(Next(s, events[0]), events[1..]);
    }
  }
}
