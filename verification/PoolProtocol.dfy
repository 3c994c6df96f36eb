/** Callers taking values out of one pool, giving them back and giving up, in every possible order. */
module PoolProtocol {
  import opened Pool
  import opened Sequences

  /** What became of a caller: queued, sent a value it has not picked up, holding one, done with it, or gone without
      one. */
  datatype Caller<T> = Waiting | Delivered(value: T) | Holding(value: T) | Returned | Cancelled

  /** Callers are numbered in the order they came. */
  datatype State<T> = State(shelf: Shelf<T>, callers: seq<Caller<T>>)

  /** `Cancel` is a caller giving up: one that was already sent a value drops it with the channel. */
  datatype Event = Get | Receive(c: nat) | Drop(c: nat) | Cancel(c: nat)

  function Init<T>(values: seq<T>): State<T> {
    State(Shelf(values, []), [])
  }

  predicate Enabled<T>(s: State<T>, e: Event) {
    match e
    case Get => true
    case Receive(c) => c < |s.callers| && s.callers[c].Delivered?
    case Drop(c) => c < |s.callers| && s.callers[c].Holding?
    case Cancel(c) => c < |s.callers| && (s.callers[c].Waiting? || s.callers[c].Delivered?)
  }

  function Closed<T>(callers: seq<Caller<T>>): set<nat> {
    set c: nat | c < |callers| && callers[c].Cancelled?
  }

  /** Every queue entry is a caller. */
  predicate KnownWaiters<T>(s: State<T>) {
    forall i | 0 <= i < |s.shelf.waiters| :: s.shelf.waiters[i] < |s.callers|
  }

  /** A guard holding `value` is dropped. */
  function Dropped<T>(s: State<T>, value: T): State<T>
    requires KnownWaiters(s)
  {
    var (shelf, to) := GivenBack(s.shelf, value, Closed(s.callers));
    State(shelf, if to.Some? then s.callers[to.value := Delivered(value)] else s.callers)
  }

  function Next<T>(s: State<T>, e: Event): State<T>
    requires Enabled(s, e) && KnownWaiters(s)
  {
    match e
    case Get =>
      var (shelf, value) := Asked(s.shelf, |s.callers|);
      State(shelf, s.callers + [if value.Some? then Holding(value.value) else Waiting])
    case Receive(c) => s.(callers := s.callers[c := Holding(s.callers[c].value)])
    case Drop(c) => Dropped(s.(callers := s.callers[c := Returned]), s.callers[c].value)
    case Cancel(c) =>
      var gone := s.(callers := s.callers[c := Cancelled]);
      if s.callers[c].Delivered? then Dropped(gone, s.callers[c].value) else gone
  }

  /** The queue: callers in the order they came, nobody twice, everyone who still waits; and no value is idle while
      there is a queue. */
  ghost predicate Queued<T>(s: State<T>) {
    && KnownWaiters(s)
    && (forall i, j | 0 <= i < j < |s.shelf.waiters| :: s.shelf.waiters[i] < s.shelf.waiters[j])
    && (forall i | 0 <= i < |s.shelf.waiters| :: s.callers[s.shelf.waiters[i]].Waiting? || s.callers[s.shelf.waiters[i]].Cancelled?)
    && (forall c: nat | c < |s.callers| && s.callers[c].Waiting? :: c in s.shelf.waiters)
    && (s.shelf.values == [] || s.shelf.waiters == [])
  }

  /** Nobody who came after a caller still waiting has been served. */
  ghost predicate NoneOvertaken<T>(s: State<T>) {
    forall c: nat, d: nat | c < d < |s.callers| && s.callers[c].Waiting? :: s.callers[d].Waiting? || s.callers[d].Cancelled?
  }

  predicate Has<T(==)>(caller: Caller<T>, v: T) {
    (caller.Delivered? || caller.Holding?) && caller.value == v
  }

  function Count<T(==)>(callers: seq<Caller<T>>, v: T): nat {
    if callers == [] then 0 else Count(callers[..|callers| - 1], v) + if Has(callers[|callers| - 1], v) then 1 else 0
  }

  /** How often `v` is there: idle, held by a caller, or on its way to one. */
  function Tally<T(==)>(s: State<T>, v: T): nat {
    multiset(s.shelf.values)[v] + Count(s.callers, v)
  }

  lemma {:induction false} CountUpdated<T>(callers: seq<Caller<T>>, c: nat, caller: Caller<T>, v: T)
    requires c < |callers|
    ensures Count(callers[c := caller], v) + (if Has(callers[c], v) then 1 else 0)
         == Count(callers, v) + (if Has(caller, v) then 1 else 0)
    decreases |callers|
  {
    var n := |callers| - 1;
    var updated := callers[c := caller];
    if c == n {
      assert updated[..n] == callers[..n];
    } else {
      assert updated[..n] == callers[..n][c := caller];
      CountUpdated(callers[..n], c, caller, v);
    }
  }

  lemma DroppedCounts<T>(s: State<T>, value: T, v: T)
    requires Queued(s)
    ensures Tally(Dropped(s, value), v) == Tally(s, v) + if value == v then 1 else 0
  {
    var k := Gone(s.shelf.waiters, Closed(s.callers));
    if k < |s.shelf.waiters| {
      CountUpdated(s.callers, s.shelf.waiters[k], Delivered(value), v);
    } else {
      assert multiset(s.shelf.values + [value]) == multiset(s.shelf.values) + multiset{value};
    }
  }

  lemma GetCounts<T>(s: State<T>, v: T)
    requires KnownWaiters(s)
    ensures Tally(Next(s, Get), v) == Tally(s, v)
  {
    var t := Next(s, Get);
    assert t.callers[..|s.callers|] == s.callers;
    if s.shelf.values != [] {
      assert s.shelf.values == [s.shelf.values[0]] + s.shelf.values[1..];
      assert multiset(s.shelf.values) == multiset{s.shelf.values[0]} + multiset(s.shelf.values[1..]);
    }
  }

  /** No step loses a value or makes one. */
  lemma StepConserves<T>(s: State<T>, e: Event, v: T)
    requires Queued(s) && Enabled(s, e)
    ensures Tally(Next(s, e), v) == Tally(s, v)
  {
    match e
    case Get => GetCounts(s, v);
    case Receive(c) => CountUpdated(s.callers, c, Holding(s.callers[c].value), v);
    case Drop(c) => LeavingConserves(s, c, Returned, v);
    case Cancel(c) =>
      if s.callers[c].Delivered? {
        LeavingConserves(s, c, Cancelled, v);
      } else {
        CountUpdated(s.callers, c, Cancelled, v);
      }
  }

  lemma LeavingConserves<T>(s: State<T>, c: nat, caller: Caller<T>, v: T)
    requires Queued(s) && c < |s.callers|
    requires (s.callers[c].Holding? && caller.Returned?) || (s.callers[c].Delivered? && caller.Cancelled?)
    ensures Queued(s.(callers := s.callers[c := caller]))
    ensures Tally(Dropped(s.(callers := s.callers[c := caller]), s.callers[c].value), v) == Tally(s, v)
  {
    CountUpdated(s.callers, c, caller, v);
    LeavingKeepsQueued(s, c, caller);
    DroppedCounts(s.(callers := s.callers[c := caller]), s.callers[c].value, v);
  }

  lemma LeavingKeepsQueued<T>(s: State<T>, c: nat, caller: Caller<T>)
    requires Queued(s) && c < |s.callers|
    requires caller.Cancelled? || (caller.Returned? && s.callers[c].Holding?)
    ensures Queued(s.(callers := s.callers[c := caller]))
  {
  }

  /** The caller to be served next. */
  ghost predicate WaitedLongest<T>(s: State<T>, c: nat) {
    c < |s.callers| && s.callers[c].Waiting? && forall d: nat | d < c :: !s.callers[d].Waiting?
  }

  /** The first queue entry still there is the caller who has waited longest. */
  lemma FirstOpenWaitedLongest<T>(s: State<T>)
    requires Queued(s)
    ensures var k := Gone(s.shelf.waiters, Closed(s.callers));
            if k < |s.shelf.waiters| then WaitedLongest(s, s.shelf.waiters[k])
            else forall c: nat | c < |s.callers| :: !s.callers[c].Waiting?
  {
    var k := Gone(s.shelf.waiters, Closed(s.callers));
    forall c: nat | c < |s.callers| && s.callers[c].Waiting?
      ensures k < |s.shelf.waiters| && s.shelf.waiters[k] <= c
    {
      var i :| 0 <= i < |s.shelf.waiters| && s.shelf.waiters[i] == c;
      assert i >= k;
    }
  }

  /** A value given back goes to the caller who has waited longest, if anyone waits, and becomes idle otherwise. */
  lemma DroppedServesLongest<T>(s: State<T>, value: T)
    requires Queued(s)
    ensures var t := Dropped(s, value);
            && (forall c: nat | WaitedLongest(s, c) :: t.callers == s.callers[c := Delivered(value)] && t.shelf.values == s.shelf.values)
            && ((forall c: nat | c < |s.callers| :: !s.callers[c].Waiting?) ==>
                  t.callers == s.callers && t.shelf.values == s.shelf.values + [value])
  {
    FirstOpenWaitedLongest(s);
    var k := Gone(s.shelf.waiters, Closed(s.callers));
    forall c: nat | WaitedLongest(s, c)
      ensures k < |s.shelf.waiters| && s.shelf.waiters[k] == c
    {
      assert k < |s.shelf.waiters| && WaitedLongest(s, s.shelf.waiters[k]);
    }
  }

  lemma RestInOrder<T>(s: State<T>, k: nat, value: T)
    requires Queued(s) && k < |s.shelf.waiters|
    ensures var rest, callers := s.shelf.waiters[k + 1..], s.callers[s.shelf.waiters[k] := Delivered(value)];
            && (forall i, j | 0 <= i < j < |rest| :: rest[i] < rest[j])
            && (forall i | 0 <= i < |rest| :: rest[i] < |callers| && (callers[rest[i]].Waiting? || callers[rest[i]].Cancelled?))
  {
  }

  lemma RestStillQueued<T>(s: State<T>, k: nat, value: T)
    requires Queued(s) && k < |s.shelf.waiters| && WaitedLongest(s, s.shelf.waiters[k])
    ensures var rest, callers := s.shelf.waiters[k + 1..], s.callers[s.shelf.waiters[k] := Delivered(value)];
            forall c: nat | c < |callers| && callers[c].Waiting? :: c in rest
  {
    var rest, callers := s.shelf.waiters[k + 1..], s.callers[s.shelf.waiters[k] := Delivered(value)];
    forall c: nat | c < |callers| && callers[c].Waiting?
      ensures c in rest
    {
      var i :| 0 <= i < |s.shelf.waiters| && s.shelf.waiters[i] == c;
      assert i > k;
      assert rest[i - k - 1] == c;
    }
  }

  lemma DroppedKeepsQueued<T>(s: State<T>, value: T)
    requires Queued(s)
    ensures Queued(Dropped(s, value))
  {
    FirstOpenWaitedLongest(s);
    var k := Gone(s.shelf.waiters, Closed(s.callers));
    if k < |s.shelf.waiters| {
      RestInOrder(s, k, value);
      RestStillQueued(s, k, value);
    }
  }

  lemma DroppedOvertakesNone<T>(s: State<T>, value: T)
    requires Queued(s) && NoneOvertaken(s)
    ensures NoneOvertaken(Dropped(s, value))
  {
    FirstOpenWaitedLongest(s);
  }

  lemma GetKeepsQueued<T>(s: State<T>)
    requires Queued(s) && NoneOvertaken(s)
    ensures Queued(Next(s, Get)) && NoneOvertaken(Next(s, Get))
  {
    var t := Next(s, Get);
    if s.shelf.values == [] {
      assert t.shelf.waiters[|s.shelf.waiters|] == |s.callers|;
      assert forall c :: c in s.shelf.waiters ==> c in t.shelf.waiters;
    }
  }

  /** A caller leaves, and what it held or was sent is given back. */
  lemma LeavingGivesBack<T>(s: State<T>, c: nat, caller: Caller<T>, value: T)
    requires Queued(s) && NoneOvertaken(s) && c < |s.callers|
    requires caller.Cancelled? || (caller.Returned? && s.callers[c].Holding?)
    ensures var gone := s.(callers := s.callers[c := caller]);
            && Queued(gone) && NoneOvertaken(gone)
            && Queued(Dropped(gone, value)) && NoneOvertaken(Dropped(gone, value))
  {
    LeavingKeepsQueued(s, c, caller);
    var gone := s.(callers := s.callers[c := caller]);
    DroppedKeepsQueued(gone, value);
    DroppedOvertakesNone(gone, value);
  }

  lemma StepKeepsQueued<T>(s: State<T>, e: Event)
    requires Queued(s) && NoneOvertaken(s) && Enabled(s, e)
    ensures Queued(Next(s, e)) && NoneOvertaken(Next(s, e))
  {
    match e
    case Get => GetKeepsQueued(s);
    case Receive(c) =>
    case Drop(c) => LeavingGivesBack(s, c, Returned, s.callers[c].value);
    case Cancel(c) =>
      if s.callers[c].Delivered? {
        LeavingGivesBack(s, c, Cancelled, s.callers[c].value);
      } else {
        LeavingKeepsQueued(s, c, Cancelled);
      }
  }

  /** What a step does to the callers: a new one gets the value idle longest or waits; one that was sent a value holds it
      after picking it up; one that leaves has nothing any more; and nobody else changes, except that one waiting caller
      may be sent the value that was given back. */
  lemma StepEffect<T>(s: State<T>, e: Event, d: nat)
    requires Queued(s) && Enabled(s, e) && d < |s.callers|
    ensures var t := Next(s, e);
            && |t.callers| == |s.callers| + (if e.Get? then 1 else 0)
            && match e
               case Get =>
                 && t.callers[d] == s.callers[d]
                 && t.callers[|s.callers|] == if s.shelf.values != [] then Holding(s.shelf.values[0]) else Waiting
               case Receive(c) => t.callers[d] == if d == c then Holding(s.callers[c].value) else s.callers[d]
               case Drop(c) =>
                 if d == c then t.callers[d] == Returned
                 else t.callers[d] == s.callers[d] || (s.callers[d].Waiting? && t.callers[d] == Delivered(s.callers[c].value))
               case Cancel(c) =>
                 if d == c then t.callers[d] == Cancelled
                 else t.callers[d] == s.callers[d]
                      || (s.callers[d].Waiting? && s.callers[c].Delivered? && t.callers[d] == Delivered(s.callers[c].value))
  {
    match e
    case Get =>
    case Receive(_) =>
    case Drop(c) => LeavingKeepsQueued(s, c, Returned);
    case Cancel(c) => LeavingKeepsQueued(s, c, Cancelled);
  }

  // ---- every run ----

  ghost predicate IsRun<T>(s: State<T>, events: seq<Event>)
    decreases |events|
  {
    events == [] || (KnownWaiters(s) && Enabled(s, events[0]) && IsRun(Next(s, events[0]), events[1..]))
  }

  ghost function After<T>(s: State<T>, events: seq<Event>): State<T>
    requires IsRun(s, events)
    decreases |events|
  {
    if events == [] then s else After(Next(s, events[0]), events[1..])
  }

  lemma {:induction false} RunKeeps<T>(s: State<T>, events: seq<Event>, v: T)
    requires Queued(s) && NoneOvertaken(s) && IsRun(s, events)
    ensures Queued(After(s, events)) && NoneOvertaken(After(s, events))
    ensures Tally(After(s, events), v) == Tally(s, v)
    decreases |events|
  {
    if events != [] {
      StepKeepsQueued(s, events[0]);
      StepConserves(s, events[0], v);
      RunKeeps(Next(s, events[0]), events[1..], v);
    }
  }

  /** Whatever callers do, every value of the pool stays there exactly as often as it was put in: idle, held, or on its
      way to a caller. */
  lemma ValuesConserved<T>(values: seq<T>, events: seq<Event>, v: T)
    requires IsRun(Init(values), events)
    ensures Tally(After(Init(values), events), v) == multiset(values)[v]
  {
    RunKeeps(Init(values), events, v);
  }

  /** Nobody waits while a value is idle, and nobody is served before a caller who came earlier and still waits. */
  lemma ServedInOrder<T>(values: seq<T>, events: seq<Event>, c: nat)
    requires IsRun(Init(values), events)
    requires c < |After(Init(values), events).callers| && After(Init(values), events).callers[c].Waiting?
    ensures var s := After(Init(values), events);
            && s.shelf.values == []
            && forall d | c < d < |s.callers| :: !s.callers[d].Delivered? && !s.callers[d].Holding? && !s.callers[d].Returned?
  {
    var s := After(Init(values), events);
    KeepsWithoutValue(Init(values), events);
    assert c in s.shelf.waiters;
  }

  lemma {:induction false} KeepsWithoutValue<T>(s: State<T>, events: seq<Event>)
    requires Queued(s) && NoneOvertaken(s) && IsRun(s, events)
    ensures Queued(After(s, events)) && NoneOvertaken(After(s, events))
    decreases |events|
  {
    if events != [] {
      StepKeepsQueued(s, events[0]);
      KeepsWithoutValue(Next(s, events[0]), events[1..]);
    }
  }

  lemma {:induction false} NobodyHas<T>(callers: seq<Caller<T>>, v: T)
    requires forall c | 0 <= c < |callers| :: !callers[c].Delivered? && !callers[c].Holding?
    ensures Count(callers, v) == 0
    decreases |callers|
  {
    if callers != [] {
      NobodyHas(callers[..|callers| - 1], v);
    }
  }

  /** No wake-up is lost: once all values of a pool that has any are back, nobody is left waiting. */
  lemma NobodyLeftWaiting<T(!new)>(values: seq<T>, events: seq<Event>)
    requires values != [] && IsRun(Init(values), events)
    requires var s := After(Init(values), events);
             forall c | 0 <= c < |s.callers| :: !s.callers[c].Delivered? && !s.callers[c].Holding?
    ensures var s := After(Init(values), events);
            && (forall v: T :: multiset(s.shelf.values)[v] == multiset(values)[v])
            && forall c | 0 <= c < |s.callers| :: !s.callers[c].Waiting?
  {
    var s := After(Init(values), events);
    forall v: T
      ensures multiset(s.shelf.values)[v] == multiset(values)[v]
    {
      ValuesConserved(values, events, v);
      NobodyHas(s.callers, v);
    }
    assert values[0] in multiset(values);
    assert multiset(s.shelf.values)[values[0]] > 0;
    assert s.shelf.values != [];
    KeepsWithoutValue(Init(values), events);
  }

  // ---- idle values ----

  /** The value a get call returned with at once, if it did. */
  function HandedBy<T>(s: State<T>, e: Event, t: State<T>): seq<T>
    requires e.Get? ==> |t.callers| > |s.callers|
  {
    if e.Get? && t.callers[|s.callers|].Holding? then [t.callers[|s.callers|].value] else []
  }

  /** The value a step gave back without a waiting caller being sent one, if there is one. */
  ghost function IdledBy<T>(s: State<T>, e: Event, t: State<T>): seq<T>
    requires Enabled(s, e)
  {
    if (e.Drop? || (e.Cancel? && s.callers[e.c].Delivered?))
       && !(exists d: nat :: d < |s.callers| && d < |t.callers| && s.callers[d].Waiting? && t.callers[d].Delivered?)
    then [s.callers[e.c].value] else []
  }

  ghost function Handed<T>(s: State<T>, events: seq<Event>): seq<T>
    requires IsRun(s, events)
    decreases |events|
  {
    if events == [] then [] else HandedBy(s, events[0], Next(s, events[0])) + Handed(Next(s, events[0]), events[1..])
  }

  ghost function Idled<T>(s: State<T>, events: seq<Event>): seq<T>
    requires IsRun(s, events)
    decreases |events|
  {
    if events == [] then [] else IdledBy(s, events[0], Next(s, events[0])) + Idled(Next(s, events[0]), events[1..])
  }

  lemma GivenBackIdles<T>(s: State<T>, e: Event, caller: Caller<T>)
    requires Queued(s) && Enabled(s, e) && !e.Get? && !e.Receive?
    requires (e.Drop? && caller == Returned) || (e.Cancel? && s.callers[e.c].Delivered? && caller == Cancelled)
    ensures Next(s, e) == Dropped(s.(callers := s.callers[e.c := caller]), s.callers[e.c].value)
    ensures s.shelf.values + IdledBy(s, e, Next(s, e)) == Next(s, e).shelf.values
  {
    var gone, t := s.(callers := s.callers[e.c := caller]), Next(s, e);
    LeavingKeepsQueued(s, e.c, caller);
    var k := Gone(gone.shelf.waiters, Closed(gone.callers));
    if k < |gone.shelf.waiters| {
      var d := gone.shelf.waiters[k];
      assert d < |s.callers| && s.callers[d].Waiting? && t.callers[d].Delivered?;
      assert s.shelf.values + [] == s.shelf.values;
    }
  }

  lemma StepIdles<T>(s: State<T>, e: Event)
    requires Queued(s) && Enabled(s, e)
    ensures e.Get? ==> |Next(s, e).callers| > |s.callers|
    ensures s.shelf.values + IdledBy(s, e, Next(s, e)) == HandedBy(s, e, Next(s, e)) + Next(s, e).shelf.values
  {
    match e
    case Get =>
      if s.shelf.values != [] {
        assert s.shelf.values == [s.shelf.values[0]] + s.shelf.values[1..];
      }
    case Receive(_) =>
    case Drop(_) => GivenBackIdles(s, e, Returned);
    case Cancel(c) =>
      if s.callers[c].Delivered? {
        GivenBackIdles(s, e, Cancelled);
      }
  }

  /** The value idle longest goes first: over any run, the values that get calls take at once are the first of those that
      were put in and of those that became idle since, in this order, and the idle ones are the rest. */
  lemma {:induction false} FirstIdleFirstOut<T>(s: State<T>, events: seq<Event>)
    requires Queued(s) && NoneOvertaken(s) && IsRun(s, events)
    ensures s.shelf.values + Idled(s, events) == Handed(s, events) + After(s, events).shelf.values
    decreases |events|
  {
    if events != [] {
      var t := Next(s, events[0]);
      StepIdles(s, events[0]);
      StepKeepsQueued(s, events[0]);
      FirstIdleFirstOut(t, events[1..]);
      var idled, handed := IdledBy(s, events[0], t), HandedBy(s, events[0], t);
      Regroup(s.shelf.values, idled, Idled(t, events[1..]));
      Regroup(handed, t.shelf.values, Idled(t, events[1..]));
      Regroup(handed, Handed(t, events[1..]), After(t, events[1..]).shelf.values);
    }
  }
}
