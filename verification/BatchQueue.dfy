/** The queue that callers and the batch worker share, and the four things they do to it while holding its lock. */
module BatchQueue {
  import opened Wrappers
  import opened Numbers

  /** Instants are counted in nanoseconds. */
  const MILLISECOND: int := 1_000_000

  datatype Config = Config(batchDelayMs: nat, minIntervalMs: nat)

  /** One caller's item; the ticket stands for the channel its result is sent to. */
  datatype Call<Item> = Call(item: Item, ticket: nat)

  datatype Queue<Item> = Queue(items: seq<Call<Item>>, nextExecution: Option<int>, lastExecution: Option<int>, processing: bool)

  /** When a batch that a call schedules is due. */
  function DueAt(last: Option<int>, config: Config, now: int): (due: int)
    ensures due >= now + config.batchDelayMs * MILLISECOND
    ensures last.Some? ==> due >= last.value + config.minIntervalMs * MILLISECOND
    ensures due == now + config.batchDelayMs * MILLISECOND
            || (last.Some? && due == last.value + config.minIntervalMs * MILLISECOND)
  {
    var batchNext := now + config.batchDelayMs * MILLISECOND;
    if last.Some? then Max(last.value + config.minIntervalMs * MILLISECOND, batchNext) else batchNext
  }

  /** When a batch is due that a worker schedules on finishing: the time since the last execution is measured right
      after that execution was recorded. */
  function ChainedAt(finishedAt: int, now: int, measuredAt: int): (due: int)
    ensures due >= now
    ensures due <= Max(now, Max(finishedAt, measuredAt))
    ensures due > now ==> due >= finishedAt && (due - finishedAt) % MILLISECOND == 0
    ensures due > measuredAt - MILLISECOND
  {
    Max(finishedAt + Max(0, measuredAt - finishedAt) / MILLISECOND * MILLISECOND, now)
  }

  predicate CallSchedules<Item>(q: Queue<Item>) {
    q.nextExecution.None? && !q.processing
  }

  function Enqueued<Item>(q: Queue<Item>, call: Call<Item>, config: Config, now: int): Queue<Item> {
    q.(items := q.items + [call],
       nextExecution := if CallSchedules(q) then Some(DueAt(q.lastExecution, config, now)) else q.nextExecution)
  }

  /** How long a worker that starts at `now` sleeps. */
  function Wait<Item>(q: Queue<Item>, now: int): (wait: Option<nat>)
    ensures wait.Some? <==> q.nextExecution.Some?
    ensures wait.Some? ==> now + wait.value == Max(now, q.nextExecution.value)
  {
    if q.nextExecution.None? then None
    else Some(if q.nextExecution.value > now then q.nextExecution.value - now else 0)
  }

  function Taken<Item>(q: Queue<Item>): Queue<Item> {
    Queue([], None, q.lastExecution, true)
  }

  predicate FinishSchedules<Item>(q: Queue<Item>) {
    q.items != [] && q.nextExecution.None?
  }

  function Finished<Item>(q: Queue<Item>, finishedAt: int, now: int, measuredAt: int): Queue<Item> {
    Queue(q.items, if FinishSchedules(q) then Some(ChainedAt(finishedAt, now, measuredAt)) else q.nextExecution,
          Some(finishedAt), false)
  }

  class SharedQueue<Item> {
    var items: seq<Call<Item>>
    var nextExecution: Option<int>
    var lastExecution: Option<int>
    var processing: bool

    constructor ()
      ensures Value() == Queue([], None, None, false)
    {
      items, nextExecution, lastExecution, processing := [], None, None, false;
    }

    function Value(): Queue<Item>
      reads this
    {
      Queue(items, nextExecution, lastExecution, processing)
    }

    method Enqueue(call: Call<Item>, config: Config, now: int) returns (shouldSchedule: bool)
      modifies this
      ensures Value() == Enqueued(old(Value()), call, config, now)
      ensures items == old(items) + [call] && lastExecution == old(lastExecution) && processing == old(processing)
      ensures shouldSchedule == CallSchedules(old(Value()))
    {
      items := items + [call];
      if nextExecution.None? && !processing {
        var nextTime := now + config.batchDelayMs * MILLISECOND;
        if lastExecution.Some? {
          var minNext := lastExecution.value + config.minIntervalMs * MILLISECOND;
          nextTime := Max(minNext, nextTime);
        }
        nextExecution := Some(nextTime);
        return true;
      }
      return false;
    }

    method WaitDuration(now: int) returns (wait: Option<nat>)
      ensures wait == Wait(Value(), now)
    {
      if nextExecution.None? {
        return None;
      }
      if nextExecution.value > now {
        return Some(nextExecution.value - now);
      }
      return Some(0);
    }

    method TakeItems() returns (batch: seq<Call<Item>>)
      modifies this
      ensures Value() == Taken(old(Value())) && batch == old(items)
      ensures items == [] && nextExecution == None && processing && lastExecution == old(lastExecution)
    {
      nextExecution := None;
      processing := true;
      batch := items;
      items := [];
    }

    method Finish(finishedAt: int, now: int, measuredAt: int) returns (shouldSchedule: bool)
      modifies this
      ensures Value() == Finished(old(Value()), finishedAt, now, measuredAt)
      ensures lastExecution == Some(finishedAt) && !processing && items == old(items)
      ensures shouldSchedule == FinishSchedules(old(Value()))
    {
      lastExecution := Some(finishedAt);
      processing := false;
      if items != [] && nextExecution.None? {
        var elapsedMs := Max(0, measuredAt - lastExecution.value) / MILLISECOND;
        var minNext := lastExecution.value + elapsedMs * MILLISECOND;
        nextExecution := Some(Max(minNext, now));
        return true;
      }
      return false;
    }
  }
}
