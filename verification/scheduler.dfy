/**
  An abstract live555 `TaskScheduler`, reduced to its delayed-task queue: each
  scheduled task gets a fresh token and sits in `pending` until it is fired or
  unscheduled. Time itself is not modelled; a task records the delay it was
  scheduled with.
*/
module Scheduler {

  /** The handlers the model schedules. */
  datatype Proc = DebounceUpdate | CheckAndRestart | CurlTimeout

  datatype Task = Task(delayUs: int, proc: Proc)

  /** Token 0 is the null token: it never names a pending task. */
  datatype Scheduler = Scheduler(nextToken: nat, pending: map<nat, Task>)

  predicate Valid(s: Scheduler) {
    && s.nextToken > 0
    && forall t :: t in s.pending ==> 0 < t < s.nextToken
  }

  const Empty: Scheduler := Scheduler(1, map[])

  datatype Scheduled = Scheduled(sched: Scheduler, token: nat)

  /**
    `scheduleDelayedTask`: queues a task under a fresh token. A negative delay
    is queued as 0, as the scheduler clamps it.
  */
  function Schedule(s: Scheduler, delayUs: int, proc: Proc): (r: Scheduled)
    requires Valid(s)
    ensures Valid(r.sched)
    ensures r.token > 0 && r.token !in s.pending
    ensures s.nextToken <= r.token < r.sched.nextToken
    ensures r.sched.pending == s.pending[r.token := Task(if delayUs < 0 then 0 else delayUs, proc)]
  {
    var t := s.nextToken;
    Scheduled(Scheduler(t + 1, s.pending[t := Task(if delayUs < 0 then 0 else delayUs, proc)]), t)
  }

  /** `unscheduleDelayedTask`: drops the task if it is still pending; otherwise nothing. */
  function Unschedule(s: Scheduler, token: nat): (r: Scheduler)
    requires Valid(s)
    ensures Valid(r)
    ensures r.nextToken == s.nextToken
    ensures r.pending == s.pending - {token}
  {
    Scheduler(s.nextToken, s.pending - {token})
  }

  /**
    `rescheduleDelayedTask`: unschedules the task and schedules it anew; the
    token the caller holds is replaced by the new one.
  */
  function Reschedule(s: Scheduler, token: nat, delayUs: int, proc: Proc): (r: Scheduled)
    requires Valid(s)
    requires token < s.nextToken
    ensures Valid(r.sched)
    ensures token !in r.sched.pending
    ensures r.token in r.sched.pending && r.sched.pending[r.token].proc == proc
    ensures s.nextToken <= r.token < r.sched.nextToken
    ensures forall t :: t in s.pending && t != token ==> t in r.sched.pending && r.sched.pending[t] == s.pending[t]
  {
    Schedule(Unschedule(s, token), delayUs, proc)
  }

  /** The scheduler runs a pending task: it leaves the queue. */
  function Fire(s: Scheduler, token: nat): (r: Scheduler)
    requires Valid(s)
    requires token in s.pending
    ensures Valid(r)
    ensures r.nextToken == s.nextToken
    ensures r.pending == s.pending - {token}
  {
    Scheduler(s.nextToken, s.pending - {token})
  }
}
