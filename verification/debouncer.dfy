/**
  `AsyncDebouncer`: a flag that blocks updates for a delay after each update,
  implemented with one delayed task on the scheduler whose handler
  (`DebounceUpdateProc`) allows updates again.
*/
module Debouncer {
  import opened Wrappers
  import opened Scheduler

  /** `updateAllowed_` and `taskToken_`. */
  datatype Debouncer = Debouncer(updateAllowed: bool, token: nat)

  /** A new debouncer allows updates and holds the null token. */
  const Initial: Debouncer := Debouncer(true, 0)

  /** `UpdateAllowed()`: a read of the flag. */
  predicate UpdateAllowed(d: Debouncer) {
    d.updateAllowed
  }

  /**
    The debouncer's token was issued by the scheduler, and while updates are
    blocked it names the pending release task.
  */
  predicate Consistent(d: Debouncer, s: Scheduler) {
    && d.token < s.nextToken
    && (!d.updateAllowed ==> d.token in s.pending && s.pending[d.token].proc == DebounceUpdate)
  }

  datatype Debounced = Debounced(deb: Debouncer, sched: Scheduler)

  /**
    `Debounce(delay)`. A non-positive delay first cancels a pending release and
    allows updates. Then, if updates are still blocked, the pending release is
    rescheduled with the delay; otherwise a release task is scheduled and
    updates become blocked.
  */
  function Debounce(d: Debouncer, s: Scheduler, delayUs: int): (r: Debounced)
    requires Valid(s)
    requires d.token < s.nextToken
    ensures Valid(r.sched)
    ensures !r.deb.updateAllowed
    ensures Consistent(r.deb, r.sched)
    ensures s.nextToken <= r.deb.token < r.sched.nextToken
    ensures r.sched.pending[r.deb.token].delayUs == if delayUs < 0 then 0 else delayUs
    // from the allowed state a fresh task is added and nothing is removed
    ensures d.updateAllowed ==>
      r.deb.token !in s.pending
      && r.sched.pending == s.pending[r.deb.token := Task(if delayUs < 0 then 0 else delayUs, DebounceUpdate)]
    // from the blocked state the old release task is gone (rescheduled or cancelled)
    ensures !d.updateAllowed ==> d.token !in r.sched.pending
    // every other task is untouched
    ensures forall t :: t in s.pending && t != d.token ==> t in r.sched.pending && r.sched.pending[t] == s.pending[t]
  {
    var blocked := !d.updateAllowed;
    var s1 := if delayUs <= 0 && blocked then Unschedule(s, d.token) else s;
    var stillBlocked := blocked && delayUs > 0;
    if stillBlocked then
      var r := Reschedule(s1, d.token, delayUs, DebounceUpdate);
      Debounced(Debouncer(false, r.token), r.sched)
    else
      var r := Schedule(s1, delayUs, DebounceUpdate);
      Debounced(Debouncer(false, r.token), r.sched)
  }

  /** `DebounceUpdateProc(clientData)`: allows updates again; a null client does nothing. */
  function DebounceUpdateProc(d: Option<Debouncer>): (r: Option<Debouncer>)
    ensures d.None? <==> r.None?
    ensures d.Some? ==> r.value.updateAllowed && r.value.token == d.value.token
  {
    match d
    case None => None
    case Some(deb) => Some(deb.(updateAllowed := true))
  }

  /** The scheduler fires a pending task; if it is the release task, updates are allowed again. */
  function OnTaskFired(d: Debouncer, s: Scheduler, token: nat): (r: Debounced)
    requires Valid(s)
    requires token in s.pending
    ensures Valid(r.sched)
    ensures r.sched.nextToken == s.nextToken && r.sched.pending == s.pending - {token}
    ensures r.deb.token == d.token
  {
    var s' := Fire(s, token);
    if s.pending[token].proc == DebounceUpdate && token == d.token then
      Debounced(DebounceUpdateProc(Some(d)).value, s')
    else
      Debounced(d, s')
  }

  /** The initial state is consistent with any scheduler. */
  lemma InitialConsistent(s: Scheduler)
    requires Valid(s)
    ensures UpdateAllowed(Initial)
    ensures Consistent(Initial, s)
  {
  }

  /**
    Firing any pending task keeps the debouncer consistent, and firing its own
    release task allows updates.
  */
  lemma FireKeepsConsistent(d: Debouncer, s: Scheduler, token: nat)
    requires Valid(s)
    requires token in s.pending
    requires Consistent(d, s)
    ensures Consistent(OnTaskFired(d, s, token).deb, OnTaskFired(d, s, token).sched)
    ensures token == d.token && !d.updateAllowed ==> UpdateAllowed(OnTaskFired(d, s, token).deb)
  {
  }

  /**
    From the allowed state, two debounces in a row with positive delays leave
    exactly one release task pending more than before: the second call
    reschedules rather than adds.
  */
  lemma {:induction false} DebounceTwiceOneTask(d: Debouncer, s: Scheduler, delay1: int, delay2: int)
    requires Valid(s)
    requires UpdateAllowed(d) && d.token < s.nextToken
    requires delay1 > 0 && delay2 > 0
    ensures var r1 := Debounce(d, s, delay1);
      var r2 := Debounce(r1.deb, r1.sched, delay2);
      && r2.deb.token !in s.pending
      && r2.sched.pending == s.pending[r2.deb.token := Task(delay2, DebounceUpdate)]
  {
    var r1 := Debounce(d, s, delay1);
    var r2 := Debounce(r1.deb, r1.sched, delay2);
    assert r1.sched.pending == s.pending[r1.deb.token := Task(delay1, DebounceUpdate)];
    assert r1.deb.token !in s.pending;
    assert r2.sched.pending.Keys == s.pending.Keys + {r2.deb.token} by {
      assert r1.deb.token !in r2.sched.pending;
    }
  }
}
