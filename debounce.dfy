/**
 * The debounced save as a single-slot scheduler: a call arms the timer with its job,
 * cancelling whatever was pending, and a timer check at or after the due time fires the
 * pending job and empties the slot.
 */
module Debounce {
  import opened Common

  /** The debounce delay of saveToStorage, in milliseconds. */
  const QuietPeriod := 500

  datatype Pending<T> = Pending(job: T, due: int)

  /** The slot after a call at time now: only the new job is pending. */
  function Arm<T>(job: T, now: int): Option<Pending<T>> {
    Some(Pending(job, now + QuietPeriod))
  }

  /** A timer check at time now fires the pending job. */
  predicate Fires<T>(slot: Option<Pending<T>>, now: int) {
    slot.Some? && now >= slot.value.due
  }

  datatype Event<T> = Call(job: T, at: int) | Tick(at: int)

  /** The slot, and the jobs written so far, oldest first. */
  datatype Scheduler<T> = Scheduler(slot: Option<Pending<T>>, written: seq<T>)

  function Step<T>(s: Scheduler<T>, e: Event<T>): Scheduler<T> {
    match e
    case Call(job, at) => s.(slot := Arm(job, at))
    case Tick(at) => if Fires(s.slot, at) then Scheduler(None, s.written + [s.slot.value.job]) else s
  }

  function Run<T>(s: Scheduler<T>, es: seq<Event<T>>): Scheduler<T>
    decreases |es|
  {
    if es == [] then s else Run(Step(s, es[0]), es[1..])
  }

  lemma {:induction false} RunAppend<T>(s: Scheduler<T>, a: seq<Event<T>>, b: seq<Event<T>>)
    ensures Run(s, a + b) == Run(Run(s, a), b)
    decreases |a|
  {
    if a == [] {
      assert a + b == b;
    } else {
      assert (a + b)[0] == a[0] && (a + b)[1..] == a[1..] + b;
      RunAppend(Step(s, a[0]), a[1..], b);
    }
  }

  /** Writes are only ever appended, and each event writes at most one job. */
  lemma {:induction false} RunOnlyAppends<T>(s: Scheduler<T>, es: seq<Event<T>>)
    ensures |s.written| <= |Run(s, es).written| <= |s.written| + |es|
    ensures Run(s, es).written[..|s.written|] == s.written
    decreases |es|
  {
    if es != [] {
      var s' := Step(s, es[0]);
      RunOnlyAppends(s', es[1..]);
      assert s'.written[..|s.written|] == s.written;
    }
  }

  /** Every Tick in es comes before the due time armed by the latest Call (due before the first). */
  predicate StaysQuiet<T>(es: seq<Event<T>>, due: int)
    decreases |es|
  {
    es == [] ||
    match es[0]
    case Call(_, at) => StaysQuiet(es[1..], at + QuietPeriod)
    case Tick(at) => at < due && StaysQuiet(es[1..], due)
  }

  /** The pending job after es when nothing fires: that of the last Call, or p if there is none. */
  function Armed<T>(p: Pending<T>, es: seq<Event<T>>): Pending<T>
    decreases |es|
  {
    if es == [] then p
    else Armed(if es[0].Call? then Pending(es[0].job, es[0].at + QuietPeriod) else p, es[1..])
  }

  /** The job left armed is the one from the last Call in es. */
  lemma {:induction false} ArmedIsLastCall<T>(p: Pending<T>, es: seq<Event<T>>, k: nat)
    requires k < |es| && es[k].Call?
    requires forall j :: k < j < |es| ==> es[j].Tick?
    ensures Armed(p, es) == Pending(es[k].job, es[k].at + QuietPeriod)
    decreases |es|
  {
    var p' := if es[0].Call? then Pending(es[0].job, es[0].at + QuietPeriod) else p;
    if k == 0 {
      ArmedWithoutCalls(p', es[1..]);
    } else {
      ArmedIsLastCall(p', es[1..], k - 1);
    }
  }

  lemma {:induction false} ArmedWithoutCalls<T>(p: Pending<T>, es: seq<Event<T>>)
    requires forall j :: 0 <= j < |es| ==> es[j].Tick?
    ensures Armed(p, es) == p
    decreases |es|
  {
    if es != [] {
      ArmedWithoutCalls(p, es[1..]);
    }
  }

  /** While every Tick comes early, nothing is written and the latest job stays armed. */
  lemma {:induction false} QuietRun<T>(s: Scheduler<T>, p: Pending<T>, es: seq<Event<T>>)
    requires s.slot == Some(p) && StaysQuiet(es, p.due)
    ensures Run(s, es) == Scheduler(Some(Armed(p, es)), s.written)
    decreases |es|
  {
    if es != [] {
      match es[0]
      case Call(job, at) =>
        QuietRun(Step(s, es[0]), Pending(job, at + QuietPeriod), es[1..]);
      case Tick(at) =>
        QuietRun(Step(s, es[0]), p, es[1..]);
    }
  }

  /**
   * Coalescing: a burst that starts with a Call, during which no timer check reaches the
   * armed due time, followed by one check at or after the last due time, writes exactly one
   * job, the one from the burst's last Call, and leaves nothing pending.
   */
  lemma BurstWritesLastJobOnce<T>(s: Scheduler<T>, job: T, at: int, es: seq<Event<T>>, t: int)
    requires StaysQuiet(es, at + QuietPeriod)
    requires t >= Armed(Pending(job, at + QuietPeriod), es).due
    ensures Run(s, [Call(job, at)] + es + [Tick(t)])
            == Scheduler(None, s.written + [Armed(Pending(job, at + QuietPeriod), es).job])
  {
    var first := Step(s, Call(job, at));
    RunAppend(s, [Call(job, at)], es);
    RunAppend(s, [Call(job, at)] + es, [Tick(t)]);
    QuietRun(first, Pending(job, at + QuietPeriod), es);
  }
}
