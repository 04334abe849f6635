/** How long a write can stay out of the published snapshot, over whole runs of writes and ticks. */
module PublisherTiming {
  import opened Wrappers
  import opened Publisher

  /** A committed write that changes at least one row, or a tick whose publish, if it attempts one, works or fails. */
  datatype Event = Write(at: int, rows: nat) | Tick(at: int, works: bool)

  /**
   The publisher's fields together with what a watcher records: the times of the writes not in the store
   yet, when the first of them was noticed, and the failed attempts since then.
   */
  datatype Sim = Sim(
    now: int, lastTick: int, counter: int, published: int, dirtySince: Option<int>,
    unstored: seq<int>, firstSeen: int, failures: nat)

  function Start(now: int, baseline: int): Sim {
    Sim(now, now, baseline, baseline, None, [], now, 0)
  }

  function Step(s: Sim, e: Event, delay: nat): Sim {
    match e
    case Write(at, rows) => s.(now := at, counter := s.counter + rows, unstored := s.unstored + [at])
    case Tick(at, works) =>
      var (published, dirtySince, attempted) := AfterTick(s.published, s.dirtySince, s.counter, at, delay, works);
      s.(now := at, lastTick := at, published := published, dirtySince := dirtySince,
         unstored := if attempted && works then [] else s.unstored,
         firstSeen := if s.dirtySince == None then at else s.firstSeen,
         failures := if attempted && works then 0 else if attempted then s.failures + 1 else s.failures)
  }

  /** Time moves on, and ticks come at most `period` apart. */
  predicate Feasible(s: Sim, e: Event, period: nat) {
    s.now <= e.at <= s.lastTick + period && (e.Write? ==> e.rows > 0)
  }

  ghost predicate IsRun(states: seq<Sim>, events: seq<Event>, delay: nat, period: nat) {
    && |states| == |events| + 1
    && states[0] == Start(states[0].now, states[0].counter)
    && forall i | 0 <= i < |events| :: Feasible(states[i], events[i], period) && states[i + 1] == Step(states[i], events[i], delay)
  }

  ghost predicate Inv(s: Sim, delay: nat, period: nat) {
    && s.lastTick <= s.now <= s.lastTick + period
    && s.published <= s.counter && (s.unstored == [] <==> s.published == s.counter)
    && (s.dirtySince == None ==> s.failures == 0 && forall w | w in s.unstored :: w >= s.lastTick)
    && (s.dirtySince.Some? ==>
          && s.unstored != []
          && s.dirtySince.value <= s.lastTick < s.dirtySince.value + delay
          && s.dirtySince.value <= s.firstSeen + s.failures * (delay + period)
          && s.firstSeen <= s.now
          && forall w | w in s.unstored :: w >= s.firstSeen - period)
  }

  lemma StepKeepsInv(s: Sim, e: Event, delay: nat, period: nat)
    requires delay > 0 && Inv(s, delay, period) && Feasible(s, e, period)
    ensures Inv(Step(s, e, delay), delay, period)
  {
    assert (s.failures + 1) * (delay + period) == s.failures * (delay + period) + (delay + period);
    assert s.failures >= 0 && s.failures * (delay + period) >= 0;
  }

  lemma {:induction false} RunKeepsInv(states: seq<Sim>, events: seq<Event>, delay: nat, period: nat, n: nat)
    requires delay > 0 && IsRun(states, events, delay, period) && n < |states|
    ensures Inv(states[n], delay, period)
  {
    if n > 0 {
      RunKeepsInv(states, events, delay, period, n - 1);
      StepKeepsInv(states[n - 1], events[n - 1], delay, period);
    }
  }

  /**
   However many writes follow it, a write that the store still lacks is never older than the delay and
   two tick periods - up to the moment the next tick is due - plus a delay and a period for each attempt
   that failed since.
   */
  lemma WritesReachTheStoreInTime(states: seq<Sim>, events: seq<Event>, delay: nat, period: nat, n: nat, write: int)
    requires delay > 0 && IsRun(states, events, delay, period) && n < |states| && write in states[n].unstored
    ensures states[n].now <= states[n].lastTick + period
            <= write + delay + 2 * period + states[n].failures * (delay + period)
  {
    RunKeepsInv(states, events, delay, period, n);
  }

  /** Nothing unpublished means the remembered counter is the current one. */
  lemma NothingMissingMeansClean(states: seq<Sim>, events: seq<Event>, delay: nat, period: nat, n: nat)
    requires delay > 0 && IsRun(states, events, delay, period) && n < |states|
    ensures states[n].unstored == [] <==> states[n].published == states[n].counter
  {
    RunKeepsInv(states, events, delay, period, n);
  }
}
