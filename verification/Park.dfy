/** How a context goes to sleep: the owner's park token and re-check against any number of
    producers that enqueue first and wake second. Every interleaving of the atomic steps. */
module Park {

  /** Where a producer is: nothing to announce, work enqueued but the token not yet looked at,
      token taken but the eventfd not yet written. */
  datatype Producer = Idle | Enqueued | WillWrite

  /** The eventfd read: in flight, completed but not reaped, or its coroutine ready to run. */
  datatype Watch = Armed | Fired | Due

  /** Where the owner is. The re-checks count what they have harvested so far. */
  datatype Owner = Running | CheckRemote(found: nat) | CheckDone(found: nat) | Blocked | Leaving

  datatype State = State(
    remote: nat, done: nat, ready: nat, parked: bool, eventfd: nat,
    watch: Watch, owner: Owner, producers: seq<Producer>)

  datatype Step =
    | Join
    | EnqueueRemote(p: nat) | EnqueueDone(p: nat, n: nat) | TakeToken(p: nat) | Write(p: nat)
    | Complete
    | TakeRemote | TakeDone(n: nat, live: nat) | Schedule | Resume | Reap | Rearm
    | ParkToken | FindRemote | NoRemote | FindDone(n: nat, live: nat) | NoDone | WakeUp | Unpark

  predicate At(s: State, p: nat, x: Producer) {
    p < |s.producers| && s.producers[p] == x
  }

  function Move(s: State, p: nat, x: Producer): State
    requires p < |s.producers|
  {
    s.(producers := s.producers[p := x])
  }

  predicate Enabled(s: State, step: Step) {
    match step
    case Join => true
    // spawn_remote() and the executor's workers
    case EnqueueRemote(p) => At(s, p, Idle)
    case EnqueueDone(p, n) => At(s, p, Idle) && n > 0
    case TakeToken(p) => At(s, p, Enqueued)
    case Write(p) => At(s, p, WillWrite)
    // the kernel
    case Complete => s.watch == Armed && s.eventfd > 0
    // the owner at work
    case TakeRemote => s.owner == Running && s.remote > 0
    // a completion whose frame is gone has nobody to resume
    case TakeDone(n, live) => s.owner == Running && live <= n && 0 < n <= s.done
    case Schedule => s.owner == Running
    case Resume => s.owner == Running && s.ready > 0
    case Reap => s.owner == Running && s.watch == Fired
    case Rearm => s.owner == Running && s.watch == Due
    // the owner going to sleep: only with nothing ready, the watch coroutine included
    case ParkToken => s.owner == Running && s.ready == 0 && s.watch != Due
    case FindRemote => s.owner.CheckRemote? && s.remote > 0
    case NoRemote => s.owner.CheckRemote? && s.remote == 0
    case FindDone(n, live) => s.owner.CheckDone? && live <= n && 0 < n <= s.done
    case NoDone => s.owner.CheckDone? && s.done == 0
    case WakeUp => s.owner == Blocked
    case Unpark => s.owner == Leaving
  }

  function Apply(s: State, step: Step): State
    requires Enabled(s, step)
  {
    match step
    case Join => s.(producers := s.producers + [Idle])
    case EnqueueRemote(p) => Move(s, p, Enqueued).(remote := s.remote + 1)
    case EnqueueDone(p, n) => Move(s, p, Enqueued).(done := s.done + n)
    case TakeToken(p) => if s.parked then Move(s, p, WillWrite).(parked := false) else Move(s, p, Idle)
    case Write(p) => Move(s, p, Idle).(eventfd := s.eventfd + 1)
    case Complete => s.(eventfd := 0, watch := Fired)
    case TakeRemote => s.(remote := s.remote - 1, ready := s.ready + 1)
    case TakeDone(n, live) => s.(done := s.done - n, ready := s.ready + live)
    case Schedule => s.(ready := s.ready + 1)
    case Resume => s.(ready := s.ready - 1)
    case Reap => s.(watch := Due)
    case Rearm => s.(watch := Armed)
    case ParkToken => s.(parked := true, owner := CheckRemote(0))
    case FindRemote => s.(remote := s.remote - 1, ready := s.ready + 1, owner := CheckRemote(s.owner.found + 1))
    case NoRemote => s.(owner := if s.owner.found == 0 then CheckDone(0) else Leaving)
    case FindDone(n, live) => s.(done := s.done - n, ready := s.ready + live, owner := CheckDone(s.owner.found + n))
    case NoDone => s.(owner := if s.owner.found == 0 then Blocked else Leaving)
    case WakeUp => s.(owner := Leaving)
    case Unpark => s.(parked := false, owner := Running)
  }

  const INIT := State(0, 0, 0, false, 0, Due, Running, [])

  ghost predicate IsRun(run: seq<State>, steps: seq<Step>) {
    && |run| == |steps| + 1 && run[0] == INIT
    && forall i :: 0 <= i < |steps| ==> Enabled(run[i], steps[i]) && run[i + 1] == Apply(run[i], steps[i])
  }

  // ------------------------------------------------------------------- safety

  ghost predicate Anyone(s: State, x: Producer) {
    exists p :: At(s, p, x)
  }

  /** A wakeup is on its way: written, delivered, or in the hands of a producer that will write. */
  ghost predicate WakeupPending(s: State) {
    s.eventfd > 0 || s.watch == Fired || Anyone(s, WillWrite)
  }

  /** Asleep with work to do only if a wakeup is pending, or the token is still there and a
      producer that has not yet looked for it is about to. */
  ghost predicate NeverMissed(s: State) {
    s.owner == Blocked && (s.remote > 0 || s.done > 0) ==> WakeupPending(s) || (s.parked && Anyone(s, Enqueued))
  }

  predicate Asleep(o: Owner) {
    o.CheckRemote? || o.CheckDone? || o.Blocked?
  }

  /** While the owner holds the token section: the eventfd read is in flight; a missing token
      means a pending wakeup; and what came in behind a re-check has its producer still on the
      way to the token. */
  ghost predicate Inv(s: State) {
    && (Asleep(s.owner) ==> s.watch != Due)
    && (Asleep(s.owner) && !s.parked ==> WakeupPending(s))
    && ((s.owner.CheckDone? || s.owner.Blocked?) && s.parked && s.remote > 0 ==> Anyone(s, Enqueued))
    && (s.owner.Blocked? && s.parked && s.done > 0 ==> Anyone(s, Enqueued))
  }

  lemma Stays(s: State, p: nat, x: Producer, y: Producer)
    requires p < |s.producers| && Anyone(s, y) && s.producers[p] != y
    ensures Anyone(Move(s, p, x), y)
  {
    var q :| At(s, q, y);
    assert At(Move(s, p, x), q, y);
  }

  lemma Arrives(s: State, p: nat, x: Producer)
    requires p < |s.producers|
    ensures Anyone(Move(s, p, x), x)
  {
    assert At(Move(s, p, x), p, x);
  }

  lemma Joins(s: State, x: Producer)
    requires Anyone(s, x)
    ensures Anyone(s.(producers := s.producers + [Idle]), x)
  {
    var p :| At(s, p, x);
    assert At(s.(producers := s.producers + [Idle]), p, x);
  }

  /** A step that moves no producer moves no producer's place either. */
  lemma Keeps(s: State, t: State, x: Producer)
    requires s.producers == t.producers
    ensures Anyone(s, x) <==> Anyone(t, x)
  {
    if Anyone(s, x) { var p :| At(s, p, x); assert At(t, p, x); }
    if Anyone(t, x) { var p :| At(t, p, x); assert At(s, p, x); }
  }

  lemma ProducerStep(s: State, step: Step)
    requires Inv(s) && Enabled(s, step) && (step.EnqueueRemote? || step.EnqueueDone? || step.TakeToken? || step.Write?)
    ensures Inv(Apply(s, step))
  {
    var p, t := step.p, Apply(s, step);
    var x := t.producers[p];
    Arrives(s, p, x);
    if Anyone(s, WillWrite) && s.producers[p] != WillWrite { Stays(s, p, x, WillWrite); }
    if Anyone(s, Enqueued) && s.producers[p] != Enqueued { Stays(s, p, x, Enqueued); }
    Keeps(Move(s, p, x), t, WillWrite);
    Keeps(Move(s, p, x), t, Enqueued);
    hide Anyone;
  }

  lemma JoinStep(s: State)
    requires Inv(s)
    ensures Inv(Apply(s, Join))
  {
    if Anyone(s, WillWrite) { Joins(s, WillWrite); }
    if Anyone(s, Enqueued) { Joins(s, Enqueued); }
    hide Anyone;
  }

  lemma OwnerStep(s: State, step: Step)
    requires Inv(s) && Enabled(s, step) && Apply(s, step).producers == s.producers
    ensures Inv(Apply(s, step))
  {
    Keeps(s, Apply(s, step), WillWrite);
    Keeps(s, Apply(s, step), Enqueued);
    hide Anyone;
  }

  lemma Preserved(s: State, step: Step)
    requires Inv(s) && Enabled(s, step)
    ensures Inv(Apply(s, step))
  {
    hide Inv;
    if step.Join? {
      JoinStep(s);
    } else if step.EnqueueRemote? || step.EnqueueDone? || step.TakeToken? || step.Write? {
      ProducerStep(s, step);
    } else {
      OwnerStep(s, step);
    }
  }

  lemma {:induction false} InvHolds(run: seq<State>, steps: seq<Step>, i: nat)
    requires IsRun(run, steps) && i < |run|
    ensures Inv(run[i])
  {
    if i > 0 {
      InvHolds(run, steps, i - 1);
      Preserved(run[i - 1], steps[i - 1]);
    }
  }

  /** In no run does the owner sleep on work that nobody is going to wake it for. */
  lemma NoLostWakeup(run: seq<State>, steps: seq<Step>, i: nat)
    requires IsRun(run, steps) && i < |run|
    ensures NeverMissed(run[i])
  {
    InvHolds(run, steps, i);
  }

  /** Once every producer has done its part, a sleeping owner with work has its completion, or
      the kernel is about to post it. */
  lemma WakeupArrives(run: seq<State>, steps: seq<Step>, i: nat)
    requires IsRun(run, steps) && i < |run| && run[i].owner == Blocked && (run[i].remote > 0 || run[i].done > 0)
    requires forall p :: 0 <= p < |run[i].producers| ==> run[i].producers[p] == Idle
    ensures run[i].watch == Fired || Enabled(run[i], Complete)
  {
    InvHolds(run, steps, i);
  }

  /** And until then the producer that still has to look finds the token and writes. */
  lemma ProducerWakes(run: seq<State>, steps: seq<Step>, i: nat) returns (p: nat)
    requires IsRun(run, steps) && i < |run| && run[i].owner == Blocked && (run[i].remote > 0 || run[i].done > 0)
    requires !WakeupPending(run[i])
    ensures Enabled(run[i], TakeToken(p))
    ensures Enabled(Apply(run[i], TakeToken(p)), Write(p)) && Apply(Apply(run[i], TakeToken(p)), Write(p)).eventfd > 0
  {
    InvHolds(run, steps, i);
    p :| At(run[i], p, Enqueued);
  }

  /** What the owner's two looks have harvested in a stretch of a run. */
  function Harvest(steps: seq<Step>): nat {
    if steps == [] then 0
    else
      Harvest(steps[..|steps| - 1]) +
      match steps[|steps| - 1]
      case FindRemote => 1
      case FindDone(n, _) => n
      case _ => 0
  }

  predicate Woken(steps: seq<Step>) {
    exists k :: 0 <= k < |steps| && steps[k] == WakeUp
  }

  /** Where an owner that is going to sleep has got to: the re-checks have counted what they found, it
      is asleep only with nothing found, and it comes back only with something found or woken. */
  ghost predicate GoingToSleep(o: Owner, since: seq<Step>) {
    match o
    case CheckRemote(n) => n == Harvest(since)
    case CheckDone(n) => n == Harvest(since)
    case Blocked => Harvest(since) == 0
    case _ => Harvest(since) > 0 || Woken(since)
  }

  lemma StartsGoing(s: State)
    requires Enabled(s, ParkToken)
    ensures GoingToSleep(Apply(s, ParkToken).owner, [])
  {
  }

  lemma StillGoing(s: State, step: Step, since: seq<Step>)
    requires Enabled(s, step) && step != ParkToken && GoingToSleep(s.owner, since)
    ensures GoingToSleep(Apply(s, step).owner, since + [step])
  {
    var now := since + [step];
    assert now[..|now| - 1] == since && now[|since|] == step;
    if Woken(since) {
      var k :| 0 <= k < |since| && since[k] == WakeUp;
      assert now[k] == WakeUp;
    }
  }

  lemma {:induction false} SinceParking(run: seq<State>, steps: seq<Step>, i: nat, k: nat)
    requires IsRun(run, steps) && i < k < |run| && steps[i] == ParkToken
    requires forall j :: i < j < k ==> steps[j] != ParkToken
    ensures GoingToSleep(run[k].owner, steps[i + 1..k])
    decreases k
  {
    hide Enabled, Apply, GoingToSleep;
    if k == i + 1 {
      StartsGoing(run[i]);
      assert steps[i + 1..k] == [];
    } else {
      SinceParking(run, steps, i, k - 1);
      StillGoing(run[k - 1], steps[k - 1], steps[i + 1..k - 1]);
      assert steps[i + 1..k] == steps[i + 1..k - 1] + [steps[k - 1]];
    }
  }

  /** The owner does go to sleep: a second look that ends with nothing found puts it to sleep, and it
      does not come back from there before it is woken. */
  lemma SleepsIfNothingFound(run: seq<State>, steps: seq<Step>, i: nat, k: nat)
    requires IsRun(run, steps) && i < k < |steps| && steps[i] == ParkToken && steps[k] == NoDone
    requires forall j :: i < j < k ==> steps[j] != ParkToken
    ensures run[k + 1].owner == if Harvest(steps[i + 1..k]) == 0 then Blocked else Leaving
  {
    SinceParking(run, steps, i, k);
  }

  /** So a round trip to the sleeping place and back takes a harvest or a wakeup. */
  lemma NoBusyWaiting(run: seq<State>, steps: seq<Step>, i: nat, k: nat)
    requires IsRun(run, steps) && i < k < |run| && steps[i] == ParkToken && run[k].owner == Running
    requires forall j :: i < j < k ==> steps[j] != ParkToken
    ensures Harvest(steps[i + 1..k]) > 0 || Woken(steps[i + 1..k])
  {
    SinceParking(run, steps, i, k);
  }

  /** Without the second look at the queues the wakeup is lost: a producer enqueues, finds no
      token, and goes away; the owner then parks on the work. */
  lemma RecheckIsNeeded()
    ensures var s0 := INIT.(watch := Armed, producers := [Idle]);
            && Inv(s0) && Enabled(s0, EnqueueRemote(0))
            && var s1 := Apply(s0, EnqueueRemote(0));
            && Enabled(s1, TakeToken(0))
            && var s2 := Apply(s1, TakeToken(0));
            && Enabled(s2, ParkToken)
            && var asleep := Apply(s2, ParkToken).(owner := Blocked);
            && asleep.remote == 1 && !WakeupPending(asleep) && !Anyone(asleep, Enqueued)
  {
  }

  // ---------------------------------------------------- nothing is dropped on the way

  function HandedBy(step: Step): nat {
    match step case EnqueueRemote(_) => 1 case EnqueueDone(_, n) => n case Schedule => 1 case _ => 0
  }

  /** Resumed, or found to have nobody left to resume. */
  function FinishedBy(step: Step): int {
    match step case Resume => 1 case TakeDone(n, live) => n - live case FindDone(n, live) => n - live case _ => 0
  }

  ghost function Handed(steps: seq<Step>): int {
    if steps == [] then 0 else HandedBy(steps[|steps| - 1]) + Handed(steps[..|steps| - 1])
  }

  ghost function Finished(steps: seq<Step>): int {
    if steps == [] then 0 else FinishedBy(steps[|steps| - 1]) + Finished(steps[..|steps| - 1])
  }

  function Held(s: State): nat {
    s.remote + s.done + s.ready
  }

  lemma StepKeepsWork(s: State, step: Step)
    requires Enabled(s, step)
    ensures Held(Apply(s, step)) + FinishedBy(step) == Held(s) + HandedBy(step)
  {
  }

  /** In every run, work handed over is in a queue, or ready, or was resumed, or had nobody left
      to resume. */
  lemma {:induction false} NothingDropped(run: seq<State>, steps: seq<Step>)
    requires IsRun(run, steps)
    ensures Held(run[|run| - 1]) + Finished(steps) == Handed(steps)
  {
    if steps != [] {
      var n := |steps| - 1;
      assert IsRun(run[..n + 1], steps[..n]);
      NothingDropped(run[..n + 1], steps[..n]);
      StepKeepsWork(run[n], steps[n]);
      hide Enabled, Apply;
    }
  }
}
