// Detached callbacks behind a shared limiter, under every interleaving of their
// callers, their goroutines and the expiry of their contexts.
module Callbacks {
  import opened Framing

  const MAX_CALLBACKS: int := 4

  function Capacity(requested: int): int {
    if requested <= 0 || requested > MAX_CALLBACKS then MAX_CALLBACKS else requested
  }

  /** The channel of slots: a send takes one and a receive gives it back. */
  class CallbackLimiter {
    const capacity: int
    var occupied: int

    ghost predicate Valid() reads this { 1 <= capacity <= MAX_CALLBACKS && 0 <= occupied <= capacity }

    constructor (requested: int)
      ensures Valid() && occupied == 0 && capacity == if 1 <= requested <= 4 then requested else 4
    {
      capacity, occupied := Capacity(requested), 0;
    }

    /** The select: a caller stays blocked while it has neither; with both ready either case may be taken. */
    method Acquire(expired: bool, prefersSlot: bool) returns (ok: bool)
      requires Valid() && (occupied < capacity || expired)
      modifies this
      ensures Valid() && occupied == old(occupied) + (if ok then 1 else 0)
      ensures ok <==> old(occupied) < capacity && (prefersSlot || !expired)
    {
      ok := occupied < capacity && (prefersSlot || !expired);
      if ok { occupied := occupied + 1; }
    }

    method Release()
      requires Valid() && occupied > 0
      modifies this
      ensures Valid() && occupied == old(occupied) - 1
    {
      occupied := occupied - 1;
    }
  }

  // What a callback came to: its result, or the error a recovered panic stands for.
  datatype Got = Value(value: bytes) | Recovered

  datatype Caller = Arriving | Holding | Cleared | Waiting | Refused | TimedOut | Answered(got: Got)

  datatype Worker = NotStarted | Running | Returned(got: Got) | Released(got: Got) | Sent(got: Got)

  // One lookup: its caller, its goroutine, the one-place result channel, and how often a slot was moved for it.
  datatype Call = Call(caller: Caller, worker: Worker, box: Option<Got>, expired: bool, acquired: nat, released: nat)

  datatype Gate = Gate(capacity: int, occupied: int, calls: seq<Call>)

  datatype Action =
    | Expire
    | Acquire | Refuse
    | Check | ReleaseEarly
    | Spawn
    | Finish(got: Got) | Release | Send
    | Receive | GiveUp | TakeLate

  datatype Step = Arrive | Act(id: nat, action: Action)

  const ARRIVED := Call(Arriving, NotStarted, None, false, 0, 0)

  function TakeSlot(c: Call): Call { c.(acquired := c.acquired + 1) }

  function GiveSlot(c: Call): Call { c.(released := c.released + 1) }

  /** Whether an action's channel operations and branches let it happen now. */
  predicate Enabled(g: Gate, c: Call, a: Action) {
    match a
    case Expire => !c.expired
    case Acquire => c.caller.Arriving? && g.occupied < g.capacity
    case Refuse => c.caller.Arriving? && c.expired
    case Check => c.caller.Holding? && !c.expired
    case ReleaseEarly => c.caller.Holding? && c.expired && g.occupied > 0
    case Spawn => c.caller.Cleared?
    case Finish(_) => c.worker.Running?
    case Release => c.worker.Returned? && g.occupied > 0
    case Send => c.worker.Released? && c.box.None?
    case Receive => c.caller.Waiting? && c.box.Some? && !c.expired
    case TakeLate => c.caller.Waiting? && c.box.Some? && c.expired
    case GiveUp => c.caller.Waiting? && c.expired
  }

  function Moved(c: Call, a: Action): Call
    requires a.Release? ==> c.worker.Returned?
    requires a.Send? ==> c.worker.Released?
    requires a.Receive? ==> c.box.Some?
  {
    match a
    case Expire => c.(expired := true)
    case Acquire => TakeSlot(c.(caller := Holding))
    case Refuse => c.(caller := Refused)
    case Check => c.(caller := Cleared)
    case ReleaseEarly => GiveSlot(c.(caller := Refused))
    case Spawn => c.(caller := Waiting, worker := Running)
    case Finish(got) => c.(worker := Returned(got))
    case Release => GiveSlot(c.(worker := Released(c.worker.got)))
    case Send => c.(worker := Sent(c.worker.got), box := Some(c.worker.got))
    case Receive => c.(caller := Answered(c.box.value), box := None)
    case TakeLate => c.(caller := TimedOut, box := None)
    case GiveUp => c.(caller := TimedOut)
  }

  function SlotsTaken(a: Action): int {
    if a.Acquire? then 1 else if a.ReleaseEarly? || a.Release? then -1 else 0
  }

  predicate CanStep(g: Gate, s: Step) {
    s.Act? ==> s.id < |g.calls| && Enabled(g, g.calls[s.id], s.action)
  }

  function Next(g: Gate, s: Step): Gate
    requires CanStep(g, s)
  {
    match s
    case Arrive => g.(calls := g.calls + [ARRIVED])
    case Act(id, a) => g.(occupied := g.occupied + SlotsTaken(a), calls := g.calls[id := Moved(g.calls[id], a)])
  }

  /** The shared limiter goes through exactly the slots that the calls' steps take and give back. */
  method Advance(limiter: CallbackLimiter, g: Gate, s: Step) returns (g': Gate)
    requires limiter.Valid() && limiter.occupied == g.occupied && limiter.capacity == g.capacity && CanStep(g, s)
    modifies limiter
    ensures g' == Next(g, s) && limiter.Valid() && limiter.occupied == g'.occupied && limiter.capacity == g'.capacity
  {
    g' := Next(g, s);
    if s.Act? {
      if s.action.Acquire? {
        var ok := limiter.Acquire(g.calls[s.id].expired, true);
      } else if s.action.ReleaseEarly? || s.action.Release? {
        limiter.Release();
      }
    }
  }

  /** steps is a run from g, and it ends in g'. */
  predicate Runs(g: Gate, steps: seq<Step>, g': Gate)
    decreases |steps|
  {
    if steps == [] then g == g' else CanStep(g, steps[0]) && Runs(Next(g, steps[0]), steps[1..], g')
  }

  // ------------------------------------------------------------------- counting

  function Sum(calls: seq<Call>, weight: Call -> nat): nat {
    if calls == [] then 0 else weight(calls[0]) + Sum(calls[1..], weight)
  }

  lemma {:induction false} SumAfter(calls: seq<Call>, weight: Call -> nat, i: nat, c: Call)
    requires i < |calls|
    ensures Sum(calls[i := c], weight) == Sum(calls, weight) - weight(calls[i]) + weight(c)
  {
    if i == 0 {
      assert calls[0 := c][1..] == calls[1..];
    } else {
      assert calls[i := c][1..] == calls[1..][i - 1 := c];
      SumAfter(calls[1..], weight, i - 1, c);
    }
  }

  lemma {:induction false} SumGrows(calls: seq<Call>, weight: Call -> nat, c: Call)
    ensures Sum(calls + [c], weight) == Sum(calls, weight) + weight(c)
  {
    if calls == [] {
      assert calls + [c] == [c];
    } else {
      assert (calls + [c])[1..] == calls[1..] + [c];
      SumGrows(calls[1..], weight, c);
    }
  }

  lemma {:induction false} SumsCompare(calls: seq<Call>, low: Call -> nat, high: Call -> nat)
    requires forall c | c in calls :: low(c) <= high(c)
    ensures Sum(calls, low) <= Sum(calls, high)
    ensures forall c | c in calls :: high(c) <= Sum(calls, high)
  {
    if calls != [] { SumsCompare(calls[1..], low, high); }
  }

  /** A caller between acquire and spawn, or a goroutine whose callback has not been released. */
  predicate HasSlot(c: Call) {
    c.caller.Holding? || c.caller.Cleared? || c.worker.Running? || c.worker.Returned?
  }

  function SlotsOf(c: Call): nat { if HasSlot(c) then 1 else 0 }

  function RunningOf(c: Call): nat { if c.worker.Running? then 1 else 0 }

  /** How many actions a call still has in it, at most. */
  function WorkOf(c: Call): nat {
    (if c.expired then 0 else 1)
    + (match c.caller case Arriving => 7 case Holding => 6 case Cleared => 5 case Waiting => 1 case _ => 0)
    + (match c.worker case Running => 3 case Returned(_) => 2 case Released(_) => 1 case _ => 0)
  }

  // ------------------------------------------------------------------ invariant

  /** The goroutine is started only by a caller that has done with its checks. */
  predicate SpawnedLast(c: Call) {
    c.worker.NotStarted? <==> c.caller.Arriving? || c.caller.Holding? || c.caller.Cleared? || c.caller.Refused?
  }

  ghost predicate CallInvariant(c: Call) {
    && SpawnedLast(c)
    && (c.box.Some? ==> c.worker.Sent? && c.box.value == c.worker.got)
    && (c.caller.Waiting? && c.worker.Sent? ==> c.box.Some?)
    && (c.caller.Answered? ==> c.worker == Sent(c.caller.got))
    && (c.caller.Refused? || c.caller.TimedOut? ==> c.expired)
    && c.acquired <= 1 && c.acquired == c.released + SlotsOf(c)
    && (c.caller.Arriving? ==> c.acquired == 0)
  }

  ghost predicate Invariant(g: Gate) {
    && 1 <= g.capacity <= MAX_CALLBACKS && g.occupied <= g.capacity
    && g.occupied == Sum(g.calls, SlotsOf)
    && forall c | c in g.calls :: CallInvariant(c)
  }

  lemma ActionMovesSlots(g: Gate, c: Call, a: Action)
    requires SpawnedLast(c) && Enabled(g, c, a)
    ensures SlotsOf(Moved(c, a)) == SlotsOf(c) + SlotsTaken(a)
  {
    match a
    case Acquire =>
    case ReleaseEarly =>
    case Release =>
    case _ => assert HasSlot(Moved(c, a)) == HasSlot(c);
  }

  lemma ActionIsCounted(g: Gate, c: Call, a: Action)
    requires Enabled(g, c, a)
    ensures Moved(c, a).acquired - Moved(c, a).released == c.acquired - c.released + SlotsTaken(a)
  {}

  lemma ActionUsesWork(g: Gate, c: Call, a: Action)
    requires Enabled(g, c, a)
    ensures WorkOf(Moved(c, a)) < WorkOf(c)
  {}

  lemma ActionIsSafe(g: Gate, c: Call, a: Action)
    requires CallInvariant(c) && Enabled(g, c, a)
    ensures CallInvariant(Moved(c, a)) && SlotsOf(Moved(c, a)) == SlotsOf(c) + SlotsTaken(a)
  {
    ActionMovesSlots(g, c, a);
    ActionIsCounted(g, c, a);
    hide SlotsOf, SlotsTaken, HasSlot;
  }

  /** Every step keeps the invariant; every step of a call already there uses up some of its work. */
  lemma StepIsSafe(g: Gate, s: Step)
    requires Invariant(g) && CanStep(g, s)
    ensures Invariant(Next(g, s))
    ensures s.Act? ==> Sum(Next(g, s).calls, WorkOf) < Sum(g.calls, WorkOf)
  {
    hide CallInvariant, SlotsOf, WorkOf, Moved;
    match s
    case Arrive =>
      SumGrows(g.calls, SlotsOf, ARRIVED);
      Arrived();
    case Act(id, a) =>
      ActionIsSafe(g, g.calls[id], a);
      ActionUsesWork(g, g.calls[id], a);
      SumAfter(g.calls, SlotsOf, id, Moved(g.calls[id], a));
      SumAfter(g.calls, WorkOf, id, Moved(g.calls[id], a));
  }

  lemma Arrived()
    ensures CallInvariant(ARRIVED) && SlotsOf(ARRIVED) == 0
  {}

  /** The limiter as it is made, before any call. */
  function Opening(requested: int): Gate { Gate(Capacity(requested), 0, []) }

  /**
   * After any run: running callbacks fit in the capacity, a slot is occupied exactly by a caller
   * between acquire and spawn or by a callback not yet released, and each acquire has at most one release.
   */
  lemma {:induction false} RunsAreSafe(requested: int, g0: Gate, steps: seq<Step>, g: Gate)
    requires Runs(g0, steps, g) && (g0 == Opening(requested) || Invariant(g0))
    ensures Invariant(g) && g.capacity == g0.capacity
    ensures Sum(g.calls, RunningOf) <= g.occupied <= g.capacity <= MAX_CALLBACKS
    ensures forall c | c in g.calls :: c.released <= c.acquired <= 1
    decreases |steps|
  {
    if steps == [] {
      SumsCompare(g.calls, RunningOf, SlotsOf);
    } else {
      StepIsSafe(g0, steps[0]);
      RunsAreSafe(requested, Next(g0, steps[0]), steps[1..], g);
    }
  }

  /** A goroutine never blocks: it can always give its slot back, and then always send its result. */
  lemma SendersNeverBlock(g: Gate, id: nat)
    requires Invariant(g) && id < |g.calls|
    ensures g.calls[id].worker.Returned? ==> CanStep(g, Act(id, Release))
    ensures g.calls[id].worker.Released? ==> CanStep(g, Act(id, Send))
    ensures g.calls[id].caller.Holding? && g.calls[id].expired ==> CanStep(g, Act(id, ReleaseEarly))
  {
    SumsCompare(g.calls, RunningOf, SlotsOf);
    assert g.calls[id] in g.calls && SlotsOf(g.calls[id]) <= g.occupied;
  }

  // The gate with one more call, which has so many of its slots.
  function With(g: Gate, c: Call, taken: int): Gate {
    g.(occupied := g.occupied + taken, calls := g.calls + [c])
  }

  /** The last call moves, and then the run goes on. */
  lemma {:induction false} LastMoves(g: Gate, c: Call, taken: int, a: Action, rest: seq<Step>, end: Gate)
    requires Enabled(With(g, c, taken), c, a) && Runs(With(g, Moved(c, a), taken + SlotsTaken(a)), rest, end)
    ensures Runs(With(g, c, taken), [Act(|g.calls|, a)] + rest, end)
  {
    hide Runs, Moved, SlotsTaken;
    var next := Next(With(g, c, taken), Act(|g.calls|, a));
    assert next.calls == g.calls + [Moved(c, a)];
    OneStep(With(g, c, taken), Act(|g.calls|, a), rest, next, end);
  }

  // How a callback that runs comes to its end, and how a lookup goes that is answered in time.
  function Answer(id: nat, got: Got): seq<Step> {
    [Act(id, Finish(got))] + ([Act(id, Release)] + ([Act(id, Send)] + ([Act(id, Receive)] + [])))
  }

  function Lookup(id: nat, got: Got): seq<Step> {
    [Arrive] + ([Act(id, Acquire)] + ([Act(id, Check)] + ([Act(id, Spawn)] + Answer(id, got))))
  }

  lemma CallbackIsAnswered(g: Gate, got: Got)
    requires 0 <= g.occupied < g.capacity
    ensures Runs(With(g, Call(Waiting, Running, None, false, 1, 0), 1), Answer(|g.calls|, got),
                 With(g, Call(Answered(got), Sent(got), None, false, 1, 1), 0))
  {
    hide Runs;
    var id, end := |g.calls|, With(g, Call(Answered(got), Sent(got), None, false, 1, 1), 0);
    NothingLeft(end);
    LastMoves(g, Call(Waiting, Sent(got), Some(got), false, 1, 1), 0, Receive, [], end);
    LastMoves(g, Call(Waiting, Released(got), None, false, 1, 1), 0, Send, [Act(id, Receive)] + [], end);
    var rest := [Act(id, Send)] + ([Act(id, Receive)] + []);
    LastMoves(g, Call(Waiting, Returned(got), None, false, 1, 0), 1, Release, rest, end);
    LastMoves(g, Call(Waiting, Running, None, false, 1, 0), 1, Finish(got), [Act(id, Release)] + rest, end);
  }

  /** One whole lookup: with a slot free it can arrive, run and come back with what its callback came to. */
  lemma {:induction false} CallIsAnswered(g: Gate, got: Got)
    requires 0 <= g.occupied < g.capacity
    ensures Runs(g, Lookup(|g.calls|, got), With(g, Call(Answered(got), Sent(got), None, false, 1, 1), 0))
  {
    hide Runs, Answer;
    var id, end := |g.calls|, With(g, Call(Answered(got), Sent(got), None, false, 1, 1), 0);
    CallbackIsAnswered(g, got);
    var rest := Answer(id, got);
    LastMoves(g, Call(Cleared, NotStarted, None, false, 1, 0), 1, Spawn, rest, end);
    rest := [Act(id, Spawn)] + rest;
    LastMoves(g, Call(Holding, NotStarted, None, false, 1, 0), 1, Check, rest, end);
    rest := [Act(id, Check)] + rest;
    LastMoves(g, ARRIVED, 0, Acquire, rest, end);
    OneStep(g, Arrive, [Act(id, Acquire)] + rest, With(g, ARRIVED, 0), end);
  }

  lemma {:induction false} NothingLeft(g: Gate)
    ensures Runs(g, [], g)
  {}

  lemma {:induction false} OneStep(g: Gate, s: Step, rest: seq<Step>, next: Gate, end: Gate)
    requires CanStep(g, s) && next == Next(g, s) && Runs(next, rest, end)
    ensures Runs(g, [s] + rest, end)
  {
    assert ([s] + rest)[1..] == rest;
  }

  predicate Over(c: Call) {
    (c.caller.Refused? || c.caller.TimedOut? || c.caller.Answered?) && !HasSlot(c)
  }

  ghost predicate Stuck(g: Gate, without: Action -> bool) {
    forall id: nat, a: Action | !without(a) :: !CanStep(g, Act(id, a))
  }

  function External(a: Action): bool { a.Expire? || a.Finish? }

  function ExpiryOnly(a: Action): bool { a.Expire? }

  /** When only callbacks can move, they hold every occupied slot, and a caller still out waits for a full house of them. */
  lemma OnlyRunningOccupy(g: Gate)
    requires Invariant(g) && Stuck(g, External)
    ensures g.occupied == Sum(g.calls, RunningOf)
    ensures forall c | c in g.calls :: c.caller.Arriving? ==> Sum(g.calls, RunningOf) == g.capacity
    ensures forall c | c in g.calls :: c.caller.Waiting? ==> c.worker.Running?
  {
    forall id: nat | id < |g.calls|
      ensures SlotsOf(g.calls[id]) <= RunningOf(g.calls[id])
      ensures g.calls[id].caller.Arriving? ==> g.occupied >= g.capacity
      ensures g.calls[id].caller.Waiting? ==> g.calls[id].worker.Running?
    {
      StuckCall(g, id);
    }
    SumsCompare(g.calls, SlotsOf, RunningOf);
    SumsCompare(g.calls, RunningOf, SlotsOf);
  }

  lemma StuckCall(g: Gate, id: nat)
    requires Invariant(g) && id < |g.calls| && Stuck(g, External)
    ensures SlotsOf(g.calls[id]) <= RunningOf(g.calls[id])
    ensures g.calls[id].caller.Arriving? ==> g.occupied >= g.capacity
    ensures g.calls[id].caller.Waiting? ==> g.calls[id].worker.Running?
  {
    SendersNeverBlock(g, id);
    assert CallInvariant(g.calls[id]);
    assert !CanStep(g, Act(id, Acquire)) && !CanStep(g, Act(id, Check)) && !CanStep(g, Act(id, ReleaseEarly));
    assert !CanStep(g, Act(id, Spawn)) && !CanStep(g, Act(id, Release)) && !CanStep(g, Act(id, Send));
    assert !CanStep(g, Act(id, Receive)) && !CanStep(g, Act(id, TakeLate));
  }

  predicate NoArrivals(steps: seq<Step>) {
    forall s | s in steps :: s.Act?
  }

  /**
   * Without new arrivals every run ends, within the work its calls had left; and once it cannot go on,
   * whatever expired and in whatever order, every call is over, every slot free, every acquire released once.
   */
  lemma {:induction false} EverySlotComesBack(g0: Gate, steps: seq<Step>, g: Gate)
    requires Invariant(g0) && Runs(g0, steps, g) && NoArrivals(steps)
    ensures |steps| <= Sum(g0.calls, WorkOf)
    ensures Stuck(g, ExpiryOnly) ==> g.occupied == 0
    ensures Stuck(g, ExpiryOnly) ==> forall c | c in g.calls :: Over(c) && c.acquired == c.released
    decreases |steps|
  {
    if steps == [] {
      if Stuck(g, ExpiryOnly) { StuckIsOver(g); }
    } else {
      StepIsSafe(g0, steps[0]);
      EverySlotComesBack(Next(g0, steps[0]), steps[1..], g);
    }
  }

  lemma StuckIsOver(g: Gate)
    requires Invariant(g) && Stuck(g, ExpiryOnly)
    ensures g.occupied == 0 && forall c | c in g.calls :: Over(c) && c.acquired == c.released
  {
    assert Stuck(g, External);
    OnlyRunningOccupy(g);
    forall id: nat | id < |g.calls|
      ensures RunningOf(g.calls[id]) <= NoneOf(g.calls[id])
    {
      assert !CanStep(g, Act(id, Finish(Recovered)));
    }
    SumsCompare(g.calls, RunningOf, NoneOf);
    SumOfNone(g.calls);
    forall id: nat | id < |g.calls|
      ensures Over(g.calls[id])
    {
      StuckCall(g, id);
    }
  }

  function NoneOf(c: Call): nat { 0 }

  lemma {:induction false} SumOfNone(calls: seq<Call>)
    ensures Sum(calls, NoneOf) == 0
  {
    if calls != [] { SumOfNone(calls[1..]); }
  }
}
