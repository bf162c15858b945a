/** Whole runs of the unlock notification, under every interleaving: they are safe as long as no registration meets a
    handle that is still in use, and only as long. */
module UnlockRuns {
  import opened UnlockNotify

  // ---- runs

  /** Each step is the next of its thread, and safe. */
  predicate Run(s: State, steps: seq<Step>)
    decreases |steps|
  {
    |steps| == 0 || (Enabled(s, steps[0]) && Safe(s, steps[0]) && Run(Apply(s, steps[0]), steps[1..]))
  }

  /** Where a run leads. */
  function At(s: State, steps: seq<Step>): State
    requires Run(s, steps)
    decreases |steps|
  {
    if |steps| == 0 then s else At(Apply(s, steps[0]), steps[1..])
  }

  /** No registration meets a handle that is in use. */
  predicate Fresh(s: State, steps: seq<Step>)
    requires Run(s, steps)
    decreases |steps|
  {
    |steps| == 0 || (FreshHandle(s, steps[0]) && Fresh(Apply(s, steps[0]), steps[1..]))
  }

  function Count(steps: seq<Step>, x: Step): nat {
    if |steps| == 0 then 0 else (if steps[0] == x then 1 else 0) + Count(steps[1..], x)
  }

  /** The registrations of a run. */
  function Adds(steps: seq<Step>): nat {
    if |steps| == 0 then 0 else (if steps[0].Add? then 1 else 0) + Adds(steps[1..])
  }

  lemma {:induction false} Joined(s: State, a: seq<Step>, b: seq<Step>)
    requires Run(s, a) && Run(At(s, a), b)
    ensures Run(s, a + b) && At(s, a + b) == At(At(s, a), b)
    ensures Fresh(s, a) && Fresh(At(s, a), b) ==> Fresh(s, a + b)
    ensures Adds(a + b) == Adds(a) + Adds(b)
    decreases |a|
  {
    hide Enabled, Safe, Apply, FreshHandle;
    if |a| == 0 {
      assert a + b == b;
    } else {
      assert (a + b)[1..] == a[1..] + b;
      Joined(Apply(s, a[0]), a[1..], b);
    }
  }

  // ---- safety

  /** However the run goes on, while new handles are not in use, no step is unsafe. */
  ghost predicate SafeFrom(s: State) {
    forall steps, step ::
      Run(s, steps) && Fresh(s, steps) && Enabled(At(s, steps), step) && FreshHandle(At(s, steps), step) ==>
        Safe(At(s, steps), step)
  }

  /** However long the run: it keeps the invariant if no registration meets a handle that is still in use. */
  lemma {:induction false} FreshRunKeeps(s: State, steps: seq<Step>)
    requires Inv(s) && Run(s, steps) && Fresh(s, steps)
    ensures Inv(At(s, steps))
    decreases |steps|
  {
    hide Inv, Enabled, Safe, Apply, FreshHandle;
    if |steps| > 0 {
      StepKeeps(s, steps[0]);
      FreshRunKeeps(Apply(s, steps[0]), steps[1..]);
    }
  }

  /** From every state with the invariant, every continuation is safe. */
  lemma InvariantIsSafe(s: State)
    requires Inv(s)
    ensures SafeFrom(s)
  {
    hide Inv, Enabled, Safe, Apply, FreshHandle, Run, At, Fresh;
    forall steps, step | Run(s, steps) && Fresh(s, steps) && Enabled(At(s, steps), step)
      && FreshHandle(At(s, steps), step)
      ensures Safe(At(s, steps), step)
    {
      FreshRunKeeps(s, steps);
      StepKeeps(At(s, steps), step);
    }
  }

  lemma UnsafeNow(s: State, step: Step)
    requires Enabled(s, step) && FreshHandle(s, step) && !Safe(s, step)
    ensures !SafeFrom(s)
  {
    hide Enabled, Safe, Apply, FreshHandle;
    assert Run(s, []) && Fresh(s, []) && At(s, []) == s;
  }

  lemma UnsafeLater(s: State, step: Step)
    requires Enabled(s, step) && FreshHandle(s, step) && Safe(s, step) && !SafeFrom(Apply(s, step))
    ensures !SafeFrom(s)
  {
    hide Enabled, Safe, Apply, FreshHandle;
    var t := Apply(s, step);
    var steps, last :| Run(t, steps) && Fresh(t, steps) && Enabled(At(t, steps), last)
      && FreshHandle(At(t, steps), last)
                       && !Safe(At(t, steps), last);
    var longer := [step] + steps;
    assert longer[0] == step && longer[1..] == steps;
    assert Run(s, longer) && Fresh(s, longer) && At(s, longer) == At(t, steps);
  }

  // ---- a handle that is used twice

  /** The entry of waiter `x` is gone, and its callback is still to come. */
  predicate Missing(s: State, x: nat) {
    && x < |s.waiters| && s.waiters[x].h !in s.table
    && (s.waiters[x].phase == Added || s.waiters[x].call == Registered || s.waiters[x].call == Fired)
  }

  /** Then its callback panics. */
  lemma MissingIsUnsafe(s: State, x: nat)
    requires Missing(s, x)
    ensures !SafeFrom(s)
  {
    hide SafeFrom;
    if s.waiters[x].call == Fired {
      UnsafeNow(s, Get(x));
    } else if s.waiters[x].call == Registered {
      CallbackMisses(s, x);
    } else {
      CallbackMisses(Apply(s, Register(x, true)), x);
      UnsafeLater(s, Register(x, true));
    }
  }

  lemma CallbackMisses(s: State, x: nat)
    requires Missing(s, x) && s.waiters[x].call == Registered
    ensures !SafeFrom(s)
  {
    hide SafeFrom;
    UnsafeNow(Apply(s, Fire(x)), Get(x));
    UnsafeLater(s, Fire(x));
  }

  /** Two waiters have the same handle: `x` has yet to be called back, and `y` can leave without a wait. */
  predicate Shared(s: State, x: nat, y: nat) {
    && x < |s.waiters| && y < |s.waiters| && x != y && s.waiters[x].h == s.waiters[y].h
    && (s.waiters[x].phase == Added || s.waiters[x].call == Registered || s.waiters[x].call == Fired)
  }

  lemma FreedFirst(s: State, x: nat, y: nat)
    requires Shared(s, x, y) && s.waiters[y].phase == Freed
    ensures !SafeFrom(s)
  {
    hide SafeFrom;
    MissingIsUnsafe(Apply(s, Remove(y)), x);
    UnsafeLater(s, Remove(y));
  }

  lemma LeavesFirst(s: State, x: nat, y: nat)
    requires Shared(s, x, y) && s.waiters[y].phase in {Leaving, Freed}
      && (s.waiters[y].freed <==> s.waiters[y].phase == Freed)
    ensures !SafeFrom(s)
  {
    hide SafeFrom;
    if s.waiters[y].phase == Freed {
      FreedFirst(s, x, y);
    } else {
      FreedFirst(Apply(s, Free(y)), x, y);
      UnsafeLater(s, Free(y));
    }
  }

  /** The registration of `y` fails, and it leaves. */
  lemma FailsFirst(s: State, x: nat, y: nat)
    requires Shared(s, x, y) && s.waiters[y].phase == Added && !s.waiters[y].freed
    ensures !SafeFrom(s)
  {
    hide SafeFrom;
    LeavesFirst(Apply(s, Register(y, false)), x, y);
    UnsafeLater(s, Register(y, false));
  }

  /** `y` gets its token, and leaves. */
  lemma SentFirst(s: State, x: nat, y: nat)
    requires Shared(s, x, y) && s.waiters[y].phase == Waiting && s.waiters[y].tokens == 1 && !s.waiters[y].freed
    ensures !SafeFrom(s)
  {
    hide SafeFrom;
    LeavesFirst(Apply(s, Receive(y)), x, y);
    UnsafeLater(s, Receive(y));
  }

  lemma GotFirst(s: State, x: nat, y: nat)
    requires Shared(s, x, y) && s.waiters[y].phase == Waiting && s.waiters[y].call == Got(y) && s.waiters[y].tokens == 0
    requires !s.waiters[y].freed && !s.waiters[y].closed
    ensures !SafeFrom(s)
  {
    hide SafeFrom;
    SentFirst(Apply(s, Send(y)), x, y);
    UnsafeLater(s, Send(y));
  }

  /** A handle that is still in use: one of its two waiters leaves first, and the callback of the other panics. */
  lemma UsedHandleIsUnsafe(s: State, w: nat)
    requires Inv(s) && Enabled(s, Add(w)) && s.seqnum in s.table
    ensures !SafeFrom(Apply(s, Add(w)))
  {
    hide SafeFrom;
    var y, t := s.table[s.seqnum], Apply(s, Add(w));
    assert Consistent(y, s.waiters[y]) && Consistent(w, s.waiters[w]);
    assert y != w && t.waiters[y] == s.waiters[y] && t.waiters[w].h == t.waiters[y].h;
    match s.waiters[y].phase
    case Added => FailsFirst(t, y, w);
    case Waiting =>
      match s.waiters[y].call {
        case Registered => FailsFirst(t, y, w);
        case Fired => FailsFirst(t, y, w);
        case Got(c) => GotFirst(t, w, y);
        case Sent => SentFirst(t, w, y);
      }
    case Leaving => LeavesFirst(t, w, y);
    case Freed => LeavesFirst(t, w, y);
  }

  /** A registration leads only to safe runs if and only if its handle is not in use. */
  lemma SafeIffFresh(s: State, w: nat)
    requires Inv(s) && Enabled(s, Add(w))
    ensures SafeFrom(Apply(s, Add(w))) <==> s.seqnum !in s.table
  {
    hide SafeFrom, Inv, Enabled, Apply;
    if s.seqnum in s.table {
      UsedHandleIsUnsafe(s, w);
    } else {
      StepKeeps(s, Add(w));
      InvariantIsSafe(Apply(s, Add(w)));
    }
  }

  // ---- the first 2^64 registrations

  /** The handles in use are below the number of registrations, as long as the numbers have not come round. */
  predicate Counted(s: State, adds: nat) {
    s.seqnum == adds % UINTS && (adds <= UINTS ==> forall h :: h in s.table ==> h < adds)
  }

  lemma CountedStep(s: State, step: Step, adds: nat)
    requires Counted(s, adds) && Enabled(s, step) && Safe(s, step)
    ensures Counted(Apply(s, step), adds + if step.Add? then 1 else 0)
  {
  }

  lemma NextIsFresh(s: State, step: Step, adds: nat)
    requires Counted(s, adds) && (step.Add? ==> adds < UINTS)
    ensures FreshHandle(s, step)
  {
  }

  lemma {:induction false} EarlyRunIsFresh(s: State, steps: seq<Step>, adds: nat)
    requires Counted(s, adds) && Run(s, steps) && adds + Adds(steps) <= UINTS
    ensures Fresh(s, steps) && Counted(At(s, steps), adds + Adds(steps))
    decreases |steps|
  {
    hide Counted, Enabled, Safe, Apply, FreshHandle;
    if |steps| > 0 {
      NextIsFresh(s, steps[0], adds);
      CountedStep(s, steps[0], adds);
      EarlyRunIsFresh(Apply(s, steps[0]), steps[1..], adds + if steps[0].Add? then 1 else 0);
    }
  }

  /** In every run with at most 2^64 registrations, under any interleaving, the next step is safe, whichever it is. */
  lemma EarlyRunIsSafe(steps: seq<Step>, step: Step)
    requires Run(Init(), steps) && Enabled(At(Init(), steps), step)
    requires Adds(steps) + (if step.Add? then 1 else 0) <= 0x1_0000_0000_0000_0000
    ensures Fresh(Init(), steps) && Inv(At(Init(), steps))
    ensures FreshHandle(At(Init(), steps), step) && Safe(At(Init(), steps), step)
  {
    hide Counted, Enabled, Safe, Inv, Run, At, Fresh, Adds;
    InitHolds();
    EarlyRunIsFresh(Init(), steps, 0);
    FreshRunKeeps(Init(), steps);
    NextIsFresh(At(Init(), steps), step, Adds(steps));
    StepKeeps(At(Init(), steps), step);
  }

  lemma InitHolds()
    ensures Inv(Init()) && Counted(Init(), 0)
  {
  }

  /** Waiter 0 has handle 0 and is about to register; n others have come and gone. */
  predicate Held(s: State, n: nat) {
    && |s.waiters| == n + 1 && s.waiters[0].phase == Added && s.waiters[0].h == 0
    && s.table == map[0 := 0] && s.seqnum == (n + 1) % UINTS
  }

  /** A run leads from `s` to `t`, with new handles for all of its registrations. */
  ghost predicate Leads(s: State, t: State, adds: nat) {
    exists steps :: Run(s, steps) && Fresh(s, steps) && At(s, steps) == t && Adds(steps) == adds
  }

  lemma LeadsNowhere(s: State)
    ensures Leads(s, s, 0)
  {
    assert Run(s, []) && Fresh(s, []) && At(s, []) == s && Adds([]) == 0;
  }

  lemma LeadsOn(s: State, t: State, adds: nat, step: Step)
    requires Leads(s, t, adds) && Enabled(t, step) && Safe(t, step) && FreshHandle(t, step)
    ensures Leads(s, Apply(t, step), adds + if step.Add? then 1 else 0)
  {
    hide Enabled, Safe, Apply, FreshHandle;
    var steps :| Run(s, steps) && Fresh(s, steps) && At(s, steps) == t && Adds(steps) == adds;
    var u := Apply(t, step);
    assert Run(u, []) && Fresh(u, []) && At(u, []) == u && [step][1..] == [];
    assert Run(t, [step]) && Fresh(t, [step]) && At(t, [step]) == u;
    assert Adds([step]) == if step.Add? then 1 else 0;
    Joined(s, steps, [step]);
  }

  /** With its handle, waiter `w` is about to register. */
  predicate Guest(s: State, w: nat) {
    && |s.waiters| == w + 1 && w > 0 && s.waiters[0].phase == Added && s.waiters[0].h == 0
    && s.waiters[w] == Waiter(w, Added, Unregistered, 0, false, false, false)
    && s.table == map[0 := 0, w := w] && s.seqnum == (w + 1) % UINTS
  }

  /** One more waiter comes, is refused by SQLite, and goes. */
  lemma Arrives(start: State, s: State, n: nat) returns (t: State)
    requires Leads(start, s, n + 1) && Held(s, n) && n + 1 < UINTS
    ensures Leads(start, t, n + 2) && Guest(t, n + 1)
  {
    hide Leads;
    var made := Apply(s, Make);
    LeadsOn(start, s, n + 1, Make);
    LeadsOn(start, made, n + 1, Add(n + 1));
    t := Apply(made, Add(n + 1));
  }

  lemma Departs(start: State, s: State, w: nat, adds: nat) returns (t: State)
    requires Leads(start, s, adds) && Guest(s, w)
    ensures Leads(start, t, adds) && Held(t, w)
  {
    hide Leads;
    LeadsOn(start, s, adds, Register(w, false));
    var leaving := Apply(s, Register(w, false));
    LeadsOn(start, leaving, adds, Free(w));
    var freed := Apply(leaving, Free(w));
    LeadsOn(start, freed, adds, Remove(w));
    var removed := Apply(freed, Remove(w));
    LeadsOn(start, removed, adds, Close(w));
    t := Apply(removed, Close(w));
  }

  /** After `n` such visits. */
  lemma {:induction false} Visits(n: nat) returns (s: State)
    requires n < UINTS
    ensures Leads(Init(), s, n + 1) && Held(s, n)
  {
    hide Leads;
    if n == 0 {
      LeadsNowhere(Init());
      LeadsOn(Init(), Init(), 0, Make);
      LeadsOn(Init(), Apply(Init(), Make), 0, Add(0));
      s := Apply(Apply(Init(), Make), Add(0));
    } else {
      var before := Visits(n - 1);
      var guest := Arrives(Init(), before, n - 1);
      s := Departs(Init(), guest, n, n + 1);
    }
  }

  /** The bound is sharp: a run of 2^64 registrations, all with new handles, leads to a state where one more meets a
      handle in use, and can go on to an unsafe step. */
  lemma HandlesComeRound() returns (steps: seq<Step>, w: nat)
    ensures Run(Init(), steps) && Fresh(Init(), steps) && Adds(steps) == 0x1_0000_0000_0000_0000
    ensures var s := At(Init(), steps);
            Enabled(s, Add(w)) && s.seqnum in s.table && !SafeFrom(Apply(s, Add(w)))
  {
    hide Run, Fresh, At, SafeFrom, Inv, Adds;
    var held := Visits(UINTS - 1);
    LeadsOn(Init(), held, UINTS, Make);
    var s := Apply(held, Make);
    steps :| Run(Init(), steps) && Fresh(Init(), steps) && At(Init(), steps) == s && Adds(steps) == UINTS;
    w := UINTS;
    InitHolds();
    FreshRunKeeps(Init(), steps);
    UsedHandleIsUnsafe(s, w);
  }

  // ---- tokens

  function Received(s: State, w: nat): nat {
    if w < |s.waiters| && s.waiters[w].ok && s.waiters[w].phase !in {Made, Added, Waiting} then 1 else 0
  }

  function Notified(s: State, w: nat): nat {
    if w < |s.waiters| && s.waiters[w].call == Sent then 1 else 0
  }

  lemma TokenStep(s: State, step: Step, w: nat)
    requires Inv(s) && Enabled(s, step) && Safe(s, step)
    ensures Received(Apply(s, step), w) == Received(s, w) + if step == Receive(w) then 1 else 0
    ensures Notified(Apply(s, step), w) == Notified(s, w) + if step == Send(w) then 1 else 0
  {
    assert w < |s.waiters| ==> Consistent(w, s.waiters[w]);
  }

  /** Each waiter takes one token if it is registered and past its wait, and none before; and its callback has sent one
      exactly when it is through. */
  lemma {:induction false} TokensCounted(s: State, steps: seq<Step>, w: nat)
    requires Inv(s) && Run(s, steps) && Fresh(s, steps)
    ensures Received(At(s, steps), w) == Received(s, w) + Count(steps, Receive(w))
    ensures Notified(At(s, steps), w) == Notified(s, w) + Count(steps, Send(w))
    decreases |steps|
  {
    hide Inv, Enabled, Safe, Apply, FreshHandle, Received, Notified;
    if |steps| > 0 {
      StepKeeps(s, steps[0]);
      TokenStep(s, steps[0], w);
      TokensCounted(Apply(s, steps[0]), steps[1..], w);
    }
  }

  /** In every fresh run, a callback sends to the waiter that registered it, which waits with its channel open and
      empty. */
  lemma SendsOwn(steps: seq<Step>, w: nat)
    requires Run(Init(), steps) && Fresh(Init(), steps) && Enabled(At(Init(), steps), Send(w))
    ensures var s := At(Init(), steps);
            && Safe(s, Send(w)) && s.waiters[w].call == Got(w) && s.waiters[w].phase == Waiting
            && s.waiters[w].tokens == 0 && !s.waiters[w].closed
  {
    hide Run, Fresh, At;
    InitHolds();
    FreshRunKeeps(Init(), steps);
    assert Consistent(w, At(Init(), steps).waiters[w]);
  }

  /** In every fresh run: a waiter that is done has left no entry, and has taken the one token that its one callback
      sent, if it was registered, and none otherwise. */
  lemma OneTokenEach(steps: seq<Step>, w: nat)
    requires Run(Init(), steps) && Fresh(Init(), steps) && w < |At(Init(), steps).waiters|
    ensures var s := At(Init(), steps);
            var x := s.waiters[w];
            && Count(steps, Receive(w)) == (if x.ok && x.phase !in {Made, Added, Waiting} then 1 else 0)
            && Count(steps, Send(w)) == (if x.call == Sent then 1 else 0)
            && Count(steps, Receive(w)) <= Count(steps, Send(w))
            && (x.phase == Done ==> Count(steps, Receive(w)) == Count(steps, Send(w)) == if x.ok then 1 else 0)
            && (x.phase == Done ==> forall h :: h in s.table ==> s.table[h] != w)
  {
    hide Run, Fresh, At, Count;
    InitHolds();
    FreshRunKeeps(Init(), steps);
    TokensCounted(Init(), steps, w);
    assert Consistent(w, At(Init(), steps).waiters[w]);
  }

  /** The step that the waiter, or its callback, takes next. */
  function NextOf(x: Waiter, w: nat): Step {
    match x.phase
    case Made => Add(w)
    case Added => Register(w, true)
    case Waiting =>
      (match x.call
       case Registered => Fire(w)
       case Fired => Get(w)
       case Got(_) => Send(w)
       case _ => Receive(w))
    case Leaving => Free(w)
    case Freed => Remove(w)
    case _ => Close(w)
  }

  /** How many steps of its own and of its callback a waiter has before it. */
  function Rank(x: Waiter): nat {
    match x.phase
    case Made => 9
    case Added => 8
    case Waiting =>
      (match x.call
       case Registered => 7
       case Fired => 6
       case Got(_) => 5
       case _ => 4)
    case Leaving => 3
    case Freed => 2
    case Removed => 1
    case Done => 0
  }

  lemma NextLowersRank(s: State, w: nat)
    requires Inv(s) && w < |s.waiters| && s.waiters[w].phase != Done
    ensures var next := NextOf(s.waiters[w], w);
            && Enabled(s, next) && Safe(s, next) && |Apply(s, next).waiters| == |s.waiters|
            && Rank(Apply(s, next).waiters[w]) == Rank(s.waiters[w]) - 1
            && Apply(s, next).waiters[w].phase != Made
            && (FreshHandle(s, next) <==> (s.waiters[w].phase == Made ==> s.seqnum !in s.table))
  {
    assert Consistent(w, s.waiters[w]);
  }

  /** What a wait and its callback do, in order: the deferred calls free, remove and close come last. */
  function WholeWait(w: nat): seq<Step> {
    [Add(w), Register(w, true), Fire(w), Get(w), Send(w), Receive(w), Free(w), Remove(w), Close(w)]
  }

  lemma NextInOrder(x: Waiter, w: nat)
    requires x.phase != Done
    ensures |WholeWait(w)| == 9 && 1 <= Rank(x) <= 9 && NextOf(x, w) == WholeWait(w)[9 - Rank(x)]
  {
  }

  /** From any state with the invariant, a waiter whose handle is taken or new can come to its end by steps of its own
      and of its callback alone. */
  lemma {:induction false} CanFinish(s: State, w: nat) returns (steps: seq<Step>)
    requires Inv(s) && w < |s.waiters| && (s.waiters[w].phase == Made ==> s.seqnum !in s.table)
    ensures Run(s, steps) && Fresh(s, steps) && |steps| == Rank(s.waiters[w])
    ensures steps == WholeWait(w)[9 - |steps|..]
    ensures w < |At(s, steps).waiters| && At(s, steps).waiters[w].phase == Done
    decreases Rank(s.waiters[w])
  {
    hide Inv, Enabled, Safe, Apply, WholeWait, NextOf, FreshHandle;
    if s.waiters[w].phase == Done {
      steps := [];
      NineSteps(w);
    } else {
      hide Rank, Run, Fresh, At;
      var next := NextOf(s.waiters[w], w);
      NextLowersRank(s, w);
      NextInOrder(s.waiters[w], w);
      StepKeeps(s, next);
      var rest := CanFinish(Apply(s, next), w);
      steps := [next] + rest;
      Prepended(s, next, rest);
    }
  }

  lemma Prepended(s: State, step: Step, rest: seq<Step>)
    requires Enabled(s, step) && Safe(s, step) && FreshHandle(s, step)
    requires Run(Apply(s, step), rest) && Fresh(Apply(s, step), rest)
    ensures Run(s, [step] + rest) && Fresh(s, [step] + rest) && At(s, [step] + rest) == At(Apply(s, step), rest)
  {
    hide Enabled, Safe, Apply, FreshHandle;
    assert ([step] + rest)[1..] == rest;
  }

  lemma NineSteps(w: nat)
    ensures |WholeWait(w)| == 9
  {
  }

  /** No wake-up is lost: in every fresh run, each waiter that is not done can go on, safely, and can come to its end
      unless it would take a handle that is in use. */
  lemma NoneIsStuck(steps: seq<Step>, w: nat)
    requires Run(Init(), steps) && Fresh(Init(), steps) && w < |At(Init(), steps).waiters|
    requires At(Init(), steps).waiters[w].phase != Done
    ensures var s := At(Init(), steps);
            var next := NextOf(s.waiters[w], w);
            && Enabled(s, next) && Safe(s, next)
            && (FreshHandle(s, next) ==>
                  exists more :: Run(s, more) && Fresh(s, more) && w < |At(s, more).waiters|
                                 && At(s, more).waiters[w].phase == Done)
  {
    hide Run, Fresh, At, Inv, Rank;
    InitHolds();
    FreshRunKeeps(Init(), steps);
    var s := At(Init(), steps);
    NextLowersRank(s, w);
    if FreshHandle(s, NextOf(s.waiters[w], w)) {
      var more := CanFinish(s, w);
    }
  }

  /** In every fresh run, waiters that are in the table have different handles. */
  lemma HandlesDiffer(steps: seq<Step>, v: nat, w: nat)
    requires Run(Init(), steps) && Fresh(Init(), steps)
    requires v < |At(Init(), steps).waiters| && w < |At(Init(), steps).waiters| && v != w
    requires Live(At(Init(), steps).waiters[v].phase) && Live(At(Init(), steps).waiters[w].phase)
    ensures At(Init(), steps).waiters[v].h != At(Init(), steps).waiters[w].h
  {
    hide Run, Fresh, At;
    InitHolds();
    FreshRunKeeps(Init(), steps);
  }
}
