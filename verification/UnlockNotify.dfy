/** Waiting for SQLite's unlock notification: the table of channels, the steps of waiters and callbacks, what every step
    keeps, and the loops that wait. */
module UnlockNotify {
  import opened Options

  /** The number of values of a Go uint. */
  const UINTS: nat := 0x1_0000_0000_0000_0000

  // ---- the table, under its mutex

  /** unlock_notify_table */
  class Table<Channel> {
    var seqnum: nat
    var table: map<nat, Channel>

    constructor ()
      ensures seqnum == 0 && table == map[]
    {
      seqnum, table := 0, map[];
    }

    method Add(c: Channel) returns (h: nat)
      modifies this
      ensures h == old(seqnum) && table == old(table)[h := c] && seqnum == Successor(h)
    {
      h := seqnum;
      table := table[h := c];
      seqnum := Successor(seqnum);
    }

    method Remove(h: nat)
      modifies this`table
      ensures table == old(table) - {h}
    {
      table := table - {h};
    }

    /** Without an entry, the code panics. */
    method Get(h: nat) returns (c: Option<Channel>)
      ensures c.Some? <==> h in table
      ensures c.Some? ==> table[h] == c.value
    {
      return if h in table then Some(table[h]) else None;
    }
  }

  function Successor(seqnum: nat): nat {
    (seqnum + 1) % UINTS
  }

  // ---- all threads

  /** Where a call of unlock_notify_wait is. It leaves in the order of its deferred calls: free, remove, close. */
  datatype Phase = Made | Added | Waiting | Leaving | Freed | Removed | Done

  /** What has become of the registration with SQLite: it calls back once for each one that succeeded. */
  datatype Call = Unregistered | Registered | Fired | Got(channel: nat) | Sent

  /** A call of unlock_notify_wait, with its channel and its handle. `ok` is whether the registration succeeded. */
  datatype Waiter = Waiter(h: nat, phase: Phase, call: Call, tokens: nat, closed: bool, freed: bool, ok: bool)

  /** Waiter w has channel w. */
  datatype State = State(seqnum: nat, table: map<nat, nat>, waiters: seq<Waiter>)

  datatype Step =
    | Make                             // make(chan struct{}, 1)
    | Add(w: nat)                      // unt.add
    | Register(w: nat, success: bool)  // sqlite3_unlock_notify
    | Receive(w: nat)                  // <-c
    | Free(w: nat)
    | Remove(w: nat)
    | Close(w: nat)
    | Fire(w: nat)                     // SQLite calls unlock_notify_callback with the argument of w
    | Get(w: nat)                      // ... which reads the handle and looks up the channel
    | Send(w: nat)                     // ... and sends

  function Init(): State {
    State(0, map[], [])
  }

  /** The step is the next one of its thread, and the thread is not blocked by a receive. */
  predicate Enabled(s: State, step: Step) {
    match step
    case Make => true
    case Add(w) => w < |s.waiters| && s.waiters[w].phase == Made
    case Register(w, _) => w < |s.waiters| && s.waiters[w].phase == Added
    case Receive(w) => w < |s.waiters| && s.waiters[w].phase == Waiting && s.waiters[w].tokens > 0
    case Free(w) => w < |s.waiters| && s.waiters[w].phase == Leaving
    case Remove(w) => w < |s.waiters| && s.waiters[w].phase == Freed
    case Close(w) => w < |s.waiters| && s.waiters[w].phase == Removed
    case Fire(w) => w < |s.waiters| && s.waiters[w].call == Registered
    case Get(w) => w < |s.waiters| && s.waiters[w].call == Fired
    case Send(w) => w < |s.waiters| && s.waiters[w].call.Got?
  }

  /** The step neither panics, nor blocks in a send, nor reads freed memory, nor closes a channel twice. */
  predicate Safe(s: State, step: Step)
    requires Enabled(s, step)
  {
    match step
    case Get(w) => !s.waiters[w].freed && s.waiters[w].h in s.table
    case Send(w) =>
      var c := s.waiters[w].call.channel;
      c < |s.waiters| && !s.waiters[c].closed && s.waiters[c].tokens == 0
    case Close(w) => !s.waiters[w].closed
    case Free(w) => !s.waiters[w].freed
    case _ => true
  }

  function Apply(s: State, step: Step): State
    requires Enabled(s, step) && Safe(s, step)
  {
    match step
    case Make => s.(waiters := s.waiters + [Waiter(0, Made, Unregistered, 0, false, false, false)])
    case Add(w) =>
      s.(seqnum := Successor(s.seqnum), table := s.table[s.seqnum := w],
         waiters := s.waiters[w := s.waiters[w].(phase := Added, h := s.seqnum)])
    case Register(w, success) =>
      s.(waiters := s.waiters[w :=
        if success then s.waiters[w].(phase := Waiting, call := Registered, ok := true)
          else s.waiters[w].(phase := Leaving)])
    case Receive(w) => s.(waiters := s.waiters[w := s.waiters[w].(phase := Leaving, tokens := s.waiters[w].tokens - 1)])
    case Free(w) => s.(waiters := s.waiters[w := s.waiters[w].(phase := Freed, freed := true)])
    case Remove(w) =>
      s.(table := s.table - {s.waiters[w].h}, waiters := s.waiters[w := s.waiters[w].(phase := Removed)])
    case Close(w) => s.(waiters := s.waiters[w := s.waiters[w].(phase := Done, closed := true)])
    case Fire(w) => s.(waiters := s.waiters[w := s.waiters[w].(call := Fired)])
    case Get(w) => s.(waiters := s.waiters[w := s.waiters[w].(call := Got(s.table[s.waiters[w].h]))])
    case Send(w) =>
      var c := s.waiters[w].call.channel;
      var sent := s.waiters[w := s.waiters[w].(call := Sent)];
      s.(waiters := sent[c := sent[c].(tokens := sent[c].tokens + 1)])
  }

  // ---- what the steps are, once more

  /** A safe look-up finds an entry and an argument that is not freed; a safe send finds a channel that is open and
      empty; and what is freed or closed was not before. */
  lemma SafeSteps(s: State, w: nat)
    ensures Enabled(s, Get(w)) && Safe(s, Get(w)) ==> s.waiters[w].h in s.table && !s.waiters[w].freed
    ensures Enabled(s, Send(w)) && Safe(s, Send(w)) ==>
              var c := s.waiters[w].call.channel;
              c < |s.waiters| && !s.waiters[c].closed && s.waiters[c].tokens == 0
    ensures Enabled(s, Free(w)) && Safe(s, Free(w)) ==> !s.waiters[w].freed
    ensures Enabled(s, Close(w)) && Safe(s, Close(w)) ==> !s.waiters[w].closed
  {
  }

  /** A registration that is accepted waits for a callback, one that is refused goes on to the deferred calls, and a
      wait takes one token away; and what is freed or closed is so from then on. */
  lemma WaiterEffects(s: State, w: nat, success: bool)
    requires w < |s.waiters|
    ensures Enabled(s, Register(w, success)) ==>
              var x := Apply(s, Register(w, success)).waiters[w];
              && x.h == s.waiters[w].h && x.phase == (if success then Waiting else Leaving)
              && x.call == (if success then Registered else s.waiters[w].call)
    ensures Enabled(s, Receive(w)) ==>
              var x := Apply(s, Receive(w)).waiters[w];
              s.waiters[w].tokens > 0 && x.tokens == s.waiters[w].tokens - 1 && x.phase == Leaving
    ensures Enabled(s, Free(w)) && Safe(s, Free(w)) ==> Apply(s, Free(w)).waiters[w].freed
    ensures Enabled(s, Close(w)) && Safe(s, Close(w)) ==> Apply(s, Close(w)).waiters[w].closed
  {
  }

  /** A callback finds the channel that the handle leads to, and leaves one more token in it. */
  lemma CallbackEffects(s: State, w: nat)
    requires w < |s.waiters|
    ensures Enabled(s, Get(w)) && Safe(s, Get(w)) ==>
              Apply(s, Get(w)).waiters[w].call == Got(s.table[s.waiters[w].h])
    ensures Enabled(s, Send(w)) && Safe(s, Send(w)) ==>
              var c := s.waiters[w].call.channel;
              && Apply(s, Send(w)).waiters[w].call == Sent
              && Apply(s, Send(w)).waiters[c].tokens == s.waiters[c].tokens + 1
  {
  }

  // ---- what every step keeps

  predicate Live(p: Phase) {
    p in {Added, Waiting, Leaving, Freed}
  }

  /** The channel and the callback of a waiter fit its phase. */
  predicate Consistent(w: nat, x: Waiter) {
    && (x.closed <==> x.phase == Done)
    && (x.freed <==> x.phase in {Freed, Removed, Done})
    && (x.phase in {Made, Added} ==> x.call == Unregistered && x.tokens == 0 && !x.ok)
    && (x.phase == Waiting ==> x.ok && x.call != Unregistered && x.tokens == if x.call == Sent then 1 else 0)
    && (x.phase !in {Made, Added, Waiting} ==> x.tokens == 0 && x.call == if x.ok then Sent else Unregistered)
    && (x.call.Got? ==> x.call.channel == w)
  }

  predicate Inv(s: State) {
    && (forall w :: 0 <= w < |s.waiters| ==> Consistent(w, s.waiters[w]))
    && (forall w :: 0 <= w < |s.waiters| && Live(s.waiters[w].phase) ==>
          s.waiters[w].h in s.table && s.table[s.waiters[w].h] == w)
    && (forall h :: h in s.table ==>
          s.table[h] < |s.waiters| && Live(s.waiters[s.table[h]].phase) && s.waiters[s.table[h]].h == h)
  }

  /** The one thing a step needs: a new handle is not in use. */
  predicate FreshHandle(s: State, step: Step) {
    step.Add? ==> s.seqnum !in s.table
  }

  /** A waiter that changes without entering or leaving the table. */
  lemma WaiterKeeps(s: State, w: nat, x: Waiter)
    requires Inv(s) && w < |s.waiters| && Consistent(w, x)
    requires x.h == s.waiters[w].h && (Live(x.phase) <==> Live(s.waiters[w].phase))
    ensures Inv(s.(waiters := s.waiters[w := x]))
  {
    hide Consistent;
  }

  lemma MakeKeeps(s: State)
    requires Inv(s)
    ensures Inv(Apply(s, Make))
  {
    var t := Apply(s, Make);
    assert forall w :: 0 <= w < |s.waiters| ==> t.waiters[w] == s.waiters[w];
  }

  lemma AddKeeps(s: State, w: nat)
    requires Inv(s) && Enabled(s, Add(w)) && s.seqnum !in s.table
    ensures Inv(Apply(s, Add(w)))
  {
    assert Consistent(w, s.waiters[w]);
    var t := Apply(s, Add(w));
    assert Consistent(w, t.waiters[w]);
    hide Consistent;
    assert forall v :: 0 <= v < |s.waiters| && v != w ==> t.waiters[v] == s.waiters[v];
  }

  lemma RemoveKeeps(s: State, w: nat)
    requires Inv(s) && Enabled(s, Remove(w))
    ensures Inv(Apply(s, Remove(w)))
  {
    var t := Apply(s, Remove(w));
    assert Consistent(w, t.waiters[w]);
    hide Consistent;
    assert forall v :: 0 <= v < |s.waiters| && v != w ==> t.waiters[v] == s.waiters[v];
  }

  /** The steps that change one waiter are safe, and leave it consistent. */
  lemma WaiterSteps(s: State, step: Step, w: nat)
    requires Inv(s) && Enabled(s, step) && w < |s.waiters|
    requires step in {Register(w, true), Register(w, false), Receive(w), Free(w), Close(w), Fire(w), Get(w), Send(w)}
    ensures Safe(s, step) && Apply(s, step) == s.(waiters := s.waiters[w := Apply(s, step).waiters[w]])
    ensures var x := Apply(s, step).waiters[w];
            Consistent(w, x) && x.h == s.waiters[w].h && (Live(x.phase) <==> Live(s.waiters[w].phase))
  {
    assert Consistent(w, s.waiters[w]);
  }

  /** From any state with the invariant, every step of any thread is safe, and keeps it. */
  lemma StepKeeps(s: State, step: Step)
    requires Inv(s) && Enabled(s, step) && FreshHandle(s, step)
    ensures Safe(s, step) && Inv(Apply(s, step))
  {
    hide Inv, Consistent;
    match step
    case Make => MakeKeeps(s);
    case Add(w) => AddKeeps(s, w);
    case Remove(w) => RemoveKeeps(s, w);
    case Register(w, _) => OneWaiterKeeps(s, step, w);
    case Receive(w) => OneWaiterKeeps(s, step, w);
    case Free(w) => OneWaiterKeeps(s, step, w);
    case Close(w) => OneWaiterKeeps(s, step, w);
    case Fire(w) => OneWaiterKeeps(s, step, w);
    case Get(w) => OneWaiterKeeps(s, step, w);
    case Send(w) => OneWaiterKeeps(s, step, w);
  }

  lemma OneWaiterKeeps(s: State, step: Step, w: nat)
    requires Inv(s) && Enabled(s, step) && w < |s.waiters|
    requires step in {Register(w, true), Register(w, false), Receive(w), Free(w), Close(w), Fire(w), Get(w), Send(w)}
    ensures Safe(s, step) && Inv(Apply(s, step))
  {
    hide Inv, Consistent, Apply, Safe, Enabled;
    WaiterSteps(s, step, w);
    WaiterKeeps(s, w, Apply(s, step).waiters[w]);
  }

  // ---- the steps on the table

  /** The process: its one table, and all that wait. */
  class Process {
    const unt: Table<nat>
    var waiters: seq<Waiter>

    constructor ()
      ensures fresh(unt) && Now() == Init()
    {
      unt := new Table();
      waiters := [];
    }

    ghost function Now(): State
      reads this, unt
    {
      State(unt.seqnum, unt.table, waiters)
    }

    /** A waiter enters its channel, and keeps the handle. */
    method TakeAdd(w: nat)
      requires Enabled(Now(), Add(w))
      modifies this, unt
      ensures Now() == Apply(old(Now()), Add(w))
    {
      var h := unt.Add(w);
      waiters := waiters[w := waiters[w].(phase := Added, h := h)];
    }

    method TakeRemove(w: nat)
      requires Enabled(Now(), Remove(w))
      modifies this, unt
      ensures Now() == Apply(old(Now()), Remove(w))
    {
      unt.Remove(waiters[w].h);
      waiters := waiters[w := waiters[w].(phase := Removed)];
    }

    /** A callback looks its channel up, or panics. Its argument has not been freed. */
    method TakeGet(w: nat) returns (found: bool)
      requires Enabled(Now(), Get(w)) && !waiters[w].freed
      modifies this
      ensures found <==> Safe(old(Now()), Get(w))
      ensures Now() == if found then Apply(old(Now()), Get(w)) else old(Now())
    {
      var c := unt.Get(waiters[w].h);
      found := c.Some?;
      if found {
        waiters := waiters[w := waiters[w].(call := Got(c.value))];
      }
    }
  }

  // ---- the blocking loops

  const SQLITE_OK: int := 0
  const SQLITE_LOCKED: int := 6
  const SQLITE_LOCKED_SHAREDCACHE: int := 262

  /** What SQLite and the wait answer in one turn of the loop. */
  datatype Turn = Turn(rv: int, extended: int, wait: int)

  datatype Did = DidStep | DidWait | DidReset

  /** The step is locked out by a shared cache, and the turn waits. */
  predicate Waits(t: Turn) {
    t.rv == SQLITE_LOCKED && t.extended == SQLITE_LOCKED_SHAREDCACHE
  }

  /** The codes of SQLite: 6, and 6 extended by 1. */
  lemma WaitsOn(t: Turn)
    ensures Waits(t) <==> t.rv == 6 && t.extended == 6 + 256 * 1
    ensures Waits(t) && t.wait == 0 <==> Retries(t)
  {
  }

  predicate Retries(t: Turn) {
    Waits(t) && t.wait == SQLITE_OK
  }

  /** Turn `k` is the first one that ends the loop. */
  predicate Ends(turns: seq<Turn>, k: nat) {
    k < |turns| && !Retries(turns[k]) && forall i :: 0 <= i < k ==> Retries(turns[i])
  }

  /** A statement is stepped again only after a wait that succeeded, and a reset; and every reset is followed by a
      step. */
  predicate WellOrdered(log: seq<Did>) {
    && (forall i :: 0 < i < |log| && log[i] == DidStep ==> i >= 2 && log[i - 1] == DidReset && log[i - 2] == DidWait)
    && (forall i :: 0 <= i < |log| && log[i] == DidReset ==> i + 1 < |log| && log[i + 1] == DidStep)
  }

  /** `n` turns that retry. */
  function Retried(n: nat): (log: seq<Did>)
    ensures |log| == 3 * n
  {
    if n == 0 then [] else Retried(n - 1) + [DidStep, DidWait, DidReset]
  }

  function Kind(i: nat): Did {
    if i % 3 == 0 then DidStep else if i % 3 == 1 then DidWait else DidReset
  }

  lemma Neighbours(i: nat)
    ensures Kind(i) == DidStep && i > 0 ==> i >= 3 && Kind(i - 1) == DidReset && Kind(i - 2) == DidWait
    ensures Kind(i) == DidReset ==> Kind(i + 1) == DidStep
    ensures Kind(3 * i) == DidStep && Kind(3 * i + 1) == DidWait && Kind(3 * i + 2) == DidReset
  {
  }

  lemma RetriedInOrder(n: nat, last: seq<Did>)
    requires last == [DidStep] || last == [DidStep, DidWait]
    ensures WellOrdered(Retried(n) + last)
  {
    hide Kind, Retried;
    var log := Retried(n) + last;
    Neighbours(n);
    forall i | 0 <= i < |log|
      ensures log[i] == Kind(i)
    {
      if i < 3 * n {
        RetriedAt(n, i);
      }
    }
    forall i | 0 < i < |log| && log[i] == DidStep
      ensures i >= 2 && log[i - 1] == DidReset && log[i - 2] == DidWait
    {
      Neighbours(i);
    }
    forall i | 0 <= i < |log| && log[i] == DidReset
      ensures i + 1 < |log| && log[i + 1] == DidStep
    {
      Neighbours(i);
    }
  }

  lemma {:induction false} RetriedAt(n: nat, i: nat)
    requires i < 3 * n
    ensures Retried(n)[i] == Kind(i)
  {
    Neighbours(n - 1);
    if i < 3 * (n - 1) {
      RetriedAt(n - 1, i);
    }
  }

  /** _sqlite3_step_blocking, whose loop _sqlite3_step_row_blocking repeats. SQLite ends it with turn `k`. */
  method StepBlocking(turns: seq<Turn>, ghost k: nat) returns (rv: int, ghost log: seq<Did>)
    requires Ends(turns, k)
    ensures rv == if Waits(turns[k]) then turns[k].wait else turns[k].rv
    ensures log == Retried(k) + if Waits(turns[k]) then [DidStep, DidWait] else [DidStep]
    ensures WellOrdered(log)
  {
    hide WellOrdered;
    log := [];
    var i := 0;
    RetriedInOrder(k, [DidStep]);
    RetriedInOrder(k, [DidStep, DidWait]);
    while true
      invariant i <= k && log == Retried(i)
      decreases k - i
    {
      rv := turns[i].rv;
      log := log + [DidStep];
      if rv != SQLITE_LOCKED {
        break;
      }
      if turns[i].extended != SQLITE_LOCKED_SHAREDCACHE {
        break;
      }
      rv := turns[i].wait;
      log := log + [DidWait];
      if rv != SQLITE_OK {
        break;
      }
      log := log + [DidReset];
      i := i + 1;
    }
  }
}
