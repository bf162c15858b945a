/** How exec and query share the arguments out among the statements of one text, and bind them. */
module StatementArgs {
  import opened Options

  /** namedValue; an unnamed argument has the empty name. */
  datatype Arg<+V> = Arg(name: string, ordinal: nat, value: V)

  /** One call of a sqlite3_bind function. */
  datatype Bound<+V> = Bound(parameter: nat, value: V)

  /** What SQLite says of a prepared statement: its parameter count, the number of a named parameter or 0, which bind
      calls it takes, and whether running it fails. */
  datatype Statement<!V> = Statement(na: nat, index: string -> nat, takes: Bound<V> -> bool, fails: bool)

  datatype Status = Ok | NotEnoughArgs | Failed

  // ---- the arguments of one statement

  /** The named arguments from `i` on that are appended to the slice. */
  function Appended<V>(args: seq<Arg<V>>, start: nat, na: nat, i: nat): seq<Arg<V>>
    decreases |args| - i
  {
    if i >= |args| then []
    else (if (i < start || i >= na) && args[i].name != "" then [args[i]] else []) + Appended(args, start, na, i + 1)
  }

  function Renumbered<V>(args: seq<Arg<V>>): (r: seq<Arg<V>>)
    ensures |r| == |args|
  {
    seq(|args|, i requires 0 <= i < |args| => args[i].(ordinal := i + 1))
  }

  /** stmtArgs */
  function Selected<V>(args: seq<Arg<V>>, start: nat, na: nat): seq<Arg<V>>
    requires start + na <= |args|
  {
    Renumbered(args[start..start + na] + Appended(args, start, na, 0))
  }

  /** bindIndices for one argument: a named one is looked up with each prefix, and its ordinal is not used. */
  function Indices<V>(a: Arg<V>, index: string -> nat): (r: seq<nat>)
    ensures |r| == 3
  {
    if a.name == "" then [a.ordinal, 0, 0] else [index(":" + a.name), index("@" + a.name), index("$" + a.name)]
  }

  function BoundBy<V>(a: Arg<V>, index: string -> nat): seq<Bound<V>> {
    Nonzero(Indices(a, index), a.value, 0)
  }

  function Nonzero<V>(indices: seq<nat>, v: V, j: nat): seq<Bound<V>>
    decreases |indices| - j
  {
    if j >= |indices| then []
    else (if indices[j] == 0 then [] else [Bound(indices[j], v)]) + Nonzero(indices, v, j + 1)
  }

  /** The bind calls for the first `n` arguments, in order. */
  function Binds<V>(args: seq<Arg<V>>, index: string -> nat, n: nat): seq<Bound<V>>
    requires n <= |args|
  {
    if n == 0 then [] else Binds(args, index, n - 1) + BoundBy(args[n - 1], index)
  }

  /** The parameters of all the statements. */
  function Parameters<V>(stmts: seq<Statement<V>>): nat {
    if |stmts| == 0 then 0 else Parameters(stmts[..|stmts| - 1]) + stmts[|stmts| - 1].na
  }

  /** The arguments that the statements before number `k` have used up. */
  function Start<V>(stmts: seq<Statement<V>>, k: nat): nat
    requires k <= |stmts|
  {
    Parameters(stmts[..k])
  }

  /** The bind calls for statement `k`. */
  function BindsOf<V>(stmts: seq<Statement<V>>, args: seq<Arg<V>>, k: nat): seq<Bound<V>>
    requires k < |stmts| && Start(stmts, k) + stmts[k].na <= |args|
  {
    var a := Selected(args, Start(stmts, k), stmts[k].na);
    Binds(a, stmts[k].index, |a|)
  }

  // ---- the code

  /** The loops of exec and query that make stmtArgs. */
  method Select<V>(args: seq<Arg<V>>, start: nat, na: nat) returns (stmtArgs: seq<Arg<V>>)
    requires start + na <= |args|
    ensures stmtArgs == Selected(args, start, na)
  {
    stmtArgs := args[start..start + na];
    ghost var goal := stmtArgs + Appended(args, start, na, 0);
    var i := 0;
    while i < |args|
      invariant i <= |args| && stmtArgs + Appended(args, start, na, i) == goal
    {
      if (i < start || i >= na) && args[i].name != "" {
        stmtArgs := stmtArgs + [args[i]];
      }
      i := i + 1;
    }
    ghost var before := stmtArgs;
    i := 0;
    while i < |stmtArgs|
      invariant i <= |stmtArgs| == |before|
      invariant forall j :: 0 <= j < |before| ==>
                  stmtArgs[j] == if j < i then before[j].(ordinal := j + 1) else before[j]
    {
      stmtArgs := stmtArgs[i := stmtArgs[i].(ordinal := i + 1)];
      i := i + 1;
    }
  }

  predicate AllTaken<V>(calls: seq<Bound<V>>, takes: Bound<V> -> bool) {
    forall i :: 0 <= i < |calls| ==> takes(calls[i])
  }

  /** The calls `all` were made in order up to the first one that is refused, and all of them if none is. */
  predicate Made<V(==)>(calls: seq<Bound<V>>, all: seq<Bound<V>>, takes: Bound<V> -> bool, ok: bool) {
    if ok then calls == all && AllTaken(all, takes)
    else |calls| > 0 && calls <= all && AllTaken(calls[..|calls| - 1], takes) && !takes(calls[|calls| - 1])
  }

  /** That is: all of them are taken, or those before one that is not, and that one, are all that are made. */
  lemma MadeForm<V>(calls: seq<Bound<V>>, all: seq<Bound<V>>, takes: Bound<V> -> bool, ok: bool)
    requires Made(calls, all, takes, ok)
    ensures ok <==> forall b :: b in all ==> takes(b)
    ensures ok ==> calls == all
    ensures !ok ==> exists i :: 0 <= i < |all| && !takes(all[i]) && calls == all[..i + 1]
                                && forall j :: 0 <= j < i ==> takes(all[j])
  {
    if !ok {
      var i := |calls| - 1;
      assert all[i] == calls[i] && all[i] in all && calls == all[..i + 1];
      assert forall j :: 0 <= j < i ==> all[j] == calls[..i][j];
    }
  }

  lemma MadeNothing<V>(takes: Bound<V> -> bool)
    ensures Made([], [], takes, true)
  {
  }

  lemma MadeMore<V>(a: seq<Bound<V>>, calls: seq<Bound<V>>, b: seq<Bound<V>>, takes: Bound<V> -> bool, ok: bool)
    requires AllTaken(a, takes) && Made(calls, b, takes, ok)
    ensures Made(a + calls, a + b, takes, ok)
  {
    if !ok {
      assert (a + calls)[..|a + calls| - 1] == a + calls[..|calls| - 1];
    }
  }

  /** What is refused stays refused, whatever would have followed. */
  lemma MadeShort<V>(calls: seq<Bound<V>>, a: seq<Bound<V>>, b: seq<Bound<V>>, takes: Bound<V> -> bool)
    requires Made(calls, a, takes, false)
    ensures Made(calls, a + b, takes, false)
  {
  }

  /** bind: first all the look-ups, then the calls, up to the first one that is refused. */
  method Bind<V(==)>(args: seq<Arg<V>>, stmt: Statement<V>) returns (ok: bool, calls: seq<Bound<V>>)
    ensures Made(calls, Binds(args, stmt.index, |args|), stmt.takes, ok)
  {
    hide Indices, Nonzero, Made, Binds;
    var bindIndices: seq<seq<nat>> := [];
    var i := 0;
    while i < |args|
      invariant i <= |args| && |bindIndices| == i
      invariant forall k :: 0 <= k < i ==> bindIndices[k] == Indices(args[k], stmt.index)
    {
      var row := LookUp(args[i], stmt.index);
      bindIndices := bindIndices + [row];
      i := i + 1;
    }
    ok, calls := true, [];
    i := 0;
    BindsNone(args, stmt.index);
    MadeNothing(stmt.takes);
    while i < |args|
      invariant i <= |args| && Made(calls, Binds(args, stmt.index, i), stmt.takes, true)
    {
      var row;
      ok, row := BindRow(bindIndices[i], args[i].value, stmt.takes);
      BindsNext(args, stmt, i, calls, row, ok);
      calls := calls + row;
      if !ok {
        return;
      }
      i := i + 1;
    }
  }

  lemma BindsNone<V>(args: seq<Arg<V>>, index: string -> nat)
    ensures Binds(args, index, 0) == []
  {
  }

  lemma BindsNext<V>(args: seq<Arg<V>>, stmt: Statement<V>, i: nat, calls: seq<Bound<V>>, row: seq<Bound<V>>, ok: bool)
    requires i < |args| && Made(calls, Binds(args, stmt.index, i), stmt.takes, true)
    requires Made(row, BoundBy(args[i], stmt.index), stmt.takes, ok)
    ensures Made(calls + row, Binds(args, stmt.index, i + 1), stmt.takes, ok)
    ensures !ok ==> Made(calls + row, Binds(args, stmt.index, |args|), stmt.takes, false)
  {
    hide BoundBy;
    MadeMore(calls, row, BoundBy(args[i], stmt.index), stmt.takes, ok);
    if !ok {
      StaysRefused(args, stmt, i + 1, |args|, calls + row);
    }
  }

  lemma {:induction false} StaysRefused<V>(args: seq<Arg<V>>, stmt: Statement<V>, i: nat, n: nat, calls: seq<Bound<V>>)
    requires i <= n <= |args| && Made(calls, Binds(args, stmt.index, i), stmt.takes, false)
    ensures Made(calls, Binds(args, stmt.index, n), stmt.takes, false)
    decreases n
  {
    hide Made, BoundBy;
    if i < n {
      StaysRefused(args, stmt, i, n - 1, calls);
      MadeShort(calls, Binds(args, stmt.index, n - 1), BoundBy(args[n - 1], stmt.index), stmt.takes);
    }
  }

  /** The inner loop of bind. */
  method BindRow<V(==)>(row: seq<nat>, v: V, takes: Bound<V> -> bool) returns (ok: bool, calls: seq<Bound<V>>)
    requires |row| == 3
    ensures Made(calls, Nonzero(row, v, 0), takes, ok)
  {
    hide Nonzero;
    calls := [];
    ghost var goal := Nonzero(row, v, 0);
    var j := 0;
    while j < 3
      invariant j <= 3 && calls + Nonzero(row, v, j) == goal && AllTaken(calls, takes)
    {
      NonzeroStep(row, v, j);
      if row[j] != 0 {
        ghost var before := calls;
        calls := calls + [Bound(row[j], v)];
        assert calls + Nonzero(row, v, j + 1) == goal;
        assert calls[..|calls| - 1] == before;
        if !takes(Bound(row[j], v)) {
          return false, calls;
        }
      }
      j := j + 1;
    }
    NonzeroStep(row, v, j);
    return true, calls;
  }

  lemma NonzeroStep<V>(row: seq<nat>, v: V, j: nat)
    ensures Nonzero(row, v, j) ==
      if j >= |row| then []
      else (if row[j] == 0 then [] else [Bound(row[j], v)]) + Nonzero(row, v, j + 1)
  {
  }

  method LookUp<V>(a: Arg<V>, index: string -> nat) returns (row: seq<nat>)
    ensures row == Indices(a, index)
  {
    var prefixes := [":", "@", "$"];
    row := [a.ordinal, 0, 0];
    if a.name != "" {
      var j := 0;
      while j < 3
        invariant j <= 3 && |row| == 3 && forall k :: 0 <= k < j ==> row[k] == index(prefixes[k] + a.name)
      {
        row := row[j := index(prefixes[j] + a.name)];
        j := j + 1;
      }
    }
  }

  /** There are arguments enough for statement `k`. */
  predicate Enough<V>(stmts: seq<Statement<V>>, args: seq<Arg<V>>, k: nat) {
    k < |stmts| && Start(stmts, k) + stmts[k].na <= |args|
  }

  /** `calls` were made for statement `k`, and `ok` is whether all were taken and the statement then ran. */
  predicate Ran<V(==)>(stmts: seq<Statement<V>>, args: seq<Arg<V>>, k: nat, calls: seq<Bound<V>>, ok: bool) {
    && Enough(stmts, args, k)
    && exists bound ::
         Made(calls, BindsOf(stmts, args, k), stmts[k].takes, bound) && ok == (bound && !stmts[k].fails)
  }

  /** SQLite takes all bind calls of statement `k`, and runs it. */
  predicate Succeeds<V>(stmts: seq<Statement<V>>, args: seq<Arg<V>>, k: nat)
    requires Enough(stmts, args, k)
  {
    AllTaken(BindsOf(stmts, args, k), stmts[k].takes) && !stmts[k].fails
  }

  /** How exec and query end: the guard counts every parameter of every statement, shared names too. */
  function Outcome<V>(stmts: seq<Statement<V>>, args: seq<Arg<V>>): Status {
    if exists k: nat :: k < |stmts| && Enough(stmts, args, k) && !Succeeds(stmts, args, k) then Failed
    else if Parameters(stmts) <= |args| then Ok
    else NotEnoughArgs
  }

  /** exec, and query: the bind calls of the statements that were tried. */
  method Exec<V(==)>(stmts: seq<Statement<V>>, args: seq<Arg<V>>) returns (status: Status, calls: seq<seq<Bound<V>>>)
    ensures |calls| <= |stmts|
    ensures forall k :: 0 <= k < |calls| ==> Ran(stmts, args, k, calls[k], k < |calls| - 1 || status != Failed)
    ensures status == Ok ==> |calls| == |stmts|
    ensures status == NotEnoughArgs ==> |calls| < |stmts| && !Enough(stmts, args, |calls|)
    ensures status == Failed ==> |calls| > 0
    ensures status == Outcome(stmts, args)
  {
    hide Ran, Start, Selected, Binds, Enough, Outcome;
    calls := [];
    var start: nat, k: nat := 0, 0;
    StartFirst(stmts);
    while k < |stmts|
      invariant k <= |stmts| && |calls| == k && start == Start(stmts, k) <= |args|
      invariant forall i :: 0 <= i < k ==> Ran(stmts, args, i, calls[i], true)
    {
      var na := stmts[k].na;
      EnoughIf(stmts, args, k);
      if |args| - start < na {
        EndsEarly(stmts, args, calls);
        return NotEnoughArgs, calls;
      }
      var ok, bound := RunOne(stmts, args, k, start);
      calls := calls + [bound];
      if !ok {
        EndsFailed(stmts, args, k, bound);
        return Failed, calls;
      }
      StartNext(stmts, k);
      start := start + na;
      k := k + 1;
    }
    EndsWell(stmts, args, calls);
    return Ok, calls;
  }

  /** One statement: its arguments, its bind calls, and its run. */
  method RunOne<V(==)>(stmts: seq<Statement<V>>, args: seq<Arg<V>>, k: nat, start: nat)
    returns (ok: bool, calls: seq<Bound<V>>)
    requires Enough(stmts, args, k) && start == Start(stmts, k)
    ensures Ran(stmts, args, k, calls, ok)
  {
    hide Start, Selected, Binds, Made;
    var stmtArgs := Select(args, start, stmts[k].na);
    ok, calls := Bind(stmtArgs, stmts[k]);
    ghost var bound := ok;
    ok := ok && !stmts[k].fails;
    assert Made(calls, BindsOf(stmts, args, k), stmts[k].takes, bound);
  }

  lemma StartFirst<V>(stmts: seq<Statement<V>>)
    ensures Start(stmts, 0) == 0
  {
  }

  lemma StartNext<V>(stmts: seq<Statement<V>>, k: nat)
    requires k < |stmts|
    ensures Start(stmts, k + 1) == Start(stmts, k) + stmts[k].na
  {
    assert stmts[..k + 1][..k] == stmts[..k];
  }

  lemma EnoughIf<V>(stmts: seq<Statement<V>>, args: seq<Arg<V>>, k: nat)
    requires k < |stmts|
    ensures Enough(stmts, args, k) <==> Start(stmts, k) + stmts[k].na <= |args|
  {
  }

  lemma {:induction false} StartRises<V>(stmts: seq<Statement<V>>, j: nat, k: nat)
    requires j <= k <= |stmts|
    ensures Start(stmts, j) <= Start(stmts, k)
    decreases k
  {
    hide Start;
    if j < k {
      StartRises(stmts, j, k - 1);
      StartNext(stmts, k - 1);
    }
  }

  lemma StartLast<V>(stmts: seq<Statement<V>>)
    ensures Start(stmts, |stmts|) == Parameters(stmts)
  {
    assert stmts[..|stmts|] == stmts;
  }

  /** Nothing comes after a statement for which there are too few arguments. */
  lemma NoneAfter<V>(stmts: seq<Statement<V>>, args: seq<Arg<V>>, j: nat, k: nat)
    requires j <= k < |stmts| && !Enough(stmts, args, j)
    ensures !Enough(stmts, args, k) && Parameters(stmts) > |args|
  {
    hide Start, Parameters;
    StartNext(stmts, j);
    StartNext(stmts, k);
    StartRises(stmts, j + 1, k + 1);
    StartRises(stmts, k + 1, |stmts|);
    StartLast(stmts);
  }

  lemma RanSucceeds<V>(stmts: seq<Statement<V>>, args: seq<Arg<V>>, k: nat, calls: seq<Bound<V>>, ok: bool)
    requires Ran(stmts, args, k, calls, ok)
    ensures Succeeds(stmts, args, k) <==> ok
  {
    hide BindsOf;
    var bound :| Made(calls, BindsOf(stmts, args, k), stmts[k].takes, bound) && ok == (bound && !stmts[k].fails);
    if !bound {
      assert BindsOf(stmts, args, k)[|calls| - 1] == calls[|calls| - 1];
    }
  }

  lemma EndsFailed<V>(stmts: seq<Statement<V>>, args: seq<Arg<V>>, k: nat, calls: seq<Bound<V>>)
    requires k < |stmts| && Ran(stmts, args, k, calls, false)
    ensures Outcome(stmts, args) == Failed
  {
    hide Succeeds, Made, BindsOf;
    RanSucceeds(stmts, args, k, calls, false);
  }

  lemma EndsEarly<V>(stmts: seq<Statement<V>>, args: seq<Arg<V>>, calls: seq<seq<Bound<V>>>)
    requires |calls| < |stmts| && !Enough(stmts, args, |calls|)
    requires forall k :: 0 <= k < |calls| ==> Ran(stmts, args, k, calls[k], true)
    ensures Outcome(stmts, args) == NotEnoughArgs
  {
    hide Enough, Succeeds, Made, BindsOf, Parameters, Ran;
    NoneAfter(stmts, args, |calls|, |calls|);
    forall k: nat | k < |stmts| && Enough(stmts, args, k)
      ensures Succeeds(stmts, args, k)
    {
      if k >= |calls| {
        NoneAfter(stmts, args, |calls|, k);
      } else {
        RanSucceeds(stmts, args, k, calls[k], true);
      }
    }
  }

  lemma EndsWell<V>(stmts: seq<Statement<V>>, args: seq<Arg<V>>, calls: seq<seq<Bound<V>>>)
    requires |calls| == |stmts| && Start(stmts, |stmts|) <= |args|
    requires forall k :: 0 <= k < |calls| ==> Ran(stmts, args, k, calls[k], true)
    ensures Outcome(stmts, args) == Ok
  {
    hide Enough, Succeeds, Made, BindsOf, Parameters, Start, Ran;
    StartLast(stmts);
    forall k: nat | k < |stmts| && Enough(stmts, args, k)
      ensures Succeeds(stmts, args, k)
    {
      RanSucceeds(stmts, args, k, calls[k], true);
    }
  }

  /** Every statement has arguments enough, and so is given every named argument, if and only if all the parameters of
      all the statements together are no more than the arguments. */
  lemma AllHaveEnough<V>(stmts: seq<Statement<V>>, args: seq<Arg<V>>)
    ensures (forall k: nat :: k < |stmts| ==> Enough(stmts, args, k)) <==> Parameters(stmts) <= |args|
  {
    hide Enough, Start;
    if Parameters(stmts) <= |args| {
      forall k: nat | k < |stmts|
        ensures Enough(stmts, args, k)
      {
        if !Enough(stmts, args, k) {
          NoneAfter(stmts, args, k, k);
        }
      }
    } else if |stmts| > 0 {
      var k := |stmts| - 1;
      StartNext(stmts, k);
      StartLast(stmts);
      EnoughIf(stmts, args, k);
    }
  }

  /** So one named argument does not serve two statements that share it: the second has too few arguments. */
  lemma SharedNameFails<V>(v: V)
    ensures var stmt := Statement(1, (name: string) => if name == ":a" then 1 else 0, (b: Bound<V>) => true, false);
            var args := [Arg("a", 1, v)];
            && Outcome([stmt, stmt], args) == NotEnoughArgs
            && Enough([stmt, stmt], args, 0) && !Enough([stmt, stmt], args, 1)
  {
    hide BindsOf;
    var stmt := Statement(1, (name: string) => if name == ":a" then 1 else 0, (b: Bound<V>) => true, false);
    var stmts := [stmt, stmt];
    StartFirst(stmts);
    StartNext(stmts, 0);
    StartNext(stmts, 1);
    StartLast(stmts);
  }

  // ---- what reaches a statement

  /** The calls bind parameter j to value j, in order, and no other. */
  function InOrder<V>(args: seq<Arg<V>>, start: nat, n: nat): seq<Bound<V>>
    requires start + n <= |args|
  {
    seq(n, j requires 0 <= j < n => Bound(j + 1, args[start + j].value))
  }

  lemma {:induction false} NothingAppended<V>(args: seq<Arg<V>>, start: nat, na: nat, i: nat)
    requires forall j :: 0 <= j < |args| ==> args[j].name == ""
    ensures Appended(args, start, na, i) == []
    decreases |args| - i
  {
    if i < |args| {
      NothingAppended(args, start, na, i + 1);
    }
  }

  lemma {:induction false} UnnamedBinds<V>(a: seq<Arg<V>>, index: string -> nat, n: nat, args: seq<Arg<V>>, start: nat)
    requires n <= |a| && start + |a| <= |args|
    requires forall j :: 0 <= j < |a| ==> a[j] == Arg("", j + 1, args[start + j].value)
    ensures Binds(a, index, n) == InOrder(args, start, n)
  {
    if n > 0 {
      UnnamedBinds(a, index, n - 1, args, start);
      UnnamedBound(a[n - 1], index);
    }
  }

  lemma UnnamedBound<V>(a: Arg<V>, index: string -> nat)
    requires a.name == "" && a.ordinal > 0
    ensures BoundBy(a, index) == [Bound(a.ordinal, a.value)]
  {
    hide Nonzero;
    var row := Indices(a, index);
    NonzeroStep(row, a.value, 0);
    NonzeroStep(row, a.value, 1);
    NonzeroStep(row, a.value, 2);
    NonzeroStep(row, a.value, 3);
  }

  /** Without names, parameter j of statement k gets the argument at the sum of the earlier counts plus j - 1, and
      nothing else is bound. */
  lemma PositionalArgs<V>(stmts: seq<Statement<V>>, args: seq<Arg<V>>, k: nat)
    requires Enough(stmts, args, k)
    requires forall j :: 0 <= j < |args| ==> args[j].name == ""
    ensures BindsOf(stmts, args, k) == InOrder(args, Start(stmts, k), stmts[k].na)
    ensures |BindsOf(stmts, args, k)| == stmts[k].na
    ensures forall j :: 0 <= j < stmts[k].na ==>
              BindsOf(stmts, args, k)[j] == Bound(j + 1, args[Start(stmts, k) + j].value)
  {
    hide Binds, BoundBy, Start;
    var start, na := Start(stmts, k), stmts[k].na;
    NothingAppended(args, start, na, 0);
    var a := Selected(args, start, na);
    assert args[start..start + na] + [] == args[start..start + na];
    UnnamedBinds(a, stmts[k].index, na, args, start);
  }

  lemma BoundByIff<V>(a: Arg<V>, index: string -> nat, b: Bound<V>)
    ensures b in BoundBy(a, index) <==> b.value == a.value && b.parameter != 0 && b.parameter in Indices(a, index)
  {
    hide Nonzero, Indices;
    var row := Indices(a, index);
    NonzeroStep(row, a.value, 0);
    NonzeroStep(row, a.value, 1);
    NonzeroStep(row, a.value, 2);
    NonzeroStep(row, a.value, 3);
    assert b.parameter in row <==> b.parameter == row[0] || b.parameter == row[1] || b.parameter == row[2];
  }

  lemma {:induction false} BindsIff<V>(a: seq<Arg<V>>, index: string -> nat, n: nat, b: Bound<V>)
    requires n <= |a|
    ensures b in Binds(a, index, n) <==> exists j :: 0 <= j < n && b in BoundBy(a[j], index)
  {
    hide BoundBy;
    if n > 0 {
      BindsIff(a, index, n - 1, b);
    }
  }

  /** Only named arguments outside [start, na) are appended. */
  lemma {:induction false} AppendedFrom<V>(args: seq<Arg<V>>, start: nat, na: nat, i: nat, k: nat) returns (j: nat)
    requires k < |Appended(args, start, na, i)|
    ensures i <= j < |args| && Appended(args, start, na, i)[k] == args[j] && args[j].name != ""
      && (j < start || j >= na)
    decreases |args| - i
  {
    if (i < start || i >= na) && args[i].name != "" {
      if k == 0 {
        j := i;
      } else {
        j := AppendedFrom(args, start, na, i + 1, k - 1);
      }
    } else {
      j := AppendedFrom(args, start, na, i + 1, k);
    }
  }

  /** And all of them are. */
  lemma {:induction false} AppendedHas<V>(args: seq<Arg<V>>, start: nat, na: nat, i: nat, j: nat) returns (k: nat)
    requires i <= j < |args| && args[j].name != "" && (j < start || j >= na)
    ensures k < |Appended(args, start, na, i)| && Appended(args, start, na, i)[k] == args[j]
    decreases |args| - i
  {
    if i == j {
      k := 0;
    } else {
      k := AppendedHas(args, start, na, i + 1, j);
      if (i < start || i >= na) && args[i].name != "" {
        k := k + 1;
      }
    }
  }

  /** Where an argument of a statement comes from: the slice, or the named arguments that the test admits. */
  lemma SelectedFrom<V>(args: seq<Arg<V>>, start: nat, na: nat, j: nat) returns (i: nat)
    requires start + na <= |args| && j < |Selected(args, start, na)|
    ensures i < |args| && Selected(args, start, na)[j] == args[i].(ordinal := j + 1)
    ensures if j < na then i == start + j else args[i].name != "" && (i < start || i >= na)
  {
    if j < na {
      i := start + j;
    } else {
      i := AppendedFrom(args, start, na, 0, j - na);
    }
  }

  /** The test in the loop leaves out only arguments that are in the slice: every named argument reaches every statement
      for which there are arguments enough. */
  lemma NamedSelected<V>(args: seq<Arg<V>>, start: nat, na: nat, i: nat) returns (j: nat)
    requires start + na <= |args| && i < |args| && args[i].name != ""
    ensures j < |Selected(args, start, na)| && Selected(args, start, na)[j] == args[i].(ordinal := j + 1)
    ensures if i < start || i >= na then j >= na else j == i - start
  {
    if i < start || i >= na {
      var k := AppendedHas(args, start, na, 0, i);
      j := na + k;
    } else {
      j := i - start;
    }
  }

  /** `n` is the number of a parameter with the name, under one of the three prefixes. */
  predicate Names(name: string, index: string -> nat, n: nat) {
    exists p :: p in {':', '@', '$'} && index([p] + name) == n
  }

  lemma IndicesAre<V>(a: Arg<V>, index: string -> nat, n: nat)
    requires a.name != ""
    ensures n in Indices(a, index) <==> Names(a.name, index, n)
  {
    assert [':'] == ":" && ['@'] == "@" && ['$'] == "$";
    if n in Indices(a, index) {
      var p := if n == index(":" + a.name) then ':' else if n == index("@" + a.name) then '@' else '$';
      assert p in {':', '@', '$'} && index([p] + a.name) == n;
    }
  }

  /** Wherever a statement has a parameter with the name, under any of the prefixes, the argument is bound to it. */
  lemma NamedIsBound<V>(stmts: seq<Statement<V>>, args: seq<Arg<V>>, k: nat, i: nat, n: nat)
    requires Enough(stmts, args, k) && i < |args| && args[i].name != ""
    requires n != 0 && Names(args[i].name, stmts[k].index, n)
    ensures Bound(n, args[i].value) in BindsOf(stmts, args, k)
  {
    hide Selected, Binds, BoundBy, Start, Names;
    IndicesAre(args[i], stmts[k].index, n);
    var start, na := Start(stmts, k), stmts[k].na;
    var a := Selected(args, start, na);
    var j := NamedSelected(args, start, na, i);
    BoundByIff(a[j], stmts[k].index, Bound(n, args[i].value));
    BindsIff(a, stmts[k].index, |a|, Bound(n, args[i].value));
  }

  /** So `:name`, `@name` and `$name` are all bound. */
  lemma NamedByPrefix<V>(stmts: seq<Statement<V>>, args: seq<Arg<V>>, k: nat, i: nat, p: char)
    requires Enough(stmts, args, k) && i < |args| && args[i].name != ""
    requires p in {':', '@', '$'} && stmts[k].index([p] + args[i].name) != 0
    ensures Bound(stmts[k].index([p] + args[i].name), args[i].value) in BindsOf(stmts, args, k)
  {
    hide BindsOf, Start;
    NamedIsBound(stmts, args, k, i, stmts[k].index([p] + args[i].name));
  }

  /** And nothing else is bound: each call is that of a named argument under a prefix, or that of an unnamed one in the
      slice, by its place. */
  lemma BoundFrom<V>(stmts: seq<Statement<V>>, args: seq<Arg<V>>, k: nat, b: Bound<V>) returns (i: nat)
    requires Enough(stmts, args, k) && b in BindsOf(stmts, args, k)
    ensures i < |args| && b.value == args[i].value && b.parameter != 0
    ensures if args[i].name != "" then Names(args[i].name, stmts[k].index, b.parameter)
            else i == Start(stmts, k) + b.parameter - 1 && b.parameter <= stmts[k].na
  {
    hide Selected, Binds, BoundBy, Start, Names;
    var start, na := Start(stmts, k), stmts[k].na;
    var a := Selected(args, start, na);
    BindsIff(a, stmts[k].index, |a|, b);
    var j :| 0 <= j < |a| && b in BoundBy(a[j], stmts[k].index);
    BoundByIff(a[j], stmts[k].index, b);
    i := SelectedFrom(args, start, na, j);
    if args[i].name != "" {
      IndicesAre(a[j], stmts[k].index, b.parameter);
    }
  }

  /** A named argument between `na` and the end of the slice is in it, and is appended too. */
  lemma SelectedTwice<V>(v: V, w: V)
    ensures Selected([Arg("", 1, v), Arg("a", 2, w)], 1, 1) == [Arg("a", 1, w), Arg("a", 2, w)]
  {
    var args := [Arg("", 1, v), Arg("a", 2, w)];
    assert Appended(args, 1, 1, 1) == [args[1]];
    assert Appended(args, 1, 1, 0) == [args[1]];
    assert args[1..2] == [args[1]];
  }

  // ---- the value that a parameter has in the end

  /** The value of the last call that binds parameter `n`. */
  function FinalValue<V>(calls: seq<Bound<V>>, n: nat): Option<V> {
    if |calls| == 0 then None
    else if calls[|calls| - 1].parameter == n then Some(calls[|calls| - 1].value)
    else FinalValue(calls[..|calls| - 1], n)
  }

  lemma {:induction false} FinalJoined<V>(a: seq<Bound<V>>, b: seq<Bound<V>>, n: nat)
    ensures FinalValue(a + b, n) == if FinalValue(b, n).Some? then FinalValue(b, n) else FinalValue(a, n)
    decreases |b|
  {
    if |b| == 0 {
      assert a + b == a;
    } else {
      assert (a + b)[..|a + b| - 1] == a + b[..|b| - 1];
      FinalJoined(a, b[..|b| - 1], n);
    }
  }

  lemma {:induction false} FinalIsBound<V>(calls: seq<Bound<V>>, n: nat)
    ensures FinalValue(calls, n).Some? <==> exists b :: b in calls && b.parameter == n
    ensures FinalValue(calls, n).Some? ==> Bound(n, FinalValue(calls, n).value) in calls
    decreases |calls|
  {
    if |calls| > 0 {
      var front, last := calls[..|calls| - 1], calls[|calls| - 1];
      FinalIsBound(front, n);
      assert calls == front + [last];
      assert last in calls;
    }
  }

  lemma FinalOfOne<V>(a: Arg<V>, index: string -> nat, n: nat)
    requires n != 0
    ensures FinalValue(BoundBy(a, index), n) == if n in Indices(a, index) then Some(a.value) else None
  {
    hide BoundBy, Indices;
    var calls := BoundBy(a, index);
    FinalIsBound(calls, n);
    BoundByIff(a, index, Bound(n, a.value));
    if FinalValue(calls, n).Some? {
      BoundByIff(a, index, Bound(n, FinalValue(calls, n).value));
    } else {
      assert Bound(n, a.value).parameter == n;
    }
  }

  /** The argument `j` binds the parameter to `v`, and so does every later one that binds it. */
  lemma {:induction false} LastBinder<V>(a: seq<Arg<V>>, index: string -> nat, m: nat, n: nat, j: nat)
    requires n != 0 && j < m <= |a| && n in Indices(a[j], index)
    requires forall k :: j < k < m && n in Indices(a[k], index) ==> a[k].value == a[j].value
    ensures FinalValue(Binds(a, index, m), n) == Some(a[j].value)
  {
    hide BoundBy, Indices, FinalValue;
    FinalJoined(Binds(a, index, m - 1), BoundBy(a[m - 1], index), n);
    FinalOfOne(a[m - 1], index, n);
    if m - 1 > j {
      LastBinder(a, index, m - 1, n, j);
    }
  }

  lemma {:induction false} NoBinder<V>(a: seq<Arg<V>>, index: string -> nat, m: nat, n: nat)
    requires n != 0 && m <= |a|
    requires forall k :: 0 <= k < m ==> n !in Indices(a[k], index)
    ensures FinalValue(Binds(a, index, m), n) == None
  {
    hide BoundBy, Indices;
    if m > 0 {
      FinalJoined(Binds(a, index, m - 1), BoundBy(a[m - 1], index), n);
      FinalOfOne(a[m - 1], index, n);
      NoBinder(a, index, m - 1, n);
    }
  }

  predicate DistinctNames<V>(args: seq<Arg<V>>) {
    forall i, j :: 0 <= i < j < |args| && args[i].name != "" ==> args[i].name != args[j].name
  }

  /** Different parameter names have different numbers. */
  ghost predicate OwnNumbers(index: string -> nat) {
    forall s, t :: index(s) == index(t) && index(s) != 0 ==> s == t
  }

  /** Then a parameter has at most one named argument. */
  lemma OnlyOneName<V>(args: seq<Arg<V>>, index: string -> nat, i: nat, j: nat, n: nat)
    requires DistinctNames(args) && OwnNumbers(index) && i < |args| && j < |args| && n != 0
    requires args[i].name != "" && args[j].name != ""
    requires Names(args[i].name, index, n) && Names(args[j].name, index, n)
    ensures i == j
  {
    var p :| p in {':', '@', '$'} && index([p] + args[i].name) == n;
    var q :| q in {':', '@', '$'} && index([q] + args[j].name) == n;
    assert ([p] + args[i].name)[1..] == args[i].name && ([q] + args[j].name)[1..] == args[j].name;
  }

  /** An unnamed argument behind the named one, in the slice only, has the number of the parameter. */
  predicate Overridden<V>(args: seq<Arg<V>>, start: nat, na: nat, i: nat, n: nat)
    requires start + na <= |args|
  {
    start <= i < na && 1 <= n <= na && i < start + n - 1 && args[start + n - 1].name == ""
  }

  /** With distinct names, the final value of a named parameter is that of the argument with its name, except when an
      unnamed argument behind it overrides it: exactly then it is the value of that one. */
  lemma NamedFinalValue<V>(stmts: seq<Statement<V>>, args: seq<Arg<V>>, k: nat, i: nat, n: nat)
    requires Enough(stmts, args, k) && i < |args| && args[i].name != ""
    requires DistinctNames(args) && OwnNumbers(stmts[k].index)
    requires n != 0 && Names(args[i].name, stmts[k].index, n)
    ensures var start, na := Start(stmts, k), stmts[k].na;
            FinalValue(BindsOf(stmts, args, k), n)
              == Some(if Overridden(args, start, na, i, n) then args[start + n - 1].value else args[i].value)
  {
    hide Selected, Binds, Start, FinalValue, DistinctNames, OwnNumbers, Names;
    var start, na, index := Start(stmts, k), stmts[k].na, stmts[k].index;
    var a := Selected(args, start, na);
    IndicesAre(args[i], index, n);
    var j := NamedSelected(args, start, na, i);
    if Overridden(args, start, na, i, n) {
      InSlice(args, start, na, n - 1);
      j := n - 1;
    }
    forall m | j < m < |a| && n in Indices(a[m], index)
      ensures a[m].value == a[j].value
    {
      var l := SelectedFrom(args, start, na, m);
      if args[l].name != "" {
        IndicesAre(args[l], index, n);
        OnlyOneName(args, index, i, l, n);
      }
    }
    LastBinder(a, index, |a|, n, j);
  }

  lemma InSlice<V>(args: seq<Arg<V>>, start: nat, na: nat, j: nat)
    requires start + na <= |args| && j < na
    ensures j < |Selected(args, start, na)| && Selected(args, start, na)[j] == args[start + j].(ordinal := j + 1)
  {
  }

  /** For example, when `?, :a` is given a first and an unnamed value second. */
  lemma NamedCanLose<V>(v: V, w: V, takes: Bound<V> -> bool)
    ensures var stmts := [Statement(2, (name: string) => if name == ":a" then 2 else 0, takes, false)];
            FinalValue(BindsOf(stmts, [Arg("a", 1, v), Arg("", 2, w)], 0), 2) == Some(w)
  {
    hide FinalValue, BindsOf;
    var stmts := [Statement(2, (name: string) => if name == ":a" then 2 else 0, takes, false)];
    StartFirst(stmts);
    NamedFinalValue(stmts, [Arg("a", 1, v), Arg("", 2, w)], 0, 0, 2);
  }

  /** A parameter that no argument names has the value of the unnamed argument with its number in the slice, or none. */
  lemma UnnamedFinalValue<V>(stmts: seq<Statement<V>>, args: seq<Arg<V>>, k: nat, n: nat)
    requires Enough(stmts, args, k) && n != 0
    requires forall i :: 0 <= i < |args| && args[i].name != "" ==> !Names(args[i].name, stmts[k].index, n)
    ensures var start, na := Start(stmts, k), stmts[k].na;
            FinalValue(BindsOf(stmts, args, k), n)
              == if n <= na && args[start + n - 1].name == "" then Some(args[start + n - 1].value) else None
  {
    hide Selected, Binds, Start, FinalValue, Names;
    var start, na, index := Start(stmts, k), stmts[k].na, stmts[k].index;
    var a := Selected(args, start, na);
    forall m | 0 <= m < |a| && n in Indices(a[m], index)
      ensures m == n - 1 < na && args[start + m].name == ""
    {
      var l := SelectedFrom(args, start, na, m);
      if args[l].name != "" {
        IndicesAre(args[l], index, n);
      }
      assert args[l].name == "";
    }
    if n <= na && args[start + n - 1].name == "" {
      InSlice(args, start, na, n - 1);
      LastBinder(a, index, |a|, n, n - 1);
    } else {
      NoBinder(a, index, |a|, n);
    }
  }
}
