/** When checkpoints are published, and how much of the log they leave unprotected. */
module Checkpointer {

  /** `failed` counts the failed publications since the last success. */
  datatype Clock = Clock(every: nat, count: nat, last: nat, attempt: nat, failed: nat)

  function Max(a: nat, b: nat): nat {
    if a < b then b else a
  }

  predicate Due(c: Clock, force: bool) {
    if force then c.count != c.last else c.count - Max(c.last, c.attempt) >= c.every
  }

  /** One consultation of the checkpointer at the current count. */
  function Consult(c: Clock, force: bool, published: bool): Clock {
    if !Due(c, force) then c
    else if published then c.(attempt := c.count, last := c.count, failed := 0)
    else c.(attempt := c.count, failed := c.failed + 1)
  }

  /** A consultation and, if publishing failed, the record that says so, which is appended
      without consulting again. */
  function Hook(c: Clock, force: bool, published: bool): Clock {
    var c' := Consult(c, force, published);
    if Due(c, force) && !published then c'.(count := c'.count + 1) else c'
  }

  datatype Event = Append(published: bool) | CheckpointNow(published: bool)

  function Next(c: Clock, e: Event): Clock {
    match e
    case Append(published) => Hook(c.(count := c.count + 1), false, published)
    case CheckpointNow(published) => if c.count == 0 then c else Hook(c, true, published)
  }

  function Run(c: Clock, es: seq<Event>): Clock {
    if es == [] then c else Next(Run(c, es[..|es| - 1]), es[|es| - 1])
  }

  function Start(every: nat): Clock {
    Clock(every, 0, 0, 0, 0)
  }

  class Checkpointer {
    const every: nat
    var lastCount: nat
    var lastAttempt: nat
    var failures: nat
    var published: nat
    ghost var failed: nat

    ghost function At(count: nat): Clock
      reads this
    {
      Clock(every, count, lastCount, lastAttempt, failed)
    }

    constructor (every: nat)
      requires every >= 1
      ensures this.every == every && At(0) == Start(every) && failures == 0 && published == 0
    {
      this.every := every;
      lastCount, lastAttempt, failures, published, failed := 0, 0, 0, 0, 0;
    }

    /** `sinkWorks` says whether publishing would succeed; the result is true on failure. */
    method Maybe(count: nat, force: bool, sinkWorks: bool) returns (error: bool)
      modifies this
      ensures At(count) == Consult(old(At(count)), force, sinkWorks)
      ensures error == (Due(old(At(count)), force) && !sinkWorks)
      ensures failures == old(failures) + if error then 1 else 0
      ensures published == old(published) + if Due(old(At(count)), force) && sinkWorks then 1 else 0
    {
      if force {
        if count == lastCount { return false; }
      } else if count - Max(lastCount, lastAttempt) < every {
        return false;
      }
      lastAttempt := count;
      if !sinkWorks {
        failures := failures + 1;
        failed := failed + 1;
        return true;
      }
      lastCount, published, failed := count, published + 1, 0;
      error := false;
    }
  }

  /** What a consultation does: nothing if nothing is due; otherwise the attempt is marked, and either
      everything up to here is protected or one more failure counted. At a start or a stop what is due
      is anything not yet protected, otherwise a whole interval since the last attempt. */
  lemma ConsultMeans(c: Clock, force: bool, published: bool)
    requires c.last <= c.attempt <= c.count
    ensures var c' := Consult(c, force, published);
      var due := if force then c.last < c.count else c.attempt + c.every <= c.count;
      && c'.every == c.every && c'.count == c.count
      && (!due ==> c' == c)
      && (due ==> c'.attempt == c.count)
      && (due && published ==> c'.last == c.count && c'.failed == 0)
      && (due && !published ==> c'.last == c.last && c'.failed == c.failed + 1)
  {
  }

  ghost predicate Inv(c: Clock) {
    var gap := Max(c.every, 2);
    && c.every >= 1 && c.last <= c.attempt <= c.count
    && (c.failed == 0 ==> c.attempt == c.last && c.count - c.last < c.every)
    && (c.failed > 0 ==>
          && c.attempt - c.last <= c.every + (c.failed - 1) * gap
          && 1 <= c.count - c.attempt < gap)
  }

  lemma NextKeeps(c: Clock, e: Event)
    requires Inv(c)
    ensures Inv(Next(c, e))
  {
    var gap := Max(c.every, 2);
    var c' := Next(c, e);
    if c'.failed > 1 {
      assert (c'.failed - 1) * gap == (c'.failed - 2) * gap + gap;
    }
  }

  lemma {:induction false} RunKeeps(every: nat, es: seq<Event>)
    requires every >= 1
    ensures Inv(Run(Start(every), es)) && Run(Start(every), es).every == every
  {
    if es != [] {
      RunKeeps(every, es[..|es| - 1]);
      NextKeeps(Run(Start(every), es[..|es| - 1]), es[|es| - 1]);
    }
  }

  /** The unprotected tail: below the interval while publishing works, and after `f` failures in
      a row at most `f` further rounds longer, where a round is the interval but at least two,
      since each failure itself adds a record that is not counted against the interval. */
  lemma UnprotectedTail(every: nat, es: seq<Event>)
    requires every >= 1
    ensures var c := Run(Start(every), es);
      && c.count - c.last <= every + c.failed * Max(every, 2) - 1
      && (c.failed == 0 ==> c.count - c.last < every)
  {
    RunKeeps(every, es);
    var c := Run(Start(every), es);
    var gap := Max(every, 2);
    if c.failed > 0 {
      assert c.failed * gap == (c.failed - 1) * gap + gap;
    }
  }

  /** No publication asked for at a start or a stop has failed. */
  predicate NoForcedFailure(es: seq<Event>) {
    forall e <- es :: e != CheckpointNow(false)
  }

  ghost predicate FailsOnTime(c: Clock) {
    Inv(c) && (c.failed > 0 ==> c.attempt - c.last >= c.every)
  }

  lemma {:induction false} RunFailsOnTime(every: nat, es: seq<Event>)
    requires every >= 1 && NoForcedFailure(es)
    ensures FailsOnTime(Run(Start(every), es))
  {
    if es != [] {
      var front, e := es[..|es| - 1], es[|es| - 1];
      assert e in es && forall x <- front :: x in es;
      RunFailsOnTime(every, front);
      NextKeeps(Run(Start(every), front), e);
    }
  }

  /** Exactly then: without a failed forced publication, fewer records than the interval are
      unprotected if and only if nothing has failed since the last success. */
  lemma TailWithinIntervalIff(every: nat, es: seq<Event>)
    requires every >= 1 && NoForcedFailure(es)
    ensures var c := Run(Start(every), es); c.count - c.last < every <==> c.failed == 0
  {
    RunFailsOnTime(every, es);
    RunKeeps(every, es);
  }

  /** A failed forced publication does not decide it: the tail is still short after it, and `every`
      long after further appends among which no attempt was due. */
  lemma AForcedFailureLeavesItOpen(every: nat)
    requires every > 2
    ensures var es := [Append(true)] + [CheckpointNow(false)];
      && Run(Start(every), es) == Clock(every, 2, 0, 1, 1)
      && Run(Start(every), es + Idle(every - 2)) == Clock(every, every, 0, 1, 1)
  {
    var c := Start(every);
    assert [Append(true)][..0] == [] && [CheckpointNow(false)][..0] == [];
    RunConcat(c, [Append(true)], [CheckpointNow(false)]);
    RunConcat(c, [Append(true)] + [CheckpointNow(false)], Idle(every - 2));
    IdleOnlyCounts(Clock(every, 2, 0, 1, 1), every - 2);
  }

  function Idle(n: nat): seq<Event> {
    seq(n, _ => Append(false))
  }

  lemma {:induction false} RunConcat(c: Clock, xs: seq<Event>, ys: seq<Event>)
    ensures Run(c, xs + ys) == Run(Run(c, xs), ys)
  {
    if ys == [] {
      assert xs + ys == xs;
    } else {
      var front := ys[..|ys| - 1];
      assert (xs + ys)[..|xs + ys| - 1] == xs + front;
      RunConcat(c, xs, front);
    }
  }

  /** Appends before the next attempt is due only count. */
  lemma {:induction false} IdleOnlyCounts(c: Clock, n: nat)
    requires c.last <= c.attempt <= c.count && (n > 0 ==> c.count + n - c.attempt < c.every)
    ensures Run(c, Idle(n)) == c.(count := c.count + n)
  {
    if n > 0 {
      assert Idle(n)[..n - 1] == Idle(n - 1);
      IdleOnlyCounts(c, n - 1);
    }
  }

  lemma FailedAppend(c: Clock)
    requires c.every >= 1 && c.last <= c.attempt <= c.count && c.count - c.attempt >= c.every - 1
    ensures Run(c, [Append(false)]) == c.(count := c.count + 2, attempt := c.count + 1, failed := c.failed + 1)
  {
    assert [Append(false)][..0] == [];
    assert Due(c.(count := c.count + 1), false);
  }

  /** One more failure, and then appends up to where the next attempt is due. */
  lemma OneMoreRound(c: Clock)
    requires c.every >= 1 && c.last <= c.attempt <= c.count
    requires c.count - c.attempt >= c.every - 1
    ensures Run(c, [Append(false)] + Idle(Max(c.every, 2) - 2))
         == c.(count := c.count + Max(c.every, 2), attempt := c.count + 1, failed := c.failed + 1)
  {
    var n := Max(c.every, 2) - 2;
    var c1 := Run(c, [Append(false)]);
    FailedAppend(c);
    RunConcat(c, [Append(false)], Idle(n));
    IdleOnlyCounts(c1, n);
  }

  /** The bound is exact: for every interval and every number of failures some run attains it. */
  lemma {:induction false} TheBoundIsAttained(every: nat, f: nat) returns (es: seq<Event>)
    requires every >= 1
    ensures var c := Run(Start(every), es);
      && c.failed == f && c.count - c.last == every + f * Max(every, 2) - 1
      && c.every == every && c.last <= c.attempt <= c.count
      && c.count - c.attempt >= every - 1
  {
    if f == 0 {
      es := Idle(every - 1);
      IdleOnlyCounts(Start(every), every - 1);
    } else {
      var before := TheBoundIsAttained(every, f - 1);
      var round := [Append(false)] + Idle(Max(every, 2) - 2);
      OneMoreRound(Run(Start(every), before));
      RunConcat(Start(every), before, round);
      es := before + round;
      assert f * Max(every, 2) == (f - 1) * Max(every, 2) + Max(every, 2);
    }
  }
}
