/** What a recorded verdict says of the world, over every run of the broker among other processes. */
module Verdicts {
  import opened Attest
  import opened Files
  import opened Effects
  import opened Record
  import opened System

  /** What was seen is what the job asks for. */
  predicate AsAsked(j: Job, source: State, target: State) {
    match j
    case Write(_, _, _, d, _) => target == Present(d)
    case Delete(_, _, _, _) => target == Absent
    case Rename(_, _, _, _, before, _, _, _) => before.Present? && target == before && source == Absent
  }

  /** What was seen is what was recorded before the effect. */
  predicate AsItWas(j: Job, source: State, target: State) {
    match j
    case Write(_, _, _, _, before) => target == before && target != Unavailable
    case Delete(_, _, _, before) => target == before && target != Unavailable
    case Rename(_, _, _, _, before, targetBefore, _, _) => source == before && target == targetBefore
  }

  /** Success is confirmed exactly on sight of what was asked for, failure exactly on sight of what
      was there before if that is something else, and anything else is unresolved. */
  predicate Fair(j: Job, source: State, target: State, v: Verdict) {
    && (v == ConfirmedSuccess <==> AsAsked(j, source, target))
    && (v == ConfirmedFailure <==> AsItWas(j, source, target) && !AsAsked(j, source, target))
    && (v == Unresolved <==> !AsItWas(j, source, target) && !AsAsked(j, source, target))
  }

  /** The outcome a live request is closed with: the effect is what its program came to, the verdict
      fair to what was seen. */
  lemma OutcomesAreFair(s: Sys, acts: seq<Action>, s': Sys, n: nat) returns (r: Sys)
    requires Run(s, acts, s') && n < |acts| && acts[n].Conclude?
    ensures Run(s, acts[..n], r) && acts[n].rid in r.live && |r.log| < |s'.log|
    ensures r.live[acts[n].rid].Running? ==>
      var j, e := r.live[acts[n].rid].job, s'.log[|r.log|];
      && e.Outcome? && e.rid == acts[n].rid && e.job == Some(j) && e.verdict.Some?
      && Fair(j, acts[n].sourceSeen, acts[n].targetSeen, e.verdict.value)
      && (e.effect == Succeeded <==> r.live[acts[n].rid].pc == Done(true))
      && (e.effect == Failed <==> r.live[acts[n].rid].pc == Done(false))
    ensures r.live[acts[n].rid].Recovering? ==>
      var j, e := r.live[acts[n].rid].job, s'.log[|r.log|];
      && e.Reconciled? && e.rid == acts[n].rid && e.job == Some(j)
      && e.verdict.Some? && r.live[acts[n].rid].rpc == End(e.verdict.value)
  {
    r := StepAt(s, acts, s', n);
    assert Next(r, acts[n]).log[|r.log|] == s'.log[|r.log|];
  }

  /** The record that settles a write or a delete at a restart. */
  lemma SettlementsAreFair(s: Sys, acts: seq<Action>, s': Sys, n: nat) returns (r: Sys)
    requires Run(s, acts, s') && n < |acts| && acts[n].Settle?
    ensures Run(s, acts[..n], r) && |r.log| < |s'.log|
    ensures var at, e := acts[n].at, s'.log[|r.log|];
      && at < |r.log| && r.log[at].Prepared? && r.log[at].job.Some?
      && e.Reconciled? && e.rid == r.log[at].rid && e.job == r.log[at].job
      && e.verdict.Some? && Fair(r.log[at].job.value, acts[n].seen, acts[n].seen, e.verdict.value)
  {
    r := StepAt(s, acts, s', n);
    assert Next(r, acts[n]).log[|r.log|] == s'.log[|r.log|];
  }

  // ---- The verdict of a recovery -------------------------------------------------------------------

  /** A step of the recovery. */
  ghost predicate Recovers(y: Sys, rid: Rid, j: Job, q: RPc, pc: RPc) {
    && rid in y.live && y.live[rid] == Recovering(j, q) && j.Rename? && !q.End?
    && RecoverStep(y.ring, j, RConf(y.w, q)).pc == pc
  }

  lemma CameFrom(t: Sys, a: Action, rid: Rid)
    requires t.ring.active.Some? && Enabled(t, a)
    requires rid in Next(t, a).live && Next(t, a).live[rid].Recovering? && Next(t, a).live[rid].rpc != Look
    ensures rid in t.live && t.live[rid].Recovering?
    ensures var j, pc := Next(t, a).live[rid].job, Next(t, a).live[rid].rpc;
      t.live[rid] == Recovering(j, pc) || Recovers(t, rid, j, t.live[rid].rpc, pc)
  {
    match a {
      case Work(other) => if other == rid {} else {}
      case _ =>
    }
  }

  lemma LastStep(s: Sys, acts: seq<Action>, s': Sys, rid: Rid) returns (t: Sys)
    requires s.live == map[] && Run(s, acts, s') && rid in s'.live && s'.live[rid].Recovering? && s'.live[rid].rpc != Look
    ensures acts != [] && Run(s, acts[..|acts| - 1], t)
    ensures rid in t.live && t.live[rid].Recovering?
    ensures t.live[rid] == s'.live[rid] || Recovers(t, rid, s'.live[rid].job, t.live[rid].rpc, s'.live[rid].rpc)
  {
    var front, a := acts[..|acts| - 1], acts[|acts| - 1];
    t :| Run(s, front, t) && t.ring.active.Some? && Enabled(t, a) && s' == Next(t, a);
    CameFrom(t, a, rid);
  }

  lemma TakeTake(acts: seq<Action>, k: nat)
    requires acts != [] && k < |acts|
    ensures acts[..|acts| - 1][..k] == acts[..k]
  {}

  /** The step that brought the recovery to where it is. */
  lemma {:induction false} StepTo(s: Sys, acts: seq<Action>, s': Sys, rid: Rid) returns (k: nat, y: Sys)
    requires s.live == map[] && Run(s, acts, s') && rid in s'.live && s'.live[rid].Recovering? && s'.live[rid].rpc != Look
    ensures k < |acts| && Run(s, acts[..k], y) && rid in y.live && y.live[rid].Recovering?
    ensures Recovers(y, rid, s'.live[rid].job, y.live[rid].rpc, s'.live[rid].rpc)
    decreases |acts|
  {
    var t := LastStep(s, acts, s', rid);
    if t.live[rid] == s'.live[rid] {
      k, y := StepTo(s, acts[..|acts| - 1], t, rid);
      TakeTake(acts, k);
    } else {
      k, y := |acts| - 1, t;
    }
  }

  /** From what it saw, the verdict is fair; without having seen anything it is unresolved. */
  lemma RecoveryStepIsFair(y: Sys, rid: Rid, j: Job, q: RPc, v: Verdict)
    requires Recovers(y, rid, j, q, End(v))
    ensures if q.Seen? then Fair(j, q.sourceNow, Observe(y.w, j.target), v) else v == Unresolved
  {
  }

  /** A recovery that is over, in any run, with any interference: its verdict is unresolved because a
      move back or forward failed, or it is fair to the source as it was seen at one moment and to
      the destination as it was seen at a later one. */
  lemma RecoveriesAreFair(s: Sys, acts: seq<Action>, s': Sys, rid: Rid) returns (m: nat, x: Sys, k: nat, y: Sys)
    requires s.live == map[] && Run(s, acts, s')
    requires rid in s'.live && s'.live[rid].Recovering? && s'.live[rid].rpc.End?
    ensures m <= k <= |acts| && Run(s, acts[..m], x) && Run(s, acts[..k], y)
    ensures var j, v := s'.live[rid].job, s'.live[rid].rpc.verdict;
      v == Unresolved || Fair(j, Observe(x.w, SourceOf(j)), Observe(y.w, j.target), v)
  {
    k, y := StepTo(s, acts, s', rid);
    var j, v := s'.live[rid].job, s'.live[rid].rpc.verdict;
    RecoveryStepIsFair(y, rid, j, y.live[rid].rpc, v);
    if y.live[rid].rpc.Seen? {
      m, x := StepTo(s, acts[..k], y, rid);
      assert acts[..k][..m] == acts[..m];
      SawTheSource(x, rid, j, x.live[rid].rpc, y.live[rid].rpc.sourceNow);
    } else {
      m, x := k, y;
    }
  }

  lemma SawTheSource(x: Sys, rid: Rid, j: Job, q: RPc, seen: State)
    requires Recovers(x, rid, j, q, Seen(seen))
    ensures seen == Observe(x.w, SourceOf(j))
  {
  }
}
