/** At most one effect per idempotency key: the key table's runs and the tree's runs, tied together
    by the log they share. */
module Executions {
  import opened Attest
  import opened Files
  import opened Effects
  import opened Record
  import Books = Bookkeeping
  import KeyRuns
  import System

  /** The log when the request is prepared, and the record that follows it. */
  lemma PreparesAt(s: System.Sys, acts: seq<System.Action>, s': System.Sys, n: nat) returns (r: System.Sys)
    requires System.Run(s, acts, s') && n < |acts| && acts[n].Prepare?
    ensures System.Run(s, acts[..n], r)
    ensures r.log + [Prepared(acts[n].job.rid, Some(acts[n].job), acts[n].key, acts[n].hash)] <= s'.log
  {
    r := System.StepAt(s, acts, s', n);
  }

  lemma StillAtWork(t: System.Sys, a: System.Action, rid: Rid)
    requires t.ring.active.Some? && System.Enabled(t, a)
    requires rid in System.Next(t, a).live && System.Next(t, a).live[rid].Running?
    requires !(a.Prepare? && a.job.rid == rid)
    ensures !a.Crash? && (a.Conclude? ==> a.rid != rid)
    ensures rid in t.live && t.live[rid].Running? && t.live[rid].job == System.Next(t, a).live[rid].job
  {
    match a {
      case Work(other) => if other == rid {} else {}
      case _ =>
    }
  }

  lemma LastStep(s: System.Sys, acts: seq<System.Action>, s': System.Sys, rid: Rid) returns (t: System.Sys)
    requires s.live == map[] && System.Run(s, acts, s') && rid in s'.live && s'.live[rid].Running?
    ensures acts != [] && System.Run(s, acts[..|acts| - 1], t)
    ensures var a := acts[|acts| - 1];
      if a.Prepare? && a.job.rid == rid then s'.live[rid].job == a.job
      else
        && !a.Crash? && (a.Conclude? ==> a.rid != rid)
        && rid in t.live && t.live[rid].Running? && t.live[rid].job == s'.live[rid].job
  {
    var front, a := acts[..|acts| - 1], acts[|acts| - 1];
    t :| System.Run(s, front, t) && t.ring.active.Some? && System.Enabled(t, a) && s' == System.Next(t, a);
    if !(a.Prepare? && a.job.rid == rid) { StillAtWork(t, a, rid); }
  }

  /** Since step `n` there has been no crash and no conclusion of the request. */
  predicate Undisturbed(acts: seq<System.Action>, n: nat, rid: Rid) {
    forall m | n < m < |acts| :: !acts[m].Crash? && (acts[m].Conclude? ==> acts[m].rid != rid)
  }

  lemma UndisturbedSnoc(front: seq<System.Action>, a: System.Action, n: nat, rid: Rid)
    requires Undisturbed(front, n, rid) && !a.Crash? && (a.Conclude? ==> a.rid != rid)
    ensures Undisturbed(front + [a], n, rid)
  {
    assert forall m | 0 <= m < |front| :: (front + [a])[m] == front[m];
  }

  /** Step `n` put the request to work, and it has been at it since. */
  predicate PutToWork(acts: seq<System.Action>, n: nat, job: Job, rid: Rid) {
    n < |acts| && acts[n].Prepare? && acts[n].job == job && job.rid == rid && Undisturbed(acts, n, rid)
  }

  lemma PutToWorkSnoc(front: seq<System.Action>, a: System.Action, n: nat, job: Job, rid: Rid)
    requires PutToWork(front, n, job, rid) && !a.Crash? && (a.Conclude? ==> a.rid != rid)
    ensures PutToWork(front + [a], n, job, rid)
  {
    UndisturbedSnoc(front, a, n, rid);
  }

  lemma PutToWorkLast(front: seq<System.Action>, a: System.Action, rid: Rid)
    requires a.Prepare? && a.job.rid == rid
    ensures PutToWork(front + [a], |front|, a.job, rid)
  {
    assert (front + [a])[|front|] == a;
  }

  lemma Rejoin(acts: seq<System.Action>)
    requires acts != []
    ensures acts[..|acts| - 1] + [acts[|acts| - 1]] == acts
  {}

  /** Whoever is at work on the tree was put to work by a step that prepared it, and has been at it
      since: a request that crashed or was concluded is never taken up again as itself. */
  lemma {:induction false} AtWorkSincePrepared(s: System.Sys, acts: seq<System.Action>, s': System.Sys, rid: Rid)
      returns (n: nat)
    requires s.live == map[] && System.Run(s, acts, s') && rid in s'.live && s'.live[rid].Running?
    ensures PutToWork(acts, n, s'.live[rid].job, rid)
  {
    var t := LastStep(s, acts, s', rid);
    n := AtWorkBefore(s, acts[..|acts| - 1], acts[|acts| - 1], t, s'.live[rid].job, rid);
    Rejoin(acts);
  }

  lemma {:induction false} AtWorkBefore(s: System.Sys, front: seq<System.Action>, a: System.Action, t: System.Sys,
                                        job: Job, rid: Rid) returns (n: nat)
    requires s.live == map[] && System.Run(s, front, t)
    requires if a.Prepare? && a.job.rid == rid then a.job == job
             else
               && !a.Crash? && (a.Conclude? ==> a.rid != rid)
               && rid in t.live && t.live[rid].Running? && t.live[rid].job == job
    ensures PutToWork(front + [a], n, job, rid)
    decreases |front|
  {
    if a.Prepare? && a.job.rid == rid {
      n := |front|;
      PutToWorkLast(front, a, rid);
    } else {
      var m := |front| - 1;
      var u := LastStep(s, front, t, rid);
      n := AtWorkBefore(s, front[..m], front[m], u, job, rid);
      Rejoin(front);
      PutToWorkSnoc(front, a, n, job, rid);
    }
  }

  /** Over any run of the tree whose log is that of some run of the key table, at most one step puts
      a request with the key to work. */
  lemma OneExecutionPerKey(sha: string -> string, b: Books.Book, es: seq<Books.Event>, b': Books.Book,
                           s: System.Sys, acts: seq<System.Action>, s': System.Sys, m: nat, n: nat)
    requires Books.Fresh(b) && Books.Run(sha, b, es, b')
    requires System.Run(s, acts, s') && s'.log == b'.log
    requires m < |acts| && n < |acts| && acts[m].Prepare? && acts[n].Prepare?
    requires acts[m].key.Some? && acts[n].key == acts[m].key
    ensures m == n
  {
    if m != n {
      var i, k := if m < n then m else n, if m < n then n else m;
      var r := PreparesAt(s, acts, s', i);
      var u := PreparesAt(s, acts, s', k);
      Earlier(s, acts, i, k, r, u);
      var key := acts[m].key.value;
      assert KeyRuns.Keyed(b'.log, |r.log|, key) && KeyRuns.Keyed(b'.log, |u.log|, key);
      KeyRuns.AtMostOnce(sha, b, es, b', key, |r.log|, |u.log|);
      assert false;
    }
  }

  lemma Earlier(s: System.Sys, acts: seq<System.Action>, i: nat, k: nat, r: System.Sys, u: System.Sys)
    requires i < k < |acts| && acts[i].Prepare?
    requires System.Run(s, acts[..i], r) && System.Run(s, acts[..k], u)
    ensures |r.log| < |u.log|
  {
    assert acts[..k][..i] == acts[..i] && acts[..k][i] == acts[i];
    var r' := PreparesAt(s, acts[..k], u, i);
    System.RunIsDeterministic(s, acts[..i], r, r');
  }

  /** So whoever is found at work on the tree, at any two moments of the run, and was put to work
      under one key, is one request in one and the same pass through its program. */
  lemma OnePassPerKey(sha: string -> string, b: Books.Book, es: seq<Books.Event>, b': Books.Book,
                      s: System.Sys, acts: seq<System.Action>, s': System.Sys,
                      m: nat, r: System.Sys, x: Rid, n: nat, u: System.Sys, y: Rid) returns (i: nat, k: nat)
    requires Books.Fresh(b) && Books.Run(sha, b, es, b')
    requires System.Initial(s) && System.Run(s, acts, s') && s'.log == b'.log
    requires m <= |acts| && System.Run(s, acts[..m], r) && x in r.live && r.live[x].Running?
    requires n <= |acts| && System.Run(s, acts[..n], u) && y in u.live && u.live[y].Running?
    ensures PutToWork(acts[..m], i, r.live[x].job, x) && PutToWork(acts[..n], k, u.live[y].job, y)
    ensures acts[i].key.Some? && acts[k].key == acts[i].key ==> i == k && x == y
  {
    i := AtWorkSincePrepared(s, acts[..m], r, x);
    k := AtWorkSincePrepared(s, acts[..n], u, y);
    assert acts[..m][i] == acts[i] && acts[..n][k] == acts[k];
    if acts[i].key.Some? && acts[k].key == acts[i].key {
      OneExecutionPerKey(sha, b, es, b', s, acts, s', i, k);
    }
  }

  /** And with recovery, which works on the tree as well: whoever is found at it, running or
      recovering, at any two moments of the run, under one key, is one request, by one record. */
  lemma OneRequestPerKey(sha: string -> string, b: Books.Book, es: seq<Books.Event>, b': Books.Book,
                         s: System.Sys, acts: seq<System.Action>, s': System.Sys,
                         m: nat, r: System.Sys, x: Rid, n: nat, u: System.Sys, y: Rid, i: nat, k: nat, key: string)
    requires Books.Fresh(b) && Books.Run(sha, b, es, b')
    requires System.Initial(s) && System.Run(s, acts, s') && s'.log == b'.log
    requires m <= |acts| && System.Run(s, acts[..m], r) && x in r.live
    requires n <= |acts| && System.Run(s, acts[..n], u) && y in u.live
    requires PreparedAt(r.log, i, r.live[x].job) && r.log[i].key == Some(key)
    requires PreparedAt(u.log, k, u.live[y].job) && u.log[k].key == Some(key)
    ensures i == k && x == y && r.live[x].job == u.live[y].job
  {
    System.LogOnlyGrows(s, acts, s', m, r);
    System.LogOnlyGrows(s, acts, s', n, u);
    System.RunKeeps(s, acts[..m], r);
    System.RunKeeps(s, acts[..n], u);
    assert System.LiveOk(r, x) && System.LiveOk(u, y);
    assert KeyRuns.Keyed(b'.log, i, key) && KeyRuns.Keyed(b'.log, k, key);
    KeyRuns.AtMostOnce(sha, b, es, b', key, i, k);
  }

  /** The two kinds of run share the logs of reads too: a read asked for, answered and recorded. */
  lemma AReadIsInBoth(s: System.Sys, rid: Rid, hash: string) returns (acts: seq<System.Action>, s': System.Sys)
    requires System.Initial(s)
    ensures System.Run(s, acts, s')
    ensures s'.log == [Prepared(rid, None, None, hash)] + [Outcome(rid, None, Succeeded, None)]
  {
    var p, e := Prepared(rid, None, None, hash), Outcome(rid, None, Succeeded, None);
    var t := System.Next(s, System.Remark(p));
    System.RunSnoc(s, [], s, System.Remark(p));
    assert t.log == [p] && p in t.log;
    System.RunSnoc(s, [] + [System.Remark(p)], t, System.Remark(e));
    acts, s' := [] + [System.Remark(p)] + [System.Remark(e)], System.Next(t, System.Remark(e));
  }

  lemma AReadIsBooked(sha: string -> string, b: Books.Book, q: Books.Query, seen: map<Rid, Verdict>, v: Verdict)
      returns (es: seq<Books.Event>, b': Books.Book)
    requires Books.Fresh(b) && !b.gated && q.hash.Some? && q.kernelAdmits && q.job.None? && q.key.None?
    ensures Books.Run(sha, b, es, b')
    ensures b'.log == [Prepared(q.rid, None, None, q.hash.value)] + [Outcome(q.rid, None, Succeeded, None)]
  {
    var e1, e2, e3 := Books.Start(seen), Books.Ask(q), Books.Record(q.rid, Succeeded, v);
    var b1 := Books.Next(sha, b, e1);
    assert b1.log == [] && b1.up && b1.flight == map[];
    var b2 := Books.Next(sha, b1, e2);
    assert b2 == Books.Underway(b1, q);
    b' := Books.Next(sha, b2, e3);
    BookSnoc(sha, b, [], b, e1);
    BookSnoc(sha, b, [] + [e1], b1, e2);
    BookSnoc(sha, b, [] + [e1] + [e2], b2, e3);
    es := [] + [e1] + [e2] + [e3];
  }

  lemma BookSnoc(sha: string -> string, b: Books.Book, es: seq<Books.Event>, t: Books.Book, e: Books.Event)
    requires Books.Run(sha, b, es, t) && Books.Enabled(sha, t, e)
    ensures Books.Run(sha, b, es + [e], Books.Next(sha, t, e))
  {
    assert (es + [e])[..|es|] == es;
    assert Books.Follows(sha, t, e, Books.Next(sha, t, e));
  }
}
