/** The broker object: the methods that run under its lock and at its start, each changing the
    object's fields as its specification on the bookkeeping state says. */
module Broker {
  import opened Attest
  import opened Files
  import opened Effects
  import opened Record
  import opened Intents
  import opened Bookkeeping
  import opened KeyRuns

  class Broker {
    var log: seq<Entry>
    const gated: bool
    var up: bool
    var keys: map<string, KeyState>
    var flight: map<Rid, Flight>
    var intents: seq<Intent>
    var reserved: map<Rid, Intent>
    var frozen: bool
    var written: seq<Intent>
    var file: seq<Intent>
    var reservedFile: map<Rid, Intent>
    var revocations: seq<Line>
    ghost var spent: multiset<Intent>
    ghost var revoked: multiset<Intent>

    ghost function State(): Book
      reads this
    {
      Book(log, gated, up, keys, flight, intents, reserved, frozen, written, file, reservedFile,
           revocations, spent, revoked)
    }

    constructor (audit: seq<Entry>, gated: bool, listed: seq<Intent>, held: map<Rid, Intent>, lines: seq<Line>)
      ensures State() == Book(audit, gated, true, map[], map[], Order(listed), held, false, listed, listed, held,
                              lines, multiset{}, multiset{})
    {
      log, this.gated, up, keys, flight := audit, gated, true, map[], map[];
      intents, reserved, frozen, written := Order(listed), held, false, listed;
      file, reservedFile, revocations := listed, held, lines;
      spent, revoked := multiset{}, multiset{};
    }

    method PersistIntents()
      modifies this
      ensures State() == Persisted(old(State()))
    {
      file := intents;
      written := file;
      reservedFile := reserved;
    }

    method RefreshIntents() returns (refused: bool)
      modifies this
      ensures (State(), refused) == Refresh(old(State()))
    {
      if !frozen && file != written { frozen := true; }
      if frozen { return true; }
      var before := intents;
      intents := ApplyRevocations(intents, revocations);
      if intents != before {
        revoked := revoked + (multiset(before) - multiset(intents));
        PersistIntents();
      }
      refused := false;
    }

    method Match(sha: string -> string, q: Query) returns (m: Option<Intent>)
      ensures m == FirstUsable(intents, i => Usable(sha, q, i))
    {
      var usable := i => Usable(sha, q, i);
      for n := 0 to |intents|
        invariant FirstUsable(intents, usable) == FirstUsable(intents[n..], usable)
      {
        assert intents[n..][1..] == intents[n + 1..];
        if usable(intents[n]) { return Some(intents[n]); }
      }
      m := None;
    }

    method DecideUnderLock(sha: string -> string, q: Query) returns (m: Option<Intent>, admit: bool)
      modifies this
      ensures Decision(State(), m, admit) == Decide(sha, old(State()), q)
    {
      if q.hash.None? { return None, false; }
      if !gated { return None, q.kernelAdmits; }
      var refused := RefreshIntents();
      if refused { return None, false; }
      m := Match(sha, q);
      admit := m.Some? && q.kernelAdmits;
    }

    method AnswerDuplicate(q: Query, prior: KeyState) returns (reply: Reply)
      modifies this`log
      ensures State() == Noting(old(State()), q.rid) && reply == Duplicate(prior, q.hash)
    {
      log := log + [Note(Some(q.rid))];
      if q.hash != Some(prior.hash) { return OtherInvocation; }
      match prior.phase {
        case Applied => return AlreadyApplied(prior.rid);
        case NotApplied => return EarlierFailed;
        case InDoubt => return StillInDoubt;
      }
    }

    method Reserve(rid: Rid, used: Intent)
      requires used in intents
      modifies this
      ensures State() == Persisted(Reserving(old(State()), rid, used))
    {
      intents := RemoveFirst(intents, used);
      reserved := reserved[rid := used];
      PersistIntents();
    }

    method Enlist(q: Query)
      requires q.hash.Some?
      modifies this
      ensures State() == Underway(old(State()), q)
    {
      log := log + [Prepared(q.rid, q.job, q.key, q.hash.value)];
      flight := flight[q.rid := Executing(q.job, q.key)];
      if q.key.Some? {
        keys := keys[q.key.value := KeyState(q.rid, q.hash.value, InDoubt, None)];
      }
    }

    /** Evidence first: the prepared record, then the key, then the reservation. */
    method Commit(q: Query, m: Option<Intent>)
      requires q.hash.Some? && (m.Some? ==> m.value in intents)
      modifies this
      ensures State() == if m.None? then Underway(old(State()), q)
                         else Persisted(Reserving(Underway(old(State()), q), q.rid, m.value))
    {
      Enlist(q);
      if m.Some? { Reserve(q.rid, m.value); }
    }

    /** The locked section of a request. */
    method Handle(sha: string -> string, q: Query) returns (reply: Reply)
      modifies this
      ensures (State(), reply) == Admit(sha, old(State()), q)
    {
      var m, admit := DecideUnderLock(sha, q);
      if q.key.Some? && q.key.value in keys {
        reply := AnswerDuplicate(q, keys[q.key.value]);
        return;
      }
      if !admit || (q.job.Some? && q.job.value.Rename? && !q.sourceOk) {
        log := log + [Note(Some(q.rid))];
        return Rejected;
      }
      Commit(q, m);
      reply := Admitted(m);
    }

    method SettleAndRecord(rid: Rid, v: Verdict)
      modifies this
      ensures State() == Settle(old(State()), rid, v)
    {
      if rid !in reserved { return; }
      var used := reserved[rid];
      log := log + [Note(Some(rid))];
      if v == Unresolved { return; }
      ghost var noted := State();
      reserved := reserved - {rid};
      if v == ConfirmedFailure {
        intents := Order(intents + [used]);
        assert State() == noted.(reserved := reserved, intents := intents);
      } else {
        spent := spent + multiset{used};
        assert State() == noted.(reserved := reserved, spent := spent);
      }
      PersistIntents();
    }

    /** At the start: reconcile every prepared request without an outcome, and rebuild the keys.
        `seen` holds the verdicts the observations give. */
    method ReconcilePending(seen: map<Rid, Verdict>)
      requires LogFits(log) && keys == map[]
      modifies this`log, this`keys
      ensures log == ReconciledLog(old(log), seen)
      ensures keys == KeysFrom(log, |log|)
    {
      var entries := log;
      ghost var end := ReconciledLog(entries, seen);
      var closed: map<Rid, Option<Closing>> := ReadClosed(entries);
      ClosedAtFirst(entries, closed);
      for n := 0 to |entries|
        invariant log == entries + Missing(entries, seen, n)
        invariant keys == KeysFrom(end, n)
        invariant ClosedSoFar(entries, n, closed)
      {
        var e := entries[n];
        assert end[n] == e;
        if e.Prepared? {
          if e.rid !in closed {
            NewlyClosed(entries, seen, n);
            var v := if e.job.Some? && e.rid in seen then seen[e.rid] else Unresolved;
            log := log + [Reconciled(e.rid, e.job, Some(v))];
            closed := closed[e.rid := Some(ByVerdict(v))];
            assert PreparedIn(entries, n, e.rid);
          } else {
            StillClosed(entries, seen, n);
          }
          if e.key.Some? {
            keys := keys[e.key.value := KeyState(e.rid, e.hash, PhaseOf(closed[e.rid]), closed[e.rid])];
          }
        }
      }
      NoKeysInTail(entries, seen, |end|);
    }

    /** At the start: settle what a crash left reserved, by the latest recorded verdicts. `rids`
        lists the reserved requests. What has no verdict stays reserved, all else is settled, and it
        is a run of the single settlements. */
    method SettleReserved(rids: seq<Rid>)
      requires forall r :: r in rids <==> r in reserved
      modifies this
      ensures State() == SettledAll(old(State()), old(log), rids)
      ensures forall r :: r in reserved <==> r in old(reserved) && StartupVerdict(old(log), r) == Unresolved
      ensures old(up) && old(flight) == map[] ==> forall sha :: Run(sha, old(State()), Settlements(rids), State())
    {
      ghost var start := State();
      var recorded := log;
      assert rids[..0] == [];
      for n := 0 to |rids|
        invariant State() == SettledAll(start, recorded, rids[..n])
      {
        assert rids[..n + 1][..n] == rids[..n];
        SettleAndRecord(rids[n], StartupVerdict(recorded, rids[n]));
      }
      assert rids[..|rids|] == rids;
      forall r ensures r in reserved <==> r in start.reserved && StartupVerdict(recorded, r) == Unresolved {
        if r in start.reserved || r in reserved { SettledAllLeaves(start, recorded, rids, r); }
      }
      if start.up && start.flight == map[] {
        forall sha ensures Run(sha, start, Settlements(rids), State()) {
          SettledAllIsARun(sha, start, rids);
        }
      }
    }
  }

  ghost predicate ClosedEntry(log: seq<Entry>, closed: map<Rid, Option<Closing>>, rid: Rid) {
    && (rid in closed <==> IsClosed(log, rid))
    && (rid in closed ==> closed[rid] == ClosingOf(log, rid))
  }

  ghost predicate ClosedTable(log: seq<Entry>, closed: map<Rid, Option<Closing>>) {
    forall rid: Rid :: ClosedEntry(log, closed, rid)
  }

  function NoteClosed(closed: map<Rid, Option<Closing>>, e: Entry): map<Rid, Option<Closing>> {
    if e.Outcome? || e.Reconciled? then closed[e.rid := ClosingIn(e)] else closed
  }

  lemma NoteClosedKeeps(log: seq<Entry>, closed: map<Rid, Option<Closing>>, e: Entry)
    requires ClosedTable(log, closed)
    ensures ClosedTable(log + [e], NoteClosed(closed, e))
  {
    forall rid: Rid ensures ClosedEntry(log + [e], NoteClosed(closed, e), rid) {
      assert ClosedEntry(log, closed, rid);
      Snoc(log, e, rid);
    }
  }

  /** What each closed request was closed by, in one pass over the log. */
  method ReadClosed(log: seq<Entry>) returns (closed: map<Rid, Option<Closing>>)
    ensures ClosedTable(log, closed)
  {
    closed := map[];
    for n := 0 to |log|
      invariant ClosedTable(log[..n], closed)
    {
      assert log[..n + 1] == log[..n] + [log[n]];
      NoteClosedKeeps(log[..n], closed, log[n]);
      closed := NoteClosed(closed, log[n]);
    }
    assert log[..|log|] == log;
  }

  /** The table of closed requests half-way through reconciliation: what the log says, and the
      requests already reconciled. */
  ghost predicate ClosedSoFar(log: seq<Entry>, n: nat, closed: map<Rid, Option<Closing>>) {
    && (forall rid: Rid | IsClosed(log, rid) :: rid in closed && closed[rid] == ClosingOf(log, rid))
    && (forall rid: Rid | rid in closed && !IsClosed(log, rid) :: exists i: nat | i < n :: PreparedIn(log, i, rid))
  }

  lemma ClosedAtFirst(log: seq<Entry>, closed: map<Rid, Option<Closing>>)
    requires ClosedTable(log, closed)
    ensures ClosedSoFar(log, 0, closed)
  {
    forall rid: Rid | IsClosed(log, rid) ensures rid in closed && closed[rid] == ClosingOf(log, rid) {
      assert ClosedEntry(log, closed, rid);
    }
    forall rid: Rid | rid in closed ensures IsClosed(log, rid) {
      assert ClosedEntry(log, closed, rid);
    }
  }

  function SettledAll(b: Book, recorded: seq<Entry>, rids: seq<Rid>): Book {
    if rids == [] then b
    else
      var m := |rids| - 1;
      Settle(SettledAll(b, recorded, rids[..m]), rids[m], StartupVerdict(recorded, rids[m]))
  }

  function Settlements(rids: seq<Rid>): seq<Event> {
    if rids == [] then [] else Settlements(rids[..|rids| - 1]) + [SettleAtStart(rids[|rids| - 1])]
  }

  /** Settling leaves reserved exactly what it does not concern and what has no verdict. */
  lemma {:induction false} SettledAllLeaves(b: Book, recorded: seq<Entry>, rids: seq<Rid>, r: Rid)
    ensures var b' := SettledAll(b, recorded, rids);
      && (r in b'.reserved <==> r in b.reserved && (r !in rids || StartupVerdict(recorded, r) == Unresolved))
      && (r in b'.reserved ==> b'.reserved[r] == b.reserved[r])
  {
    if rids != [] {
      var m := |rids| - 1;
      assert rids == rids[..m] + [rids[m]];
      SettledAllLeaves(b, recorded, rids[..m], r);
    }
  }

  /** The records of the settlements change no verdict. */
  lemma {:induction false} SettledAllKeeps(b: Book, rids: seq<Rid>)
    ensures var b' := SettledAll(b, b.log, rids);
      && b'.up == b.up && b'.flight == b.flight
      && forall r: Rid :: StartupVerdict(b'.log, r) == StartupVerdict(b.log, r)
  {
    if rids != [] {
      var m := |rids| - 1;
      SettledAllKeeps(b, rids[..m]);
      var t := SettledAll(b, b.log, rids[..m]);
      SettleTouchesNoKeys(t, rids[m], StartupVerdict(b.log, rids[m]));
      forall r: Rid ensures StartupVerdict(t.log + [Note(Some(rids[m]))], r) == StartupVerdict(t.log, r) {
        Snoc(t.log, Note(Some(rids[m])), r);
      }
    }
  }

  lemma RunSnoc(sha: string -> string, b: Book, es: seq<Event>, t: Book, e: Event)
    requires Run(sha, b, es, t) && Enabled(sha, t, e)
    ensures Run(sha, b, es + [e], Next(sha, t, e))
  {
    assert (es + [e])[..|es|] == es;
    assert Follows(sha, t, e, Next(sha, t, e));
  }

  lemma LastSettlement(sha: string -> string, b: Book, front: seq<Rid>, last: Rid)
    requires b.up && b.flight == map[]
    ensures var t := SettledAll(b, b.log, front);
      Enabled(sha, t, SettleAtStart(last))
      && Next(sha, t, SettleAtStart(last)) == SettledAll(b, b.log, front + [last])
  {
    SettledAllKeeps(b, front);
    assert (front + [last])[..|front|] == front;
  }

  /** And they are events of a run, each by the verdict the log then holds. */
  lemma {:induction false} SettledAllIsARun(sha: string -> string, b: Book, rids: seq<Rid>)
    requires b.up && b.flight == map[]
    ensures Run(sha, b, Settlements(rids), SettledAll(b, b.log, rids))
  {
    if rids != [] {
      var front, last := rids[..|rids| - 1], rids[|rids| - 1];
      assert rids == front + [last];
      SettledAllIsARun(sha, b, front);
      LastSettlement(sha, b, front, last);
      RunSnoc(sha, b, Settlements(front), SettledAll(b, b.log, front), SettleAtStart(last));
    }
  }

  // ---- What reconciliation makes of the closings ------------------------------------------------

  function GivenVerdict(e: Entry, seen: map<Rid, Verdict>): Verdict
    requires e.Prepared?
  {
    if e.job.Some? && e.rid in seen then seen[e.rid] else Unresolved
  }

  lemma MissingSnoc(log: seq<Entry>, seen: map<Rid, Verdict>, n: nat)
    requires 0 < n <= |log|
    ensures var e := log[n - 1];
      if e.Prepared? && !IsClosed(log, e.rid)
      then log + Missing(log, seen, n)
        == (log + Missing(log, seen, n - 1)) + [Reconciled(e.rid, e.job, Some(GivenVerdict(e, seen)))]
      else Missing(log, seen, n) == Missing(log, seen, n - 1)
  {
  }

  lemma {:induction false} ClosedByReconciliation(log: seq<Entry>, seen: map<Rid, Verdict>, n: nat, i: nat)
    requires i < n <= |log| && log[i].Prepared? && !IsClosed(log, log[i].rid)
    requires forall k | 0 <= k < |log| && log[k].Prepared? && log[k].rid == log[i].rid :: k == i
    ensures ClosingOf(log + Missing(log, seen, n), log[i].rid) == Some(ByVerdict(GivenVerdict(log[i], seen)))
  {
    var e := log[n - 1];
    MissingSnoc(log, seen, n);
    if i < n - 1 { ClosedByReconciliation(log, seen, n - 1, i); }
    if e.Prepared? && !IsClosed(log, e.rid) {
      Snoc(log + Missing(log, seen, n - 1), Reconciled(e.rid, e.job, Some(GivenVerdict(e, seen))), log[i].rid);
    }
  }

  lemma NewlyClosed(log: seq<Entry>, seen: map<Rid, Verdict>, n: nat)
    requires LogFits(log) && n < |log| && log[n].Prepared? && !IsClosed(log, log[n].rid)
    ensures ClosingOf(ReconciledLog(log, seen), log[n].rid) == Some(ByVerdict(GivenVerdict(log[n], seen)))
  {
    forall k | 0 <= k < |log| && log[k].Prepared? && log[k].rid == log[n].rid ensures k == n {
      UniqueRid(log, k, n);
    }
    ClosedByReconciliation(log, seen, |log|, n);
  }

  /** A prepared request found closed was closed in the log: request ids are unique. */
  lemma StillClosed(log: seq<Entry>, seen: map<Rid, Verdict>, n: nat)
    requires LogFits(log) && n < |log| && log[n].Prepared?
    requires IsClosed(log, log[n].rid) || exists i: nat | i < n :: PreparedIn(log, i, log[n].rid)
    ensures IsClosed(log, log[n].rid)
    ensures ClosingOf(ReconciledLog(log, seen), log[n].rid) == ClosingOf(log, log[n].rid)
  {
    if !IsClosed(log, log[n].rid) {
      var i: nat :| i < n && PreparedIn(log, i, log[n].rid);
      UniqueRid(log, i, n);
      assert false;
    }
    ReconciliationKeepsOutcomes(log, seen, log[n].rid);
  }

  lemma {:induction false} NoKeysInTail(log: seq<Entry>, seen: map<Rid, Verdict>, n: nat)
    requires |log| <= n <= |ReconciledLog(log, seen)|
    ensures KeysFrom(ReconciledLog(log, seen), n) == KeysFrom(ReconciledLog(log, seen), |log|)
  {
    if n > |log| {
      var _ := MissingAt(log, seen, |log|, n - 1 - |log|);
      NoKeysInTail(log, seen, n - 1);
    }
  }
}
