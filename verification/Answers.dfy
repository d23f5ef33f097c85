/** What the broker's answer to a proposal means, and what settling does, over every run: in terms of
    the proposal, the log and the files, and of nothing the broker computes on the way. */
module Answers {
  import opened Attest
  import opened Files
  import opened Effects
  import opened Record
  import opened Intents
  import opened Bookkeeping
  import KeyRuns
  import IntentRuns

  // ---- Admission --------------------------------------------------------------------------------

  /** The intent is available, fits the proposal with its premises met, and no line of the revocations
      file takes it away. */
  predicate Candidate(sha: string -> string, b: Book, q: Query, i: Intent) {
    && i in b.intents && i in q.premises
    && i.tool == q.tool && (forall c <- i.cons :: "if_" <= c.0 || MetBy(sha, q.args, c))
    && Unmentioned(b.revocations, i)
  }

  /** The file can be read, and has neither a star line for the intent's tool nor its own line. */
  predicate Unmentioned(lines: seq<Line>, i: Intent) {
    Unreadable !in lines && Tool(i.tool) !in lines && Exactly(i) !in lines
  }

  /** The proposal is well formed, the kernel admits it, a rename's source passed its check, its key was
      never used, and, if intents are in force, the file is as the broker left it and has a candidate. */
  ghost predicate Admissible(sha: string -> string, b: Book, q: Query) {
    && q.hash.Some? && q.kernelAdmits
    && (q.job.Some? && q.job.value.Rename? ==> q.sourceOk)
    && (q.key.Some? ==> forall i: nat :: !KeyRuns.Keyed(b.log, i, q.key.value))
    && (b.gated ==> !b.frozen && b.file == b.written && exists i :: Candidate(sha, b, q, i))
  }

  lemma CandidateIff(sha: string -> string, b: Book, q: Query, i: Intent)
    ensures Candidate(sha, b, q, i) <==> i in Unrevoked(b.intents, b.revocations) && Usable(sha, q, i)
  {
    FitsIff(sha, i, q.tool, q.args);
    RevokedIff(b.revocations, i);
    UnrevokedIs(b.intents, b.revocations);
  }

  /** What is decided under the lock. */
  lemma DecidedIff(sha: string -> string, b: Book, q: Query)
    ensures Decide(sha, b, q).admit <==>
      && q.hash.Some? && q.kernelAdmits
      && (b.gated ==> !b.frozen && b.file == b.written && exists i :: Candidate(sha, b, q, i))
    ensures Decide(sha, b, q).admit ==> (Decide(sha, b, q).matched.Some? <==> b.gated)
    ensures Decide(sha, b, q).matched.Some? ==> Candidate(sha, b, q, Decide(sha, b, q).matched.value)
  {
    var left := Unrevoked(b.intents, b.revocations);
    var m := FirstUsable(left, i => Usable(sha, q, i));
    forall i ensures Candidate(sha, b, q, i) <==> i in left && Usable(sha, q, i) {
      CandidateIff(sha, b, q, i);
    }
    MatchedIs(sha, b, q);
    if m.Some? { assert Candidate(sha, b, q, m.value); }
  }

  lemma MatchedIs(sha: string -> string, b: Book, q: Query)
    ensures var d := Decide(sha, b, q);
      if q.hash.None? then d == Decision(b, None, false)
      else if !b.gated then d == Decision(b, None, q.kernelAdmits)
      else if b.frozen || b.file != b.written then d.matched == None && !d.admit
      else
        && d.matched == FirstUsable(Unrevoked(b.intents, b.revocations), i => Usable(sha, q, i))
        && d.admit == (d.matched.Some? && q.kernelAdmits)
  {
    if q.hash.None? || !b.gated {
    } else if b.frozen || b.file != b.written {
    } else if Unrevoked(b.intents, b.revocations) == b.intents {
    } else {
    }
  }

  /** In every reachable state a proposal is admitted if and only if it is admissible. */
  lemma AdmittedIff(sha: string -> string, b: Book, es: seq<Event>, b': Book, q: Query)
    requires Fresh(b) && Run(sha, b, es, b') && Enabled(sha, b', Ask(q))
    ensures Admit(sha, b', q).1.Admitted? <==> Admissible(sha, b', q)
    ensures Admits(sha, b', q) <==> Admissible(sha, b', q)
  {
    KeyRuns.RunKeeps(sha, b, es, b');
    KeyRuns.DecideTouchesNoKeys(sha, b', q);
    DecidedIff(sha, b', q);
    if q.key.Some? { UsedIff(b', q.key.value); }
  }

  /** The table has exactly the keys of the prepared records. */
  lemma UsedIff(b: Book, key: string)
    requires KeyRuns.Inv(b) && b.up
    ensures key in b.keys <==> exists i: nat :: KeyRuns.Keyed(b.log, i, key)
  {
    if i: nat :| KeyRuns.Keyed(b.log, i, key) { assert KeyRuns.EntryFor(b, i, key); }
  }

  lemma AskPrepares(sha: string -> string, b: Book, es: seq<Event>, t: Book, q: Query, k: nat)
    requires Fresh(b) && Run(sha, b, es, t) && Enabled(sha, t, Ask(q))
    requires |t.log| <= k < |Admit(sha, t, q).0.log| && Admit(sha, t, q).0.log[k].Prepared?
    ensures Admissible(sha, t, q) && k == |t.log|
    ensures Admit(sha, t, q).0.log[k] == Prepared(q.rid, q.job, q.key, q.hash.value)
  {
    AdmittedIff(sha, b, es, t, q);
    if Admits(sha, t, q) { KeyRuns.AdmittedAppends(sha, t, q); } else { KeyRuns.RefusedAppends(sha, t, q); }
  }

  lemma TornPrepares(sha: string -> string, b: Book, es: seq<Event>, t: Book, q: Query)
    requires Fresh(b) && Run(sha, b, es, t) && Enabled(sha, t, Torn(q))
    ensures Admissible(sha, t, q)
    ensures Next(sha, t, Torn(q)).log == t.log + [Prepared(q.rid, q.job, q.key, q.hash.value)]
  {
    AdmittedIff(sha, b, es, t, q);
    KeyRuns.DecideTouchesNoKeys(sha, t, q);
  }

  /** Nothing else writes one. */
  lemma OthersPrepareNothing(sha: string -> string, t: Book, e: Event, k: nat)
    requires Enabled(sha, t, e) && !e.Ask? && !e.Torn? && |t.log| <= k < |Next(sha, t, e).log|
    ensures !Next(sha, t, e).log[k].Prepared?
  {
    match e {
      case Cut(q) => KeyRuns.DecideTouchesNoKeys(sha, t, q);
      case SettleLive(rid) => KeyRuns.SettleTouchesNoKeys(t, rid, t.flight[rid].verdict);
      case SettleAtStart(rid) => KeyRuns.SettleTouchesNoKeys(t, rid, StartupVerdict(t.log, rid));
      case HalfReconcile(seen, n) => var _ := KeyRuns.MissingAt(t.log, seen, |t.log|, k - |t.log|);
      case Start(seen) => var _ := KeyRuns.MissingAt(t.log, seen, |t.log|, k - |t.log|);
      case _ =>
    }
  }

  /** A prepared record is written only for an admissible proposal, and it is that proposal's. */
  lemma PreparedIsAdmissible(sha: string -> string, b: Book, es: seq<Event>, t: Book, e: Event, t': Book, k: nat)
    requires Fresh(b) && Run(sha, b, es, t) && Follows(sha, t, e, t')
    requires |t.log| <= k < |t'.log| && t'.log[k].Prepared?
    ensures e.Ask? || e.Torn?
    ensures Admissible(sha, t, e.q) && k == |t.log|
    ensures t'.log[k] == Prepared(e.q.rid, e.q.job, e.q.key, e.q.hash.value)
  {
    if e.Ask? {
      AskPrepares(sha, b, es, t, e.q, k);
    } else if e.Torn? {
      TornPrepares(sha, b, es, t, e.q);
    } else {
      OthersPrepareNothing(sha, t, e, k);
    }
  }

  /** What an admission does: the request is under way under its record, its key is taken and in doubt,
      and one intent, a candidate than which none is broader, has moved from the available to the
      reserved ones, in memory and on disk. */
  lemma AdmissionReserves(sha: string -> string, b: Book, es: seq<Event>, b': Book, q: Query,
                          after: Book, m: Option<Intent>)
    requires Fresh(b) && Ordered(b.intents) && Run(sha, b, es, b') && Enabled(sha, b', Ask(q))
    requires Admit(sha, b', q) == (after, Admitted(m))
    ensures q.hash.Some? && after.log == b'.log + [Prepared(q.rid, q.job, q.key, q.hash.value)]
    ensures after.flight == b'.flight[q.rid := Executing(q.job, q.key)]
    ensures q.key.Some? ==> after.keys == b'.keys[q.key.value := KeyState(q.rid, q.hash.value, InDoubt, None)]
    ensures q.key.None? ==> after.keys == b'.keys
    ensures !b'.gated ==> m == None && after.reserved == b'.reserved && after.intents == b'.intents
    ensures b'.gated ==> m.Some? && Candidate(sha, b', q, m.value) && Reserved(b', q.rid, m.value, after)
    ensures b'.gated ==> forall i | Candidate(sha, b', q, i) :: |m.value.cons| <= |i.cons|
  {
    AdmittedIff(sha, b, es, b', q);
    KeyRuns.AdmittedAppends(sha, b', q);
    KeyRuns.DecideTouchesNoKeys(sha, b', q);
    IntentRuns.RunInOrder(sha, b, es, b');
    DecidedIff(sha, b', q);
    MatchedIs(sha, b', q);
    var d := Decide(sha, b', q);
    if b'.gated {
      DecidedBook(sha, b', q);
      assert after == Persisted(Reserving(Underway(d.book, q), q.rid, m.value));
      ReservedBroadest(sha, b', q, m.value);
      RemoveKeeps(d.book.intents, m.value);
    } else {
      assert after == Underway(b', q) && m == None;
    }
  }

  /** One intent has moved from what revocation leaves available to what is reserved. */
  predicate Reserved(b: Book, rid: Rid, used: Intent, after: Book) {
    && after.reserved == b.reserved[rid := used]
    && multiset(after.intents) + multiset{used} == multiset(Unrevoked(b.intents, b.revocations))
    && after.file == after.intents && after.reservedFile == after.reserved
  }

  lemma ReservedBroadest(sha: string -> string, b: Book, q: Query, used: Intent)
    requires Ordered(b.intents)
    requires FirstUsable(Unrevoked(b.intents, b.revocations), i => Usable(sha, q, i)) == Some(used)
    ensures forall i | Candidate(sha, b, q, i) :: |used.cons| <= |i.cons|
  {
    var left := Unrevoked(b.intents, b.revocations);
    UnrevokedIs(b.intents, b.revocations);
    FirstUsableIsBroadest(left, i => Usable(sha, q, i));
    forall i | Candidate(sha, b, q, i) ensures |used.cons| <= |i.cons| {
      CandidateIff(sha, b, q, i);
    }
  }

  lemma DecidedBook(sha: string -> string, b: Book, q: Query)
    requires q.hash.Some? && b.gated && !b.frozen && b.file == b.written
    ensures var d := Decide(sha, b, q).book;
      && d.intents == Unrevoked(b.intents, b.revocations) && d.reserved == b.reserved
      && d.log == b.log && d.flight == b.flight && d.keys == b.keys
  {
    if Unrevoked(b.intents, b.revocations) == b.intents {
    } else {
    }
  }

  /** Whatever is not admitted performs nothing: a note, and what the revocations file takes. */
  lemma RefusalPerformsNothing(sha: string -> string, b: Book, es: seq<Event>, b': Book, q: Query)
    requires Fresh(b) && Run(sha, b, es, b') && Enabled(sha, b', Ask(q)) && !Admissible(sha, b', q)
    ensures var (after, reply) := Admit(sha, b', q);
      && after.log == b'.log + [Note(Some(q.rid))] && after.flight == b'.flight && after.keys == b'.keys
      && after.reserved == b'.reserved && after.spent == b'.spent
      && (after.intents == b'.intents || after.intents == Unrevoked(b'.intents, b'.revocations))
      && (reply != Rejected <==> q.key.Some? && exists i: nat :: KeyRuns.Keyed(b'.log, i, q.key.value))
  {
    AdmittedIff(sha, b, es, b', q);
    KeyRuns.RunKeeps(sha, b, es, b');
    KeyRuns.RefusedAppends(sha, b', q);
    KeyRuns.DecideTouchesNoKeys(sha, b', q);
    if q.key.Some? { UsedIff(b', q.key.value); }
    DecisionKeeps(sha, b', q);
    var d := Decide(sha, b', q).book;
    assert Admit(sha, b', q).0 == Noting(d, q.rid);
  }

  lemma DecisionKeeps(sha: string -> string, b: Book, q: Query)
    ensures var d := Decide(sha, b, q).book;
      && d.reserved == b.reserved && d.spent == b.spent
      && (d.intents == b.intents || d.intents == Unrevoked(b.intents, b.revocations))
  {
    if q.hash.None? || !b.gated {
    } else if b.frozen || b.file != b.written {
    } else if Unrevoked(b.intents, b.revocations) == b.intents {
    } else {
    }
  }

  // ---- Revocation, line by line ---------------------------------------------------------------------

  /** After a star line no intent of the tool is reserved, after an intent's own line not that intent,
      and after an unreadable one none at all; and an intent none of these lines is about is not taken
      from the available ones. */
  lemma LinesTakeTheirOwn(sha: string -> string, b: Book, es: seq<Event>, b': Book, q: Query, line: Line)
    requires Fresh(b) && Ordered(b.intents) && Run(sha, b, es, b') && Enabled(sha, b', Ask(q)) && line in b'.revocations
    ensures forall used | Admit(sha, b', q).1 == Admitted(Some(used)) ::
      line != Unreadable && line != Tool(q.tool) && line != Exactly(used) && used.tool == q.tool
    ensures forall i | Unmentioned(b'.revocations, i) && Admit(sha, b', q).1 != Admitted(Some(i)) ::
      multiset(Admit(sha, b', q).0.intents)[i] == multiset(b'.intents)[i]
  {
    AdmittedIff(sha, b, es, b', q);
    forall i: Intent { SurvivesIff(b'.intents, b'.revocations, i); }
    if Admissible(sha, b', q) {
      var after, m := Admit(sha, b', q).0, Admit(sha, b', q).1.intent;
      AdmissionReserves(sha, b, es, b', q, after, m);
      if b'.gated {
        var used := m.value;
        forall i | i != used ensures multiset(after.intents)[i] == multiset(Unrevoked(b'.intents, b'.revocations))[i] {
          assert (multiset(after.intents) + multiset{used})[i] == multiset(after.intents)[i];
        }
      }
    } else {
      RefusalPerformsNothing(sha, b, es, b', q);
    }
  }

  // ---- Settlement -------------------------------------------------------------------------------------

  /** The closing record has the effect as taken place: by the verdict, or, for a request without a
      path, by the outcome. */
  predicate Spends(e: Entry, rid: Rid) {
    || (e.Outcome? && e.rid == rid && e.job.Some? && e.verdict == Some(ConfirmedSuccess))
    || (e.Outcome? && e.rid == rid && e.job.None? && e.effect == Succeeded)
    || (e.Reconciled? && e.rid == rid && e.verdict == Some(ConfirmedSuccess))
  }

  predicate Returns(e: Entry, rid: Rid) {
    || (e.Outcome? && e.rid == rid && e.job.Some? && e.verdict == Some(ConfirmedFailure))
    || (e.Outcome? && e.rid == rid && e.job.None? && e.effect == Failed)
    || (e.Reconciled? && e.rid == rid && e.verdict == Some(ConfirmedFailure))
  }

  lemma RecordedVerdict(log: seq<Entry>, rid: Rid)
    requires KeyRuns.LogFits(log)
    ensures StartupVerdict(log, rid) == ConfirmedSuccess <==> exists e <- log :: Spends(e, rid)
    ensures StartupVerdict(log, rid) == ConfirmedFailure <==> exists e <- log :: Returns(e, rid)
  {
    if !IsClosed(log, rid) {
      IntentRuns.UnresolvedUntilClosed(log, rid);
      assert forall e <- log :: !Closes(e, rid);
    } else {
      var e :| e in log && Closes(e, rid);
      var k :| 0 <= k < |log| && log[k] == e;
      KeyRuns.ClosingIs(log, k, rid);
      assert KeyRuns.EntryFits(log, k);
      forall x <- log | Closes(x, rid) ensures x == e {
        var m :| 0 <= m < |log| && log[m] == x;
        KeyRuns.OneClosing(log, k, m, rid);
      }
      assert VerdictOfEntry(e) == ConfirmedSuccess <==> Spends(e, rid);
      assert VerdictOfEntry(e) == ConfirmedFailure <==> Returns(e, rid);
    }
  }

  /** In every reachable state, live or at a start, settling a request that has an intent reserved goes
      by what its closing record says: the intent is spent, or available again, or still reserved, and
      nothing else moves. */
  lemma SettlementGoesByTheRecord(sha: string -> string, b: Book, es: seq<Event>, b': Book, e: Event, rid: Rid)
    requires Fresh(b) && Run(sha, b, es, b') && rid in b'.reserved
    requires (e == SettleLive(rid) || e == SettleAtStart(rid)) && Enabled(sha, b', e)
    ensures var used, after := b'.reserved[rid], Next(sha, b', e);
      if exists r <- b'.log :: Spends(r, rid) then
        && after.spent == b'.spent + multiset{used} && after.reserved == b'.reserved - {rid}
        && after.intents == b'.intents
      else if exists r <- b'.log :: Returns(r, rid) then
        && multiset(after.intents) == multiset(b'.intents) + multiset{used}
        && after.reserved == b'.reserved - {rid} && after.spent == b'.spent
      else after.reserved == b'.reserved && after.intents == b'.intents && after.spent == b'.spent
    ensures !((exists r <- b'.log :: Spends(r, rid)) && (exists r <- b'.log :: Returns(r, rid)))
  {
    KeyRuns.RunKeeps(sha, b, es, b');
    RecordedVerdict(b'.log, rid);
    if e.SettleLive? { assert KeyRuns.FlightOk(b', rid); }
    assert Next(sha, b', e) == Settle(b', rid, StartupVerdict(b'.log, rid));
    IntentRuns.ReturnedMultiset(b'.intents, b'.reserved[rid]);
  }

  // ---- The closing records ----------------------------------------------------------------------------

  /** In every reachable state an outcome is recorded for the job the request was prepared with, with
      the effect and, if there is a path, the verdict that came of it. */
  lemma OutcomeIsRecorded(sha: string -> string, b: Book, es: seq<Event>, b': Book,
                          rid: Rid, effect: Effect, observed: Verdict) returns (i: nat)
    requires Fresh(b) && Run(sha, b, es, b') && Enabled(sha, b', Record(rid, effect, observed))
    ensures KeyRuns.PreparedIn(b'.log, i, rid)
    ensures var job := b'.log[i].job;
      Next(sha, b', Record(rid, effect, observed)).log
        == b'.log + [Outcome(rid, job, effect, if job.Some? then Some(observed) else None)]
  {
    KeyRuns.RunKeeps(sha, b, es, b');
    assert KeyRuns.FlightOk(b', rid);
    i :| KeyRuns.PreparedIn(b'.log, i, rid) && b'.log[i].job == b'.flight[rid].job;
  }

  /** What a start appends: for prepared requests that were open, and for no others, what was seen of
      their paths, and unresolved for those without one. */
  lemma StartAppends(sha: string -> string, b: Book, seen: map<Rid, Verdict>, k: nat) returns (i: nat)
    requires Enabled(sha, b, Start(seen))
    requires |b.log| <= k < |Next(sha, b, Start(seen)).log|
    ensures i < |b.log| && b.log[i].Prepared? && !IsClosed(b.log, b.log[i].rid)
    ensures var rid, job := b.log[i].rid, b.log[i].job;
      Next(sha, b, Start(seen)).log[k]
        == Reconciled(rid, job, Some(if job.Some? && rid in seen then seen[rid] else Unresolved))
  {
    i := KeyRuns.MissingAt(b.log, seen, |b.log|, k - |b.log|);
  }
}
