/** Idempotency keys over whole runs with crashes and restarts. */
module KeyRuns {
  import opened Attest
  import opened Files
  import opened Effects
  import opened Record
  import opened Intents
  import opened Bookkeeping

  // ---- What a log may look like ---------------------------------------------------------------

  predicate PreparedIn(log: seq<Entry>, i: nat, rid: Rid) {
    i < |log| && log[i].Prepared? && log[i].rid == rid
  }

  ghost predicate EntryFits(log: seq<Entry>, k: nat)
    requires k < |log|
  {
    match log[k]
    case Prepared(rid, _, key, _) =>
      && (forall i | 0 <= i < k :: RidOf(log[i]) != Some(rid))
      && (key.Some? ==> forall i | 0 <= i < k && log[i].Prepared? :: log[i].key != key)
    case Outcome(rid, job, _, v) =>
      && (v.Some? <==> job.Some?) && !IsClosed(log[..k], rid)
      && (exists i: nat | i < k :: PreparedIn(log, i, rid) && log[i].job == job)
    case Reconciled(rid, job, v) =>
      && v.Some? && !IsClosed(log[..k], rid)
      && (exists i: nat | i < k :: PreparedIn(log, i, rid) && log[i].job == job)
    case Note(_) => true
  }

  ghost predicate LogFits(log: seq<Entry>) {
    forall k: nat | k < |log| :: EntryFits(log, k)
  }

  lemma Snoc(log: seq<Entry>, e: Entry, rid: Rid)
    ensures (log + [e])[..|log|] == log
    ensures ClosingOf(log + [e], rid) == if Closes(e, rid) then ClosingIn(e) else ClosingOf(log, rid)
    ensures StartupVerdict(log + [e], rid) == if Closes(e, rid) then VerdictOfEntry(e) else StartupVerdict(log, rid)
    ensures IsClosed(log + [e], rid) <==> IsClosed(log, rid) || Closes(e, rid)
  {
    assert (log + [e])[..|log|] == log;
    assert forall x <- log :: x in log + [e];
    assert e in log + [e];
    assert forall x <- log + [e] :: x in log || x == e;
  }

  lemma {:induction false} OpenHasNoClosing(log: seq<Entry>, rid: Rid)
    requires !IsClosed(log, rid)
    ensures ClosingOf(log, rid) == None
  {
    if log != [] {
      assert log == log[..|log| - 1] + [log[|log| - 1]];
      Snoc(log[..|log| - 1], log[|log| - 1], rid);
      OpenHasNoClosing(log[..|log| - 1], rid);
    }
  }

  lemma FitsAppend(log: seq<Entry>, e: Entry)
    requires LogFits(log) && EntryFits(log + [e], |log|)
    ensures LogFits(log + [e])
  {
    var log' := log + [e];
    forall k: nat | k < |log'| ensures EntryFits(log', k) {
      if k < |log| {
        assert EntryFits(log, k);
        assert log'[..k] == log[..k];
        if log[k].Outcome? || log[k].Reconciled? {
          var i: nat :| i < k && PreparedIn(log, i, log[k].rid) && log[i].job == log[k].job;
          assert PreparedIn(log', i, log[k].rid);
        }
      }
    }
  }

  lemma FreshRid(log: seq<Entry>, rid: Rid)
    requires LogFits(log) && rid !in Logged(log)
    ensures forall i | 0 <= i < |log| :: RidOf(log[i]) != Some(rid)
    ensures !IsClosed(log, rid)
  {
    forall i | 0 <= i < |log| ensures RidOf(log[i]) != Some(rid) {
      assert log[i] in log;
    }
  }

  // ---- The key table follows the log ------------------------------------------------------------

  predicate Keyed(log: seq<Entry>, i: nat, k: string) {
    i < |log| && log[i].Prepared? && log[i].key == Some(k)
  }

  /** The table entry for the request prepared at `i`: still open while the request is under
      way, otherwise what the log says. */
  ghost predicate EntryFor(b: Book, i: nat, k: string)
    requires Keyed(b.log, i, k)
  {
    var rid, hash := b.log[i].rid, b.log[i].hash;
    && k in b.keys
    && b.keys[k] == if rid in b.flight then KeyState(rid, hash, InDoubt, None) else KeyFor(b.log, rid, hash)
  }

  ghost predicate KeysOk(b: Book) {
    && (forall i: nat, k | Keyed(b.log, i, k) :: EntryFor(b, i, k))
    && (forall k <- b.keys :: exists i: nat :: Keyed(b.log, i, k))
  }

  ghost predicate FlightOk(b: Book, rid: Rid)
    requires rid in b.flight
  {
    var f := b.flight[rid];
    && (exists i: nat :: PreparedIn(b.log, i, rid) && b.log[i].key == f.key && (f.Executing? ==> b.log[i].job == f.job))
    && (f.Executing? ==> !IsClosed(b.log, rid))
    && (f.Concluded? ==> ClosingOf(b.log, rid) == Some(ByEffect(f.effect)) && StartupVerdict(b.log, rid) == f.verdict)
  }

  /** Every prepared request is under way or closed. */
  ghost predicate NoneForgotten(b: Book) {
    forall i: nat, rid | PreparedIn(b.log, i, rid) :: rid in b.flight || IsClosed(b.log, rid)
  }

  ghost predicate Inv(b: Book) {
    && LogFits(b.log)
    && (b.up ==> KeysOk(b) && NoneForgotten(b))
    && (forall rid <- b.flight :: b.up && FlightOk(b, rid))
  }

  // ---- Steps that append a note or nothing ----------------------------------------------------------

  predicate SameKeys(b: Book, b': Book) {
    b'.keys == b.keys && b'.flight == b.flight && b'.up == b.up
  }

  lemma NoteKeeps(b: Book, b': Book, e: Entry)
    requires Inv(b) && SameKeys(b, b') && e.Note?
    requires b'.log == b.log || b'.log == b.log + [e]
    ensures Inv(b')
  {
    if b'.log == b.log + [e] {
      FitsAppend(b.log, e);
      forall rid: Rid ensures ClosingOf(b'.log, rid) == ClosingOf(b.log, rid)
        ensures StartupVerdict(b'.log, rid) == StartupVerdict(b.log, rid)
        ensures IsClosed(b'.log, rid) == IsClosed(b.log, rid)
      {
        Snoc(b.log, e, rid);
      }
      forall i: nat, k | Keyed(b'.log, i, k) ensures Keyed(b.log, i, k) {}
      if b.up {
        forall i: nat, k | Keyed(b'.log, i, k) ensures EntryFor(b', i, k) { assert EntryFor(b, i, k); }
        forall k <- b'.keys ensures exists i: nat :: Keyed(b'.log, i, k) {
          var i: nat :| Keyed(b.log, i, k);
          assert Keyed(b'.log, i, k);
        }
        forall i: nat, rid | PreparedIn(b'.log, i, rid) ensures rid in b'.flight || IsClosed(b'.log, rid) {
          assert PreparedIn(b.log, i, rid);
        }
      }
    } else if b.up {
      forall i: nat, k | Keyed(b'.log, i, k) ensures EntryFor(b', i, k) { assert EntryFor(b, i, k); }
    }
    forall rid <- b'.flight ensures FlightOk(b', rid) {
      assert FlightOk(b, rid);
      var i: nat :| PreparedIn(b.log, i, rid) && b.log[i].key == b.flight[rid].key
        && (b.flight[rid].Executing? ==> b.log[i].job == b.flight[rid].job);
      assert PreparedIn(b'.log, i, rid);
    }
  }

  // ---- Admission, outcome, key update --------------------------------------------------------------

  lemma UniqueRid(log: seq<Entry>, i: nat, k: nat)
    requires LogFits(log) && i < |log| && k < |log| && log[i].Prepared? && log[k].Prepared?
    requires log[i].rid == log[k].rid
    ensures i == k
  {
    assert EntryFits(log, i) && EntryFits(log, k);
    assert RidOf(log[i]) == RidOf(log[k]);
  }

  lemma PrepareKeeps(b: Book, b': Book, q: Query)
    requires Inv(b) && b.up && q.rid !in Logged(b.log) && q.hash.Some?
    requires q.key.Some? ==> q.key.value !in b.keys
    requires b'.log == Recorded(b, q).log && b'.up && b'.flight == b.flight[q.rid := Executing(q.job, q.key)]
    requires b'.keys == if q.key.None? then b.keys
                        else b.keys[q.key.value := KeyState(q.rid, q.hash.value, InDoubt, None)]
    ensures Inv(b')
  {
    var n := |b.log|;
    var e := b'.log[n];
    PreparedAppend(b, q);
    forall i: nat, k | Keyed(b'.log, i, k) ensures EntryFor(b', i, k) {
      if i < n {
        assert Keyed(b.log, i, k) && EntryFor(b, i, k);
        assert RidOf(b.log[i]) != Some(q.rid);
        Snoc(b.log, e, b.log[i].rid);
      }
    }
    forall k <- b'.keys ensures exists i: nat :: Keyed(b'.log, i, k) {
      if k in b.keys {
        var i: nat :| Keyed(b.log, i, k);
        assert Keyed(b'.log, i, k);
      } else {
        assert Keyed(b'.log, n, k);
      }
    }
    forall i: nat, rid | PreparedIn(b'.log, i, rid) ensures rid in b'.flight || IsClosed(b'.log, rid) {
      if i < n { assert PreparedIn(b.log, i, rid); Snoc(b.log, e, rid); }
    }
    forall rid <- b'.flight ensures FlightOk(b', rid) {
      Snoc(b.log, e, rid);
      if rid == q.rid {
        assert PreparedIn(b'.log, n, rid);
      } else {
        assert FlightOk(b, rid);
        var i: nat :| PreparedIn(b.log, i, rid) && b.log[i].key == b.flight[rid].key
          && (b.flight[rid].Executing? ==> b.log[i].job == b.flight[rid].job);
        assert PreparedIn(b'.log, i, rid);
      }
    }
  }

  /** The prepared record fits: its request id is new, and so is its key. */
  lemma PreparedAppend(b: Book, q: Query)
    requires Inv(b) && b.up && q.rid !in Logged(b.log) && q.hash.Some?
    requires q.key.Some? ==> q.key.value !in b.keys
    ensures LogFits(Recorded(b, q).log)
    ensures !IsClosed(Recorded(b, q).log, q.rid)
    ensures forall i | 0 <= i < |b.log| :: RidOf(b.log[i]) != Some(q.rid)
  {
    var e := Prepared(q.rid, q.job, q.key, q.hash.value);
    FreshRid(b.log, q.rid);
    Snoc(b.log, e, q.rid);
    if q.key.Some? {
      forall i | 0 <= i < |b.log| && b.log[i].Prepared? ensures b.log[i].key != q.key {
        if b.log[i].key.Some? {
          assert Keyed(b.log, i, b.log[i].key.value) && EntryFor(b, i, b.log[i].key.value);
        }
      }
    }
    FitsAppend(b.log, e);
  }

  lemma RecordKeeps(b: Book, rid: Rid, effect: Effect, observed: Verdict)
    requires Inv(b) && b.up && rid in b.flight && b.flight[rid].Executing?
    ensures Inv(RecordOutcome(b, rid, effect, observed))
  {
    var b' := RecordOutcome(b, rid, effect, observed);
    var n := |b.log|;
    var e := b'.log[n];
    assert FlightOk(b, rid);
    var at: nat :| PreparedIn(b.log, at, rid) && b.log[at].key == b.flight[rid].key && b.log[at].job == b.flight[rid].job;
    assert PreparedIn(b'.log, at, rid);
    assert b'.log[..n] == b.log;
    FitsAppend(b.log, e);
    forall i: nat, k | Keyed(b'.log, i, k) ensures EntryFor(b', i, k) {
      assert Keyed(b.log, i, k) && EntryFor(b, i, k);
      Snoc(b.log, e, b.log[i].rid);
    }
    forall k <- b'.keys ensures exists i: nat :: Keyed(b'.log, i, k) {
      var i: nat :| Keyed(b.log, i, k);
      assert Keyed(b'.log, i, k);
    }
    forall i: nat, r | PreparedIn(b'.log, i, r) ensures r in b'.flight || IsClosed(b'.log, r) {
      assert PreparedIn(b.log, i, r);
      Snoc(b.log, e, r);
    }
    forall r <- b'.flight ensures FlightOk(b', r) {
      assert FlightOk(b, r);
      Snoc(b.log, e, r);
      var i: nat :| PreparedIn(b.log, i, r) && b.log[i].key == b.flight[r].key
        && (b.flight[r].Executing? ==> b.log[i].job == b.flight[r].job);
      assert PreparedIn(b'.log, i, r);
    }
  }

  /** At most one request was ever prepared under a key. */
  lemma UniqueKey(log: seq<Entry>, i: nat, n: nat, k: string)
    requires LogFits(log) && Keyed(log, i, k) && Keyed(log, n, k)
    ensures i == n
  {
    assert EntryFits(log, i) && EntryFits(log, n);
    assert log[i].key == log[n].key;
  }

  lemma CloseKeyEntry(b: Book, rid: Rid, i: nat, k: string)
    requires Inv(b) && b.up && rid in b.flight && b.flight[rid].Concluded? && Keyed(b.log, i, k)
    ensures EntryFor(CloseKey(b, rid), i, k)
  {
    assert FlightOk(b, rid) && EntryFor(b, i, k);
    var at: nat :| PreparedIn(b.log, at, rid) && b.log[at].key == b.flight[rid].key;
    if b.log[i].rid == rid {
      UniqueRid(b.log, i, at);
    } else {
      assert i != at;
      if b.log[at].key.Some? {
        assert Keyed(b.log, at, b.log[at].key.value);
        assert b.log[at].key != Some(k) by {
          if b.log[at].key == Some(k) { UniqueKey(b.log, i, at, k); }
        }
      }
    }
  }

  lemma ConcludedIsClosed(b: Book, rid: Rid)
    requires Inv(b) && rid in b.flight && b.flight[rid].Concluded?
    ensures IsClosed(b.log, rid)
  {
    assert FlightOk(b, rid);
    if !IsClosed(b.log, rid) { OpenHasNoClosing(b.log, rid); }
  }

  lemma FlightOkShrinks(b: Book, b': Book, r: Rid)
    requires r in b.flight && FlightOk(b, r)
    requires b'.log == b.log && r in b'.flight && b'.flight[r] == b.flight[r]
    ensures FlightOk(b', r)
  {
  }

  lemma CloseKeeps(b: Book, rid: Rid)
    requires Inv(b) && b.up && rid in b.flight && b.flight[rid].Concluded?
    ensures Inv(CloseKey(b, rid))
  {
    var b' := CloseKey(b, rid);
    assert b'.log == b.log && b'.up;
    assert KeysOk(b') by {
      assert b'.keys.Keys == b.keys.Keys;
      forall i: nat, k | Keyed(b'.log, i, k) ensures EntryFor(b', i, k) {
        CloseKeyEntry(b, rid, i, k);
      }
    }
    assert NoneForgotten(b') by {
      ConcludedIsClosed(b, rid);
      assert NoneForgotten(b);
    }
    forall r <- b'.flight ensures FlightOk(b', r) {
      FlightOkShrinks(b, b', r);
    }
  }

  // ---- Reconciliation at the restart ----------------------------------------------------------------

  lemma {:induction false} MissingAt(log: seq<Entry>, seen: map<Rid, Verdict>, n: nat, m: nat) returns (i: nat)
    requires n <= |log| && m < |Missing(log, seen, n)|
    ensures i < n && log[i].Prepared? && !IsClosed(log, log[i].rid) && |Missing(log, seen, i)| == m
    ensures var rid, job := log[i].rid, log[i].job;
      Missing(log, seen, n)[m]
        == Reconciled(rid, job, Some(if job.Some? && rid in seen then seen[rid] else Unresolved))
  {
    if m < |Missing(log, seen, n - 1)| {
      i := MissingAt(log, seen, n - 1, m);
    } else {
      i := n - 1;
    }
  }

  lemma {:induction false} MissingComplete(log: seq<Entry>, seen: map<Rid, Verdict>, n: nat, i: nat)
    requires i < n <= |log| && log[i].Prepared? && !IsClosed(log, log[i].rid)
    ensures exists e <- Missing(log, seen, n) :: Closes(e, log[i].rid)
  {
    var tail := Missing(log, seen, n);
    if i == n - 1 {
      assert Closes(tail[|tail| - 1], log[i].rid);
    } else {
      MissingComplete(log, seen, n - 1, i);
      var e :| e in Missing(log, seen, n - 1) && Closes(e, log[i].rid);
      assert e in tail;
    }
  }

  /** Reconciliation, cut short anywhere, keeps the log well-formed. */
  lemma {:induction false} MissingFits(log: seq<Entry>, seen: map<Rid, Verdict>, m: nat)
    requires LogFits(log) && m <= |Missing(log, seen, |log|)|
    ensures LogFits(log + Missing(log, seen, |log|)[..m])
    ensures forall rid ::
      IsClosed(log + Missing(log, seen, |log|)[..m], rid)
      <==> IsClosed(log, rid) || exists e <- Missing(log, seen, |log|)[..m] :: Closes(e, rid)
  {
    var tail := Missing(log, seen, |log|);
    if m == 0 {
      assert log + tail[..0] == log;
    } else {
      MissingFits(log, seen, m - 1);
      var front, e := log + tail[..m - 1], tail[m - 1];
      assert log + tail[..m] == front + [e];
      assert tail[..m] == tail[..m - 1] + [e];
      var i := MissingAt(log, seen, |log|, m - 1);
      assert !IsClosed(front, e.rid) by {
        forall x <- tail[..m - 1] ensures !Closes(x, e.rid) {
          var k :| 0 <= k < m - 1 && tail[k] == x;
          var i' := MissingAt(log, seen, |log|, k);
          if x.rid == e.rid { UniqueRid(log, i, i'); }
        }
      }
      assert PreparedIn(front + [e], i, e.rid);
      assert (front + [e])[..|front|] == front;
      FitsAppend(front, e);
      forall rid: Rid ensures IsClosed(front + [e], rid) <==> IsClosed(front, rid) || Closes(e, rid) {
        Snoc(front, e, rid);
      }
    }
  }

  lemma KeysFromLog(log: seq<Entry>, n: nat)
    requires LogFits(log) && n <= |log|
    ensures forall i: nat, k | i < n && Keyed(log, i, k) ::
      k in KeysFrom(log, n) && KeysFrom(log, n)[k] == KeyFor(log, log[i].rid, log[i].hash)
    ensures forall k <- KeysFrom(log, n) :: exists i: nat | i < n :: Keyed(log, i, k)
  {
    if n != 0 {
      KeysFromLog(log, n - 1);
      var e := log[n - 1];
      forall i: nat, k | i < n && Keyed(log, i, k)
        ensures k in KeysFrom(log, n) && KeysFrom(log, n)[k] == KeyFor(log, log[i].rid, log[i].hash)
      {
        if e.Prepared? && e.key == Some(k) {
          assert Keyed(log, n - 1, k);
          UniqueKey(log, i, n - 1, k);
        }
      }
      forall k <- KeysFrom(log, n) ensures exists i: nat | i < n :: Keyed(log, i, k) {
        if e.Prepared? && e.key == Some(k) {
          assert Keyed(log, n - 1, k);
        } else {
          assert k in KeysFrom(log, n - 1);
          var i: nat :| i < n - 1 && Keyed(log, i, k);
          assert i < n && Keyed(log, i, k);
        }
      }
    }
  }

  /** After reconciliation every prepared request is closed. */
  lemma ReconciledIsClosed(log: seq<Entry>, seen: map<Rid, Verdict>, i: nat, rid: Rid)
    requires LogFits(log) && PreparedIn(ReconciledLog(log, seen), i, rid)
    ensures LogFits(ReconciledLog(log, seen)) && IsClosed(ReconciledLog(log, seen), rid)
  {
    var tail := Missing(log, seen, |log|);
    assert tail[..|tail|] == tail;
    MissingFits(log, seen, |tail|);
    if i < |log| {
      if !IsClosed(log, rid) { MissingComplete(log, seen, |log|, i); }
    } else {
      var _ := MissingAt(log, seen, |log|, i - |log|);
    }
  }

  lemma StartKeeps(b: Book, seen: map<Rid, Verdict>)
    requires Inv(b) && !b.up
    ensures Inv(Started(b, seen))
  {
    var b' := Started(b, seen);
    var tail := Missing(b.log, seen, |b.log|);
    assert tail[..|tail|] == tail;
    MissingFits(b.log, seen, |tail|);
    KeysFromLog(b'.log, |b'.log|);
    forall i: nat, rid | PreparedIn(b'.log, i, rid) ensures IsClosed(b'.log, rid) {
      ReconciledIsClosed(b.log, seen, i, rid);
    }
  }

  // ---- Every event -----------------------------------------------------------------------------------

  lemma RefreshTouchesNoKeys(b: Book)
    ensures SameKeys(b, Refresh(b).0) && Refresh(b).0.log == b.log
  {
    if b.frozen || b.file != b.written {
    } else if Unrevoked(b.intents, b.revocations) == b.intents {
    } else {
    }
  }

  lemma DecideTouchesNoKeys(sha: string -> string, b: Book, q: Query)
    ensures var d := Decide(sha, b, q); SameKeys(b, d.book) && d.book.log == b.log
    ensures Decide(sha, b, q).admit ==> q.hash.Some?
  {
    RefreshTouchesNoKeys(b);
  }

  lemma SettleTouchesNoKeys(b: Book, rid: Rid, v: Verdict)
    ensures SameKeys(b, Settle(b, rid, v))
    ensures Settle(b, rid, v).log in {b.log, b.log + [Note(Some(rid))]}
  {
  }

  lemma SettleKeeps(b: Book, rid: Rid, v: Verdict)
    requires Inv(b)
    ensures Inv(Settle(b, rid, v))
  {
    SettleTouchesNoKeys(b, rid, v);
    NoteKeeps(b, Settle(b, rid, v), Note(Some(rid)));
  }

  lemma TornKeeps(sha: string -> string, b: Book, q: Query)
    requires Inv(b) && Enabled(sha, b, Torn(q))
    ensures Inv(Next(sha, b, Torn(q)))
  {
    DecideTouchesNoKeys(sha, b, q);
    var d := Decide(sha, b, q).book;
    NoteKeeps(b, d, Note(None));
    PreparedAppend(d, q);
    assert Next(sha, b, Torn(q)).log == Recorded(d, q).log;
  }

  lemma AskKeeps(sha: string -> string, b: Book, q: Query)
    requires Inv(b) && Enabled(sha, b, Ask(q))
    ensures Inv(Admit(sha, b, q).0)
  {
    DecideTouchesNoKeys(sha, b, q);
    var d := Decide(sha, b, q).book;
    NoteKeeps(b, d, Note(None));
    var b' := Admit(sha, b, q).0;
    if !Admits(sha, b, q) {
      assert b' == Noting(d, q.rid);
      NoteKeeps(b, b', Note(Some(q.rid)));
    } else if Decide(sha, b, q).matched.None? {
      assert b' == Underway(d, q);
      PrepareKeeps(d, b', q);
    } else {
      assert b' == Persisted(Reserving(Underway(d, q), q.rid, Decide(sha, b, q).matched.value));
      PrepareKeeps(d, b', q);
    }
  }

  lemma NextKeeps(sha: string -> string, b: Book, e: Event)
    requires Inv(b) && Enabled(sha, b, e)
    ensures Inv(Next(sha, b, e))
  {
    match e {
      case Ask(q) => AskKeeps(sha, b, q);
      case Cut(q) =>
        DecideTouchesNoKeys(sha, b, q);
        assert Next(sha, b, e).log == b.log;
      case Torn(q) => TornKeeps(sha, b, q);
      case Record(rid, effect, observed) => RecordKeeps(b, rid, effect, observed);
      case SettleLive(rid) => SettleKeeps(b, rid, b.flight[rid].verdict);
      case SettleAtStart(rid) => SettleKeeps(b, rid, StartupVerdict(b.log, rid));
      case Close(rid) => CloseKeeps(b, rid);
      case Remark(about) => NoteKeeps(b, Next(sha, b, e), Note(about));
      case Revoke(_) => NoteKeeps(b, Next(sha, b, e), Note(None));
      case Edit(_) => NoteKeeps(b, Next(sha, b, e), Note(None));
      case Crash => assert Next(sha, b, e).log == b.log;
      case HalfReconcile(seen, n) => MissingFits(b.log, seen, n);
      case Start(seen) => StartKeeps(b, seen);
    }
  }

  lemma {:induction false} RunKeeps(sha: string -> string, b: Book, es: seq<Event>, b': Book)
    requires (Fresh(b) || Inv(b)) && Run(sha, b, es, b')
    ensures Inv(b')
  {
    if es != [] {
      var front, e := es[..|es| - 1], es[|es| - 1];
      var t :| Run(sha, b, front, t) && Follows(sha, t, e, b');
      RunKeeps(sha, b, front, t);
      NextKeeps(sha, t, e);
    }
  }

  // ---- What every run guarantees ------------------------------------------------------------------------

  /** At most once: over any run with crashes and restarts, at most one request is ever prepared,
      and so at most one executed, under a key. */
  lemma AtMostOnce(sha: string -> string, b: Book, es: seq<Event>, b': Book, k: string, i: nat, n: nat)
    requires Fresh(b) && Run(sha, b, es, b')
    requires Keyed(b'.log, i, k) && Keyed(b'.log, n, k)
    ensures i == n
  {
    RunKeeps(sha, b, es, b');
    UniqueKey(b'.log, i, n, k);
  }

  lemma {:induction false} TailUnchanged(log: seq<Entry>, tail: seq<Entry>, rid: Rid)
    requires forall e <- tail :: !Closes(e, rid)
    ensures ClosingOf(log + tail, rid) == ClosingOf(log, rid)
    ensures StartupVerdict(log + tail, rid) == StartupVerdict(log, rid)
  {
    if tail == [] {
      assert log + tail == log;
    } else {
      var front, e := tail[..|tail| - 1], tail[|tail| - 1];
      TailUnchanged(log, front, rid);
      assert log + tail == (log + front) + [e];
      Snoc(log + front, e, rid);
    }
  }

  /** Reconciliation never touches a request that has an outcome. */
  lemma ReconciliationKeepsOutcomes(log: seq<Entry>, seen: map<Rid, Verdict>, rid: Rid)
    requires IsClosed(log, rid)
    ensures ClosingOf(ReconciledLog(log, seen), rid) == ClosingOf(log, rid)
    ensures StartupVerdict(ReconciledLog(log, seen), rid) == StartupVerdict(log, rid)
  {
    var tail := Missing(log, seen, |log|);
    forall e <- tail ensures !Closes(e, rid) {
      var m :| 0 <= m < |tail| && tail[m] == e;
      var i := MissingAt(log, seen, |log|, m);
    }
    TailUnchanged(log, tail, rid);
  }

  lemma RestartedKey(b: Book, seen: map<Rid, Verdict>, i: nat, k: string)
    requires LogFits(b.log) && Keyed(b.log, i, k)
    ensures var after := Started(Crashed(b), seen);
      k in after.keys && after.keys[k] == KeyFor(ReconciledLog(b.log, seen), b.log[i].rid, b.log[i].hash)
  {
    var log' := ReconciledLog(b.log, seen);
    var tail := Missing(b.log, seen, |b.log|);
    assert tail[..|tail|] == tail;
    MissingFits(b.log, seen, |tail|);
    KeysFromLog(log', |log'|);
    assert Keyed(log', i, k);
  }

  lemma RebuiltAtRest(b: Book, seen: map<Rid, Verdict>, i: nat, k: string)
    requires Inv(b) && b.up && Keyed(b.log, i, k) && b.log[i].rid !in b.flight
    ensures k in Started(Crashed(b), seen).keys && Started(Crashed(b), seen).keys[k] == b.keys[k]
  {
    assert EntryFor(b, i, k) && PreparedIn(b.log, i, b.log[i].rid);
    RestartedKey(b, seen, i, k);
    ReconciliationKeepsOutcomes(b.log, seen, b.log[i].rid);
  }

  lemma RebuiltInFlight(b: Book, seen: map<Rid, Verdict>, i: nat, k: string)
    requires Inv(b) && b.up && Keyed(b.log, i, k) && b.log[i].rid in b.flight && b.flight[b.log[i].rid].Concluded?
    ensures k in CloseKey(b, b.log[i].rid).keys && k in Started(Crashed(b), seen).keys
    ensures Started(Crashed(b), seen).keys[k] == CloseKey(b, b.log[i].rid).keys[k]
  {
    var rid := b.log[i].rid;
    ConcludedIsClosed(b, rid);
    RestartedKey(b, seen, i, k);
    ReconciliationKeepsOutcomes(b.log, seen, rid);
    CloseKeyEntry(b, rid, i, k);
  }

  /** A crash and restart rebuild the key state the live broker has, or was about to have, for
      every request whose outcome is recorded. */
  lemma RestartRebuildsKeys(sha: string -> string, b: Book, es: seq<Event>, b': Book, seen: map<Rid, Verdict>, k: string)
    requires Fresh(b) && Run(sha, b, es, b') && b'.up && k in b'.keys
    ensures k in Started(Crashed(b'), seen).keys
    ensures var rid, after := b'.keys[k].rid, Started(Crashed(b'), seen);
      && (rid !in b'.flight ==> after.keys[k] == b'.keys[k])
      && (rid in b'.flight && b'.flight[rid].Concluded? ==>
            k in CloseKey(b', rid).keys && after.keys[k] == CloseKey(b', rid).keys[k])
  {
    RunKeeps(sha, b, es, b');
    var i: nat :| Keyed(b'.log, i, k);
    assert EntryFor(b', i, k);
    RestartedKey(b', seen, i, k);
    var rid := b'.log[i].rid;
    if rid !in b'.flight {
      RebuiltAtRest(b', seen, i, k);
    } else if b'.flight[rid].Concluded? {
      RebuiltInFlight(b', seen, i, k);
    }
  }

  lemma AdmittedAppends(sha: string -> string, b: Book, q: Query)
    requires Admits(sha, b, q)
    ensures Admit(sha, b, q).0.log == b.log + [Prepared(q.rid, q.job, q.key, q.hash.value)]
  {
    DecideTouchesNoKeys(sha, b, q);
    var d := Decide(sha, b, q);
    if d.matched.None? {
      assert Admit(sha, b, q).0 == Underway(d.book, q);
    } else {
      assert Admit(sha, b, q).0 == Persisted(Reserving(Underway(d.book, q), q.rid, d.matched.value));
    }
  }

  lemma RefusedAppends(sha: string -> string, b: Book, q: Query)
    requires !Admits(sha, b, q)
    ensures Admit(sha, b, q).0.log == b.log + [Note(Some(q.rid))]
  {
    DecideTouchesNoKeys(sha, b, q);
    var d := Decide(sha, b, q);
    if q.key.Some? && q.key.value in d.book.keys {
      assert Admit(sha, b, q).0 == Noting(d.book, q.rid);
    } else {
      assert Admit(sha, b, q).0 == Noting(d.book, q.rid);
    }
  }

  lemma NextOnlyAppends(sha: string -> string, b: Book, e: Event)
    requires Enabled(sha, b, e)
    ensures b.log <= Next(sha, b, e).log
  {
    match e {
      case Ask(q) => if Admits(sha, b, q) { AdmittedAppends(sha, b, q); } else { RefusedAppends(sha, b, q); }
      case Cut(q) => DecideTouchesNoKeys(sha, b, q);
      case Torn(q) =>
        DecideTouchesNoKeys(sha, b, q);
        assert Next(sha, b, e).log == Recorded(Decide(sha, b, q).book, q).log;
      case SettleLive(rid) => SettleTouchesNoKeys(b, rid, b.flight[rid].verdict);
      case SettleAtStart(rid) => SettleTouchesNoKeys(b, rid, StartupVerdict(b.log, rid));
      case _ =>
    }
  }

  lemma {:induction false} LogOnlyGrows(sha: string -> string, b: Book, es: seq<Event>, b': Book)
    requires Run(sha, b, es, b')
    ensures b.log <= b'.log
  {
    if es != [] {
      var front, e := es[..|es| - 1], es[|es| - 1];
      var t :| Run(sha, b, front, t) && Follows(sha, t, e, b');
      LogOnlyGrows(sha, b, front, t);
      NextOnlyAppends(sha, t, e);
    }
  }

  /** A well-formed log has only one closing record for a request. */
  lemma ClosedOnce(log: seq<Entry>, more: seq<Entry>, rid: Rid)
    requires log <= more && LogFits(more) && IsClosed(log, rid)
    ensures ClosingOf(more, rid) == ClosingOf(log, rid) && StartupVerdict(more, rid) == StartupVerdict(log, rid)
  {
    var tail := more[|log|..];
    assert more == log + tail;
    forall e <- tail ensures !Closes(e, rid) {
      var k :| |log| <= k < |more| && more[k] == e;
      assert EntryFits(more, k);
      var x :| x in log && Closes(x, rid);
      assert x in more[..k];
    }
    TailUnchanged(log, tail, rid);
  }

  /** What the one closing record of a request says is what the log says. */
  lemma ClosingIs(log: seq<Entry>, k: nat, rid: Rid)
    requires LogFits(log) && k < |log| && Closes(log[k], rid)
    ensures ClosingOf(log, rid) == ClosingIn(log[k]) && StartupVerdict(log, rid) == VerdictOfEntry(log[k])
  {
    var upto := log[..k + 1];
    assert upto == log[..k] + [log[k]] && log == upto + log[k + 1..];
    assert log[k] in upto;
    Snoc(log[..k], log[k], rid);
    ClosedOnce(upto, log, rid);
  }

  /** The record says that the request's effect took place. */
  predicate SaysDone(e: Entry, rid: Rid) {
    || (e.Outcome? && e.rid == rid && e.effect == Succeeded)
    || (e.Reconciled? && e.rid == rid && e.verdict == Some(ConfirmedSuccess))
  }

  /** The record says that it did not. */
  predicate SaysUndone(e: Entry, rid: Rid) {
    || (e.Outcome? && e.rid == rid && e.effect == Failed)
    || (e.Reconciled? && e.rid == rid && e.verdict == Some(ConfirmedFailure))
  }

  predicate DoneIn(log: seq<Entry>, rid: Rid) {
    exists e <- log :: SaysDone(e, rid)
  }

  predicate UndoneIn(log: seq<Entry>, rid: Rid) {
    exists e <- log :: SaysUndone(e, rid)
  }

  lemma PhaseIs(log: seq<Entry>, rid: Rid)
    requires LogFits(log)
    ensures PhaseOf(ClosingOf(log, rid)) == Phase.Applied <==> DoneIn(log, rid)
    ensures PhaseOf(ClosingOf(log, rid)) == NotApplied <==> UndoneIn(log, rid)
  {
    if !IsClosed(log, rid) {
      OpenHasNoClosing(log, rid);
      assert forall e <- log :: !Closes(e, rid);
    } else {
      var e :| e in log && Closes(e, rid);
      var k :| 0 <= k < |log| && log[k] == e;
      ClosingIs(log, k, rid);
      forall x <- log | Closes(x, rid) ensures x == e {
        var m :| 0 <= m < |log| && log[m] == x;
        OneClosing(log, k, m, rid);
      }
    }
  }

  lemma OneClosing(log: seq<Entry>, k: nat, m: nat, rid: Rid)
    requires LogFits(log) && k < |log| && m < |log| && Closes(log[k], rid) && Closes(log[m], rid)
    ensures k == m
  {
    if k < m { ClosedBefore(log, k, m, rid); }
    if m < k { ClosedBefore(log, m, k, rid); }
    assert EntryFits(log, k) && EntryFits(log, m);
  }

  lemma ClosedBefore(log: seq<Entry>, k: nat, m: nat, rid: Rid)
    requires k < m < |log| && Closes(log[k], rid)
    ensures IsClosed(log[..m], rid)
  {
    assert log[..m][k] == log[k] && log[..m][k] in log[..m];
  }

  /** The request prepared under a key, and what the key table has for it. */
  lemma KeyIs(b: Book, i: nat, key: string)
    requires Inv(b) && b.up && Keyed(b.log, i, key)
    ensures key in b.keys && b.keys[key].rid == b.log[i].rid && b.keys[key].hash == b.log[i].hash
    ensures b.log[i].rid in b.flight ==> b.keys[key].phase == InDoubt
    ensures b.log[i].rid !in b.flight ==> b.keys[key].phase == PhaseOf(ClosingOf(b.log, b.log[i].rid))
  {
    assert EntryFor(b, i, key);
  }

  /** What a proposal under a used key is answered: by the log, and nothing but the log and the
      requests under way. Request `i` is the one prepared under the key. */
  lemma DuplicatesAreAnswered(sha: string -> string, b: Book, es: seq<Event>, b': Book, q: Query, i: nat)
    requires Fresh(b) && Run(sha, b, es, b') && Enabled(sha, b', Ask(q))
    requires q.key.Some? && Keyed(b'.log, i, q.key.value)
    ensures var reply, rid := Admit(sha, b', q).1, b'.log[i].rid;
      var same, over := q.hash == Some(b'.log[i].hash), rid !in b'.flight;
      && (reply == OtherInvocation <==> !same)
      && (reply == AlreadyApplied(rid) <==> same && over && DoneIn(b'.log, rid))
      && (reply == EarlierFailed <==> same && over && UndoneIn(b'.log, rid))
      && (reply == StillInDoubt <==> same && (over ==> !DoneIn(b'.log, rid) && !UndoneIn(b'.log, rid)))
    ensures Admit(sha, b', q).0.log == b'.log + [Note(Some(q.rid))] && Admit(sha, b', q).0.flight == b'.flight
    ensures Admit(sha, b', q).0.keys == b'.keys
  {
    RunKeeps(sha, b, es, b');
    DecideTouchesNoKeys(sha, b', q);
    KeyIs(b', i, q.key.value);
    PhaseIs(b'.log, b'.log[i].rid);
    var d := Decide(sha, b', q);
    assert Admit(sha, b', q) == (Noting(d.book, q.rid), Duplicate(d.book.keys[q.key.value], q.hash));
  }

  /** `original` was prepared under the key for this very invocation, is over, and its effect took
      place or was confirmed. */
  ghost predicate WasApplied(b: Book, key: string, hash: string, original: Rid) {
    exists i: nat :: Keyed(b.log, i, key) && b.log[i].rid == original && b.log[i].hash == hash
      && original !in b.flight && DoneIn(b.log, original)
  }

  /** "Already applied" is answered exactly when it is true, and answering performs nothing. */
  lemma AlreadyAppliedIffApplied(sha: string -> string, b: Book, es: seq<Event>, b': Book, q: Query, original: Rid)
    requires Fresh(b) && Run(sha, b, es, b') && Enabled(sha, b', Ask(q))
    ensures Admit(sha, b', q).1 == AlreadyApplied(original)
       <==> q.key.Some? && q.hash.Some? && WasApplied(b', q.key.value, q.hash.value, original)
    ensures Admit(sha, b', q).1 == AlreadyApplied(original) ==>
      Admit(sha, b', q).0.log == b'.log + [Note(Some(q.rid))] && Admit(sha, b', q).0.flight == b'.flight
  {
    RunKeeps(sha, b, es, b');
    if q.key.Some? && exists i: nat :: Keyed(b'.log, i, q.key.value) {
      var i: nat :| Keyed(b'.log, i, q.key.value);
      DuplicatesAreAnswered(sha, b, es, b', q, i);
      KeyIs(b', i, q.key.value);
      forall n: nat | Keyed(b'.log, n, q.key.value) ensures n == i {
        UniqueKey(b'.log, i, n, q.key.value);
      }
      OnlyItsOwn(sha, b', q);
    } else {
      FreeKeysGetNoDuplicates(sha, b', q);
    }
  }

  /** No other request is ever named. */
  lemma OnlyItsOwn(sha: string -> string, b: Book, q: Query)
    requires q.key.Some? && q.key.value in b.keys
    ensures Admit(sha, b, q).1.AlreadyApplied? ==> Admit(sha, b, q).1.original == b.keys[q.key.value].rid
  {
    DecideTouchesNoKeys(sha, b, q);
  }

  lemma FreeKeysGetNoDuplicates(sha: string -> string, b: Book, q: Query)
    requires Inv(b) && b.up && (q.key.Some? ==> forall i: nat :: !Keyed(b.log, i, q.key.value))
    ensures q.key.Some? ==> q.key.value !in b.keys
    ensures Admit(sha, b, q).1.Admitted? || Admit(sha, b, q).1 == Rejected
  {
    DecideTouchesNoKeys(sha, b, q);
    assert forall k <- b.keys :: exists i: nat :: Keyed(b.log, i, k);
  }

  /** Once the outcome is recorded, a restart settles by the very verdict the live broker settles
      by: at once or any number of crashes and restarts later, and whether the live settlement
      came about, was cut short, or left the intent reserved. */
  lemma StartupSettlesLikeLive(sha: string -> string, b: Book, es: seq<Event>, b': Book, rid: Rid,
                               later: seq<Event>, b'': Book)
    requires Fresh(b) && Run(sha, b, es, b') && rid in b'.flight && b'.flight[rid].Concluded?
    requires Run(sha, b', later, b'')
    ensures StartupVerdict(b''.log, rid) == b'.flight[rid].verdict
  {
    RunKeeps(sha, b, es, b');
    RunKeeps(sha, b', later, b'');
    LogOnlyGrows(sha, b', later, b'');
    assert FlightOk(b', rid);
    ConcludedIsClosed(b', rid);
    ClosedOnce(b'.log, b''.log, rid);
  }

  lemma {:induction false} NothingMissing(log: seq<Entry>, seen: map<Rid, Verdict>, n: nat)
    requires n <= |log|
    requires forall i: nat, rid | PreparedIn(log, i, rid) :: IsClosed(log, rid)
    ensures Missing(log, seen, n) == []
  {
    if n != 0 {
      NothingMissing(log, seen, n - 1);
      if log[n - 1].Prepared? { assert PreparedIn(log, n - 1, log[n - 1].rid); }
    }
  }

  /** After a restart every prepared request is closed, and a second restart appends no record
      and rebuilds the same keys. */
  lemma SecondRestartIsIdle(sha: string -> string, b: Book, es: seq<Event>, b': Book,
                            seen: map<Rid, Verdict>, again: map<Rid, Verdict>)
    requires Fresh(b) && Run(sha, b, es, b') && !b'.up
    ensures var s := Started(b', seen);
      && (forall i: nat, rid | PreparedIn(s.log, i, rid) :: IsClosed(s.log, rid))
      && Started(Crashed(s), again).log == s.log
      && Started(Crashed(s), again).keys == s.keys
  {
    RunKeeps(sha, b, es, b');
    var s := Started(b', seen);
    forall i: nat, rid | PreparedIn(s.log, i, rid) ensures IsClosed(s.log, rid) {
      ReconciledIsClosed(b'.log, seen, i, rid);
    }
    NothingMissing(s.log, again, |s.log|);
    assert ReconciledLog(s.log, again) == s.log;
  }
}
