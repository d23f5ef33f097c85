/** Intents over whole runs: conservation, order, revocation and the freeze. */
module IntentRuns {
  import opened Attest
  import opened Files
  import opened Effects
  import opened Record
  import opened Intents
  import opened Bookkeeping
  import KeyRuns

  // ---- Conservation ----------------------------------------------------------------------------

  function Holders(reserved: map<Rid, Intent>, i: Intent): set<Rid> {
    set r | r in reserved && reserved[r] == i
  }

  lemma HoldersAdd(m: map<Rid, Intent>, r: Rid, i: Intent)
    requires r !in m
    ensures |Holders(m[r := i], i)| == |Holders(m, i)| + 1
    ensures forall k | k != i :: Holders(m[r := i], k) == Holders(m, k)
  {
    assert Holders(m[r := i], i) == Holders(m, i) + {r};
    forall k | k != i ensures Holders(m[r := i], k) == Holders(m, k) {}
  }

  lemma HoldersRemove(m: map<Rid, Intent>, r: Rid)
    requires r in m
    ensures |Holders(m - {r}, m[r])| + 1 == |Holders(m, m[r])|
    ensures forall k | k != m[r] :: Holders(m - {r}, k) == Holders(m, k)
  {
    HoldersAdd(m - {r}, r, m[r]);
    assert (m - {r})[r := m[r]] == m;
  }

  /** The available, reserved, spent and revoked intents are the initial ones. */
  ghost predicate Balanced(available: seq<Intent>, reserved: map<Rid, Intent>, b: Book, initial: multiset<Intent>) {
    forall i :: multiset(available)[i] + |Holders(reserved, i)| + b.spent[i] + b.revoked[i] == initial[i]
  }

  /** Memory and disk agree while the broker is up. */
  ghost predicate Synced(b: Book) {
    && b.file == b.written && !b.frozen
    && b.intents == Order(b.file) && b.reserved == b.reservedFile
  }

  ghost predicate Inv(b: Book, initial: multiset<Intent>) {
    && Balanced(b.file, b.reservedFile, b, initial)
    && (b.up ==> Synced(b))
    && b.reservedFile.Keys <= Logged(b.log)
  }

  /** The second half of a persisted change: what is written is what is in memory. */
  lemma PersistedSynced(b: Book)
    requires Ordered(b.intents) && !b.frozen
    ensures Synced(Persisted(b))
  {
    OrderSorts(b.intents);
  }

  lemma RefreshBalances(b: Book, initial: multiset<Intent>)
    requires Inv(b, initial) && b.up
    ensures var r := Refresh(b);
      && Inv(r.0, initial) && r.0.up && !r.1 && r.0.log == b.log
      && r.0.intents == Unrevoked(b.intents, b.revocations) && r.0.reserved == b.reserved
  {
    OrderSorts(b.file);
    var left := Unrevoked(b.intents, b.revocations);
    UnrevokedIs(b.intents, b.revocations);
    if left != b.intents {
      var b' := Persisted(Purged(b));
      PersistedSynced(Purged(b));
      forall i ensures multiset(b'.file)[i] + |Holders(b'.reservedFile, i)| + b'.spent[i] + b'.revoked[i] == initial[i] {
        assert multiset(left)[i] <= multiset(b.intents)[i];
      }
    }
  }

  lemma ReserveBalances(b: Book, b': Book, rid: Rid, used: Intent, initial: multiset<Intent>)
    requires Inv(b, initial) && b.up && used in b.intents && rid !in Logged(b.log)
    requires b'.intents == RemoveFirst(b.intents, used) && b'.reserved == b.reserved[rid := used]
    requires b'.up && !b'.frozen && b'.spent == b.spent && b'.revoked == b.revoked
    requires Logged(b'.log) == Logged(b.log) + {rid}
    ensures Inv(Persisted(b'), initial)
  {
    OrderSorts(b.file);
    RemoveKeeps(b.intents, used);
    PersistedSynced(b');
    HoldersAdd(b.reserved, rid, used);
    forall i ensures multiset(b'.intents)[i] + |Holders(b'.reserved, i)| + b'.spent[i] + b'.revoked[i] == initial[i] {
      assert multiset(b.file)[i] + |Holders(b.reservedFile, i)| + b.spent[i] + b.revoked[i] == initial[i];
      assert multiset(b'.intents)[i] + multiset{used}[i] == multiset(b.intents)[i];
    }
  }

  lemma SpendBalances(b: Book, b': Book, rid: Rid, initial: multiset<Intent>)
    requires Inv(b, initial) && b.up && rid in b.reserved
    requires b'.intents == b.intents && b'.reserved == b.reserved - {rid}
    requires b'.up && !b'.frozen && b'.spent == b.spent + multiset{b.reserved[rid]} && b'.revoked == b.revoked
    requires Logged(b'.log) == Logged(b.log) + {rid}
    ensures Inv(Persisted(b'), initial)
  {
    OrderSorts(b.file);
    PersistedSynced(b');
    HoldersRemove(b.reserved, rid);
    forall i ensures multiset(b'.intents)[i] + |Holders(b'.reserved, i)| + b'.spent[i] + b'.revoked[i] == initial[i] {
      assert multiset(b.file)[i] + |Holders(b.reservedFile, i)| + b.spent[i] + b.revoked[i] == initial[i];
    }
  }

  lemma ReturnBalances(b: Book, b': Book, rid: Rid, initial: multiset<Intent>)
    requires Inv(b, initial) && b.up && rid in b.reserved
    requires Ordered(b'.intents) && multiset(b'.intents) == multiset(b.file) + multiset{b.reserved[rid]}
    requires b'.reserved == b.reserved - {rid}
    requires b'.up && !b'.frozen && b'.spent == b.spent && b'.revoked == b.revoked
    requires Logged(b'.log) == Logged(b.log) + {rid}
    ensures Inv(Persisted(b'), initial)
  {
    var used := b.reserved[rid];
    PersistedSynced(b');
    HoldersRemove(b.reserved, rid);
    assert b.reserved == b.reservedFile;
    forall i ensures multiset(b'.intents)[i] + |Holders(b'.reserved, i)| + b'.spent[i] + b'.revoked[i] == initial[i] {
      assert multiset(b.file)[i] + |Holders(b.reservedFile, i)| + b.spent[i] + b.revoked[i] == initial[i];
      assert multiset(b'.intents)[i] == multiset(b.file)[i] + if i == used then 1 else 0;
      if i != used { assert Holders(b'.reserved, i) == Holders(b.reserved, i); }
    }
    assert Balanced(Persisted(b').file, Persisted(b').reservedFile, Persisted(b'), initial);
  }

  lemma ReturnedIntents(b: Book, used: Intent)
    requires b.intents == Order(b.file)
    ensures Ordered(Order(b.intents + [used]))
    ensures multiset(Order(b.intents + [used])) == multiset(b.file) + multiset{used}
  {
    OrderSorts(b.file);
    OrderSorts(b.intents + [used]);
    assert multiset(b.intents + [used]) == multiset(b.intents) + multiset{used};
  }

  /** Settling moves exactly one intent: to the spent ones or back to the available ones. */
  lemma SettleBalances(b: Book, rid: Rid, v: Verdict, initial: multiset<Intent>)
    requires Inv(b, initial) && b.up
    ensures Inv(Settle(b, rid, v), initial)
  {
    if rid in b.reserved {
      LoggedSnoc(b.log, Note(Some(rid)));
      var used, noted := b.reserved[rid], Noting(b, rid);
      match v {
        case ConfirmedSuccess =>
          SpendBalances(b, noted.(reserved := b.reserved - {rid}, spent := b.spent + multiset{used}), rid, initial);
        case ConfirmedFailure =>
          ReturnedIntents(b, used);
          ReturnBalances(b, noted.(reserved := b.reserved - {rid}, intents := Order(b.intents + [used])), rid, initial);
        case Unresolved =>
      }
    }
  }

  lemma DecideBalances(sha: string -> string, b: Book, q: Query, initial: multiset<Intent>)
    requires Inv(b, initial) && b.up
    ensures var d := Decide(sha, b, q);
      && Inv(d.book, initial) && d.book.up && d.book.log == b.log
      && (d.matched.Some? ==> d.matched.value in d.book.intents)
  {
    if q.hash.Some? && b.gated { RefreshBalances(b, initial); }
  }

  lemma UnderwayBalances(b: Book, q: Query, initial: multiset<Intent>)
    requires Inv(b, initial) && b.up && q.rid !in Logged(b.log) && q.hash.Some?
    ensures Inv(Underway(b, q), initial)
    ensures forall used <- b.intents :: Inv(Persisted(Reserving(Underway(b, q), q.rid, used)), initial)
  {
    LoggedSnoc(b.log, Prepared(q.rid, q.job, q.key, q.hash.value));
    forall used <- b.intents ensures Inv(Persisted(Reserving(Underway(b, q), q.rid, used)), initial) {
      ReserveBalances(b, Reserving(Underway(b, q), q.rid, used), q.rid, used, initial);
    }
  }

  lemma NotingBalances(b: Book, rid: Rid, initial: multiset<Intent>)
    requires Inv(b, initial)
    ensures Inv(Noting(b, rid), initial)
  {
    LoggedSnoc(b.log, Note(Some(rid)));
  }

  lemma AskBalances(sha: string -> string, b: Book, q: Query, initial: multiset<Intent>)
    requires Inv(b, initial) && Enabled(sha, b, Ask(q))
    ensures Inv(Admit(sha, b, q).0, initial)
  {
    DecideBalances(sha, b, q, initial);
    var d := Decide(sha, b, q);
    if Admits(sha, b, q) {
      UnderwayBalances(d.book, q, initial);
    } else {
      NotingBalances(d.book, q.rid, initial);
    }
  }

  lemma LoggedGrows(log: seq<Entry>, tail: seq<Entry>)
    ensures Logged(log) <= Logged(log + tail)
  {
    forall r | r in Logged(log) ensures r in Logged(log + tail) {
      var x :| x in log && RidOf(x) == Some(r);
      assert x in log + tail;
    }
  }

  lemma NextBalances(sha: string -> string, b: Book, e: Event, initial: multiset<Intent>)
    requires Inv(b, initial) && Enabled(sha, b, e) && !e.Edit?
    ensures Inv(Next(sha, b, e), initial)
  {
    match e {
      case Ask(q) => AskBalances(sha, b, q, initial);
      case Cut(q) => DecideBalances(sha, b, q, initial);
      case Torn(q) =>
        DecideBalances(sha, b, q, initial);
        LoggedGrows(b.log, [Prepared(q.rid, q.job, q.key, q.hash.value)]);
      case Record(rid, effect, observed) =>
        LoggedGrows(b.log, [RecordOutcome(b, rid, effect, observed).log[|b.log|]]);
      case SettleLive(rid) => SettleBalances(b, rid, b.flight[rid].verdict, initial);
      case SettleAtStart(rid) => SettleBalances(b, rid, StartupVerdict(b.log, rid), initial);
      case Close(rid) =>
      case Remark(about) => LoggedGrows(b.log, [Note(about)]);
      case Revoke(_) =>
      case Crash =>
      case HalfReconcile(seen, n) => LoggedGrows(b.log, Missing(b.log, seen, |b.log|)[..n]);
      case Start(seen) => LoggedGrows(b.log, Missing(b.log, seen, |b.log|));
    }
  }

  /** Conservation: in every state of every run in which only the broker writes the intents
      file, the available, reserved, spent and revoked intents are exactly the initial ones,
      on disk and, while the broker is up, in memory, where they are kept in order. */
  lemma {:induction false} IntentsAreConserved(sha: string -> string, b: Book, es: seq<Event>, b': Book)
    requires Fresh(b) && Run(sha, b, es, b') && forall e <- es :: !e.Edit?
    ensures Inv(b', multiset(b.file))
    ensures b'.up ==> Balanced(b'.intents, b'.reserved, b', multiset(b.file)) && Ordered(b'.intents)
  {
    if es != [] {
      var front, e := es[..|es| - 1], es[|es| - 1];
      var t :| Run(sha, b, front, t) && Follows(sha, t, e, b');
      IntentsAreConserved(sha, b, front, t);
      NextBalances(sha, t, e, multiset(b.file));
    }
    OrderSorts(b'.file);
  }

  // ---- Order, revocation, freeze -------------------------------------------------------------------

  /** In memory the intents are always in order, whoever wrote the file. */
  ghost predicate InOrder(b: Book) {
    Ordered(b.intents)
  }

  lemma RefreshInOrder(b: Book)
    requires InOrder(b)
    ensures InOrder(Refresh(b).0)
  {
    UnrevokedIs(b.intents, b.revocations);
    if b.frozen || b.file != b.written {
    } else if Unrevoked(b.intents, b.revocations) == b.intents {
    } else {
    }
  }

  lemma DecideInOrder(sha: string -> string, b: Book, q: Query)
    requires InOrder(b)
    ensures InOrder(Decide(sha, b, q).book)
  {
    RefreshInOrder(b);
  }

  lemma AskInOrder(sha: string -> string, b: Book, q: Query)
    requires InOrder(b)
    ensures InOrder(Admit(sha, b, q).0)
  {
    DecideInOrder(sha, b, q);
    var d := Decide(sha, b, q);
    if Admits(sha, b, q) && d.matched.Some? {
      RemoveKeeps(d.book.intents, d.matched.value);
    }
  }

  lemma SettleInOrder(b: Book, rid: Rid, v: Verdict)
    requires InOrder(b)
    ensures InOrder(Settle(b, rid, v))
  {
    if rid in b.reserved { OrderSorts(b.intents + [b.reserved[rid]]); }
  }

  lemma NextInOrder(sha: string -> string, b: Book, e: Event)
    requires InOrder(b) && Enabled(sha, b, e)
    ensures InOrder(Next(sha, b, e))
  {
    match e {
      case Ask(q) => AskInOrder(sha, b, q);
      case SettleLive(rid) => SettleInOrder(b, rid, b.flight[rid].verdict);
      case SettleAtStart(rid) => SettleInOrder(b, rid, StartupVerdict(b.log, rid));
      case Start(seen) => OrderSorts(b.file);
      case Cut(q) => assert Next(sha, b, e).intents == [];
      case Torn(q) => assert Next(sha, b, e).intents == [];
      case _ =>
    }
  }

  lemma {:induction false} RunInOrder(sha: string -> string, b: Book, es: seq<Event>, b': Book)
    requires InOrder(b) && Run(sha, b, es, b')
    ensures InOrder(b')
  {
    if es != [] {
      var front, e := es[..|es| - 1], es[|es| - 1];
      var t :| Run(sha, b, front, t) && Follows(sha, t, e, b');
      RunInOrder(sha, b, front, t);
      NextInOrder(sha, t, e);
    }
  }

  /** What an admission that reserves an intent implies. */
  lemma AdmittedIntent(sha: string -> string, b: Book, q: Query, used: Intent)
    requires Admit(sha, b, q).1 == Admitted(Some(used))
    ensures b.gated && !Refresh(b).1 && !b.frozen && b.file == b.written
    ensures FirstUsable(Unrevoked(b.intents, b.revocations), i => Usable(sha, q, i)) == Some(used)
  {
    if b.frozen || b.file != b.written {
    } else if Unrevoked(b.intents, b.revocations) == b.intents {
    } else {
    }
  }

  /** The reserved intent fits, its premises hold, no line of the revocations file revokes it,
      and no other such intent has fewer constraints. */
  lemma ReservesTheBroadest(sha: string -> string, b: Book, es: seq<Event>, b': Book, q: Query, used: Intent)
    requires InOrder(b) && Run(sha, b, es, b') && Admit(sha, b', q).1 == Admitted(Some(used))
    ensures used in b'.intents && Usable(sha, q, used) && !Revoked(b'.revocations, used)
    ensures forall i <- b'.intents :: Usable(sha, q, i) && !Revoked(b'.revocations, i) ==> |used.cons| <= |i.cons|
  {
    RunInOrder(sha, b, es, b');
    AdmittedIntent(sha, b', q, used);
    UnrevokedIs(b'.intents, b'.revocations);
    FirstUsableIsBroadest(Unrevoked(b'.intents, b'.revocations), i => Usable(sha, q, i));
  }

  predicate SamePolicy(b: Book, b': Book) {
    b'.revocations == b.revocations && b'.gated == b.gated
  }

  lemma DecideKeepsPolicy(sha: string -> string, b: Book, q: Query)
    ensures SamePolicy(b, Decide(sha, b, q).book)
  {
    if q.hash.None? || !b.gated {
    } else if b.frozen || b.file != b.written {
    } else if Unrevoked(b.intents, b.revocations) == b.intents {
    } else {
    }
  }

  lemma AskKeepsPolicy(sha: string -> string, b: Book, q: Query)
    ensures SamePolicy(b, Admit(sha, b, q).0)
  {
    DecideKeepsPolicy(sha, b, q);
    var d := Decide(sha, b, q);
    if q.key.Some? && q.key.value in d.book.keys {
      assert Admit(sha, b, q).0 == Noting(d.book, q.rid);
    } else if !Admits(sha, b, q) {
      assert Admit(sha, b, q).0 == Noting(d.book, q.rid);
    } else if d.matched.None? {
      assert Admit(sha, b, q).0 == Underway(d.book, q);
    } else {
      assert Admit(sha, b, q).0 == Persisted(Reserving(Underway(d.book, q), q.rid, d.matched.value));
    }
  }

  lemma SettleKeepsPolicy(b: Book, rid: Rid, v: Verdict)
    ensures SamePolicy(b, Settle(b, rid, v))
  {
  }

  lemma NextKeepsRevocations(sha: string -> string, b: Book, e: Event)
    requires Enabled(sha, b, e)
    ensures b.revocations <= Next(sha, b, e).revocations && Next(sha, b, e).gated == b.gated
  {
    match e {
      case Ask(q) => AskKeepsPolicy(sha, b, q);
      case Cut(q) => DecideKeepsPolicy(sha, b, q);
      case Torn(q) => DecideKeepsPolicy(sha, b, q);
      case SettleLive(rid) => SettleKeepsPolicy(b, rid, b.flight[rid].verdict);
      case SettleAtStart(rid) => SettleKeepsPolicy(b, rid, StartupVerdict(b.log, rid));
      case _ =>
    }
  }

  lemma {:induction false} RevocationsOnlyGrow(sha: string -> string, b: Book, es: seq<Event>, b': Book)
    requires Run(sha, b, es, b')
    ensures b.revocations <= b'.revocations && b'.gated == b.gated
  {
    if es != [] {
      var front, e := es[..|es| - 1], es[|es| - 1];
      var t :| Run(sha, b, front, t) && Follows(sha, t, e, b');
      RevocationsOnlyGrow(sha, b, front, t);
      NextKeepsRevocations(sha, t, e);
    }
  }

  /** A line once in the revocations file is in force in every later state: no decision
      reserves an intent it revokes, not even one that was reserved when the line was written
      and returned since. An unreadable line blocks every decision on intents. */
  lemma RevocationIsForever(sha: string -> string, b: Book, es: seq<Event>, b': Book, line: Line, q: Query, used: Intent)
    requires Run(sha, b, es, b') && line in b.revocations
    requires Admit(sha, b', q).1 == Admitted(Some(used))
    ensures !Revokes(line, used) && line != Unreadable
  {
    RevocationsOnlyGrow(sha, b, es, b');
    AdmittedIntent(sha, b', q, used);
    UnrevokedIs(b'.intents, b'.revocations);
    assert line in b'.revocations;
  }

  lemma GatedNeedsAnIntent(sha: string -> string, b: Book, q: Query)
    requires b.gated && Admit(sha, b, q).1.Admitted?
    ensures Admit(sha, b, q).1.intent.Some?
  {
  }

  /** A frozen broker rejects, or answers from its keys, whatever needs an intent. */
  lemma FrozenAdmitsNothing(sha: string -> string, b: Book, q: Query)
    requires b.frozen && b.gated
    ensures !Admits(sha, b, q) && !Admit(sha, b, q).1.Admitted?
    ensures Admit(sha, b, q).0 == Noting(b, q.rid) && Decide(sha, b, q).book == b
  {
    assert Decide(sha, b, q) == Decision(b, None, false);
  }

  lemma NextKeepsFrozen(sha: string -> string, b: Book, e: Event)
    requires Enabled(sha, b, e) && b.up && b.frozen && b.gated && !Dies(e)
    ensures Next(sha, b, e).frozen && Next(sha, b, e).up
  {
    match e {
      case Ask(q) => FrozenAdmitsNothing(sha, b, q);
      case _ =>
    }
  }

  /** Once frozen, and until the broker is restarted, nothing that needs an intent is admitted. */
  lemma {:induction false} FrozenStaysFrozen(sha: string -> string, b: Book, es: seq<Event>, b': Book, q: Query)
    requires Run(sha, b, es, b') && b.up && b.frozen && b.gated
    requires forall e <- es :: !Dies(e)
    ensures b'.up && b'.frozen && b'.gated && !Admit(sha, b', q).1.Admitted?
  {
    if es != [] {
      var front, e := es[..|es| - 1], es[|es| - 1];
      var t :| Run(sha, b, front, t) && Follows(sha, t, e, b');
      assert e in es && forall x <- front :: x in es;
      FrozenStaysFrozen(sha, b, front, t, q);
      NextKeepsFrozen(sha, t, e);
      NextKeepsRevocations(sha, t, e);
    }
    FrozenAdmitsNothing(sha, b', q);
  }

  /** A broker that notices a foreign edit, by any well-formed proposal, even a repeated or a refused one,
      admits nothing that needs an intent from then on, also if the edit is taken back. */
  lemma NoticedEditsFreeze(sha: string -> string, b: Book, seen: Query, es: seq<Event>, b': Book, q: Query)
    requires Enabled(sha, b, Ask(seen)) && b.gated && seen.hash.Some? && b.file != b.written
    requires Run(sha, Next(sha, b, Ask(seen)), es, b') && forall e <- es :: !Dies(e)
    ensures !Admit(sha, b, seen).1.Admitted? && !Admit(sha, b', q).1.Admitted?
  {
    var t := Next(sha, b, Ask(seen));
    assert Decide(sha, b, seen) == Decision(b.(frozen := true), None, false);
    assert t == Noting(b.(frozen := true), seen.rid);
    FrozenStaysFrozen(sha, t, es, b', q);
  }

  /** The freeze alone does not protect the file: whatever it holds survives a settlement exactly
      if there is nothing reserved to settle or the verdict leaves it reserved. */
  lemma SettlementSparesTheFileIff(b: Book, rid: Rid, v: Verdict)
    ensures (forall content :: Settle(b.(file := content), rid, v).file == content)
       <==> rid !in b.reserved || v == Unresolved
  {
    if rid in b.reserved && v != Unresolved {
      var other := Settle(b, rid, v).file + [b.reserved[rid]];
      assert Settle(b.(file := other), rid, v).file == Settle(b, rid, v).file != other;
    }
  }

  /** Nothing but a settlement and the principal writes the file of a frozen broker. */
  lemma OnlySettlementsWriteAFrozenFile(sha: string -> string, b: Book, e: Event)
    requires Enabled(sha, b, e) && b.up && b.frozen && b.gated
    requires !e.Edit? && !e.SettleLive? && !e.SettleAtStart?
    ensures Next(sha, b, e).file == b.file
  {
    match e {
      case Ask(q) => FrozenAdmitsNothing(sha, b, q);
      case Cut(q) => FrozenAdmitsNothing(sha, b, q);
      case Torn(q) => FrozenAdmitsNothing(sha, b, q); assert false;
      case _ =>
    }
  }

  // ---- No intent from nowhere -------------------------------------------------------------------

  ghost predicate Within(b: Book, ok: Intent -> bool) {
    && (forall i <- b.intents :: ok(i)) && (forall i <- b.file :: ok(i))
    && (forall r <- b.reserved :: ok(b.reserved[r]))
    && (forall r <- b.reservedFile :: ok(b.reservedFile[r]))
  }

  lemma SameIntents(s: seq<Intent>, t: seq<Intent>)
    requires multiset(s) == multiset(t)
    ensures forall i :: i in s <==> i in t
  {
    forall i ensures i in s <==> i in t {
      assert i in s <==> i in multiset(s);
      assert i in t <==> i in multiset(t);
    }
  }

  lemma OrderedWithin(s: seq<Intent>, ok: Intent -> bool)
    requires forall i <- s :: ok(i)
    ensures forall i <- Order(s) :: ok(i)
  {
    OrderSorts(s);
    SameIntents(Order(s), s);
  }

  lemma {:induction false} RemoveWithin(s: seq<Intent>, x: Intent)
    requires x in s
    ensures forall i <- RemoveFirst(s, x) :: i in s
  {
    if s[0] != x {
      RemoveWithin(s[1..], x);
      assert s == [s[0]] + s[1..];
    }
  }

  lemma DecideWithin(sha: string -> string, b: Book, q: Query, ok: Intent -> bool)
    requires Within(b, ok)
    ensures Within(Decide(sha, b, q).book, ok)
    ensures Decide(sha, b, q).matched.Some? ==> Decide(sha, b, q).matched.value in Decide(sha, b, q).book.intents
  {
    UnrevokedIs(b.intents, b.revocations);
    if q.hash.None? || !b.gated {
    } else if b.frozen || b.file != b.written {
    } else if Unrevoked(b.intents, b.revocations) == b.intents {
    } else {
    }
  }

  lemma AskWithin(sha: string -> string, b: Book, q: Query, ok: Intent -> bool)
    requires Within(b, ok)
    ensures Within(Admit(sha, b, q).0, ok)
  {
    DecideWithin(sha, b, q, ok);
    var d := Decide(sha, b, q);
    if !Admits(sha, b, q) {
      assert Admit(sha, b, q).0 == Noting(d.book, q.rid);
    } else if d.matched.None? {
      assert Admit(sha, b, q).0 == Underway(d.book, q);
    } else {
      RemoveWithin(d.book.intents, d.matched.value);
      assert Admit(sha, b, q).0 == Persisted(Reserving(Underway(d.book, q), q.rid, d.matched.value));
    }
  }

  lemma SettleWithin(b: Book, rid: Rid, v: Verdict, ok: Intent -> bool)
    requires Within(b, ok)
    ensures Within(Settle(b, rid, v), ok)
  {
    if rid in b.reserved { OrderedWithin(b.intents + [b.reserved[rid]], ok); }
  }

  lemma NextWithin(sha: string -> string, b: Book, e: Event, ok: Intent -> bool)
    requires Within(b, ok) && Enabled(sha, b, e)
    requires e.Edit? ==> forall i <- e.file :: ok(i)
    ensures Within(Next(sha, b, e), ok)
  {
    match e {
      case Ask(q) => AskWithin(sha, b, q, ok);
      case Cut(q) => DecideWithin(sha, b, q, ok);
      case Torn(q) => DecideWithin(sha, b, q, ok);
      case SettleLive(rid) => SettleWithin(b, rid, b.flight[rid].verdict, ok);
      case SettleAtStart(rid) => SettleWithin(b, rid, StartupVerdict(b.log, rid), ok);
      case Start(_) => OrderedWithin(b.file, ok);
      case _ =>
    }
  }

  /** Whatever an intent is when it comes into the files from outside, every intent in memory or on
      disk is at any time. */
  lemma {:induction false} RunWithin(sha: string -> string, b: Book, es: seq<Event>, b': Book, ok: Intent -> bool)
    requires Within(b, ok) && Run(sha, b, es, b')
    requires forall e <- es :: e.Edit? ==> forall i <- e.file :: ok(i)
    ensures Within(b', ok)
  {
    if es != [] {
      var front, e := es[..|es| - 1], es[|es| - 1];
      var t :| Run(sha, b, front, t) && Follows(sha, t, e, b');
      assert e in es && forall x <- front :: x in es;
      RunWithin(sha, b, front, t, ok);
      NextWithin(sha, t, e, ok);
    }
  }

  // ---- What the one atomic step hides -----------------------------------------------------------

  /** The changes that are persisted. */
  datatype Change = Reservation(rid: Rid, used: Intent) | Spending(rid: Rid) | Return(rid: Rid) | Purge

  predicate Possible(b: Book, ch: Change) {
    match ch
    case Reservation(_, used) => used in b.intents
    case Spending(rid) => rid in b.reserved
    case Return(rid) => rid in b.reserved
    case Purge => true
  }

  /** In memory, before anything is written. */
  function Changed(b: Book, ch: Change): Book
    requires Possible(b, ch)
  {
    match ch
    case Reservation(rid, used) => Reserving(b, rid, used)
    case Spending(rid) => b.(reserved := b.reserved - {rid}, spent := b.spent + multiset{b.reserved[rid]})
    case Return(rid) => b.(reserved := b.reserved - {rid}, intents := Order(b.intents + [b.reserved[rid]]))
    case Purge => Purged(b)
  }

  /** A crash after the first of the two files has been replaced. What is revoked has left the
      first file; what is spent is still in the second. */
  function TornPersist(b: Book, ch: Change): Book
    requires Possible(b, ch)
  {
    var b' := Changed(b, ch);
    Crashed(b.(file := b'.intents, revoked := b'.revoked))
  }

  /** How much more of an intent there is on the books than there was. */
  function Excess(ch: Change, b: Book, i: Intent): int
    requires Possible(b, ch)
  {
    match ch
    case Reservation(_, used) => if i == used then -1 else 0
    case Return(rid) => if i == b.reserved[rid] then 1 else 0
    case _ => 0
  }

  lemma ReservationTakesOne(s: seq<Intent>, used: Intent, i: Intent)
    requires used in s
    ensures multiset(RemoveFirst(s, used))[i] == multiset(s)[i] - if i == used then 1 else 0
  {
    RemoveKeeps(s, used);
    assert multiset(s)[i] == multiset(RemoveFirst(s, used))[i] + multiset{used}[i];
  }

  lemma ReturnAddsOne(s: seq<Intent>, used: Intent, i: Intent)
    ensures multiset(Order(s + [used]))[i] == multiset(s)[i] + if i == used then 1 else 0
  {
    OrderSorts(s + [used]);
    assert multiset(s + [used]) == multiset(s) + multiset{used};
    assert (multiset(s) + multiset{used})[i] == multiset(s)[i] + multiset{used}[i];
  }

  lemma PurgeAccounts(s: seq<Intent>, lines: seq<Line>, i: Intent)
    ensures multiset(Unrevoked(s, lines))[i] + (multiset(s) - multiset(Unrevoked(s, lines)))[i] == multiset(s)[i]
  {
    UnrevokedIs(s, lines);
    assert multiset(Unrevoked(s, lines))[i] <= multiset(s)[i];
  }

  /** What the first file says, with what has been revoked. */
  lemma FirstFileExcess(b: Book, ch: Change, i: Intent)
    requires Possible(b, ch)
    ensures var b' := Changed(b, ch);
      multiset(b'.intents)[i] + b'.revoked[i] == multiset(b.intents)[i] + b.revoked[i] + Excess(ch, b, i)
  {
    match ch {
      case Reservation(_, used) => ReservationTakesOne(b.intents, used, i);
      case Spending(_) =>
      case Return(rid) => ReturnAddsOne(b.intents, b.reserved[rid], i);
      case Purge => PurgeAccounts(b.intents, b.revocations, i);
    }
  }

  /** Between the two replacements a reservation is on disk nowhere, a returned intent is there
      twice, and all else is as it should be. */
  lemma TornPersistExcess(b: Book, ch: Change, initial: multiset<Intent>, i: Intent)
    requires Inv(b, initial) && b.up && Possible(b, ch)
    ensures var t := TornPersist(b, ch);
      multiset(t.file)[i] + |Holders(t.reservedFile, i)| + t.spent[i] + t.revoked[i] == initial[i] + Excess(ch, b, i)
  {
    var t := TornPersist(b, ch);
    assert t.reservedFile == b.reservedFile && t.spent == b.spent;
    assert multiset(b.intents)[i] == multiset(b.file)[i] by { OrderSorts(b.file); }
    assert multiset(b.file)[i] + |Holders(b.reservedFile, i)| + b.spent[i] + b.revoked[i] == initial[i];
    FirstFileExcess(b, ch, i);
  }

  /** So a crash between the two files breaks the books exactly if it cuts a reservation or a
      return short. */
  lemma TornPersistBalancesIff(b: Book, ch: Change, initial: multiset<Intent>)
    requires Inv(b, initial) && b.up && Possible(b, ch)
    ensures var t := TornPersist(b, ch);
      Balanced(t.file, t.reservedFile, t, initial) <==> !ch.Reservation? && !ch.Return?
  {
    var t := TornPersist(b, ch);
    forall i
      ensures multiset(t.file)[i] + |Holders(t.reservedFile, i)| + t.spent[i] + t.revoked[i]
           == initial[i] + Excess(ch, b, i)
    {
      TornPersistExcess(b, ch, initial, i);
    }
    if ch.Reservation? {
      assert Excess(ch, b, ch.used) == -1;
    } else if ch.Return? {
      assert Excess(ch, b, b.reserved[ch.rid]) == 1;
    }
  }

  lemma TornSpendingIsBefore(b: Book, rid: Rid, initial: multiset<Intent>, seen: map<Rid, Verdict>)
    requires Inv(b, initial) && b.up && rid in b.reserved
    ensures var s := Started(TornPersist(b, Spending(rid)), seen);
      && s.up && s.intents == b.intents && s.reserved == b.reserved && s.spent == b.spent && Inv(s, initial)
  {
    var t := TornPersist(b, Spending(rid));
    assert t.file == b.intents && t.reservedFile == b.reservedFile && t.log == b.log;
    OrderSorts(b.file);
    LoggedGrows(t.log, Missing(t.log, seen, |t.log|));
    TornPersistBalancesIff(b, Spending(rid), initial);
    OrderSorts(t.file);
  }

  lemma {:induction false} UnresolvedUntilClosed(log: seq<Entry>, rid: Rid)
    requires !IsClosed(log, rid)
    ensures StartupVerdict(log, rid) == Unresolved
  {
    if log != [] {
      var front, e := log[..|log| - 1], log[|log| - 1];
      assert log == front + [e];
      KeyRuns.Snoc(front, e, rid);
      UnresolvedUntilClosed(front, rid);
    }
  }

  /** The verdict the log has for a request is the one a restart finds. */
  lemma RestartFinds(b: Book, ch: Change, rid: Rid, seen: map<Rid, Verdict>)
    requires Possible(b, ch) && StartupVerdict(b.log, rid) != Unresolved
    ensures StartupVerdict(Started(TornPersist(b, ch), seen).log, rid) == StartupVerdict(b.log, rid)
  {
    if !IsClosed(b.log, rid) { UnresolvedUntilClosed(b.log, rid); }
    KeyRuns.ReconciliationKeepsOutcomes(b.log, seen, rid);
  }

  /** A spending cut short is completed by the restart, which finds the recorded success. */
  lemma TornSpendingIsHealed(b: Book, rid: Rid, initial: multiset<Intent>, seen: map<Rid, Verdict>)
    requires Inv(b, initial) && b.up && rid in b.reserved
    requires StartupVerdict(b.log, rid) == ConfirmedSuccess
    ensures var t := Started(TornPersist(b, Spending(rid)), seen);
      var s := Settle(t, rid, StartupVerdict(t.log, rid));
      && Inv(s, initial) && s.intents == b.intents && s.reserved == b.reserved - {rid}
      && s.spent == b.spent + multiset{b.reserved[rid]}
  {
    RestartFinds(b, Spending(rid), rid, seen);
    TornSpendingIsBefore(b, rid, initial, seen);
    SettleBalances(Started(TornPersist(b, Spending(rid)), seen), rid, ConfirmedSuccess, initial);
  }

  lemma ReturnedMultiset(s: seq<Intent>, used: Intent)
    ensures multiset(Order(s + [used])) == multiset(s) + multiset{used}
  {
    OrderSorts(s + [used]);
    assert multiset(s + [used]) == multiset(s) + multiset{used};
  }

  /** A return cut short is not: the restart finds the recorded failure and returns it again, and
      one reservation has become two available intents. */
  lemma TornReturnStaysDuplicated(b: Book, rid: Rid, seen: map<Rid, Verdict>)
    requires rid in b.reserved && b.reservedFile == b.reserved
    requires StartupVerdict(b.log, rid) == ConfirmedFailure
    ensures var used := b.reserved[rid];
      var t := Started(TornPersist(b, Return(rid)), seen);
      multiset(Settle(t, rid, StartupVerdict(t.log, rid)).intents)
        == multiset(b.intents) + multiset{used} + multiset{used}
  {
    var used := b.reserved[rid];
    var t := TornPersist(b, Return(rid));
    var s := Started(t, seen);
    RestartFinds(b, Return(rid), rid, seen);
    assert t.file == Order(b.intents + [used]) && t.reservedFile == b.reservedFile;
    ReturnedMultiset(b.intents, used);
    OrderSorts(t.file);
    assert s.intents == Order(t.file) && s.reserved[rid] == used;
    ReturnedMultiset(s.intents, used);
  }
}
