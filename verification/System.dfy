/** The broker among other processes. Any number of requests are under way at once, each at
    its own program point; crashes, recoveries, key rotations and foreign changes fall anywhere
    between their steps. Foreign processes may tamper, delete, create, move and replay files
    with any attestation they have seen, and sign under keys of their own, but not under the
    broker's, and they cannot edit the log. */
module System {
  import opened Attest
  import opened Files
  import opened Effects
  import opened Record

  datatype Running = Running(job: Job, pc: Pc) | Recovering(job: Job, rpc: RPc)

  /** `others` are the key ids of foreign processes. */
  datatype Sys = Sys(w: World, log: seq<Entry>, ring: Ring, minted: set<Sig>, live: map<Rid, Running>,
                     others: set<string>)

  datatype Action =
    | Prepare(job: Job, key: Option<string>, hash: string)
    | Remark(e: Entry)
    | Work(rid: Rid)
    | Conclude(rid: Rid, sourceSeen: State, targetSeen: State)
    | Crash
    | Resume(at: nat)
    | Settle(at: nat, seen: State)
    | Rotate(kid: string)
    | Foreign(p: Path, node: Option<Node>)

  // ---- Requests --------------------------------------------------------------------------

  /** A prepared request that nobody is working on and that has no outcome yet. */
  predicate Pending(s: Sys, at: nat) {
    && at < |s.log| && s.log[at].Prepared? && s.log[at].job.Some?
    && s.log[at].rid !in s.live && !IsClosed(s.log, s.log[at].rid)
  }

  /** A checkpoint's signature, whatever log it is for. */
  ghost predicate IsCheckpoint(sig: Sig) {
    sig.Sig? && exists genesis, count, head :: sig.message == CheckpointMessage(genesis, count, head)
  }

  /** A signature under a key that is not the broker's. */
  predicate Alien(others: set<string>, sig: Sig) {
    sig.Sig? && sig.kid in others
  }

  /** What anyone can put on a file: nothing, an attestation seen before, any such signature taken
      from anywhere, a published checkpoint's among them, one under a key of their own, or junk. */
  ghost predicate Known(s: Sys, a: Option<Att>) {
    a.Some? && a.value.sig.Sig? ==>
      a.value.sig in s.minted || IsCheckpoint(a.value.sig) || Alien(s.others, a.value.sig)
  }

  /** What verifies as an attestation is neither a checkpoint's signature nor another's. */
  lemma NoCheckpointVerifies(ring: Ring, others: set<string>, a: Att)
    requires Verifies(ring, a) && others !! ring.publics
    ensures !IsCheckpoint(a.sig) && !Alien(others, a.sig)
  {
    forall genesis, count, head ensures a.sig.message != CheckpointMessage(genesis, count, head) {
      DomainsAreSeparate(a.rid, a.target, a.digest, genesis, count, head);
    }
  }

  /** The outcome or the reconciliation of a request without a governed path. */
  predicate ClosesRead(s: Sys, e: Entry) {
    && (e.Outcome? || e.Reconciled?) && e.job.None? && e.rid !in s.live && !IsClosed(s.log, e.rid)
    && exists p <- s.log :: p.Prepared? && p.job.None? && p.rid == e.rid
  }

  // ---- Steps -----------------------------------------------------------------------------

  ghost predicate Enabled(s: Sys, a: Action) {
    match a
    case Prepare(j, _, _) =>
      && j.rid !in Logged(s.log)
      && (j.Rename? ==> RenameAllowed(s.ring, j) && Known(s, j.sourceAtt))
    case Remark(e) =>
      e.Note? || (e.Prepared? && e.job.None? && e.rid !in Logged(s.log)) || ClosesRead(s, e)
    case Work(rid) => rid in s.live
    case Conclude(rid, _, _) =>
      rid in s.live && (if s.live[rid].Running? then s.live[rid].pc.Done? else s.live[rid].rpc.End?)
    case Crash => true
    case Resume(at) => Pending(s, at) && s.log[at].job.value.Rename?
    case Settle(at, _) => Pending(s, at) && !s.log[at].job.value.Rename?
    case Rotate(kid) => s.live == map[] && kid !in s.others
    case Foreign(_, node) => node.Some? && node.value.Reg? ==> Known(s, node.value.att)
  }

  function Next(s: Sys, a: Action): Sys
    requires Enabled(s, a) && s.ring.active.Some?
  {
    match a
    case Prepare(j, key, hash) =>
      s.(log := s.log + [Prepared(j.rid, Some(j), key, hash)], live := s.live[j.rid := Running(j, Begin)])
    case Remark(e) => s.(log := s.log + [e])
    case Work(rid) =>
      var kid := s.ring.active.value;
      (match s.live[rid]
       case Running(j, pc) =>
         var c := Step(kid, j, Conf(s.w, pc));
         s.(w := c.w, live := s.live[rid := Running(j, c.pc)],
            minted := s.minted + Minted(kid, j, Conf(s.w, pc)))
       case Recovering(j, rpc) =>
         if !j.Rename? then s
         else
           var c := RecoverStep(s.ring, j, RConf(s.w, rpc));
           s.(w := c.w, live := s.live[rid := Recovering(j, c.pc)]))
    case Conclude(rid, sourceSeen, targetSeen) =>
      var done := s.(live := s.live - {rid});
      (match s.live[rid]
       case Running(j, pc) =>
         done.(log := s.log + [Outcome(rid, Some(j), if pc.ok then Succeeded else Failed,
                                       Some(Classify(j, sourceSeen, targetSeen)))])
       case Recovering(j, rpc) => done.(log := s.log + [Reconciled(rid, Some(j), Some(rpc.verdict))]))
    case Crash => s.(live := map[])
    case Resume(at) =>
      s.(live := s.live[s.log[at].rid := Recovering(s.log[at].job.value, Look)])
    case Settle(at, seen) =>
      var j := s.log[at].job.value;
      s.(log := s.log + [Reconciled(s.log[at].rid, Some(j), Some(Classify(j, seen, seen)))])
    case Rotate(kid) => s.(ring := Ring(s.ring.publics + {kid}, Some(kid)))
    case Foreign(p, node) => s.(w := Put(s.w, p, node))
  }

  // ---- The invariant -----------------------------------------------------------------------

  /** Request `i` asked for the signature. */
  predicate Asked(log: seq<Entry>, i: nat, sig: Sig) {
    && i < |log| && log[i].Prepared? && log[i].job.Some? && log[i].rid == log[i].job.value.rid
    && Signs(log[i].job.value)
    && sig.Sig? && sig.message == SignedMessage(log[i].job.value)
  }

  /** A signature was asked for by a request prepared before index `n`. */
  ghost predicate Accounted(log: seq<Entry>, n: nat, sig: Sig) {
    exists i: nat | i < n :: Asked(log, i, sig)
  }

  ghost predicate Vouched(others: set<string>, log: seq<Entry>, a: Option<Att>) {
    a.Some? && a.value.sig.Sig? ==>
      Accounted(log, |log|, a.value.sig) || IsCheckpoint(a.value.sig) || Alien(others, a.value.sig)
  }

  /** What the log may say at index `k`, given what comes before it. */
  ghost predicate EntryOk(log: seq<Entry>, k: nat)
    requires k < |log|
  {
    match log[k]
    case Prepared(rid, job, _, _) =>
      && (forall i | 0 <= i < k :: RidOf(log[i]) != Some(rid))
      && (job.Some? ==> job.value.rid == rid)
      && (job.Some? && job.value.Rename? ==> MovesAttested(log, k, job.value))
    case Outcome(rid, job, _, _) =>
      job.Some? ==> job.value.rid == rid && exists i: nat | i < k :: PreparedAt(log, i, job.value)
    case Reconciled(rid, job, _) =>
      job.Some? ==> job.value.rid == rid && exists i: nat | i < k :: PreparedAt(log, i, job.value)
    case Note(_) => true
  }

  /** A recorded rename: its source was attested, for the content it moves, by a signature
      asked for earlier. */
  ghost predicate MovesAttested(log: seq<Entry>, k: nat, j: Job)
    requires j.Rename?
  {
    && j.before.Present? && j.sourceAtt.Some?
    && var a := j.sourceAtt.value;
       && a.sig == Sig(a.kid, Message(a.rid, j.source, j.before.digest))
       && Accounted(log, k, a.sig)
  }

  ghost predicate LogOk(log: seq<Entry>) {
    forall k: nat | k < |log| :: EntryOk(log, k)
  }

  ghost predicate LiveOk(s: Sys, rid: Rid)
    requires rid in s.live
  {
    && s.live[rid].job.rid == rid && !IsClosed(s.log, rid)
    && exists i: nat :: PreparedAt(s.log, i, s.live[rid].job)
  }

  ghost predicate Inv(s: Sys) {
    && s.ring.active.Some? && s.ring.active.value in s.ring.publics && s.others !! s.ring.publics
    && LogOk(s.log)
    && (forall sig <- s.minted :: Accounted(s.log, |s.log|, sig))
    && (forall p <- s.w :: Vouched(s.others, s.log, AttAt(s.w, p)))
    && (forall rid <- s.live :: LiveOk(s, rid))
  }

  // ---- Growing the log ------------------------------------------------------------------------

  lemma AccountedGrows(log: seq<Entry>, e: Entry, n: nat, m: nat, sig: Sig)
    requires Accounted(log, n, sig) && n <= m
    ensures Accounted(log + [e], m, sig)
  {
    var i: nat :| i < n && Asked(log, i, sig);
    assert Asked(log + [e], i, sig);
  }

  lemma EntryOkGrows(log: seq<Entry>, e: Entry, k: nat)
    requires k < |log| && EntryOk(log, k)
    ensures EntryOk(log + [e], k)
  {
    var log' := log + [e];
    match log[k] {
      case Prepared(_, job, _, _) =>
        if job.Some? && job.value.Rename? {
          AccountedGrows(log, e, k, k, job.value.sourceAtt.value.sig);
        }
      case Outcome(_, job, _, _) =>
        if job.Some? {
          var i: nat :| i < k && PreparedAt(log, i, job.value);
          assert PreparedAt(log', i, job.value);
        }
      case Reconciled(_, job, _) =>
        if job.Some? {
          var i: nat :| i < k && PreparedAt(log, i, job.value);
          assert PreparedAt(log', i, job.value);
        }
      case Note(_) =>
    }
  }

  lemma LogGrows(log: seq<Entry>, e: Entry)
    requires LogOk(log) && EntryOk(log + [e], |log|)
    ensures LogOk(log + [e])
  {
    forall k: nat | k < |log + [e]| ensures EntryOk(log + [e], k) {
      if k < |log| { EntryOkGrows(log, e, k); }
    }
  }

  lemma LiveGrows(s: Sys, s': Sys, rid: Rid, e: Entry)
    requires rid in s.live && rid in s'.live && s'.live[rid].job == s.live[rid].job
    requires s'.log == s.log + [e] && LiveOk(s, rid)
    requires e.Outcome? || e.Reconciled? ==> e.rid != rid
    ensures LiveOk(s', rid)
  {
    var i: nat :| PreparedAt(s.log, i, s.live[rid].job);
    assert PreparedAt(s'.log, i, s'.live[rid].job);
    assert forall x <- s'.log :: x in s.log || x == e;
  }

  /** Appending one entry that fits keeps everything that does not concern the entry itself. */
  lemma AppendKeeps(s: Sys, s': Sys, e: Entry)
    requires Inv(s) && s' == s.(log := s.log + [e], live := s'.live)
    requires EntryOk(s'.log, |s.log|)
    requires forall rid <- s'.live ::
      if rid in s.live then s'.live[rid].job == s.live[rid].job && (e.Outcome? || e.Reconciled? ==> e.rid != rid)
      else LiveOk(s', rid)
    ensures Inv(s')
  {
    LogGrows(s.log, e);
    forall sig <- s'.minted ensures Accounted(s'.log, |s'.log|, sig) {
      AccountedGrows(s.log, e, |s.log|, |s'.log|, sig);
    }
    forall p <- s'.w ensures Vouched(s'.others, s'.log, AttAt(s'.w, p)) {
      assert Vouched(s.others, s.log, AttAt(s.w, p));
      var a := AttAt(s.w, p);
      if a.Some? && a.value.sig.Sig? && !IsCheckpoint(a.value.sig) && !Alien(s.others, a.value.sig) {
        AccountedGrows(s.log, e, |s.log|, |s'.log|, a.value.sig);
      }
    }
    forall rid <- s'.live ensures LiveOk(s', rid) {
      if rid in s.live { LiveGrows(s, s', rid, e); }
    }
  }

  lemma FreshRid(log: seq<Entry>, rid: Rid)
    requires rid !in Logged(log)
    ensures forall i | 0 <= i < |log| :: RidOf(log[i]) != Some(rid)
    ensures !IsClosed(log, rid)
  {
    forall i | 0 <= i < |log| ensures RidOf(log[i]) != Some(rid) {
      assert log[i] in log;
    }
  }

  // ---- Every action keeps the invariant ----------------------------------------------------------

  lemma PrepareKeeps(s: Sys, j: Job, key: Option<string>, hash: string)
    requires Inv(s) && Enabled(s, Prepare(j, key, hash))
    ensures Inv(Next(s, Prepare(j, key, hash)))
  {
    var s' := Next(s, Prepare(j, key, hash));
    var e := Prepared(j.rid, Some(j), key, hash);
    FreshRid(s.log, j.rid);
    if j.Rename? {
      NoCheckpointVerifies(s.ring, s.others, j.sourceAtt.value);
      AccountedGrows(s.log, e, |s.log|, |s.log|, j.sourceAtt.value.sig);
    }
    forall rid <- s.live ensures rid != j.rid {
      var i: nat :| PreparedAt(s.log, i, s.live[rid].job);
      assert RidOf(s.log[i]) == Some(rid);
    }
    assert PreparedAt(s'.log, |s.log|, j);
    assert !IsClosed(s'.log, j.rid) by { assert forall x <- s'.log :: x in s.log || x == e; }
    AppendKeeps(s, s', e);
  }

  lemma RemarkKeeps(s: Sys, e: Entry)
    requires Inv(s) && Enabled(s, Remark(e))
    ensures Inv(Next(s, Remark(e)))
  {
    if e.Prepared? { FreshRid(s.log, e.rid); }
    AppendKeeps(s, Next(s, Remark(e)), e);
  }

  lemma ConcludeKeeps(s: Sys, rid: Rid, a: State, b: State)
    requires Inv(s) && Enabled(s, Conclude(rid, a, b))
    ensures Inv(Next(s, Conclude(rid, a, b)))
  {
    var s' := Next(s, Conclude(rid, a, b));
    var i: nat :| PreparedAt(s.log, i, s.live[rid].job);
    assert PreparedAt(s'.log, i, s.live[rid].job);
    AppendKeeps(s, s', s'.log[|s.log|]);
  }

  lemma SettleKeeps(s: Sys, at: nat, seen: State)
    requires Inv(s) && Enabled(s, Settle(at, seen))
    ensures Inv(Next(s, Settle(at, seen)))
  {
    var s' := Next(s, Settle(at, seen));
    assert EntryOk(s.log, at);
    assert PreparedAt(s'.log, at, s.log[at].job.value);
    AppendKeeps(s, s', s'.log[|s.log|]);
  }

  lemma ResumeKeeps(s: Sys, at: nat)
    requires Inv(s) && Enabled(s, Resume(at))
    ensures Inv(Next(s, Resume(at)))
  {
    var s' := Next(s, Resume(at));
    assert EntryOk(s.log, at);
    assert PreparedAt(s'.log, at, s.log[at].job.value);
    forall rid <- s'.live ensures LiveOk(s', rid) {
      if rid != s.log[at].rid { assert LiveOk(s, rid); }
    }
  }

  /** Whatever a protocol step leaves on a file was there before, was the recorded source
      attestation, or carries the signature the step minted. */
  lemma StepAttestations(kid: string, j: Job, c: Conf, p: Path)
    requires AttAt(Step(kid, j, c).w, p).Some?
    ensures var a := AttAt(Step(kid, j, c).w, p);
      || (exists q :: q in c.w && AttAt(c.w, q) == a)
      || (j.Rename? && a == j.sourceAtt)
      || a.value.sig in Minted(kid, j, c)
  {
    var c' := Step(kid, j, c);
    if j.private in c.w { assert c.w[j.private] == c.w[j.private]; }
    if p in c.w && c'.w[p] == c.w[p] {
      assert AttAt(c.w, p) == AttAt(c'.w, p);
    } else if j.private in c.w && c'.w[p] == c.w[j.private] {
      assert AttAt(c.w, j.private) == AttAt(c'.w, p);
    } else if SourceOf(j) in c.w && c'.w[p] == c.w[SourceOf(j)] {
      assert AttAt(c.w, SourceOf(j)) == AttAt(c'.w, p);
    }
  }

  lemma RecoveryAttestations(ring: Ring, j: Job, c: RConf, p: Path)
    requires j.Rename? && AttAt(RecoverStep(ring, j, c).w, p).Some?
    ensures var a := AttAt(RecoverStep(ring, j, c).w, p);
      || (exists q :: q in c.w && AttAt(c.w, q) == a)
      || a == j.sourceAtt
  {
    var c' := RecoverStep(ring, j, c);
    if p in c.w && c'.w[p] == c.w[p] {
      assert AttAt(c.w, p) == AttAt(c'.w, p);
    } else if j.private in c.w && c'.w[p] == c.w[j.private] {
      assert AttAt(c.w, j.private) == AttAt(c'.w, p);
    }
  }

  /** A running request's recorded source attestation was asked for earlier. */
  lemma SourceAttVouched(s: Sys, rid: Rid)
    requires Inv(s) && rid in s.live && s.live[rid].job.Rename?
    ensures Vouched(s.others, s.log, s.live[rid].job.sourceAtt)
  {
    assert LiveOk(s, rid);
    var i: nat :| PreparedAt(s.log, i, s.live[rid].job);
    assert EntryOk(s.log, i);
    var sig := s.live[rid].job.sourceAtt.value.sig;
    var k: nat :| k < i && Asked(s.log, k, sig);
  }

  lemma LiveOkSame(s: Sys, s': Sys)
    requires Inv(s) && s'.log == s.log && s'.live.Keys <= s.live.Keys
    requires forall rid <- s'.live :: s'.live[rid].job == s.live[rid].job
    ensures forall rid <- s'.live :: LiveOk(s', rid)
  {
    forall rid <- s'.live ensures LiveOk(s', rid) {
      assert LiveOk(s, rid);
    }
  }

  lemma WorkKeeps(s: Sys, rid: Rid)
    requires Inv(s) && Enabled(s, Work(rid))
    ensures Inv(Next(s, Work(rid)))
  {
    var s' := Next(s, Work(rid));
    LiveOkSame(s, s');
    assert LiveOk(s, rid);
    var j := s.live[rid].job;
    var i: nat :| PreparedAt(s.log, i, j);
    if j.Rename? { SourceAttVouched(s, rid); }
    if s.live[rid].Running? {
      var kid, c := s.ring.active.value, Conf(s.w, s.live[rid].pc);
      forall sig <- Minted(kid, j, c) ensures Accounted(s.log, |s.log|, sig) {
        assert Asked(s.log, i, sig);
      }
      forall p <- s'.w ensures Vouched(s.others, s.log, AttAt(s'.w, p)) {
        if AttAt(s'.w, p).Some? { StepAttestations(kid, j, c, p); }
      }
    } else if j.Rename? {
      var c := RConf(s.w, s.live[rid].rpc);
      forall p <- s'.w ensures Vouched(s.others, s.log, AttAt(s'.w, p)) {
        if AttAt(s'.w, p).Some? { RecoveryAttestations(s.ring, j, c, p); }
      }
    }
  }

  lemma NextKeeps(s: Sys, a: Action)
    requires Inv(s) && Enabled(s, a)
    ensures Inv(Next(s, a))
  {
    match a {
      case Prepare(j, key, hash) => PrepareKeeps(s, j, key, hash);
      case Remark(e) => RemarkKeeps(s, e);
      case Work(rid) => WorkKeeps(s, rid);
      case Conclude(rid, x, y) => ConcludeKeeps(s, rid, x, y);
      case Crash =>
      case Resume(at) => ResumeKeeps(s, at);
      case Settle(at, seen) => SettleKeeps(s, at, seen);
      case Rotate(_) =>
      case Foreign(p, node) =>
        var s' := Next(s, a);
        LiveOkSame(s, s');
        forall q <- s'.w ensures Vouched(s.others, s.log, AttAt(s'.w, q)) {
          if q != p { assert AttAt(s'.w, q) == AttAt(s.w, q); }
        }
    }
  }

  // ---- Runs ------------------------------------------------------------------------------------

  /** A fresh broker: an empty log, no signature made yet, any world that has none of the ring's. */
  ghost predicate Initial(s: Sys) {
    && s.log == [] && s.minted == {} && s.live == map[]
    && s.ring.active.Some? && s.ring.active.value in s.ring.publics && s.others !! s.ring.publics
    && forall p <- s.w :: AttAt(s.w, p).Some? ==>
         AttAt(s.w, p).value.sig.Junk? || Alien(s.others, AttAt(s.w, p).value.sig)
  }

  ghost predicate Run(s: Sys, acts: seq<Action>, s': Sys) {
    if acts == [] then s' == s
    else exists t :: Run(s, acts[..|acts| - 1], t) && t.ring.active.Some?
           && Enabled(t, acts[|acts| - 1]) && s' == Next(t, acts[|acts| - 1])
  }

  lemma {:induction false} RunKeeps(s: Sys, acts: seq<Action>, s': Sys)
    requires Initial(s) && Run(s, acts, s')
    ensures Inv(s')
  {
    if acts != [] {
      var t :| Run(s, acts[..|acts| - 1], t) && t.ring.active.Some?
                 && Enabled(t, acts[|acts| - 1]) && s' == Next(t, acts[|acts| - 1]);
      RunKeeps(s, acts[..|acts| - 1], t);
      NextKeeps(t, acts[|acts| - 1]);
    }
  }

  lemma {:induction false} RunIsDeterministic(s: Sys, acts: seq<Action>, t: Sys, u: Sys)
    requires Run(s, acts, t) && Run(s, acts, u)
    ensures t == u
  {
    if acts != [] {
      var front, a := acts[..|acts| - 1], acts[|acts| - 1];
      var t' :| Run(s, front, t') && t'.ring.active.Some? && Enabled(t', a) && t == Next(t', a);
      var u' :| Run(s, front, u') && u'.ring.active.Some? && Enabled(u', a) && u == Next(u', a);
      RunIsDeterministic(s, front, t', u');
    }
  }

  lemma NextOnlyAppends(s: Sys, a: Action)
    requires s.ring.active.Some? && Enabled(s, a)
    ensures s.log <= Next(s, a).log && Next(s, a).others == s.others
  {
    match a {
      case Work(rid) => if s.live[rid].Running? {} else {}
      case _ =>
    }
  }

  lemma {:induction false} LogOnlyGrows(s: Sys, acts: seq<Action>, s': Sys, n: nat, r: Sys)
    requires Run(s, acts, s') && n <= |acts| && Run(s, acts[..n], r)
    ensures r.log <= s'.log && r.others == s'.others
  {
    if n == |acts| {
      assert acts[..n] == acts;
      RunIsDeterministic(s, acts, s', r);
    } else {
      var front, a := acts[..|acts| - 1], acts[|acts| - 1];
      var t :| Run(s, front, t) && t.ring.active.Some? && Enabled(t, a) && s' == Next(t, a);
      assert front[..n] == acts[..n];
      LogOnlyGrows(s, front, t, n, r);
      NextOnlyAppends(t, a);
    }
  }

  lemma {:induction false} Prefix(s: Sys, acts: seq<Action>, s': Sys, n: nat) returns (r: Sys)
    requires Run(s, acts, s') && n <= |acts|
    ensures Run(s, acts[..n], r)
  {
    if n == |acts| {
      assert acts[..n] == acts;
      r := s';
    } else {
      var front, a := acts[..|acts| - 1], acts[|acts| - 1];
      var t :| Run(s, front, t) && t.ring.active.Some? && Enabled(t, a) && s' == Next(t, a);
      assert front[..n] == acts[..n];
      r := Prefix(s, front, t, n);
    }
  }

  /** The state in which action `n` is taken, and what is left of what it appends. */
  lemma StepAt(s: Sys, acts: seq<Action>, s': Sys, n: nat) returns (r: Sys)
    requires Run(s, acts, s') && n < |acts|
    ensures Run(s, acts[..n], r) && r.ring.active.Some? && Enabled(r, acts[n])
    ensures Next(r, acts[n]).log <= s'.log
  {
    var after := Prefix(s, acts, s', n + 1);
    assert acts[..n + 1][..n] == acts[..n] && acts[..n + 1][n] == acts[n];
    r :| Run(s, acts[..n], r) && r.ring.active.Some? && Enabled(r, acts[n]) && after == Next(r, acts[n]);
    LogOnlyGrows(s, acts, s', n + 1, after);
  }

  // ---- What every run guarantees --------------------------------------------------------------------

  /** Evidence before effect: whoever is at work has a prepared record, fixing exactly the job
      it is doing, and no outcome yet. After a crash that record is what is left pending. */
  lemma EvidenceBeforeEffect(s: Sys, acts: seq<Action>, s': Sys, rid: Rid)
    requires Initial(s) && Run(s, acts, s') && rid in s'.live
    ensures exists i: nat :: PreparedAt(s'.log, i, s'.live[rid].job) && s'.log[i].rid == rid
              && Pending(s'.(live := map[]), i)
  {
    RunKeeps(s, acts, s');
    assert LiveOk(s', rid);
    var i: nat :| PreparedAt(s'.log, i, s'.live[rid].job);
    assert Pending(s'.(live := map[]), i);
  }

  /** Attribution: whatever foreign processes did to the tree, a read is attributed to the
      broker only if its content is exactly what the path's latest successful request asked
      to be put there. The file is read at one moment of the run, the log at a later one. */
  lemma AttributedReadsAreIntended(s: Sys, acts: seq<Action>, s': Sys, n: nat, r: Sys, p: Path)
      returns (asked: nat, done: nat)
    requires Initial(s) && Run(s, acts, s') && n <= |acts| && Run(s, acts[..n], r)
    requires p in r.w && r.w[p].Reg?
    requires BrokerVerdict(s'.ring, p, r.w[p].digest, r.w[p].att, Latest(s'.log)).Attributed?
    ensures asked < done < |s'.log|
    ensures Effective(s'.log[done]) && p in Latest(s'.log) && Latest(s'.log)[p] == Last(s'.log[done].rid, Wrote)
    ensures PreparedAt(s'.log, asked, s'.log[done].job.value)
    ensures var j := s'.log[asked].job.value;
      Signs(j) && j.target == p && j.rid == s'.log[done].rid && SignedDigest(j) == r.w[p].digest
  {
    RunKeeps(s, acts, s');
    RunKeeps(s, acts[..n], r);
    LogOnlyGrows(s, acts, s', n, r);
    var a := r.w[p].att.value;
    NoCheckpointVerifies(s'.ring, s'.others, a);
    assert Vouched(r.others, r.log, AttAt(r.w, p));
    var i: nat :| i < |r.log| && Asked(r.log, i, a.sig);
    assert Asked(s'.log, i, a.sig);
    done := LatestComesFrom(s'.log, p);
    var rid := s'.log[done].rid;
    assert EntryOk(s'.log, done);
    asked :| asked < done && PreparedAt(s'.log, asked, s'.log[done].job.value);
    var j := s'.log[i].job.value;
    MessageDetermines(rid, p, r.w[p].digest, j.rid, j.target, SignedDigest(j));
    assert EntryOk(s'.log, i) && EntryOk(s'.log, asked);
    assert RidOf(s'.log[i]) == Some(rid) == RidOf(s'.log[asked]);
    assert i == asked;
  }

  // ---- After a restart -------------------------------------------------------------------------------

  ghost predicate AllClosed(log: seq<Entry>) {
    forall e <- log :: e.Prepared? ==> IsClosed(log, e.rid)
  }

  /** What the broker does on its own at a start, and dying in it. */
  predicate AtRestart(a: Action) {
    a.Crash? || a.Resume? || a.Settle? || a.Work? || a.Conclude?
  }

  lemma NothingPending(s: Sys, at: nat)
    requires AllClosed(s.log)
    ensures !Pending(s, at)
  {
    if at < |s.log| { assert s.log[at] in s.log; }
  }

  /** Once every prepared request is closed, no number of restarts, cut short or not, moves a
      file, signs anything or appends a record. */
  lemma {:induction false} SecondRestartMovesNothing(s: Sys, acts: seq<Action>, s': Sys)
    requires Run(s, acts, s') && s.live == map[] && AllClosed(s.log)
    requires forall a <- acts :: AtRestart(a)
    ensures s' == s
  {
    if acts != [] {
      var front, a := acts[..|acts| - 1], acts[|acts| - 1];
      var t :| Run(s, front, t) && t.ring.active.Some? && Enabled(t, a) && s' == Next(t, a);
      assert a in acts;
      SecondRestartMovesNothing(s, front, t);
      if a.Resume? || a.Settle? { NothingPending(s, a.at); }
    }
  }

  predicate AsksFor(log: seq<Entry>, i: nat, d: Digest) {
    && i < |log| && log[i].Prepared? && log[i].job.Some?
    && Signs(log[i].job.value) && SignedDigest(log[i].job.value) == d
  }

  /** A chain of requests, each prepared after the next one in it: renames of one and the same
      content, each moving a file attested for the next request in the chain, back to a write. */
  ghost predicate Lineage(log: seq<Entry>, chain: seq<nat>, d: Digest) {
    && chain != []
    && (forall n | 0 <= n < |chain| :: AsksFor(log, chain[n], d))
    && log[chain[|chain| - 1]].job.value.Write?
    && (forall n | 0 <= n < |chain| - 1 :: chain[n + 1] < chain[n] && Follows(log, chain[n], chain[n + 1]))
  }

  /** Rename `i` moved a file that carried the signature request `k` asked for; and it moved it from
      where that request put it, unless there is a bar in that path. */
  ghost predicate Follows(log: seq<Entry>, i: nat, k: nat) {
    && i < |log| && log[i].Prepared? && log[i].job.Some? && log[i].job.value.Rename?
    && log[i].job.value.sourceAtt.Some? && Asked(log, k, log[i].job.value.sourceAtt.value.sig)
    && ('|' !in log[k].job.value.target ==>
          && log[i].job.value.source == log[k].job.value.target
          && log[i].job.value.sourceAtt.value.rid == log[k].rid)
  }

  lemma {:induction false} TraceBack(log: seq<Entry>, i: nat, sig: Sig) returns (chain: seq<nat>)
    requires LogOk(log) && Asked(log, i, sig)
    ensures Lineage(log, chain, SignedDigest(log[i].job.value)) && chain[0] == i
    decreases i
  {
    var j := log[i].job.value;
    chain := [i];
    if j.Rename? {
      assert EntryOk(log, i);
      var a := j.sourceAtt.value;
      var k: nat :| k < i && Asked(log, k, a.sig);
      var older := log[k].job.value;
      MessageDeterminesDigest(a.rid, j.source, j.before.digest, older.rid, older.target, SignedDigest(older));
      if '|' !in older.target {
        MessageDetermines(older.rid, older.target, SignedDigest(older), a.rid, j.source, j.before.digest);
      }
      var rest := TraceBack(log, k, a.sig);
      chain := [i] + rest;
    }
  }

  /** No laundering: every signature the broker ever makes is for a digest that some write
      request asked for, reached through a finite chain of renames of attested files, each from
      where the one before put it. */
  lemma NoLaundering(s: Sys, acts: seq<Action>, s': Sys, sig: Sig) returns (chain: seq<nat>, d: Digest)
    requires Initial(s) && Run(s, acts, s') && sig in s'.minted
    ensures Lineage(s'.log, chain, d) && Asked(s'.log, chain[0], sig)
  {
    RunKeeps(s, acts, s');
    var i: nat :| i < |s'.log| && Asked(s'.log, i, sig);
    chain := TraceBack(s'.log, i, sig);
    d := SignedDigest(s'.log[i].job.value);
  }

  /** The condition on the path is needed. Let a request for `u|v` have been signed. A file at `v` can
      carry that signature under other fields, and the check on a rename from `v` accepts it, though
      no request was ever for `v`. */
  lemma ABarInTheTargetLendsItsSignature(s: Sys, i: nat, u: string, v: string, kid: string, j: Job,
                                         key: Option<string>, hash: string)
    requires s.ring.active.Some? && kid in s.ring.publics
    requires i < |s.log| && s.log[i].Prepared? && s.log[i].job.Some? && Signs(s.log[i].job.value)
    requires s.log[i].job.value.target == u + "|" + v
    requires Sig(kid, SignedMessage(s.log[i].job.value)) in s.minted
    requires j.Rename? && j.source == v && j.rid !in Logged(s.log)
    requires var w := s.log[i].job.value;
      && j.before == Present(SignedDigest(w))
      && j.sourceAtt == Some(Att(w.rid + "|" + u, v, SignedDigest(w), kid, Sig(kid, SignedMessage(w))))
    ensures Enabled(s, Foreign(v, Some(Reg(j.before.digest, j.sourceAtt))))
    ensures Enabled(Next(s, Foreign(v, Some(Reg(j.before.digest, j.sourceAtt)))), Prepare(j, key, hash))
  {
    var w := s.log[i].job.value;
    ABarInTheTargetMoves(w.rid, u, v, SignedDigest(w));
  }

  lemma RunSnoc(s: Sys, acts: seq<Action>, t: Sys, a: Action)
    requires Run(s, acts, t) && t.ring.active.Some? && Enabled(t, a)
    ensures Run(s, acts + [a], Next(t, a))
  {
    assert (acts + [a])[..|acts|] == acts;
  }

  /** Two writes to one path can be concluded in the other order than they took effect in. Then the
      log's latest write is not the one that is there, and reading what is there is not attributed,
      though nothing foreign happened. */
  lemma ConcludedInTheOtherOrder(s: Sys, first: Rid, second: Rid, p: Path, x: State, y: State)
    requires s.ring.active.Some? && first in s.live && second in s.live && first != second
    requires s.live[first].Running? && s.live[first].pc == Done(true)
    requires s.live[second].Running? && s.live[second].pc == Done(true)
    requires s.live[first].job.Write? && s.live[first].job.target == p
    requires s.live[second].job.Write? && s.live[second].job.target == p
    requires p in s.w && s.w[p].Reg? && s.w[p].att.Some? && s.w[p].att.value.rid == second
    ensures var t := Next(Next(s, Conclude(second, x, x)), Conclude(first, y, y));
      && t.w == s.w && p in Latest(t.log) && Latest(t.log)[p] == Last(first, Wrote)
      && !BrokerVerdict(t.ring, p, t.w[p].digest, t.w[p].att, Latest(t.log)).Attributed?
  {
    var s1 := Next(s, Conclude(second, x, x));
    var t := Next(s1, Conclude(first, y, y));
    LatestSnoc(s1.log, t.log[|s1.log|]);
  }

  lemma WorkOnce(s: Sys, rid: Rid)
    requires s.ring.active.Some? && rid in s.live && s.live[rid].Running?
    ensures var j, c := s.live[rid].job, Conf(s.w, s.live[rid].pc);
      var kid := s.ring.active.value;
      var t := Next(s, Work(rid));
      && t.w == Step(kid, j, c).w && t.live == s.live[rid := Running(j, Step(kid, j, c).pc)]
      && t.minted == s.minted + Minted(kid, j, c) && t.log == s.log && t.ring == s.ring
  {
  }

  /** Undisturbed work on one request is its program. */
  lemma {:induction false} WorksOn(s0: Sys, acts: seq<Action>, s: Sys, rid: Rid, n: nat)
      returns (more: seq<Action>, s': Sys)
    requires Run(s0, acts, s) && s.ring.active.Some? && rid in s.live && s.live[rid].Running?
    ensures Run(s0, more, s') && s'.log == s.log && s'.ring == s.ring
    ensures var c := Steps(s.ring.active.value, s.live[rid].job, Conf(s.w, s.live[rid].pc), n);
      s'.w == c.w && s'.live == s.live[rid := Running(s.live[rid].job, c.pc)]
  {
    if n == 0 {
      more, s' := acts, s;
    } else {
      var front, t := WorksOn(s0, acts, s, rid, n - 1);
      RunSnoc(s0, front, t, Work(rid));
      WorkOnce(t, rid);
      more, s' := front + [Work(rid)], Next(t, Work(rid));
    }
  }

  /** And it can be the only request there has been: any write, once it has signed. */
  lemma AWriteSigns(s: Sys, w: Job, key: Option<string>, hash: string) returns (acts: seq<Action>, s': Sys)
    requires Initial(s) && w.Write? && w.private !in s.w && !(w.target in s.w && s.w[w.target].Link?)
    ensures Run(s, acts, s') && s'.log == [Prepared(w.rid, Some(w), key, hash)] && s'.ring == s.ring
    ensures Sig(s.ring.active.value, SignedMessage(w)) in s'.minted
  {
    var a := Prepare(w, key, hash);
    RunSnoc(s, [], s, a);
    var front, t := WorksOn(s, [] + [a], Next(s, a), w.rid, 2);
    assert Steps(s.ring.active.value, w, Conf(s.w, Begin), 1) == Conf(s.w, Create);
    RunSnoc(s, front, t, Work(w.rid));
    WorkOnce(t, w.rid);
    acts, s' := front + [Work(w.rid)], Next(t, Work(w.rid));
  }

  /** The tree after a write. */
  function Written(kid: string, j: Job, w: World): World
    requires j.Write?
  {
    w[j.target := Reg(j.digest, Some(Sealed(kid, j.rid, j.target, j.digest)))]
  }

  /** A write to a free name, or over the recorded file, undisturbed. */
  lemma WriteInSteps(kid: string, j: Job, w: World) returns (n: nat)
    requires j.Write? && j.private != j.target && j.private !in w && j.before == Observe(w, j.target)
    requires !j.before.Unavailable?
    ensures Steps(kid, j, Conf(w, Begin), n) == Conf(Written(kid, j, w), Done(true))
  {
    var mine := Reg(j.digest, Some(Sealed(kid, j.rid, j.target, j.digest)));
    var c := Conf(w, Begin);
    assert Steps(kid, j, c, 1) == Conf(w, Create);
    assert Steps(kid, j, c, 2) == Conf(w[j.private := Reg(j.digest, None)], Attest);
    assert w[j.private := Reg(j.digest, None)][j.private := mine] == w[j.private := mine];
    assert Steps(kid, j, c, 3) == Conf(w[j.private := mine], Swap);
    if j.before.Absent? {
      n := 4;
      assert Move(w[j.private := mine], j.private, j.target) == Written(kid, j, w);
    } else {
      n := 6;
      var swapped := Exchange(w[j.private := mine], j.private, j.target);
      assert Steps(kid, j, c, 4) == Conf(swapped, Inspect);
      assert Steps(kid, j, c, 5) == Conf(swapped, Drop(true));
      assert swapped - {j.private} == Written(kid, j, w);
    }
  }

  /** From anywhere in a run a write can be prepared and done, and not yet be concluded. */
  lemma WritesOn(s0: Sys, acts: seq<Action>, s: Sys, j: Job) returns (more: seq<Action>, s': Sys)
    requires Run(s0, acts, s) && s.ring.active.Some? && j.rid !in Logged(s.log)
    requires j.Write? && j.private != j.target && j.private !in s.w
    requires j.before == Observe(s.w, j.target) && !j.before.Unavailable?
    ensures Run(s0, more, s') && s'.ring == s.ring && s'.log == s.log + [Prepared(j.rid, Some(j), None, "")]
    ensures s'.live == s.live[j.rid := Running(j, Done(true))]
    ensures s'.w == Written(s.ring.active.value, j, s.w)
  {
    var a := Prepare(j, None, "");
    RunSnoc(s0, acts, s, a);
    var n := WriteInSteps(s.ring.active.value, j, s.w);
    more, s' := WorksOn(s0, acts + [a], Next(s, a), j.rid, n);
  }

  /** That state is reached: two writes to a free path, the second after the first has taken effect. */
  lemma TwoWritesTakeEffect(s: Sys, first: Job, second: Job) returns (acts: seq<Action>, s': Sys)
    requires Initial(s) && first.Write? && second.Write? && first.rid != second.rid
    requires first.target == second.target && first.target !in s.w
    requires first.private != first.target && second.private != first.target
    requires first.private !in s.w && second.private !in s.w
    requires first.before == Absent && second.before == Present(first.digest)
    ensures Run(s, acts, s') && s'.ring == s.ring
    ensures s'.live == map[first.rid := Running(first, Done(true)), second.rid := Running(second, Done(true))]
    ensures first.target in s'.w && s'.w[first.target].Reg?
    ensures AttAt(s'.w, first.target) ==
      Some(Sealed(s.ring.active.value, second.rid, first.target, second.digest))
  {
    var front, t := WritesOn(s, [], s, first);
    assert Logged(t.log) == {first.rid} by {
      assert t.log == [Prepared(first.rid, Some(first), None, "")];
      assert t.log[0] in t.log;
    }
    acts, s' := WritesOn(s, front, t, second);
  }
}
