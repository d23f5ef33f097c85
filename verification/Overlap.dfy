/** Requests that overlap in time but not in their names. Any number of them are under way at once,
    step by step in any order; crashes and recoveries fall anywhere. Each is still one atomic logged
    step, at the moment of its closing record. */
module Overlap {
  import opened Attest
  import opened Files
  import opened Effects
  import opened Record
  import opened Locality
  import R = Rename
  import S = Sequential

  /** `Down` and `Recovering` remember where the crash found the request. */
  datatype Phase = Running(pc: Pc) | Down(pc: Pc) | Recovering(pc: Pc, rpc: RPc)

  datatype Open = Open(job: Job, phase: Phase)

  /** `settled` is an account and no part of the program: the tree as if nothing still open had
      begun. */
  datatype State = State(w: World, settled: World, log: seq<Entry>, open: map<Rid, Open>)

  datatype Event =
    | Prepare(job: Job, key: Option<string>, hash: string)
    | Remark(about: Option<Rid>)
    | Go(rid: Rid)
    | Crash
    | Retry(rid: Rid)
    | Close(rid: Rid)

  predicate Apart(open: map<Rid, Open>, names: set<Path>) {
    forall r <- open :: Names(open[r].job) !! names
  }

  /** Over, or, after a crash, with nothing to recover. */
  predicate Closable(o: Open) {
    match o.phase
    case Running(pc) => pc.Done?
    case Down(_) => !o.job.Rename?
    case Recovering(_, rpc) => rpc.End?
  }

  /** The one case in which tree and log part: a write caught before its swap on a target that
      already held the content. */
  predicate AlreadyThere(o: Open) {
    && o.phase.Down? && o.job.Write? && o.job.before == Present(o.job.digest)
    && o.phase.pc in {Begin, Create, Attest, Swap}
  }

  ghost predicate Enabled(ring: Ring, s: State, e: Event) {
    match e
    case Prepare(j, _, _) =>
      j.rid !in Logged(s.log) && j.rid !in s.open && S.AsObserved(ring, s.w, j) && Apart(s.open, Names(j))
    case Remark(_) => true
    case Go(rid) =>
      rid in s.open && (s.open[rid].phase.Running? || (s.open[rid].phase.Recovering? && s.open[rid].job.Rename?))
    case Crash => true
    case Retry(rid) => rid in s.open && s.open[rid].phase.Down? && s.open[rid].job.Rename?
    case Close(rid) => rid in s.open && Closable(s.open[rid]) && !AlreadyThere(s.open[rid])
  }

  function ClosingRecord(s: State, rid: Rid): Entry
    requires rid in s.open && Closable(s.open[rid])
  {
    var o := s.open[rid];
    match o.phase
    case Running(pc) =>
      Outcome(rid, Some(o.job), if pc.ok then Succeeded else Failed, Some(VerdictIn(o.job, s.w)))
    case Down(_) => Reconciled(rid, Some(o.job), Some(VerdictIn(o.job, s.w)))
    case Recovering(_, rpc) => Reconciled(rid, Some(o.job), Some(rpc.verdict))
  }

  function Overwrite(base: World, w: World, names: set<Path>): World {
    map p | p in (base.Keys - names) + (w.Keys * names) :: if p in names then w[p] else base[p]
  }

  function Felled(o: Open): Open {
    match o.phase
    case Running(pc) => o.(phase := Down(pc))
    case Recovering(pc, _) => o.(phase := Down(pc))
    case Down(_) => o
  }

  function Next(ring: Ring, s: State, e: Event): State
    requires ring.active.Some? && Enabled(ring, s, e)
  {
    match e
    case Prepare(j, key, hash) =>
      s.(log := s.log + [Prepared(j.rid, Some(j), key, hash)], open := s.open[j.rid := Open(j, Running(Begin))])
    case Remark(about) => s.(log := s.log + [Note(about)])
    case Go(rid) =>
      var o := s.open[rid];
      if o.phase.Running? then
        var c := Step(ring.active.value, o.job, Conf(s.w, o.phase.pc));
        s.(w := c.w, open := s.open[rid := o.(phase := Running(c.pc))])
      else
        var c := RecoverStep(ring, o.job, RConf(s.w, o.phase.rpc));
        s.(w := c.w, open := s.open[rid := o.(phase := Recovering(o.phase.pc, c.pc))])
    case Crash => s.(open := map r | r in s.open :: Felled(s.open[r]))
    case Retry(rid) => s.(open := s.open[rid := s.open[rid].(phase := Recovering(s.open[rid].phase.pc, Look))])
    case Close(rid) =>
      s.(log := s.log + [ClosingRecord(s, rid)], open := s.open - {rid},
         settled := Overwrite(s.settled, s.w, Names(s.open[rid].job)))
  }

  // ---- What holds all the time -----------------------------------------------------------------

  /** The phase, and the tree at the request's names, are those of its own program alone on the
      settled tree. */
  ghost predicate Explains(ring: Ring, j: Job, base: World, w: World, phase: Phase,
                           n: nat, attempts: seq<R.Attempt>, m: nat)
    requires ring.active.Some?
  {
    var c := Steps(ring.active.value, j, Conf(base, Begin), n);
    && R.AllLater(ring, attempts)
    && match phase
       case Running(pc) => pc == c.pc && Agree(w, c.w, Names(j))
       case Down(pc) =>
         && pc == c.pc
         && (if j.Rename? then Agree(w, R.Crashes(ring, j, base, n, attempts), Names(j)) else Agree(w, c.w, Names(j)))
       case Recovering(pc, rpc) =>
         && pc == c.pc && j.Rename?
         && var d := RecoverSteps(ring, j, RConf(R.Crashes(ring, j, base, n, attempts), Look), m);
            rpc == d.pc && Agree(w, d.w, Names(j))
  }

  ghost predicate Explained(ring: Ring, j: Job, base: World, w: World, phase: Phase)
    requires ring.active.Some?
  {
    exists n, attempts, m :: Explains(ring, j, base, w, phase, n, attempts, m)
  }

  ghost predicate OpenOk(ring: Ring, s: State, r: Rid)
    requires ring.active.Some? && r in s.open
  {
    var o := s.open[r];
    && o.job.rid == r && S.AsObserved(ring, s.settled, o.job)
    && (exists i: nat :: PreparedAt(s.log, i, o.job)) && !IsClosed(s.log, r)
    && Explained(ring, o.job, s.settled, s.w, o.phase)
  }

  predicate OwnNames(open: map<Rid, Open>) {
    forall r, q | r in open && q in open && r != q :: Names(open[r].job) !! Names(open[q].job)
  }

  predicate Free(open: map<Rid, Open>, p: Path) {
    forall r <- open :: p !in Names(open[r].job)
  }

  ghost predicate Inv(ring: Ring, s: State) {
    && ring.active.Some? && ring.active.value in ring.publics
    && S.Consistent(ring, s.settled, s.log)
    && OwnNames(s.open)
    && (forall r <- s.open :: OpenOk(ring, s, r))
    && (forall p | Free(s.open, p) :: At(s.w, p) == At(s.settled, p))
  }

  // ---- Locality of the invariant ----------------------------------------------------------------

  /** Neither the tree nor the settled tree matters beyond the request's names. */
  lemma ExplainedIsLocal(ring: Ring, j: Job, base: World, base': World, w: World, w': World, phase: Phase)
    requires ring.active.Some? && Agree(base, base', Names(j)) && Agree(w, w', Names(j))
    requires Explained(ring, j, base, w, phase)
    ensures Explained(ring, j, base', w', phase)
  {
    var n: nat, attempts, m: nat :| Explains(ring, j, base, w, phase, n, attempts, m);
    StepsAreLocal(ring.active.value, j, base, base', n);
    if j.Rename? && !phase.Running? {
      CrashesAreLocal(ring, j, base, base', n, attempts);
      if phase.Recovering? {
        RecoverStepsAreLocal(ring, j, R.Crashes(ring, j, base, n, attempts), R.Crashes(ring, j, base', n, attempts), m);
      }
    }
    assert Explains(ring, j, base', w', phase, n, attempts, m);
  }

  lemma OpenOkIsLocal(ring: Ring, s: State, s': State, r: Rid)
    requires ring.active.Some? && r in s.open && r in s'.open && s'.open[r] == s.open[r] && OpenOk(ring, s, r)
    requires s.log <= s'.log && !IsClosed(s'.log, r)
    requires Agree(s.settled, s'.settled, Names(s.open[r].job)) && Agree(s.w, s'.w, Names(s.open[r].job))
    ensures OpenOk(ring, s', r)
  {
    var o := s.open[r];
    ObservedIsLocal(ring, s.settled, s'.settled, o.job);
    ExplainedIsLocal(ring, o.job, s.settled, s'.settled, s.w, s'.w, o.phase);
    var i: nat :| PreparedAt(s.log, i, o.job);
    assert PreparedAt(s'.log, i, o.job);
  }

  // ---- Every event -----------------------------------------------------------------------------------

  lemma StillOpen(log: seq<Entry>, e: Entry, r: Rid)
    requires !IsClosed(log, r) && !Closes(e, r)
    ensures !IsClosed(log + [e], r)
  {
  }

  lemma PrepareKeeps(ring: Ring, s: State, j: Job, key: Option<string>, hash: string)
    requires Inv(ring, s) && Enabled(ring, s, Prepare(j, key, hash))
    ensures Inv(ring, Next(ring, s, Prepare(j, key, hash)))
  {
    var s' := Next(ring, s, Prepare(j, key, hash));
    S.ConsistentQuiet(ring, s.settled, s.log, s'.log[|s.log|]);
    forall p <- Names(j) ensures At(s.w, p) == At(s.settled, p) {
      assert Free(s.open, p);
    }
    ObservedIsLocal(ring, s.w, s.settled, j);
    forall r <- s'.open ensures OpenOk(ring, s', r) {
      if r == j.rid {
        assert PreparedAt(s'.log, |s.log|, j);
        S.NeverLoggedIsOpen(s.log, s'.log[|s.log|], r);
        assert Explains(ring, j, s'.settled, s'.w, Running(Begin), 0, [], 0);
      } else {
        StillOpen(s.log, s'.log[|s.log|], r);
        OpenOkIsLocal(ring, s, s', r);
      }
    }
    forall p | Free(s'.open, p) ensures At(s'.w, p) == At(s'.settled, p) {
      assert Free(s.open, p) by {
        forall r <- s.open ensures p !in Names(s.open[r].job) { assert s'.open[r] == s.open[r]; }
      }
    }
  }

  lemma RemarkKeeps(ring: Ring, s: State, about: Option<Rid>)
    requires Inv(ring, s)
    ensures Inv(ring, Next(ring, s, Remark(about)))
  {
    var s' := Next(ring, s, Remark(about));
    S.ConsistentQuiet(ring, s.settled, s.log, Note(about));
    forall r <- s'.open ensures OpenOk(ring, s', r) {
      StillOpen(s.log, Note(about), r);
      OpenOkIsLocal(ring, s, s', r);
    }
  }

  lemma RunsOn(ring: Ring, j: Job, base: World, w: World, pc: Pc)
    requires ring.active.Some? && Explained(ring, j, base, w, Running(pc))
    ensures var c := Step(ring.active.value, j, Conf(w, pc));
      Elsewhere(w, c.w, Names(j)) && Explained(ring, j, base, c.w, Running(c.pc))
  {
    var n: nat, attempts, m: nat :| Explains(ring, j, base, w, Running(pc), n, attempts, m);
    var c := Steps(ring.active.value, j, Conf(base, Begin), n);
    StepIsLocal(ring.active.value, j, w, c.w, pc);
    var d := Step(ring.active.value, j, Conf(w, pc));
    assert Steps(ring.active.value, j, Conf(base, Begin), n + 1) == Step(ring.active.value, j, c);
    assert Explains(ring, j, base, d.w, Running(d.pc), n + 1, attempts, m);
  }

  lemma RecoversOn(ring: Ring, j: Job, base: World, w: World, pc: Pc, rpc: RPc)
    requires ring.active.Some? && j.Rename? && Explained(ring, j, base, w, Recovering(pc, rpc))
    ensures var c := RecoverStep(ring, j, RConf(w, rpc));
      Elsewhere(w, c.w, Names(j)) && Explained(ring, j, base, c.w, Recovering(pc, c.pc))
  {
    var n: nat, attempts, m: nat :| Explains(ring, j, base, w, Recovering(pc, rpc), n, attempts, m);
    var start := RConf(R.Crashes(ring, j, base, n, attempts), Look);
    var c := RecoverSteps(ring, j, start, m);
    RecoverStepIsLocal(ring, j, w, c.w, rpc);
    var d := RecoverStep(ring, j, RConf(w, rpc));
    assert RecoverSteps(ring, j, start, m + 1) == RecoverStep(ring, j, c);
    assert Explains(ring, j, base, d.w, Recovering(pc, d.pc), n, attempts, m + 1);
  }

  function Moved(s: State, rid: Rid, w: World, phase: Phase): State
    requires rid in s.open
  {
    s.(w := w, open := s.open[rid := s.open[rid].(phase := phase)])
  }

  lemma MovedOpenOk(ring: Ring, s: State, rid: Rid, w: World, phase: Phase, r: Rid)
    requires ring.active.Some? && OwnNames(s.open) && rid in s.open && r in s.open && OpenOk(ring, s, r)
    requires Elsewhere(s.w, w, Names(s.open[rid].job))
    requires Explained(ring, s.open[rid].job, s.settled, w, phase)
    ensures OpenOk(ring, Moved(s, rid, w, phase), r)
  {
    if r != rid {
      AgreeOnOthers(s.w, w, Names(s.open[rid].job), Names(s.open[r].job));
      OpenOkIsLocal(ring, s, Moved(s, rid, w, phase), r);
    }
  }

  /** What the others are at is not touched by one request's step. */
  lemma MovedKeeps(ring: Ring, s: State, rid: Rid, w: World, phase: Phase)
    requires Inv(ring, s) && rid in s.open
    requires Elsewhere(s.w, w, Names(s.open[rid].job))
    requires Explained(ring, s.open[rid].job, s.settled, w, phase)
    ensures Inv(ring, Moved(s, rid, w, phase))
  {
    var s' := Moved(s, rid, w, phase);
    MovedFree(s, rid, w, phase);
    MovedOthers(ring, s, rid, w, phase);
    SameJobs(s.open, s'.open);
  }

  lemma MovedOthers(ring: Ring, s: State, rid: Rid, w: World, phase: Phase)
    requires Inv(ring, s) && rid in s.open
    requires Elsewhere(s.w, w, Names(s.open[rid].job))
    requires Explained(ring, s.open[rid].job, s.settled, w, phase)
    ensures var s' := Moved(s, rid, w, phase); forall r <- s'.open :: OpenOk(ring, s', r)
  {
    forall r <- Moved(s, rid, w, phase).open ensures OpenOk(ring, Moved(s, rid, w, phase), r) {
      MovedOpenOk(ring, s, rid, w, phase, r);
    }
  }

  lemma MovedFree(s: State, rid: Rid, w: World, phase: Phase)
    requires rid in s.open && Elsewhere(s.w, w, Names(s.open[rid].job))
    requires forall p | Free(s.open, p) :: At(s.w, p) == At(s.settled, p)
    ensures var s' := Moved(s, rid, w, phase); forall p | Free(s'.open, p) :: At(s'.w, p) == At(s'.settled, p)
  {
    var s' := Moved(s, rid, w, phase);
    SameJobs(s.open, s'.open);
    forall p | Free(s'.open, p) ensures At(s'.w, p) == At(s'.settled, p) {
      assert Free(s.open, p) && p !in Names(s.open[rid].job);
    }
  }

  /** One more step of a request's own program. */
  lemma GoKeeps(ring: Ring, s: State, rid: Rid)
    requires Inv(ring, s) && Enabled(ring, s, Go(rid))
    ensures Inv(ring, Next(ring, s, Go(rid)))
  {
    assert OpenOk(ring, s, rid);
    var j := s.open[rid].job;
    match s.open[rid].phase {
      case Running(pc) =>
        RunsOn(ring, j, s.settled, s.w, pc);
        var c := Step(ring.active.value, j, Conf(s.w, pc));
        MovedKeeps(ring, s, rid, c.w, Running(c.pc));
      case Recovering(pc, rpc) =>
        RecoversOn(ring, j, s.settled, s.w, pc, rpc);
        var c := RecoverStep(ring, j, RConf(s.w, rpc));
        MovedKeeps(ring, s, rid, c.w, Recovering(pc, c.pc));
      case Down(_) =>
    }
  }

  lemma SameJobs(open: map<Rid, Open>, open': map<Rid, Open>)
    requires open'.Keys == open.Keys && forall r <- open :: open'[r].job == open[r].job
    ensures OwnNames(open) ==> OwnNames(open')
    ensures forall p :: Free(open', p) <==> Free(open, p)
  {
    forall p ensures Free(open', p) <==> Free(open, p) {
      if Free(open', p) {
        forall r <- open ensures p !in Names(open[r].job) { assert p !in Names(open'[r].job); }
      }
      if Free(open, p) {
        forall r <- open' ensures p !in Names(open'[r].job) { assert p !in Names(open[r].job); }
      }
    }
  }

  lemma FelledIsExplained(ring: Ring, base: World, w: World, o: Open)
    requires ring.active.Some? && Explained(ring, o.job, base, w, o.phase)
    ensures Explained(ring, o.job, base, w, Felled(o).phase)
  {
    var n: nat, attempts, m: nat :| Explains(ring, o.job, base, w, o.phase, n, attempts, m);
    match o.phase {
      case Running(pc) =>
        assert Explains(ring, o.job, base, w, Down(pc), n, [], m);
      case Recovering(pc, _) =>
        var more := attempts + [R.Attempt(ring, m)];
        assert more[..|attempts|] == attempts;
        assert Explains(ring, o.job, base, w, Down(pc), n, more, m);
      case Down(_) =>
    }
  }

  lemma CrashKeeps(ring: Ring, s: State)
    requires Inv(ring, s)
    ensures Inv(ring, Next(ring, s, Crash))
  {
    var s' := Next(ring, s, Crash);
    SameJobs(s.open, s'.open);
    forall r <- s'.open ensures OpenOk(ring, s', r) {
      assert OpenOk(ring, s, r);
      FelledIsExplained(ring, s.settled, s.w, s.open[r]);
    }
  }

  lemma RetryKeeps(ring: Ring, s: State, rid: Rid)
    requires Inv(ring, s) && Enabled(ring, s, Retry(rid))
    ensures Inv(ring, Next(ring, s, Retry(rid)))
  {
    assert OpenOk(ring, s, rid);
    var j, phase := s.open[rid].job, s.open[rid].phase;
    var n: nat, attempts, m: nat :| Explains(ring, j, s.settled, s.w, phase, n, attempts, m);
    assert Explains(ring, j, s.settled, s.w, Recovering(phase.pc, Look), n, attempts, 0);
    MovedKeeps(ring, s, rid, s.w, Recovering(phase.pc, Look));
  }

  // ---- Closing: one atomic step of the settled tree ----------------------------------------------

  /** What the closing record and the tree at the request's names say is what the request alone would
      have come to on the settled tree. */
  lemma ClosesAs(ring: Ring, s: State, rid: Rid) returns (plan: S.Plan)
    requires Inv(ring, s) && rid in s.open && Closable(s.open[rid])
    ensures var j := s.open[rid].job;
      && S.KeysGrow(ring, plan) && (S.AlreadyThere(ring, j, s.settled, plan) <==> AlreadyThere(s.open[rid]))
      && ClosingRecord(s, rid) == S.Closing(ring, j, s.settled, plan)
      && Overwrite(s.settled, s.w, Names(j)) == S.WorldAfter(ring, j, s.settled, plan)
  {
    var o, j := s.open[rid], s.open[rid].job;
    assert OpenOk(ring, s, rid);
    var n: nat, attempts, m: nat :| Explains(ring, j, s.settled, s.w, o.phase, n, attempts, m);
    match o.phase {
      case Running(_) => plan := S.Finishes; FinishedAs(ring, j, s.settled, n);
      case Down(_) => plan := S.Crashes(n, [], ring); StepsAreLocal(ring.active.value, j, s.settled, s.settled, n);
      case Recovering(_, _) => plan := S.Crashes(n, attempts, ring); RecoveredAs(ring, j, s.settled, n, attempts, m);
    }
    var after := S.WorldAfter(ring, j, s.settled, plan);
    VerdictIsLocal(j, s.w, after);
    OverwriteIs(s.settled, s.w, after, Names(j));
  }

  lemma FinishedAs(ring: Ring, j: Job, base: World, n: nat)
    requires ring.active.Some? && Steps(ring.active.value, j, Conf(base, Begin), n).pc.Done?
    ensures var c := Steps(ring.active.value, j, Conf(base, Begin), n);
      Finish(ring.active.value, j, Conf(base, Begin)) == c && Elsewhere(base, c.w, Names(j))
  {
    StepsThenFinish(ring.active.value, j, base, n);
    StepsAreLocal(ring.active.value, j, base, base, n);
  }

  lemma RecoveredAs(ring: Ring, j: Job, base: World, n: nat, attempts: seq<R.Attempt>, m: nat)
    requires ring.active.Some? && j.Rename?
    requires RecoverSteps(ring, j, RConf(R.Crashes(ring, j, base, n, attempts), Look), m).pc.End?
    ensures var start := R.Crashes(ring, j, base, n, attempts);
      var d := RecoverSteps(ring, j, RConf(start, Look), m);
      Recover(ring, j, RConf(start, Look)) == d && Elsewhere(base, d.w, Names(j))
  {
    var start := R.Crashes(ring, j, base, n, attempts);
    StepsThenRecover(ring, j, start, m);
    CrashesAreLocal(ring, j, base, base, n, attempts);
    RecoverStepsAreLocal(ring, j, start, start, m);
    ElsewhereGoesOn(base, start, RecoverSteps(ring, j, RConf(start, Look), m).w, Names(j));
  }

  lemma OverwriteIs(base: World, w: World, after: World, names: set<Path>)
    requires Agree(w, after, names) && Elsewhere(base, after, names)
    ensures Overwrite(base, w, names) == after
  {
    var o := Overwrite(base, w, names);
    forall p ensures At(o, p) == At(after, p) {
      assert At(o, p) == if p in names then At(w, p) else At(base, p);
    }
    SameEverywhere(o, after, names);
  }

  lemma OverwriteElsewhere(base: World, w: World, names: set<Path>)
    ensures Elsewhere(base, Overwrite(base, w, names), names)
    ensures Agree(w, Overwrite(base, w, names), names)
  {
  }

  lemma CloseKeeps(ring: Ring, s: State, rid: Rid)
    requires Inv(ring, s) && Enabled(ring, s, Close(rid))
    ensures Inv(ring, Next(ring, s, Close(rid)))
  {
    var s', j := Next(ring, s, Close(rid)), s.open[rid].job;
    assert OpenOk(ring, s, rid);
    var plan := ClosesAs(ring, s, rid);
    S.ClosingKeepsConsistency(ring, s.settled, s.log, j, plan);
    OverwriteElsewhere(s.settled, s.w, Names(j));
    forall r <- s'.open ensures OpenOk(ring, s', r) {
      assert OpenOk(ring, s, r);
      AgreeOnOthers(s.settled, s'.settled, Names(j), Names(s.open[r].job));
      StillOpen(s.log, s'.log[|s.log|], r);
      OpenOkIsLocal(ring, s, s', r);
    }
    forall p | Free(s'.open, p) ensures At(s'.w, p) == At(s'.settled, p) {
      if p !in Names(j) {
        assert Free(s.open, p) by {
          forall r <- s.open ensures p !in Names(s.open[r].job) {
            if r != rid { assert r in s'.open; }
          }
        }
      }
    }
  }

  /** Closing a request keeps the settled tree and the log in agreement exactly if it is not the one
      case, in which the restart confirms a write whose file carries another attestation. */
  lemma ClosingAgreesIff(ring: Ring, s: State, rid: Rid)
    requires Inv(ring, s) && rid in s.open && Closable(s.open[rid]) && !Marked(s.open[rid].job.target)
    ensures S.Consistent(ring, Overwrite(s.settled, s.w, Names(s.open[rid].job)), s.log + [ClosingRecord(s, rid)])
       <==> !AlreadyThere(s.open[rid])
  {
    var j := s.open[rid].job;
    assert OpenOk(ring, s, rid);
    var plan := ClosesAs(ring, s, rid);
    if AlreadyThere(s.open[rid]) {
      S.ClosingAlreadyThereDisagrees(ring, s.settled, s.log, j, plan);
    } else {
      S.ClosingKeepsConsistency(ring, s.settled, s.log, j, plan);
    }
  }

  lemma NextKeeps(ring: Ring, s: State, e: Event)
    requires Inv(ring, s) && Enabled(ring, s, e)
    ensures Inv(ring, Next(ring, s, e))
  {
    match e {
      case Prepare(j, key, hash) => PrepareKeeps(ring, s, j, key, hash);
      case Remark(about) => RemarkKeeps(ring, s, about);
      case Go(rid) => GoKeeps(ring, s, rid);
      case Crash => CrashKeeps(ring, s);
      case Retry(rid) => RetryKeeps(ring, s, rid);
      case Close(rid) => CloseKeeps(ring, s, rid);
    }
  }

  // ---- Whole runs ------------------------------------------------------------------------------------

  ghost predicate Leads(ring: Ring, s: State, e: Event, s': State)
    requires ring.active.Some?
  {
    Enabled(ring, s, e) && s' == Next(ring, s, e)
  }

  ghost predicate Run(ring: Ring, s: State, es: seq<Event>, s': State)
    requires ring.active.Some?
  {
    if es == [] then s' == s
    else
      var front, e := es[..|es| - 1], es[|es| - 1];
      exists t :: Run(ring, s, front, t) && Leads(ring, t, e, s')
  }

  ghost predicate Initial(ring: Ring, s: State) {
    && ring.active.Some? && ring.active.value in ring.publics
    && s.log == [] && s.open == map[] && s.settled == s.w && S.Consistent(ring, s.w, [])
  }

  lemma {:induction false} RunKeeps(ring: Ring, s: State, es: seq<Event>, s': State)
    requires Initial(ring, s) && Run(ring, s, es, s')
    ensures Inv(ring, s')
  {
    if es != [] {
      var front, e := es[..|es| - 1], es[|es| - 1];
      var t :| Run(ring, s, front, t) && Leads(ring, t, e, s');
      RunKeeps(ring, s, front, t);
      NextKeeps(ring, t, e);
    }
  }

  predicate Governed(es: seq<Event>) {
    forall e <- es :: e.Prepare? ==> !Marked(e.job.target)
  }

  ghost predicate OpenGoverned(s: State) {
    S.TargetsGoverned(s.log) && forall r <- s.open :: !Marked(s.open[r].job.target)
  }

  lemma {:induction false} RunGoverned(ring: Ring, s: State, es: seq<Event>, s': State)
    requires Initial(ring, s) && Run(ring, s, es, s') && Governed(es)
    ensures OpenGoverned(s')
  {
    if es != [] {
      var front, e := es[..|es| - 1], es[|es| - 1];
      var t :| Run(ring, s, front, t) && Leads(ring, t, e, s');
      assert e in es && forall x <- front :: x in es;
      RunGoverned(ring, s, front, t);
      NextGoverned(ring, t, e);
    }
  }

  lemma NextGoverned(ring: Ring, s: State, e: Event)
    requires ring.active.Some? && OpenGoverned(s) && Enabled(ring, s, e) && (e.Prepare? ==> !Marked(e.job.target))
    ensures OpenGoverned(Next(ring, s, e))
  {
    match e {
      case Close(rid) => assert Effective(ClosingRecord(s, rid)) ==> !Marked(ClosingRecord(s, rid).job.value.target);
      case _ =>
    }
  }

  /** At any moment of any run, whatever is under way: a governed path that no open request names
      matches its latest successful log entry. And once nothing is open, the world check finds nothing
      about any governed path, and nothing at all if no request was for a private one. */
  lemma OverlappingRunsStayConsistent(ring: Ring, s: State, es: seq<Event>, s': State, p: Path, f: Finding)
    requires Initial(ring, s) && Run(ring, s, es, s')
    ensures Free(s'.open, p) && !Marked(p) ==> S.PathOk(ring, s'.w, s'.log, p)
    ensures s'.open == map[] ==> (Found(ring, s'.w, s'.log, f) ==> Marked(f.target))
    ensures s'.open == map[] && Governed(es) ==> !Found(ring, s'.w, s'.log, f)
  {
    RunKeeps(ring, s, es, s');
    if Free(s'.open, p) && !Marked(p) {
      assert S.PathOk(ring, s'.settled, s'.log, p);
      assert At(s'.w, p) == At(s'.settled, p);
    }
    if s'.open == map[] {
      SameWithNoneOpen(s');
      S.ConsistentIsClean(ring, s'.w, s'.log, f);
      if Governed(es) {
        RunGoverned(ring, s, es, s');
        S.NothingFound(ring, s'.w, s'.log, f);
      }
    }
  }

  lemma SameWithNoneOpen(s: State)
    requires s.open == map[] && forall p | Free(s.open, p) :: At(s.w, p) == At(s.settled, p)
    ensures s.w == s.settled
  {
    forall p ensures At(s.w, p) == At(s.settled, p) {
      assert Free(s.open, p);
    }
    SameEverywhere(s.w, s.settled, {});
  }

  // ---- One atomic step at the closing record ---------------------------------------------------------

  function Rings(ring: Ring, n: nat): seq<Ring> {
    seq(n, _ => ring)
  }

  lemma ReplayMore(ring: Ring, w: World, log: seq<Entry>, e: Entry)
    requires ring.active.Some?
    ensures S.Replay(w, log + [e], Rings(ring, |log| + 1))
         == if Effective(e) then S.Abs(S.Applied(ring, e.job.value, S.Replay(w, log, Rings(ring, |log|))))
            else S.Replay(w, log, Rings(ring, |log|))
  {
    assert Rings(ring, |log| + 1) == Rings(ring, |log|) + [ring];
    S.ReplaySnoc(w, log, Rings(ring, |log|), e, ring);
  }

  ghost predicate Replayed(ring: Ring, w: World, settled: World, log: seq<Entry>)
    requires ring.active.Some?
  {
    S.Abs(settled) == S.Replay(w, log, Rings(ring, |log|))
  }

  lemma ReplayedQuiet(ring: Ring, w: World, settled: World, log: seq<Entry>, e: Entry)
    requires ring.active.Some? && Replayed(ring, w, settled, log) && !Effective(e)
    ensures Replayed(ring, w, settled, log + [e])
  {
    ReplayMore(ring, w, log, e);
  }

  lemma ReplayedClosing(ring: Ring, w: World, s: State, rid: Rid)
    requires Inv(ring, s) && Enabled(ring, s, Close(rid)) && Replayed(ring, w, s.settled, s.log)
    ensures Replayed(ring, w, Overwrite(s.settled, s.w, Names(s.open[rid].job)), s.log + [ClosingRecord(s, rid)])
  {
    var j := s.open[rid].job;
    assert OpenOk(ring, s, rid);
    var plan := ClosesAs(ring, s, rid);
    S.RequestIsAtomic(ring, s.settled, j, plan);
    S.AppliedGoverned(ring, j, s.settled);
    ReplayMore(ring, w, s.log, ClosingRecord(s, rid));
  }

  lemma SettledByReplay(ring: Ring, w: World, s: State, e: Event)
    requires Inv(ring, s) && Enabled(ring, s, e) && Replayed(ring, w, s.settled, s.log)
    ensures var s' := Next(ring, s, e); Replayed(ring, w, s'.settled, s'.log)
  {
    match e {
      case Prepare(j, key, hash) => ReplayedQuiet(ring, w, s.settled, s.log, Prepared(j.rid, Some(j), key, hash));
      case Remark(about) => ReplayedQuiet(ring, w, s.settled, s.log, Note(about));
      case Close(rid) => ReplayedClosing(ring, w, s, rid);
      case Go(_) =>
      case Crash =>
      case Retry(_) =>
    }
  }

  lemma {:induction false} RunSettles(ring: Ring, s: State, es: seq<Event>, s': State)
    requires Initial(ring, s) && Run(ring, s, es, s')
    ensures Replayed(ring, s.w, s'.settled, s'.log)
  {
    if es != [] {
      var front, e := es[..|es| - 1], es[|es| - 1];
      var t :| Run(ring, s, front, t) && Leads(ring, t, e, s');
      RunSettles(ring, s, front, t);
      RunKeeps(ring, s, front, t);
      SettledByReplay(ring, s.w, t, e);
    }
  }

  /** So the requests were atomic after all, in the order of their closing records: at every governed
      path that no open request names, the tree is what replaying the log's effects makes of the
      initial one. */
  lemma OverlappingRequestsAreAtomic(ring: Ring, s: State, es: seq<Event>, s': State, p: Path)
    requires Initial(ring, s) && Run(ring, s, es, s') && Free(s'.open, p) && !Marked(p)
    ensures At(s'.w, p) == At(S.Replay(s.w, s'.log, Rings(ring, |s'.log|)), p)
  {
    RunKeeps(ring, s, es, s');
    RunSettles(ring, s, es, s');
    assert At(s'.w, p) == At(s'.settled, p) == At(S.Abs(s'.settled), p);
  }
}
