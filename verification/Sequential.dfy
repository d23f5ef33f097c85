/** Requests one after the other, each of which may crash between any two of its steps and be
    reconciled at the restart. The world stays what the log says it is. */
module Sequential {
  import opened Attest
  import opened Files
  import opened Effects
  import opened Record
  import Cas
  import R = Rename

  // ---- One request ---------------------------------------------------------------------

  /** How a request ends: undisturbed, or by a crash after `n` steps and then, for a rename,
      recoveries cut short before one completes under the keys there are by then. */
  datatype Plan = Finishes | Crashes(n: nat, attempts: seq<R.Attempt>, now: Ring)

  /** Keys are only ever added. */
  predicate KeysGrow(ring: Ring, plan: Plan) {
    plan.Crashes? ==> R.AllLater(ring, plan.attempts) && R.Later(ring, plan.now)
  }

  function RingAfter(ring: Ring, plan: Plan): Ring {
    if plan.Crashes? then plan.now else ring
  }

  function Kid(ring: Ring): string
    requires ring.active.Some?
  {
    ring.active.value
  }

  /** The request was recorded as the world is: states observed, a rename's source checked, private
      names nobody uses. */
  ghost predicate AsObserved(ring: Ring, w: World, j: Job) {
    && j.private !in w && Marked(j.private) && j.private != j.target && j.private != SourceOf(j)
    && match j
       case Rename(_, _, _, _, _, _, _, _) => R.Recorded(ring, j, w) && RenameAllowed(ring, j)
       case _ => j.before == Observe(w, j.target)
  }

  /** And under a request id never used. */
  ghost predicate AsRecorded(ring: Ring, w: World, log: seq<Entry>, j: Job) {
    j.rid !in Logged(log) && AsObserved(ring, w, j)
  }

  function WorldAfter(ring: Ring, j: Job, w: World, plan: Plan): World
    requires ring.active.Some?
  {
    match plan
    case Finishes => Finish(Kid(ring), j, Conf(w, Begin)).w
    case Crashes(n, attempts, now) =>
      if j.Rename? then Recover(now, j, RConf(R.Crashes(ring, j, w, n, attempts), Look)).w
      else Steps(Kid(ring), j, Conf(w, Begin), n).w
  }

  /** The closing record: the live outcome, or the reconciliation at the restart. */
  function Closing(ring: Ring, j: Job, w: World, plan: Plan): Entry
    requires ring.active.Some?
  {
    match plan
    case Finishes =>
      var c := Finish(Kid(ring), j, Conf(w, Begin));
      Outcome(j.rid, Some(j), if c.pc.ok then Succeeded else Failed, Some(VerdictIn(j, c.w)))
    case Crashes(n, attempts, now) =>
      Reconciled(j.rid, Some(j), Some(
        if j.Rename? then Recover(now, j, RConf(R.Crashes(ring, j, w, n, attempts), Look)).pc.verdict
        else VerdictIn(j, WorldAfter(ring, j, w, plan))))
  }

  // ---- The atomic specification ------------------------------------------------------------

  /** The effect as one atomic step. */
  function Applied(ring: Ring, j: Job, w: World): World
    requires ring.active.Some?
  {
    match j
    case Write(rid, target, _, d, _) => w[target := Reg(d, Some(Sealed(Kid(ring), rid, target, d)))]
    case Delete(_, target, _, _) => w - {target}
    case Rename(_, _, _, _, before, _, _, _) => if before.Present? then R.Moved(ring, j, w) else w
  }

  /** The governed names only. */
  function Abs(w: World): World {
    map p | p in w && !Marked(p) :: w[p]
  }

  /** A write caught before its swap, on a target that already holds the intended content. */
  ghost predicate AlreadyThere(ring: Ring, j: Job, w: World, plan: Plan)
    requires ring.active.Some?
  {
    && plan.Crashes? && j.Write? && j.before == Present(j.digest)
    && Steps(Kid(ring), j, Conf(w, Begin), plan.n).pc in {Begin, Create, Attest, Swap}
  }

  // ---- Where a write or a delete can be after `n` steps ---------------------------------------

  ghost predicate WriteAt(ring: Ring, j: Job, w: World, c: Conf)
    requires j.Write? && ring.active.Some?
  {
    var mine := Reg(j.digest, Some(Sealed(Kid(ring), j.rid, j.target, j.digest)));
    || (&& c.pc in {Begin, Create, Attest, Swap, Done(false)}
        && Cas.Visible(j, c.w) == w
        && (c.pc in {Begin, Create} ==> j.private !in c.w)
        && (c.pc in {Create, Attest, Swap} ==> !(j.target in w && w[j.target].Link?))
        && (c.pc == Attest ==> HasDigest(c.w, j.private, j.digest))
        && (c.pc == Swap ==> j.private in c.w && c.w[j.private] == mine)
        && (c.pc == Done(false) ==> j.before == Unavailable))
    || (&& c.pc in {Inspect, Drop(true), Done(true)}
        && Cas.Visible(j, c.w) == Applied(ring, j, w) && j.before != Unavailable
        && (c.pc in {Inspect, Drop(true)} ==>
              j.before.Present? && j.private in c.w && j.target in w && c.w[j.private] == w[j.target]))
  }

  lemma WriteStep(ring: Ring, j: Job, w: World, c: Conf)
    requires ring.active.Some? && j.Write? && j.private != j.target && j.private !in w
    requires j.before == Observe(w, j.target) && WriteAt(ring, j, w, c)
    ensures WriteAt(ring, j, w, Step(Kid(ring), j, c))
  {
    var c' := Step(Kid(ring), j, c);
    assert j.target in Cas.Visible(j, c.w) <==> j.target in c.w;
    if c.pc == Swap && c'.w != c.w {
      assert c.w[j.target := c.w[j.private]] - {j.private} == Cas.Visible(j, c.w)[j.target := c.w[j.private]];
      assert Cas.Visible(j, c'.w) == Applied(ring, j, w);
    } else if c.pc in {Create, Attest, Drop(true)} {
      assert Cas.Visible(j, c'.w) == Cas.Visible(j, c.w);
    }
  }

  ghost predicate DeleteAt(ring: Ring, j: Job, w: World, c: Conf)
    requires j.Delete? && ring.active.Some?
  {
    || (&& c.pc in {Begin, Claim, Done(false)} && c.w == w
        && (c.pc == Done(false) ==> !j.before.Present?))
    || (&& c.pc in {Inspect, Drop(true), Done(true)} && j.before.Present?
        && Cas.Visible(j, c.w) == Applied(ring, j, w)
        && (c.pc in {Inspect, Drop(true)} ==>
              j.private in c.w && j.target in w && c.w[j.private] == w[j.target]))
  }

  lemma DeleteStep(ring: Ring, j: Job, w: World, c: Conf)
    requires ring.active.Some? && j.Delete? && j.private != j.target && j.private !in w
    requires j.before == Observe(w, j.target) && DeleteAt(ring, j, w, c)
    ensures DeleteAt(ring, j, w, Step(Kid(ring), j, c))
  {
    var c' := Step(Kid(ring), j, c);
    if c.pc == Claim && c'.w != c.w {
      assert Cas.Visible(j, c'.w) == Applied(ring, j, w);
    } else if c.pc == Drop(true) {
      assert Cas.Visible(j, c'.w) == Cas.Visible(j, c.w);
    }
  }

  ghost predicate At(ring: Ring, j: Job, w: World, c: Conf)
    requires !j.Rename? && ring.active.Some?
  {
    if j.Write? then WriteAt(ring, j, w, c) else DeleteAt(ring, j, w, c)
  }

  lemma {:induction false} AtSteps(ring: Ring, j: Job, w: World, n: nat)
    requires ring.active.Some? && !j.Rename? && j.private != j.target && j.private !in w
    requires j.before == Observe(w, j.target)
    ensures At(ring, j, w, Steps(Kid(ring), j, Conf(w, Begin), n))
  {
    if n == 0 {
      assert Cas.Visible(j, w) == w;
    } else {
      AtSteps(ring, j, w, n - 1);
      var c := Steps(Kid(ring), j, Conf(w, Begin), n - 1);
      if j.Write? { WriteStep(ring, j, w, c); } else { DeleteStep(ring, j, w, c); }
    }
  }

  lemma {:induction false} AtFinish(ring: Ring, j: Job, w: World, c: Conf)
    requires ring.active.Some? && !j.Rename? && j.private != j.target && j.private !in w
    requires j.before == Observe(w, j.target) && At(ring, j, w, c)
    ensures At(ring, j, w, Finish(Kid(ring), j, c))
    decreases Rank(c.pc)
  {
    if !c.pc.Done? {
      if j.Write? { WriteStep(ring, j, w, c); } else { DeleteStep(ring, j, w, c); }
      AtFinish(ring, j, w, Step(Kid(ring), j, c));
    }
  }

  // ---- Each request is one atomic logged step, or none ----------------------------------------

  lemma AbsIgnoresPrivate(j: Job, w: World)
    requires Marked(j.private)
    ensures Abs(Cas.Visible(j, w)) == Abs(w)
  {}

  /** The governed names after the request are those of the atomic step if the closing record
      says so, and unchanged if it does not. */
  lemma RequestIsAtomic(ring: Ring, w: World, j: Job, plan: Plan)
    requires ring.active.Some? && AsObserved(ring, w, j) && KeysGrow(ring, plan)
    requires !AlreadyThere(ring, j, w, plan)
    ensures Abs(WorldAfter(ring, j, w, plan))
         == if Effective(Closing(ring, j, w, plan)) then Abs(Applied(ring, j, w)) else Abs(w)
    ensures Effective(Closing(ring, j, w, plan)) && j.Rename? ==> j.source != j.target
  {
    var w' := WorldAfter(ring, j, w, plan);
    if j.Rename? {
      match plan {
        case Finishes => R.LiveRename(ring, j, w);
        case Crashes(n, attempts, now) => R.CrashedRenameIsAllOrNothing(ring, j, w, n, attempts, now);
      }
    } else {
      var c := match plan
        case Finishes => Finish(Kid(ring), j, Conf(w, Begin))
        case Crashes(n, _, _) => Steps(Kid(ring), j, Conf(w, Begin), n);
      AtSteps(ring, j, w, 0);
      match plan {
        case Finishes => AtFinish(ring, j, w, Conf(w, Begin));
        case Crashes(n, _, _) => AtSteps(ring, j, w, n);
      }
      assert Observe(c.w, j.target) == Observe(Cas.Visible(j, c.w), j.target);
      AbsIgnoresPrivate(j, c.w);
    }
  }

  // ---- The world matches the log ------------------------------------------------------------------

  /** File `f` at `p` is what request `rid` asked for, attested by that request. */
  ghost predicate IsTheWrite(ring: Ring, log: seq<Entry>, p: Path, rid: Rid, f: Node) {
    && f.Reg? && f.att.Some? && Verifies(ring, f.att.value)
    && f.att.value.rid == rid && f.att.value.target == p && f.att.value.digest == f.digest
    && exists i: nat :: i < |log| && log[i].Prepared? && log[i].job.Some? && log[i].rid == rid
         && Signs(log[i].job.value) && log[i].job.value.target == p
         && SignedDigest(log[i].job.value) == f.digest
  }

  ghost predicate PathOk(ring: Ring, w: World, log: seq<Entry>, p: Path) {
    if p !in Latest(log) then AttAt(w, p).None?
    else if Latest(log)[p].op == Deleted then p !in w
    else p in w && IsTheWrite(ring, log, p, Latest(log)[p].rid, w[p])
  }

  /** Every governed name matches its latest successful log entry. */
  ghost predicate Consistent(ring: Ring, w: World, log: seq<Entry>) {
    forall p | !Marked(p) :: PathOk(ring, w, log, p)
  }

  lemma IsTheWriteGrows(ring: Ring, log: seq<Entry>, e: Entry, p: Path, rid: Rid, f: Node)
    requires IsTheWrite(ring, log, p, rid, f)
    ensures IsTheWrite(ring, log + [e], p, rid, f)
  {
    var i: nat :| i < |log| && log[i].Prepared? && log[i].job.Some? && log[i].rid == rid
      && Signs(log[i].job.value) && log[i].job.value.target == p && SignedDigest(log[i].job.value) == f.digest;
    assert (log + [e])[i] == log[i];
  }

  /** Two worlds with the same governed names are consistent with the same logs. */
  lemma ConsistentGoverned(ring: Ring, w: World, w': World, log: seq<Entry>)
    requires Abs(w) == Abs(w') && Consistent(ring, w, log)
    ensures Consistent(ring, w', log)
  {
    forall p | !Marked(p) ensures PathOk(ring, w', log, p) {
      assert PathOk(ring, w, log, p);
      assert p in w <==> p in Abs(w);
      assert p in w' <==> p in Abs(w');
      assert p in w ==> w[p] == Abs(w)[p] && w'[p] == Abs(w')[p];
    }
  }

  lemma ConsistentQuiet(ring: Ring, w: World, log: seq<Entry>, e: Entry)
    requires Consistent(ring, w, log) && !Effective(e)
    ensures Consistent(ring, w, log + [e])
  {
    LatestSnoc(log, e);
    forall p | !Marked(p) ensures PathOk(ring, w, log + [e], p) {
      assert PathOk(ring, w, log, p);
      if p in Latest(log) && Latest(log)[p].op == Wrote {
        IsTheWriteGrows(ring, log, e, p, Latest(log)[p].rid, w[p]);
      }
    }
  }

  lemma ConsistentApplied(ring: Ring, w: World, log: seq<Entry>, j: Job, e: Entry)
    requires ring.active.Some? && ring.active.value in ring.publics
    requires Consistent(ring, w, log) && Effective(e) && e.job == Some(j) && e.rid == j.rid
    requires exists i: nat :: PreparedAt(log, i, j)
    requires j.Delete? || Signs(j)
    requires j.Rename? ==> j.source != j.target
    ensures Consistent(ring, Applied(ring, j, w), log + [e])
  {
    LatestSnoc(log, e);
    var w' := Applied(ring, j, w);
    var i: nat :| PreparedAt(log, i, j);
    assert PreparedAt(log + [e], i, j);
    forall p | !Marked(p) ensures PathOk(ring, w', log + [e], p) {
      assert PathOk(ring, w, log, p);
      if p != j.target && (j.Rename? ==> p != j.source) {
        if p in Latest(log) && Latest(log)[p].op == Wrote {
          IsTheWriteGrows(ring, log, e, p, Latest(log)[p].rid, w[p]);
        }
      }
    }
  }

  /** The closing record of a prepared request keeps the world and the log in agreement, wherever
      the request crashed and whatever was logged in between. */
  lemma ClosingKeepsConsistency(ring: Ring, w: World, log: seq<Entry>, j: Job, plan: Plan)
    requires ring.active.Some? && ring.active.value in ring.publics
    requires Consistent(ring, w, log) && AsObserved(ring, w, j) && KeysGrow(ring, plan)
    requires !AlreadyThere(ring, j, w, plan)
    requires exists i: nat :: PreparedAt(log, i, j)
    ensures Consistent(ring, WorldAfter(ring, j, w, plan), log + [Closing(ring, j, w, plan)])
  {
    var e := Closing(ring, j, w, plan);
    var w' := WorldAfter(ring, j, w, plan);
    RequestIsAtomic(ring, w, j, plan);
    if Effective(e) {
      ConsistentApplied(ring, w, log, j, e);
      ConsistentGoverned(ring, Applied(ring, j, w), w', log + [e]);
    } else {
      ConsistentQuiet(ring, w, log, e);
      ConsistentGoverned(ring, w, w', log + [e]);
    }
  }

  /** A request keeps the world and the log in agreement, wherever it crashes. */
  lemma RequestKeepsConsistency(ring: Ring, w: World, log: seq<Entry>, j: Job, plan: Plan, p: Entry)
    requires ring.active.Some? && ring.active.value in ring.publics
    requires Consistent(ring, w, log) && AsRecorded(ring, w, log, j) && KeysGrow(ring, plan)
    requires !AlreadyThere(ring, j, w, plan)
    requires p.Prepared? && p.rid == j.rid && p.job == Some(j)
    ensures Consistent(ring, WorldAfter(ring, j, w, plan), log + [p] + [Closing(ring, j, w, plan)])
  {
    ConsistentQuiet(ring, w, log, p);
    assert PreparedAt(log + [p], |log|, j);
    ClosingKeepsConsistency(ring, w, log + [p], j, plan);
  }

  /** The excluded case is the only one: whatever the request and wherever it crashes, it keeps the
      agreement if and only if it is not a write caught before its swap on a target that already
      has the content. If it is, the restart confirms a success whose file carries another
      attestation. */
  lemma ConsistentIffNotAlreadyThere(ring: Ring, w: World, log: seq<Entry>, j: Job, plan: Plan, p: Entry)
    requires ring.active.Some? && ring.active.value in ring.publics
    requires Consistent(ring, w, log) && AsRecorded(ring, w, log, j) && KeysGrow(ring, plan)
    requires !Marked(j.target) && p.Prepared? && p.rid == j.rid && p.job == Some(j)
    ensures Consistent(ring, WorldAfter(ring, j, w, plan), log + [p] + [Closing(ring, j, w, plan)])
       <==> !AlreadyThere(ring, j, w, plan)
  {
    if AlreadyThere(ring, j, w, plan) {
      AlreadyThereDisagrees(ring, w, log, j, plan, p);
    } else {
      RequestKeepsConsistency(ring, w, log, j, plan, p);
    }
  }

  /** The older file is still there, and the restart confirms the write. */
  lemma AlreadyThereLeaves(ring: Ring, w: World, j: Job, plan: Plan)
    requires ring.active.Some? && AsObserved(ring, w, j) && AlreadyThere(ring, j, w, plan)
    ensures AttAt(WorldAfter(ring, j, w, plan), j.target) == AttAt(w, j.target)
    ensures Effective(Closing(ring, j, w, plan))
  {
    AtSteps(ring, j, w, plan.n);
    var w' := WorldAfter(ring, j, w, plan);
    assert Cas.Visible(j, w') == w;
    assert j.target in w' && w'[j.target] == w[j.target];
  }

  /** An attestation that agreed with a log is by a request the log has closed. */
  lemma AgreesWithTheLog(ring: Ring, w: World, log: seq<Entry>, p: Path)
    requires Consistent(ring, w, log) && !Marked(p) && AttAt(w, p).Some?
    ensures IsClosed(log, AttAt(w, p).value.rid)
  {
    assert PathOk(ring, w, log, p);
    var i := LatestComesFrom(log, p);
    assert log[i] in log;
  }

  lemma ClosingAlreadyThereDisagrees(ring: Ring, w: World, log: seq<Entry>, j: Job, plan: Plan)
    requires ring.active.Some? && ring.active.value in ring.publics
    requires Consistent(ring, w, log) && AsObserved(ring, w, j) && AlreadyThere(ring, j, w, plan)
    requires !Marked(j.target) && !IsClosed(log, j.rid)
    ensures !Consistent(ring, WorldAfter(ring, j, w, plan), log + [Closing(ring, j, w, plan)])
  {
    var e, w' := Closing(ring, j, w, plan), WorldAfter(ring, j, w, plan);
    AlreadyThereLeaves(ring, w, j, plan);
    LatestSnoc(log, e);
    assert Latest(log + [e])[j.target] == Last(j.rid, Wrote);
    if AttAt(w, j.target).Some? { AgreesWithTheLog(ring, w, log, j.target); }
    assert !PathOk(ring, w', log + [e], j.target);
  }

  lemma AlreadyThereDisagrees(ring: Ring, w: World, log: seq<Entry>, j: Job, plan: Plan, p: Entry)
    requires ring.active.Some? && ring.active.value in ring.publics
    requires Consistent(ring, w, log) && AsRecorded(ring, w, log, j) && AlreadyThere(ring, j, w, plan)
    requires !Marked(j.target) && p.Prepared? && p.rid == j.rid && p.job == Some(j)
    ensures !Consistent(ring, WorldAfter(ring, j, w, plan), log + [p] + [Closing(ring, j, w, plan)])
  {
    ConsistentQuiet(ring, w, log, p);
    NeverLoggedIsOpen(log, p, j.rid);
    ClosingAlreadyThereDisagrees(ring, w, log + [p], j, plan);
  }

  lemma NeverLoggedIsOpen(log: seq<Entry>, p: Entry, rid: Rid)
    requires rid !in Logged(log) && p.Prepared?
    ensures !IsClosed(log + [p], rid)
  {
    forall e <- log ensures RidOf(e) != Some(rid) {}
    forall e <- log + [p] ensures !Closes(e, rid) {
      assert e in log || e == p;
    }
  }

  /** There is such a write: one to a file the broker has never written, with the content it has. */
  lemma AlreadyThereExists(ring: Ring, rid: Rid, target: Path, private: Path, d: Digest)
    requires ring.active.Some? && ring.active.value in ring.publics
    requires Marked(private) && !Marked(target)
    ensures var w := map[target := Reg(d, None)];
      var j := Write(rid, target, private, d, Present(d));
      var plan := Crashes(0, [], ring);
      && Consistent(ring, w, []) && AsRecorded(ring, w, [], j) && KeysGrow(ring, plan)
      && AlreadyThere(ring, j, w, plan)
      && Effective(Closing(ring, j, w, plan)) && AttAt(WorldAfter(ring, j, w, plan), target) == None
  {
  }

  /** Agreement means the world check has nothing to say. */
  lemma ConsistentIsClean(ring: Ring, w: World, log: seq<Entry>, f: Finding)
    requires Consistent(ring, w, log)
    ensures !Marked(f.target) ==> !Found(ring, w, log, f)
  {
    if !Marked(f.target) {
      assert PathOk(ring, w, log, f.target);
      if f.target in Latest(log) && Latest(log)[f.target].op == Wrote {
        var rid := Latest(log)[f.target].rid;
        var i: nat :| i < |log| && log[i].Prepared? && log[i].rid == rid;
        assert log[i] in log;
      }
    }
  }

  // ---- Whole runs -----------------------------------------------------------------------------------

  /** The keys a request runs under, and how it ends. */
  datatype Request = Request(job: Job, key: Option<string>, hash: string, ring: Ring, plan: Plan)

  /** `rings` holds, for each record of the log, the keys its request ran under; `ring` the keys
      there are now. */
  datatype Trail = Trail(w: World, log: seq<Entry>, rings: seq<Ring>, ring: Ring)

  function After(t: Trail, q: Request): Trail
    requires q.ring.active.Some?
  {
    Trail(WorldAfter(q.ring, q.job, t.w, q.plan),
          t.log + [Prepared(q.job.rid, Some(q.job), q.key, q.hash)] + [Closing(q.ring, q.job, t.w, q.plan)],
          t.rings + [q.ring] + [q.ring],
          RingAfter(q.ring, q.plan))
  }

  ghost predicate CanFollow(t: Trail, q: Request) {
    && q.ring.active.Some? && q.ring.active.value in q.ring.publics && R.Later(t.ring, q.ring)
    && KeysGrow(q.ring, q.plan)
    && AsRecorded(q.ring, t.w, t.log, q.job) && !AlreadyThere(q.ring, q.job, t.w, q.plan)
  }

  /** The requests one after the other, keys rotated at will in between. */
  ghost predicate RunAll(t: Trail, qs: seq<Request>, t': Trail) {
    if qs == [] then t' == t
    else
      var front, q := qs[..|qs| - 1], qs[|qs| - 1];
      exists u :: RunAll(t, front, u) && Leads(u, q, t')
  }

  ghost predicate Leads(t: Trail, q: Request, t': Trail) {
    CanFollow(t, q) && t' == After(t, q)
  }

  /** The logged effects, replayed as atomic steps on the governed names. */
  function Replay(w: World, log: seq<Entry>, rings: seq<Ring>): World
    requires |rings| == |log| && forall r <- rings :: r.active.Some?
  {
    if log == [] then Abs(w)
    else
      var m := |log| - 1;
      var w', e := Replay(w, log[..m], rings[..m]), log[m];
      if Effective(e) then Abs(Applied(rings[m], e.job.value, w')) else w'
  }

  lemma AppliedGoverned(ring: Ring, j: Job, w: World)
    requires ring.active.Some?
    ensures Abs(Applied(ring, j, Abs(w))) == Abs(Applied(ring, j, w))
  {}

  lemma ReplaySnoc(w: World, log: seq<Entry>, rings: seq<Ring>, e: Entry, ring: Ring)
    requires |rings| == |log| && (forall r <- rings :: r.active.Some?) && ring.active.Some?
    ensures Replay(w, log + [e], rings + [ring])
         == if Effective(e) then Abs(Applied(ring, e.job.value, Replay(w, log, rings))) else Replay(w, log, rings)
  {
    assert (log + [e])[..|log|] == log && (rings + [ring])[..|rings|] == rings;
  }

  /** What agrees under some keys agrees under more. */
  lemma ConsistentUnderMoreKeys(ring: Ring, now: Ring, w: World, log: seq<Entry>)
    requires Consistent(ring, w, log) && R.Later(ring, now)
    ensures Consistent(now, w, log)
  {
    forall p | !Marked(p) ensures PathOk(now, w, log, p) {
      assert PathOk(ring, w, log, p);
    }
  }

  ghost predicate Sound(w: World, t: Trail) {
    && |t.rings| == |t.log| && (forall r <- t.rings :: r.active.Some?)
    && Consistent(t.ring, t.w, t.log)
    && Abs(t.w) == Replay(w, t.log, t.rings)
  }

  lemma RequestKeepsSound(w: World, t: Trail, q: Request)
    requires Sound(w, t) && CanFollow(t, q)
    ensures Sound(w, After(t, q))
  {
    var p := Prepared(q.job.rid, Some(q.job), q.key, q.hash);
    var e := Closing(q.ring, q.job, t.w, q.plan);
    ConsistentUnderMoreKeys(t.ring, q.ring, t.w, t.log);
    RequestKeepsConsistency(q.ring, t.w, t.log, q.job, q.plan, p);
    ConsistentUnderMoreKeys(q.ring, RingAfter(q.ring, q.plan), After(t, q).w, After(t, q).log);
    RequestIsAtomic(q.ring, t.w, q.job, q.plan);
    ReplaySnoc(w, t.log, t.rings, p, q.ring);
    ReplaySnoc(w, t.log + [p], t.rings + [q.ring], e, q.ring);
    AppliedGoverned(q.ring, q.job, t.w);
  }

  lemma {:induction false} RunsAreSound(t: Trail, qs: seq<Request>, t': Trail)
    requires Consistent(t.ring, t.w, []) && t.log == [] && t.rings == [] && RunAll(t, qs, t')
    ensures Sound(t.w, t')
  {
    if qs != [] {
      var front, q := qs[..|qs| - 1], qs[|qs| - 1];
      var u :| RunAll(t, front, u) && Leads(u, q, t');
      RunsAreSound(t, front, u);
      RequestKeepsSound(t.w, u, q);
    }
  }

  /** The effects in the log are on governed targets. */
  ghost predicate TargetsGoverned(log: seq<Entry>) {
    forall e <- log :: Effective(e) ==> !Marked(e.job.value.target)
  }

  lemma {:induction false} RunTargetsGoverned(t: Trail, qs: seq<Request>, t': Trail)
    requires t.log == [] && RunAll(t, qs, t') && forall q <- qs :: !Marked(q.job.target)
    ensures TargetsGoverned(t'.log)
  {
    if qs != [] {
      var front, q := qs[..|qs| - 1], qs[|qs| - 1];
      var u :| RunAll(t, front, u) && Leads(u, q, t');
      assert q in qs && forall x <- front :: x in qs;
      RunTargetsGoverned(t, front, u);
    }
  }

  lemma NothingFound(ring: Ring, w: World, log: seq<Entry>, f: Finding)
    requires Consistent(ring, w, log) && TargetsGoverned(log)
    ensures !Found(ring, w, log, f)
  {
    ConsistentIsClean(ring, w, log, f);
    if Marked(f.target) && f.target in Latest(log) {
      var i := LatestComesFrom(log, f.target);
      assert log[i] in log;
    }
  }

  /** Over every run of requests, crashing and restarting anywhere, with keys rotated in between:
      the world agrees with the log, the world check finds nothing about a governed name, and
      nothing at all if no request was for a private one, and the governed names are what replaying
      the log's effects as atomic steps makes of the initial ones. */
  lemma RunsStayConsistent(t: Trail, qs: seq<Request>, t': Trail, f: Finding)
    requires Consistent(t.ring, t.w, []) && t.log == [] && t.rings == [] && RunAll(t, qs, t')
    ensures Consistent(t'.ring, t'.w, t'.log)
    ensures Found(t'.ring, t'.w, t'.log, f) ==> Marked(f.target)
    ensures (forall q <- qs :: !Marked(q.job.target)) ==> !Found(t'.ring, t'.w, t'.log, f)
    ensures |t'.rings| == |t'.log| && (forall r <- t'.rings :: r.active.Some?)
    ensures Abs(t'.w) == Replay(t.w, t'.log, t'.rings)
  {
    RunsAreSound(t, qs, t');
    ConsistentIsClean(t'.ring, t'.w, t'.log, f);
    if forall q <- qs :: !Marked(q.job.target) {
      RunTargetsGoverned(t, qs, t');
      NothingFound(t'.ring, t'.w, t'.log, f);
    }
  }
}
