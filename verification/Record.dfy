/** The audit log's entries, as far as they concern effects, and the two readers that compare
    them with the world: the read verdict and the world check. */
module Record {
  import opened Attest
  import opened Files
  import opened Effects

  datatype Effect = Succeeded | Failed | Unknown

  /** `job` is none for a request without a governed path: a read, a listing, a remote call.
      `Note` stands for every record that is none of the others. */
  datatype Entry =
    | Prepared(rid: Rid, job: Option<Job>, key: Option<string>, hash: string)
    | Outcome(rid: Rid, job: Option<Job>, effect: Effect, verdict: Option<Verdict>)
    | Reconciled(rid: Rid, job: Option<Job>, verdict: Option<Verdict>)
    | Note(about: Option<Rid>)

  /** The jobs that sign, and the digest they sign for. */
  predicate Signs(j: Job) {
    j.Write? || (j.Rename? && j.before.Present?)
  }

  function SignedDigest(j: Job): Digest
    requires Signs(j)
  {
    if j.Write? then j.digest else j.before.digest
  }

  function SignedMessage(j: Job): string
    requires Signs(j)
  {
    Message(j.rid, j.target, SignedDigest(j))
  }

  /** The check on a rename before it is recorded: the source carries a valid attestation for
      its own path and the content just observed. */
  predicate RenameAllowed(ring: Ring, j: Job)
    requires j.Rename?
  {
    && Checks(ring, j.sourceAtt)
    && j.sourceAtt.value.target == j.source
    && j.before.Present? && j.sourceAtt.value.digest == j.before.digest
  }

  /** The record that request `j` was prepared, at index `i`. */
  predicate PreparedAt(log: seq<Entry>, i: nat, j: Job) {
    i < |log| && log[i].Prepared? && log[i].job == Some(j) && log[i].rid == j.rid
  }

  datatype Op = Wrote | Deleted

  datatype Last = Last(rid: Rid, op: Op)

  /** The entry records an effect that took place. */
  predicate Effective(e: Entry) {
    && (e.Outcome? || e.Reconciled?)
    && e.job.Some?
    && ((e.Outcome? && e.effect == Succeeded) || e.verdict == Some(ConfirmedSuccess))
  }

  function Noted(latest: map<Path, Last>, e: Entry): map<Path, Last> {
    if !Effective(e) then latest
    else
      var j := e.job.value;
      var latest' := latest[j.target := Last(e.rid, if j.Delete? then Deleted else Wrote)];
      if j.Rename? then latest'[j.source := Last(e.rid, Deleted)] else latest'
  }

  /** The latest successful entry per path. */
  function Latest(log: seq<Entry>): map<Path, Last> {
    if log == [] then map[] else Noted(Latest(log[..|log| - 1]), log[|log| - 1])
  }

  function RidOf(e: Entry): Option<Rid> {
    if e.Note? then e.about else Some(e.rid)
  }

  function Logged(log: seq<Entry>): set<Rid> {
    set e <- log | RidOf(e).Some? :: RidOf(e).value
  }

  /** A request is in the log if any record is about it, a refusal's or a settlement's included. */
  lemma LoggedIff(log: seq<Entry>, rid: Rid)
    ensures rid in Logged(log) <==> exists e <- log :: if e.Note? then e.about == Some(rid) else e.rid == rid
  {
    if e :| e in log && if e.Note? then e.about == Some(rid) else e.rid == rid { assert RidOf(e) == Some(rid); }
  }

  /** The entry is the last word on the request. */
  predicate Closes(e: Entry, rid: Rid) {
    (e.Outcome? || e.Reconciled?) && e.rid == rid
  }

  predicate IsClosed(log: seq<Entry>, rid: Rid) {
    exists e <- log :: Closes(e, rid)
  }

  lemma LatestSnoc(log: seq<Entry>, e: Entry)
    ensures Latest(log + [e]) == Noted(Latest(log), e)
  {
    assert (log + [e])[..|log|] == log;
  }

  lemma LoggedSnoc(log: seq<Entry>, e: Entry)
    ensures Logged(log + [e]) == Logged(log) + if RidOf(e).Some? then {RidOf(e).value} else {}
  {
    var t := log + [e];
    assert e in t;
    forall r ensures r in Logged(t) <==> r in Logged(log) || RidOf(e) == Some(r) {
      if r in Logged(log) {
        var x :| x in log && RidOf(x) == Some(r);
        assert x in t;
      }
    }
  }

  /** Every entry of the table comes from an effective entry of the log about that path. */
  lemma {:induction false} LatestComesFrom(log: seq<Entry>, p: Path) returns (i: nat)
    requires p in Latest(log)
    ensures i < |log| && Effective(log[i]) && log[i].rid == Latest(log)[p].rid
    ensures var j := log[i].job.value;
      if Latest(log)[p].op == Wrote then j.target == p && !j.Delete?
      else (j.Delete? && j.target == p) || (j.Rename? && j.source == p)
    ensures Latest(log)[p].rid in Logged(log)
  {
    var front, e := log[..|log| - 1], log[|log| - 1];
    if Effective(e) && (e.job.value.target == p || (e.job.value.Rename? && e.job.value.source == p)) {
      i := |log| - 1;
    } else {
      i := LatestComesFrom(front, p);
    }
    assert log[i] in log && RidOf(log[i]) == Some(log[i].rid);
  }

  method LatestEntries(log: seq<Entry>) returns (latest: map<Path, Last>, logged: set<Rid>)
    ensures latest == Latest(log) && logged == Logged(log)
  {
    latest, logged := map[], {};
    assert log[..0] == [];
    for n := 0 to |log|
      invariant latest == Latest(log[..n])
      invariant logged == Logged(log[..n])
    {
      var e := log[n];
      assert log[..n + 1] == log[..n] + [e];
      LatestSnoc(log[..n], e);
      LoggedSnoc(log[..n], e);
      ghost var was := latest;
      if RidOf(e).Some? { logged := logged + {RidOf(e).value}; }
      if (e.Outcome? || e.Reconciled?) && e.job.Some? {
        var ok := (e.Outcome? && e.effect == Succeeded) || e.verdict == Some(ConfirmedSuccess);
        if ok {
          latest := latest[e.job.value.target := Last(e.rid, if e.job.value.Delete? then Deleted else Wrote)];
          if e.job.value.Rename? {
            latest := latest[e.job.value.source := Last(e.rid, Deleted)];
          }
        }
      }
      assert latest == Noted(was, e);
    }
    assert log[..|log|] == log;
  }

  // ---- The read verdict --------------------------------------------------------------------

  datatype ReadVerdict =
    | Attributed(rid: string)
    | NoAttestation | DoesNotVerify | NamesAnotherPath | ContentDiffers | NotTheLatest

  /** The broker's verdict on content with the given digest, read together with its attestation. */
  function BrokerVerdict(ring: Ring, p: Path, digest: Digest, raw: Option<Att>,
                         latest: map<Path, Last>): ReadVerdict {
    if raw.None? then NoAttestation
    else
      var a := raw.value;
      if !Verifies(ring, a) then DoesNotVerify
      else if a.target != p then NamesAnotherPath
      else if a.digest != digest then ContentDiffers
      else if p !in latest || latest[p].op != Wrote || latest[p].rid != a.rid then NotTheLatest
      else Attributed(a.rid)
  }

  // ---- The world check -----------------------------------------------------------------------

  const MARK := ".darm-tmp-"

  predicate Contains(s: string, part: string) {
    exists i | 0 <= i <= |s| :: part <= s[i..]
  }

  /** The last component of a path. */
  function Leaf(p: Path): string {
    if p == [] || p[|p| - 1] == '/' then "" else Leaf(p[..|p| - 1]) + [p[|p| - 1]]
  }

  /** The broker's private names, which the world check passes over. */
  predicate Marked(p: Path) {
    Contains(Leaf(p), MARK)
  }

  datatype Kind =
    | NotAttested | DeletedButExists | UnknownKey | ForgedOrMoved
    | ContentChanged | NotLogged | NotLatest | Gone

  datatype Finding = Finding(target: Path, kind: Kind)

  /** What the world check says of a regular file. */
  function FileFindings(ring: Ring, latest: map<Path, Last>, logged: set<Rid>, p: Path, f: Node): set<Kind>
    requires f.Reg?
  {
    match f.att
    case None =>
      if p !in latest then {} else if latest[p].op == Wrote then {NotAttested} else {DeletedButExists}
    case Some(a) =>
      if !Verifies(ring, a) && a.kid !in ring.publics then {UnknownKey}
      else if !Verifies(ring, a) || a.target != p then {ForgedOrMoved}
      else
        (if f.digest != a.digest then {ContentChanged} else {})
        + (if a.rid !in logged then {NotLogged}
           else if p in latest && latest[p].op == Deleted then {DeletedButExists}
           else if p in latest && latest[p].rid != a.rid then {NotLatest}
           else {})
  }

  predicate Exists(w: World, p: Path) {
    p in w && (w[p].Link? ==> w[p].live)
  }

  ghost predicate FileFound(ring: Ring, w: World, latest: map<Path, Last>, logged: set<Rid>, f: Finding) {
    && f.target in w && w[f.target].Reg? && !Marked(f.target)
    && f.kind in FileFindings(ring, latest, logged, f.target, w[f.target])
  }

  ghost predicate GoneFound(w: World, latest: map<Path, Last>, f: Finding) {
    f.kind == Gone && f.target in latest && latest[f.target].op == Wrote && !Exists(w, f.target)
  }

  ghost predicate Found(ring: Ring, w: World, log: seq<Entry>, f: Finding) {
    FileFound(ring, w, Latest(log), Logged(log), f) || GoneFound(w, Latest(log), f)
  }

  method CheckFile(ring: Ring, latest: map<Path, Last>, logged: set<Rid>, p: Path, f: Node)
      returns (findings: seq<Finding>)
    requires f.Reg?
    ensures forall x :: x in findings <==> x.target == p && x.kind in FileFindings(ring, latest, logged, p, f)
  {
    findings := [];
    if f.att.None? {
      if p in latest {
        findings := [Finding(p, if latest[p].op == Wrote then NotAttested else DeletedButExists)];
      }
      return;
    }
    var a := f.att.value;
    if !Verifies(ring, a) && a.kid !in ring.publics {
      return [Finding(p, UnknownKey)];
    }
    if !Verifies(ring, a) || a.target != p {
      return [Finding(p, ForgedOrMoved)];
    }
    if f.digest != a.digest {
      findings := findings + [Finding(p, ContentChanged)];
    }
    if a.rid !in logged {
      findings := findings + [Finding(p, NotLogged)];
    } else if p in latest && latest[p].op == Deleted {
      findings := findings + [Finding(p, DeletedButExists)];
    } else if p in latest && latest[p].rid != a.rid {
      findings := findings + [Finding(p, NotLatest)];
    }
  }

  /** Both directions: every file on the walk against the log, every logged write against the
      world. `walk` lists the names of the tree, `targets` those of the table. */
  method VerifyWorld(ring: Ring, w: World, log: seq<Entry>, walk: seq<Path>, targets: seq<Path>)
      returns (findings: seq<Finding>)
    requires forall p :: p in walk <==> p in w
    requires forall p :: p in targets <==> p in Latest(log)
    ensures forall f :: f in findings <==> Found(ring, w, log, f)
  {
    findings := [];
    var latest, logged := LatestEntries(log);
    for n := 0 to |walk|
      invariant forall f :: f in findings <==> f.target in walk[..n] && FileFound(ring, w, latest, logged, f)
    {
      var p := walk[n];
      assert p in walk && walk[..n + 1] == walk[..n] + [p];
      if w[p].Reg? && !Marked(p) {
        var more := CheckFile(ring, latest, logged, p, w[p]);
        findings := findings + more;
      }
    }
    assert walk[..|walk|] == walk && targets[..0] == [];
    ghost var first := findings;
    for n := 0 to |targets|
      invariant forall f :: f in findings <==> f in first || (f.target in targets[..n] && GoneFound(w, latest, f))
    {
      var p := targets[n];
      assert p in targets && targets[..n + 1] == targets[..n] + [p];
      if latest[p].op == Wrote && !Exists(w, p) {
        findings := findings + [Finding(p, Gone)];
      }
    }
    assert targets[..|targets|] == targets;
  }

  /** The two readers agree: an attested file that is not a private name is attributed exactly
      when the world check says nothing about it and the log has an entry for it. */
  lemma ReadersAgree(ring: Ring, w: World, log: seq<Entry>, p: Path)
    requires p in w && w[p].Reg? && w[p].att.Some? && !Marked(p)
    ensures BrokerVerdict(ring, p, w[p].digest, w[p].att, Latest(log)).Attributed?
       <==> (forall k :: !Found(ring, w, log, Finding(p, k))) && p in Latest(log)
  {
    var latest, logged := Latest(log), Logged(log);
    var a := w[p].att.value;
    if p in latest {
      var _ := LatestComesFrom(log, p);
    }
    var kinds := FileFindings(ring, latest, logged, p, w[p]);
    assert forall k :: Found(ring, w, log, Finding(p, k)) <==> k in kinds;
    assert (forall k :: k !in kinds) <==> kinds == {};
  }

  // ---- What silence means ------------------------------------------------------------------------

  /** The file carries what the broker signed, under one of the ring's keys, for request `rid`, this
      path and this content. */
  predicate Genuine(ring: Ring, p: Path, f: Node, rid: string)
    requires f.Reg?
  {
    && f.att.Some? && f.att.value.kid in ring.publics
    && f.att.value.rid == rid && f.att.value.target == p && f.att.value.digest == f.digest
    && f.att.value.sig == Sig(f.att.value.kid, Message(rid, p, f.digest))
  }

  /** A path is as the log has it: where the latest entry is a write, there is something, and a file
      there is that write's own, unchanged; where it is a deletion, there is no file; and elsewhere a
      file carries no attestation or one for it as it is, by a logged request. */
  predicate AsLogged(ring: Ring, w: World, log: seq<Entry>, p: Path) {
    var file := p in w && w[p].Reg?;
    if p !in Latest(log) then
      file ==> w[p].att.None? || (w[p].att.value.rid in Logged(log) && Genuine(ring, p, w[p], w[p].att.value.rid))
    else if Latest(log)[p].op == Deleted then !file
    else p in w && w[p] != Link(false) && (file ==> Genuine(ring, p, w[p], Latest(log)[p].rid))
  }

  /** The check is silent about a path exactly if it is as the log has it. */
  lemma SilentAboutIff(ring: Ring, w: World, log: seq<Entry>, p: Path)
    requires !Marked(p)
    ensures (forall k :: !Found(ring, w, log, Finding(p, k))) <==> AsLogged(ring, w, log, p)
  {
    if p in Latest(log) { var _ := LatestComesFrom(log, p); }
    assert GoneFound(w, Latest(log), Finding(p, Gone)) <==>
      p in Latest(log) && Latest(log)[p].op == Wrote && !Exists(w, p);
    if p in w && w[p].Reg? {
      var kinds := FileFindings(ring, Latest(log), Logged(log), p, w[p]);
      assert forall k :: Found(ring, w, log, Finding(p, k)) <==> k in kinds;
      assert (forall k :: k !in kinds) <==> kinds == {};
    } else {
      assert forall k :: Found(ring, w, log, Finding(p, k)) <==> GoneFound(w, Latest(log), Finding(p, k));
      if !(forall k :: !Found(ring, w, log, Finding(p, k))) {
        var k :| Found(ring, w, log, Finding(p, k));
      } else {
        assert !Found(ring, w, log, Finding(p, Gone));
      }
    }
  }

  /** The world check finds nothing if and only if every path that is not a private name is as the log
      has it, and what was last written at a private one exists. */
  lemma CleanIff(ring: Ring, w: World, log: seq<Entry>)
    ensures (forall f :: !Found(ring, w, log, f)) <==>
      && (forall p | !Marked(p) :: AsLogged(ring, w, log, p))
      && (forall p <- Latest(log) | Marked(p) && Latest(log)[p].op == Wrote :: Exists(w, p))
  {
    forall p: Path | !Marked(p)
      ensures (forall k :: !Found(ring, w, log, Finding(p, k))) <==> AsLogged(ring, w, log, p)
    {
      SilentAboutIff(ring, w, log, p);
    }
    forall p: Path | Marked(p)
      ensures (forall k :: !Found(ring, w, log, Finding(p, k)))
         <==> (p in Latest(log) && Latest(log)[p].op == Wrote ==> Exists(w, p))
    {
      SilentAboutMarked(ring, w, log, p);
    }
    if forall f :: !Found(ring, w, log, f) {
      forall p, k ensures !Found(ring, w, log, Finding(p, k)) {}
    }
    forall f | Found(ring, w, log, f) ensures f == Finding(f.target, f.kind) {}
  }

  lemma SilentAboutMarked(ring: Ring, w: World, log: seq<Entry>, p: Path)
    requires Marked(p)
    ensures (forall k :: !Found(ring, w, log, Finding(p, k)))
       <==> (p in Latest(log) && Latest(log)[p].op == Wrote ==> Exists(w, p))
  {
    assert forall k :: Found(ring, w, log, Finding(p, k)) <==> GoneFound(w, Latest(log), Finding(p, k));
    if p in Latest(log) && Latest(log)[p].op == Wrote && !Exists(w, p) {
      assert Found(ring, w, log, Finding(p, Gone));
    }
  }

  /** Each finding about a file says what it says. */
  lemma FindingsMean(ring: Ring, w: World, log: seq<Entry>, p: Path, k: Kind)
    requires Found(ring, w, log, Finding(p, k))
    ensures k == Gone ==> p in Latest(log) && Latest(log)[p].op == Wrote && !Exists(w, p)
    ensures k != Gone ==> !Marked(p) && p in w && w[p].Reg?
    ensures k == NotAttested ==> w[p].att.None? && p in Latest(log) && Latest(log)[p].op == Wrote
    ensures k == DeletedButExists ==> p in Latest(log) && Latest(log)[p].op == Deleted
    ensures k == UnknownKey ==> w[p].att.Some? && w[p].att.value.kid !in ring.publics
    ensures k == ForgedOrMoved ==>
      w[p].att.Some? && forall rid :: !Genuine(ring, p, w[p], rid)
    ensures k == ContentChanged ==> w[p].att.Some? && w[p].att.value.target == p && w[p].att.value.digest != w[p].digest
    ensures k == NotLogged ==> w[p].att.Some? && w[p].att.value.rid !in Logged(log)
    ensures k == NotLatest ==>
      w[p].att.Some? && p in Latest(log) && Latest(log)[p].op == Wrote && Latest(log)[p].rid != w[p].att.value.rid
  {
  }

  // ---- Names, entries and refusals, spelled out ------------------------------------------------------

  /** A directory part, empty or ending in a slash, and then the last component. */
  lemma {:induction false} LeafIs(p: Path) returns (dir: Path)
    ensures p == dir + Leaf(p) && '/' !in Leaf(p)
    ensures dir == [] || dir[|dir| - 1] == '/'
  {
    if p == [] || p[|p| - 1] == '/' {
      dir := p;
      assert p == p + "";
    } else {
      var front, c := p[..|p| - 1], p[|p| - 1];
      dir := LeafIs(front);
      assert p == front + [c];
      assert dir + Leaf(front) + [c] == dir + (Leaf(front) + [c]);
    }
  }

  lemma SuffixOf(dir: string, leaf: string, i: nat)
    requires |dir| <= i <= |dir + leaf|
    ensures (dir + leaf)[i..] == leaf[i - |dir|..]
  {}

  /** What has no slash begins after the last one. */
  lemma AfterTheSlash(dir: string, leaf: string, i: nat)
    requires i <= |dir + leaf| && '/' !in (dir + leaf)[i..] && (dir == [] || dir[|dir| - 1] == '/')
    ensures |dir| <= i
  {
    var p := dir + leaf;
    forall m | i <= m < |p| ensures p[m] != '/' {
      assert p[i..][m - i] == p[m];
    }
    if dir != [] { assert p[|dir| - 1] == '/'; }
  }

  /** The mark stands somewhere in the last component. */
  predicate MarkedAt(p: Path, i: nat) {
    i <= |p| && ".darm-tmp-" <= p[i..] && '/' !in p[i..]
  }

  lemma MarkedIff(p: Path)
    ensures Marked(p) <==> exists i: nat :: MarkedAt(p, i)
  {
    var dir := LeafIs(p);
    var leaf := Leaf(p);
    if Marked(p) {
      var i :| 0 <= i <= |leaf| && MARK <= leaf[i..];
      SuffixOf(dir, leaf, |dir| + i);
      assert MarkedAt(p, |dir| + i);
    }
    if i: nat :| MarkedAt(p, i) {
      AfterTheSlash(dir, leaf, i);
      SuffixOf(dir, leaf, i);
      assert MARK <= leaf[i - |dir|..];
    }
  }

  /** Every private name the broker makes is marked, whatever directory and name it is made for. */
  lemma PrivateNamesAreMarked(dir: string, leaf: string, id: string)
    requires '/' !in id
    ensures Marked(dir + "/." + leaf + ".darm-tmp-" + id)
  {
    var head := dir + "/." + leaf;
    var p := head + ".darm-tmp-" + id;
    assert p[|head|..] == ".darm-tmp-" + id;
    assert '/' !in ".darm-tmp-" + id;
    assert MarkedAt(p, |head|);
    MarkedIff(p);
  }

  /** The entry says that request `rid` last wrote, or deleted, what is at the path. */
  predicate Says(e: Entry, p: Path, rid: Rid, op: Op) {
    && ((e.Outcome? && (e.effect == Succeeded || e.verdict == Some(ConfirmedSuccess)))
        || (e.Reconciled? && e.verdict == Some(ConfirmedSuccess)))
    && e.rid == rid && e.job.Some?
    && match e.job.value
       case Write(_, target, _, _, _) => p == target && op == Wrote
       case Delete(_, target, _, _) => p == target && op == Deleted
       case Rename(_, source, target, _, _, _, _, _) =>
         if p == source then op == Deleted else p == target && op == Wrote
  }

  /** What the entry says is what is noted, and where it says nothing nothing changes. */
  lemma NotedAsSaid(latest: map<Path, Last>, e: Entry, p: Path)
    ensures forall rid, op | Says(e, p, rid, op) :: p in Noted(latest, e) && Noted(latest, e)[p] == Last(rid, op)
    ensures (forall rid, op :: !Says(e, p, rid, op)) ==>
      (p in Noted(latest, e) <==> p in latest) && (p in latest ==> Noted(latest, e)[p] == latest[p])
  {
    if Effective(e) {
      var j := e.job.value;
      if j.Rename? && p == j.source {
        assert Says(e, p, e.rid, Deleted);
      } else if p == j.target {
        assert Says(e, p, e.rid, if j.Delete? then Deleted else Wrote);
      }
    }
  }

  /** Entry `i` is the last to say anything about the path, and says this. */
  ghost predicate SaysLast(log: seq<Entry>, i: nat, p: Path, rid: Rid, op: Op) {
    && i < |log| && Says(log[i], p, rid, op)
    && forall k, r, o | i < k < |log| :: !Says(log[k], p, r, o)
  }

  lemma OneSaysLast(log: seq<Entry>, i: nat, p: Path, rid: Rid, op: Op, m: nat, r: Rid, o: Op)
    requires SaysLast(log, i, p, rid, op) && SaysLast(log, m, p, r, o)
    ensures i == m && rid == r && op == o
  {
  }

  lemma SaysLastSnoc(front: seq<Entry>, e: Entry, i: nat, p: Path, rid: Rid, op: Op)
    requires forall r, o :: !Says(e, p, r, o)
    ensures SaysLast(front + [e], i, p, rid, op) <==> SaysLast(front, i, p, rid, op)
  {
    assert forall k | 0 <= k < |front| :: (front + [e])[k] == front[k];
  }

  /** The table has a path's last such entry. */
  lemma {:induction false} LatestIff(log: seq<Entry>, p: Path, rid: Rid, op: Op)
    ensures p in Latest(log) && Latest(log)[p] == Last(rid, op) <==> exists i: nat :: SaysLast(log, i, p, rid, op)
  {
    if log != [] {
      var m := |log| - 1;
      var front, e := log[..m], log[m];
      assert log == front + [e];
      NotedAsSaid(Latest(front), e, p);
      if r, o :| Says(e, p, r, o) {
        assert SaysLast(log, m, p, r, o);
        if i: nat :| SaysLast(log, i, p, rid, op) { OneSaysLast(log, i, p, rid, op, m, r, o); }
      } else {
        LatestIff(front, p, rid, op);
        forall i: nat ensures SaysLast(log, i, p, rid, op) <==> SaysLast(front, i, p, rid, op) {
          SaysLastSnoc(front, e, i, p, rid, op);
        }
      }
    }
  }

  /** The first thing wrong is what a read that is not attributed is told. */
  lemma ReadReasonsMean(ring: Ring, p: Path, digest: Digest, raw: Option<Att>, latest: map<Path, Last>)
    ensures var v := BrokerVerdict(ring, p, digest, raw, latest);
      && (v == NoAttestation <==> raw.None?)
      && (v == DoesNotVerify <==> raw.Some? && !Verifies(ring, raw.value))
      && (v == NamesAnotherPath <==> raw.Some? && Verifies(ring, raw.value) && raw.value.target != p)
      && (v == ContentDiffers <==>
            raw.Some? && Verifies(ring, raw.value) && raw.value.target == p && raw.value.digest != digest)
      && (forall rid: Rid :: v == Attributed(rid) <==>
            && raw.Some? && Verifies(ring, raw.value) && raw.value.target == p && raw.value.digest == digest
            && raw.value.rid == rid && p in latest && latest[p] == Last(rid, Wrote))
  {
  }
}
