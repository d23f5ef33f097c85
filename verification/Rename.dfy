/** Renames across crashes and under interference. */
module Rename {
  import opened Attest
  import opened Files
  import opened Effects

  // ---- All or nothing, without foreign changes ----------------------------------------

  /** The recorded rename: the source holds the recorded content under an attestation for its
      own path, the private name is unused, and the record of the destination is accurate. */
  ghost predicate Recorded(ring: Ring, j: Job, w: World) {
    && j.Rename? && ring.active.Some? && ring.active.value in ring.publics
    && j.private !in {j.source, j.target} && j.private !in w
    && j.source in w && w[j.source].Reg?
    && j.before == Present(w[j.source].digest)
    && j.sourceAtt == w[j.source].att
    && j.sourceAtt.Some? && j.sourceAtt.value.target == j.source
    && j.targetBefore == Observe(w, j.target)
  }

  function NewAtt(ring: Ring, j: Job): Att
    requires j.Rename? && ring.active.Some? && j.before.Present?
  {
    Sealed(ring.active.value, j.rid, j.target, j.before.digest)
  }

  /** The move as one atomic step, re-attested for the destination. */
  function Moved(ring: Ring, j: Job, w: World): World
    requires j.Rename? && ring.active.Some? && j.before.Present?
  {
    (w - {j.source})[j.target := Reg(j.before.digest, Some(NewAtt(ring, j)))]
  }

  /** Where the file can be: at the source as it was, at the private name with the old or
      the new attestation, placed, or back at the source still carrying the new attestation. */
  datatype Stage = AtSource | Held | HeldNew | Placed | BackNew

  function Shape(ring: Ring, j: Job, w: World, s: Stage): World
    requires j.Rename? && ring.active.Some? && j.before.Present?
  {
    var mine := Reg(j.before.digest, j.sourceAtt);
    var resigned := Reg(j.before.digest, Some(NewAtt(ring, j)));
    match s
    case AtSource => w
    case Held => (w - {j.source})[j.private := mine]
    case HeldNew => (w - {j.source})[j.private := resigned]
    case Placed => Moved(ring, j, w)
    case BackNew => w[j.source := resigned]
  }

  /** Which stage the protocol is in at each program point. */
  ghost predicate At(ring: Ring, j: Job, w: World, pc: Pc, s: Stage) {
    match s
    case AtSource => pc in {Begin, Claim, Done(false)}
    case Held => pc in {Inspect, Reattest, PutBack}
    case HeldNew => pc in {Place, MoveBack} && (pc == MoveBack ==> j.target in w)
    case Placed => pc == Done(true)
    case BackNew => pc == RestoreAtt && j.target in w
  }

  /** Stages a crash can leave behind. */
  ghost predicate Left(j: Job, w: World, s: Stage)
    requires j.Rename?
  {
    && (s != AtSource ==> j.source != j.target)
    && (s == Placed ==> j.target !in w)
    && (s == BackNew ==> j.target in w)
  }

  lemma ProtocolStage(ring: Ring, j: Job, w: World, c: Conf, s: Stage) returns (s': Stage)
    requires Recorded(ring, j, w)
    requires c.w == Shape(ring, j, w, s) && At(ring, j, w, c.pc, s) && Left(j, w, s)
    requires s == AtSource && c.pc != Begin ==> j.source != j.target || c.pc == Done(false)
    ensures var c' := Step(ring.active.value, j, c);
      && c'.w == Shape(ring, j, w, s') && At(ring, j, w, c'.pc, s') && Left(j, w, s')
      && (s' == AtSource && c'.pc != Begin ==> j.source != j.target || c'.pc == Done(false))
  {
    var c' := Step(ring.active.value, j, c);
    match c.pc {
      case Begin => s' := AtSource;
      case Claim => s' := Held;
      case Inspect => s' := Held;
      case Reattest => s' := if j.attFails then Held else HeldNew;
      case PutBack => s' := AtSource; assert c'.w == w;
      case Place => s' := if j.target in w then HeldNew else Placed;
      case MoveBack => s' := BackNew;
      case RestoreAtt => s' := AtSource; assert c'.w == w;
      case _ => s' := s;
    }
  }

  lemma {:induction false} ProtocolStages(ring: Ring, j: Job, w: World, n: nat) returns (s: Stage)
    requires Recorded(ring, j, w)
    ensures var c := Steps(ring.active.value, j, Conf(w, Begin), n);
      && c.w == Shape(ring, j, w, s) && At(ring, j, w, c.pc, s) && Left(j, w, s)
      && (s == AtSource && c.pc != Begin ==> j.source != j.target || c.pc == Done(false))
  {
    if n == 0 {
      s := AtSource;
    } else {
      var before := ProtocolStages(ring, j, w, n - 1);
      s := ProtocolStage(ring, j, w, Steps(ring.active.value, j, Conf(w, Begin), n - 1), before);
    }
  }

  /** Which stage the recovery is in at each of its program points. */
  ghost predicate RAt(ring: Ring, j: Job, w: World, pc: RPc, s: Stage) {
    match pc
    case Look => true
    case Aim => s == HeldNew
    case Peek => s in {AtSource, BackNew, Placed}
    case Weigh => s == Held || (s == HeldNew && j.target in w)
    case Compare => s == BackNew || s == AtSource
    case Forward => s == HeldNew && j.target !in w
    case Back(ours) => ours && (s == Held || (s == HeldNew && j.target in w))
    case FixAtt => s == BackNew || s == AtSource
    case See => s == AtSource || s == Placed
    case Seen(now) => (s == AtSource && now == j.before) || (s == Placed && now == Absent)
    case End(v) => (s == AtSource && v == ConfirmedFailure) || (s == Placed && v == ConfirmedSuccess)
  }

  /** Keys may have been rotated between the crash and the restart: old public keys stay. */
  predicate Later(ring: Ring, now: Ring) {
    ring.publics <= now.publics
  }

  lemma RecoveryStage(ring: Ring, now: Ring, j: Job, w: World, c: RConf, s: Stage) returns (s': Stage)
    requires Recorded(ring, j, w) && Later(ring, now)
    requires c.w == Shape(ring, j, w, s) && RAt(ring, j, w, c.pc, s) && Left(j, w, s)
    ensures var c' := RecoverStep(now, j, c);
      c'.w == Shape(ring, j, w, s') && RAt(ring, j, w, c'.pc, s') && Left(j, w, s')
  {
    var c' := RecoverStep(now, j, c);
    match c.pc {
      case Forward => s' := Placed; assert c'.w == Moved(ring, j, w);
      case Back(_) => s' := if s == Held then AtSource else BackNew; assert c'.w == Shape(ring, j, w, s');
      case FixAtt => s' := AtSource; assert c'.w == w;
      case _ => s' := s;
    }
  }

  lemma {:induction false} RecoveryStages(ring: Ring, now: Ring, j: Job, w: World, s: Stage, n: nat) returns (s': Stage)
    requires Recorded(ring, j, w) && Later(ring, now) && Left(j, w, s)
    ensures var c := RecoverSteps(now, j, RConf(Shape(ring, j, w, s), Look), n);
      c.w == Shape(ring, j, w, s') && RAt(ring, j, w, c.pc, s') && Left(j, w, s')
  {
    if n == 0 {
      s' := s;
    } else {
      var before := RecoveryStages(ring, now, j, w, s, n - 1);
      s' := RecoveryStage(ring, now, j, w, RecoverSteps(now, j, RConf(Shape(ring, j, w, s), Look), n - 1), before);
    }
  }

  lemma {:induction false} RecoveryCompletes(ring: Ring, now: Ring, j: Job, w: World, c: RConf, s: Stage)
      returns (s': Stage)
    requires Recorded(ring, j, w) && Later(ring, now)
    requires c.w == Shape(ring, j, w, s) && RAt(ring, j, w, c.pc, s) && Left(j, w, s)
    ensures var c' := Recover(now, j, c);
      c'.w == Shape(ring, j, w, s') && RAt(ring, j, w, c'.pc, s') && Left(j, w, s')
    decreases RRank(c.pc)
  {
    if c.pc.End? {
      s' := s;
    } else {
      var next := RecoveryStage(ring, now, j, w, c, s);
      s' := RecoveryCompletes(ring, now, j, w, RecoverStep(now, j, c), next);
    }
  }

  /** A recovery cut short: the keys it had and how many of its own steps it got through. */
  datatype Attempt = Attempt(now: Ring, steps: nat)

  /** A crash after `n` steps of the protocol, then the given recoveries cut short. */
  function Crashes(ring: Ring, j: Job, w: World, n: nat, attempts: seq<Attempt>): World
    requires j.Rename? && ring.active.Some?
  {
    if attempts == [] then Steps(ring.active.value, j, Conf(w, Begin), n).w
    else
      var m := |attempts| - 1;
      var start := RConf(Crashes(ring, j, w, n, attempts[..m]), Look);
      RecoverSteps(attempts[m].now, j, start, attempts[m].steps).w
  }

  predicate AllLater(ring: Ring, attempts: seq<Attempt>) {
    forall a <- attempts :: Later(ring, a.now)
  }

  lemma {:induction false} CrashesLeave(ring: Ring, j: Job, w: World, n: nat, attempts: seq<Attempt>)
      returns (s: Stage)
    requires Recorded(ring, j, w) && AllLater(ring, attempts)
    ensures Crashes(ring, j, w, n, attempts) == Shape(ring, j, w, s) && Left(j, w, s)
  {
    if attempts == [] {
      s := ProtocolStages(ring, j, w, n);
    } else {
      var m := |attempts| - 1;
      var before := CrashesLeave(ring, j, w, n, attempts[..m]);
      s := RecoveryStages(ring, attempts[m].now, j, w, before, attempts[m].steps);
    }
  }

  /** The rename is all or nothing: after a crash anywhere, any number of interrupted
      recoveries and one that completes, with keys rotated at will in between, the world is
      exactly the starting one and the verdict is a confirmed failure, or exactly the atomic
      re-attested move and a confirmed success. */
  lemma CrashedRenameIsAllOrNothing(ring: Ring, j: Job, w: World, n: nat, attempts: seq<Attempt>, now: Ring)
    requires Recorded(ring, j, w) && AllLater(ring, attempts) && Later(ring, now)
    ensures var end := Recover(now, j, RConf(Crashes(ring, j, w, n, attempts), Look));
      || end == RConf(w, End(ConfirmedFailure))
      || (end == RConf(Moved(ring, j, w), End(ConfirmedSuccess)) && j.source != j.target && j.target !in w)
    ensures j.private !in Recover(now, j, RConf(Crashes(ring, j, w, n, attempts), Look)).w
  {
    var s := CrashesLeave(ring, j, w, n, attempts);
    var s' := RecoveryCompletes(ring, now, j, w, RConf(Shape(ring, j, w, s), Look), s);
  }

  /** Undisturbed and uninterrupted, it succeeds exactly when it can, and otherwise restores. */
  lemma LiveRename(ring: Ring, j: Job, w: World)
    requires Recorded(ring, j, w)
    ensures var c := Finish(ring.active.value, j, Conf(w, Begin));
      && (c.pc == Done(true) <==> !j.attFails && j.source != j.target && j.target !in w)
      && c.w == (if c.pc == Done(true) then Moved(ring, j, w) else w)
      && VerdictIn(j, c.w) == (if c.pc == Done(true) then ConfirmedSuccess else ConfirmedFailure)
  {
    var kid := ring.active.value;
    var c := Conf(w, Begin);
    var s := AtSource;
    var end := Finish(kid, j, c);
    while !c.pc.Done?
      invariant c.w == Shape(ring, j, w, s) && At(ring, j, w, c.pc, s) && Left(j, w, s)
      invariant s == AtSource && c.pc != Begin ==> j.source != j.target || c.pc == Done(false)
      invariant end == Finish(kid, j, c)
      invariant s in {Held, AtSource} && c.pc != Done(false) ==> c.pc == PutBack ==> j.attFails
      invariant s == HeldNew ==> !j.attFails
      invariant c.pc in {Claim, Inspect, Reattest, Place} ==>
        j.source != j.target && !(j.target in w && w[j.target].Link?)
      invariant c.pc == Done(false) ==> j.attFails || j.source == j.target || j.target in w
      invariant s == Placed ==> !j.attFails
      decreases Rank(c.pc)
    {
      s := ProtocolStage(ring, j, w, c, s);
      c := Step(kid, j, c);
    }
  }

  // ---- Recovery of any world -------------------------------------------------------------

  predicate Distinct(j: Job)
    requires j.Rename?
  {
    j.source != j.target && j.private != j.source && j.private != j.target
  }

  predicate CanRollForward(ring: Ring, j: Job, w: World)
    requires j.Rename?
  {
    j.private in w && Reattested(ring, j, w) && j.target !in w
  }

  predicate Stuck(ring: Ring, j: Job, w: World)
    requires j.Rename?
  {
    j.private in w && j.source in w && !CanRollForward(ring, j, w)
  }

  /** What a whole undisturbed recovery makes of a world. */
  function RecoveredWorld(ring: Ring, j: Job, w: World): World
    requires j.Rename? && Distinct(j)
  {
    if CanRollForward(ring, j, w) then Move(w, j.private, j.target)
    else if j.private in w && j.source in w then w
    else if j.private in w then
      var back := Move(w, j.private, j.source);
      if j.before.Present? && HasDigest(w, j.private, j.before.digest) then SetAtt(back, j.source, j.sourceAtt) else back
    else if j.before.Present? && HasDigest(w, j.source, j.before.digest) && AttAt(w, j.source) != j.sourceAtt
    then SetAtt(w, j.source, j.sourceAtt)
    else w
  }

  lemma RecoverUnfolds(ring: Ring, j: Job, w: World)
    requires j.Rename? && Distinct(j)
    ensures Recover(ring, j, RConf(w, Look)) ==
      if Stuck(ring, j, w) then RConf(w, End(Unresolved))
      else RConf(RecoveredWorld(ring, j, w), End(VerdictIn(j, RecoveredWorld(ring, j, w))))
  {
    var c := RConf(w, Look);
    var end := Recover(ring, j, c);
    while !c.pc.End? && c.pc != See
      invariant end == Recover(ring, j, c)
      invariant c.pc == Look ==> c.w == w
      invariant c.pc == Forward ==> c.w == w && CanRollForward(ring, j, w)
      invariant c.pc == Aim ==> c.w == w && j.private in w && Reattested(ring, j, w)
      invariant c.pc == Peek ==> c.w == w && j.private !in w
      invariant c.pc == Weigh || c.pc.Back? ==> c.w == w && j.private in w && !CanRollForward(ring, j, w)
      invariant c.pc == Compare ==>
        c.w == w && j.private !in w && j.before.Present? && HasDigest(w, j.source, j.before.digest)
      invariant c.pc.Back? ==> c.pc.ours == (j.before.Present? && HasDigest(w, j.private, j.before.digest))
      invariant c.pc == FixAtt ==> !CanRollForward(ring, j, w) && Opens(c.w, j.source)
      invariant c.pc == FixAtt && j.private in w ==>
        j.source !in w && c.w == Move(w, j.private, j.source) &&
        j.before.Present? && HasDigest(w, j.private, j.before.digest)
      invariant c.pc == FixAtt && j.private !in w ==>
        c.w == w && j.before.Present? && HasDigest(w, j.source, j.before.digest) && AttAt(w, j.source) != j.sourceAtt
      invariant c.pc.End? ==> c == RConf(w, End(Unresolved)) && Stuck(ring, j, w)
      invariant !c.pc.Seen?
      invariant c.pc == See ==> c.w == RecoveredWorld(ring, j, w) && !Stuck(ring, j, w)
      decreases RRank(c.pc)
    {
      c := RecoverStep(ring, j, c);
    }
    if c.pc == See {
      var seen := RecoverStep(ring, j, c);
      var last := RecoverStep(ring, j, seen);
      assert last == RConf(c.w, End(VerdictIn(j, c.w)));
      assert Recover(ring, j, c) == Recover(ring, j, seen) == Recover(ring, j, last) == last;
    }
  }

  /** Whatever it finds, an undisturbed recovery leaves the private name occupied exactly
      when the file can go neither forward nor back, and then it changes nothing at all. */
  lemma RecoveryFreesThePrivateName(ring: Ring, j: Job, w: World)
    requires j.Rename? && Distinct(j)
    ensures var end := Recover(ring, j, RConf(w, Look));
      && (j.private in end.w <==> Stuck(ring, j, w))
      && (j.private in end.w ==> end == RConf(w, End(Unresolved)))
  {
    RecoverUnfolds(ring, j, w);
  }

  /** What a recovery finds at the private name goes to a free destination if and only if it is a file
      signed, under a key of the ring, as this request's and for that destination. */
  lemma RollsForwardIff(ring: Ring, j: Job, w: World)
    requires j.Rename? && Distinct(j) && j.private in w && j.target !in w
    ensures j.target in Recover(ring, j, RConf(w, Look)).w <==>
      && w[j.private].Reg? && w[j.private].att.Some?
      && var a := w[j.private].att.value;
      && a.rid == j.rid && a.target == j.target
      && a.kid in ring.publics && a.sig == Sig(a.kid, Message(j.rid, j.target, a.digest))
  {
    RecoverUnfolds(ring, j, w);
  }

  /** A foreign file at the source that a second recovery would take for the recorded one. */
  predicate LookalikeAtSource(ring: Ring, j: Job, w: World)
    requires j.Rename?
  {
    && CanRollForward(ring, j, w)
    && j.before.Present? && HasDigest(w, j.source, j.before.digest)
    && AttAt(w, j.source) != j.sourceAtt
  }

  /** Recovering twice is recovering once, except when a rolled-forward rename leaves behind a
      foreign file at the source with the recorded content and another attestation. */
  lemma RecoveryIsIdempotentUnless(ring: Ring, j: Job, w: World)
    requires j.Rename? && Distinct(j)
    ensures var end := Recover(ring, j, RConf(w, Look));
      Recover(ring, j, RConf(end.w, Look)) == end <==> !LookalikeAtSource(ring, j, w)
  {
    RecoverUnfolds(ring, j, w);
    var end := Recover(ring, j, RConf(w, Look));
    RecoverUnfolds(ring, j, end.w);
  }

  /** There are such worlds: the file at the private name, already re-attested, the destination
      free, and at the source a foreign copy of the content without an attestation. */
  lemma LookalikeExists(ring: Ring, j: Job)
    requires j.Rename? && Distinct(j) && j.before.Present? && j.sourceAtt.Some?
    requires ring.active.Some? && ring.active.value in ring.publics
    ensures var ours := Reg(j.before.digest, Some(NewAtt(ring, j)));
      var w := map[j.private := ours, j.source := Reg(j.before.digest, None)];
      && LookalikeAtSource(ring, j, w)
      && var end := Recover(ring, j, RConf(w, Look));
         AttAt(end.w, j.source) == None && AttAt(Recover(ring, j, RConf(end.w, Look)).w, j.source) == j.sourceAtt
  {
    var w := map[j.private := Reg(j.before.digest, Some(NewAtt(ring, j))), j.source := Reg(j.before.digest, None)];
    RecoverUnfolds(ring, j, w);
    RecoverUnfolds(ring, j, Recover(ring, j, RConf(w, Look)).w);
  }

  // ---- Under interference -------------------------------------------------------------------

  datatype Mode = Working(pc: Pc) | Recovering(rpc: RPc)

  datatype Event = Go | Crash | Foreign(p: Path, node: Option<Node>)

  datatype RSys = RSys(w: World, mode: Mode)

  function React(ring: Ring, j: Job, s: RSys, e: Event): RSys
    requires j.Rename? && ring.active.Some?
  {
    match e
    case Crash => s.(mode := Recovering(Look))
    case Foreign(p, node) => s.(w := Put(s.w, p, node))
    case Go =>
      match s.mode
      case Working(pc) => var c := StepRename(ring.active.value, j, s.w, pc); RSys(c.w, Working(c.pc))
      case Recovering(rpc) => var c := RecoverStep(ring, j, RConf(s.w, rpc)); RSys(c.w, Recovering(c.pc))
  }

  function Play(ring: Ring, j: Job, s: RSys, evs: seq<Event>): RSys
    requires j.Rename? && ring.active.Some?
  {
    if evs == [] then s else React(ring, j, Play(ring, j, s, evs[..|evs| - 1]), evs[|evs| - 1])
  }

  /** A file without its attestation. */
  function Content(w: World, p: Path): multiset<Node> {
    if p !in w then multiset{}
    else if w[p].Reg? then multiset{Reg(w[p].digest, None)}
    else multiset{w[p]}
  }

  /** The contents of the three names of a rename. */
  function Contents(j: Job, w: World): multiset<Node>
    requires j.Rename?
  {
    Content(w, j.source) + Content(w, j.private) + Content(w, j.target)
  }

  lemma MoveContent(w: World, a: Path, b: Path, p: Path)
    requires a in w && b !in w
    ensures Content(Move(w, a, b), p)
         == if p == a then multiset{} else if p == b then Content(w, a) else Content(w, p)
  {}

  lemma MoveKeepsContents(j: Job, w: World, a: Path, b: Path)
    requires j.Rename? && Distinct(j) && a in w && b !in w
    requires a in {j.source, j.private, j.target} && b in {j.source, j.private, j.target}
    ensures Contents(j, Move(w, a, b)) == Contents(j, w)
  {
    MoveContent(w, a, b, j.source);
    MoveContent(w, a, b, j.private);
    MoveContent(w, a, b, j.target);
    assert Content(w, b) == multiset{};
  }

  lemma SetAttKeepsContents(j: Job, w: World, p: Path, a: Option<Att>)
    requires j.Rename? && Opens(w, p)
    ensures Contents(j, SetAtt(w, p, a)) == Contents(j, w)
  {
    var w' := SetAtt(w, p, a);
    assert Content(w', j.source) == Content(w, j.source);
    assert Content(w', j.private) == Content(w, j.private);
    assert Content(w', j.target) == Content(w, j.target);
  }

  /** A step moves the file between two of the three names, sets an attribute, or does nothing. */
  ghost predicate OnePrimitive(j: Job, w: World, w': World)
    requires j.Rename?
  {
    var names := {j.source, j.private, j.target};
    || w' == w
    || (exists a, b | a in names && b in names :: a in w && b !in w && w' == Move(w, a, b))
    || (exists p, att :: Opens(w, p) && w' == SetAtt(w, p, att))
  }

  lemma OnePrimitiveKeepsContents(j: Job, w: World, w': World)
    requires j.Rename? && Distinct(j) && OnePrimitive(j, w, w')
    ensures Contents(j, w') == Contents(j, w)
  {
    var names := {j.source, j.private, j.target};
    if w' != w {
      if a, b :| a in names && b in names && a in w && b !in w && w' == Move(w, a, b) {
        MoveKeepsContents(j, w, a, b);
      } else {
        var p, att :| Opens(w, p) && w' == SetAtt(w, p, att);
        SetAttKeepsContents(j, w, p, att);
      }
    }
  }

  lemma ProtocolStepIsOnePrimitive(kid: string, j: Job, w: World, pc: Pc)
    requires j.Rename?
    ensures OnePrimitive(j, w, StepRename(kid, j, w, pc).w)
  {
  }

  lemma RecoveryStepIsOnePrimitive(ring: Ring, j: Job, w: World, rpc: RPc)
    requires j.Rename?
    ensures OnePrimitive(j, w, RecoverStep(ring, j, RConf(w, rpc)).w)
  {
  }

  /** How often content `n` was put into, and taken out of, the three names by foreign changes
      along a schedule. */
  function ForeignBalance(ring: Ring, j: Job, s: RSys, evs: seq<Event>, n: Node): int
    requires j.Rename? && ring.active.Some?
  {
    if evs == [] then 0
    else
      var front, e := evs[..|evs| - 1], evs[|evs| - 1];
      var w := Play(ring, j, s, front).w;
      var after := Contents(j, if e.Foreign? then Put(w, e.p, e.node) else w)[n] as int;
      ForeignBalance(ring, j, s, front, n) + after - Contents(j, w)[n] as int
  }

  /** Conservation: over every schedule of protocol steps, crashes, recoveries and foreign
      changes, the contents at the three names are the initial ones plus the foreign balance.
      The broker neither loses, duplicates nor alters content. */
  lemma {:induction false} ContentsAreConserved(ring: Ring, j: Job, s: RSys, evs: seq<Event>, n: Node)
    requires j.Rename? && ring.active.Some? && Distinct(j)
    ensures Contents(j, Play(ring, j, s, evs).w)[n]
         == Contents(j, s.w)[n] + ForeignBalance(ring, j, s, evs, n)
  {
    if evs != [] {
      var front, e := evs[..|evs| - 1], evs[|evs| - 1];
      ContentsAreConserved(ring, j, s, front, n);
      var t := Play(ring, j, s, front);
      if e.Go? {
        if t.mode.Working? {
          ProtocolStepIsOnePrimitive(ring.active.value, j, t.w, t.mode.pc);
        } else {
          RecoveryStepIsOnePrimitive(ring, j, t.w, t.mode.rpc);
        }
        OnePrimitiveKeepsContents(j, t.w, React(ring, j, t, e).w);
      }
    }
  }

  /** Foreign processes never touch the private name. */
  predicate Polite(j: Job, evs: seq<Event>)
    requires j.Rename?
  {
    forall e <- evs :: e.Foreign? ==> e.p != j.private
  }

  /** What the private name holds while the protocol is under way. */
  ghost predicate Holding(j: Job, s: RSys)
    requires j.Rename?
  {
    && (s.mode in {Working(Inspect), Working(PutBack)} ==> j.private in s.w)
    && (s.mode in {Working(Reattest), Working(Place), Working(MoveBack)} ==>
          j.before.Present? && HasDigest(s.w, j.private, j.before.digest))
  }

  lemma {:induction false} HoldingHolds(ring: Ring, j: Job, w: World, evs: seq<Event>)
    requires j.Rename? && ring.active.Some? && Distinct(j) && Polite(j, evs)
    ensures Holding(j, Play(ring, j, RSys(w, Working(Begin)), evs))
  {
    if evs != [] {
      var front, e := evs[..|evs| - 1], evs[|evs| - 1];
      assert Polite(j, front) by { assert forall x <- front :: x in evs; }
      assert e in evs;
      HoldingHolds(ring, j, w, front);
    }
  }

  /** Whatever interferes, the digest a rename signs is the digest of the file it signs for. */
  lemma SignsWhatItHolds(ring: Ring, j: Job, w: World, evs: seq<Event>)
    requires j.Rename? && ring.active.Some? && Distinct(j) && Polite(j, evs)
    ensures var s := Play(ring, j, RSys(w, Working(Begin)), evs);
      s.mode.Working? && Minted(ring.active.value, j, Conf(s.w, s.mode.pc)) != {} ==>
        && HasDigest(s.w, j.private, j.before.digest)
        && Minted(ring.active.value, j, Conf(s.w, s.mode.pc))
             == {Sig(ring.active.value, Message(j.rid, j.target, s.w[j.private].digest))}
  {
    HoldingHolds(ring, j, w, evs);
  }
}
