/** The state-changing effects as small-step programs over the world: each step is at most
    one atomic file-system primitive, so a crash or another process can fall between any two. */
module Effects {
  import opened Attest
  import opened Files

  /** What is fixed before the effect starts. All of it is in the prepared record but the private
      names of a write and a delete, and `attFails`, which is no record's but foretells that this
      rename will find itself unable to sign or to set the attribute. */
  datatype Job =
    | Write(rid: Rid, target: Path, private: Path, digest: Digest, before: State)
    | Delete(rid: Rid, target: Path, private: Path, before: State)
    | Rename(rid: Rid, source: Path, target: Path, private: Path, before: State,
             targetBefore: State, sourceAtt: Option<Att>, attFails: bool)

  datatype Pc =
    | Begin | Create | Attest | Swap | Claim | Inspect | Undo | Drop(ok: bool)
    | PutBack | Reattest | Place | MoveBack | RestoreAtt | Done(ok: bool)

  datatype Conf = Conf(w: World, pc: Pc)

  /** Steps left, at most. */
  function Rank(pc: Pc): nat {
    match pc
    case Begin => 9
    case Create => 8
    case Claim => 8
    case Attest => 7
    case Swap => 6
    case Inspect => 5
    case Undo => 4
    case Reattest => 4
    case Place => 3
    case MoveBack => 2
    case Drop(_) => 1
    case PutBack => 1
    case RestoreAtt => 1
    case Done(_) => 0
  }

  function StepWrite(kid: string, j: Job, w: World, pc: Pc): Conf
    requires j.Write?
  {
    match pc
    case Begin =>
      if j.target in w && w[j.target].Link? then Conf(w, Done(false)) else Conf(w, Create)
    case Create =>
      if j.private in w then Conf(w, Done(false))
      else Conf(w[j.private := Reg(j.digest, None)], Attest)
    case Attest =>
      if !Opens(w, j.private) then Conf(w, Done(false))
      else Conf(SetAtt(w, j.private, Some(Sealed(kid, j.rid, j.target, j.digest))), Swap)
    case Swap =>
      if j.private !in w then Conf(w, Done(false))
      else (match j.before
            case Unavailable =>
              if j.target in w && w[j.target].Dir? then Conf(w, Done(false))
              else Conf((w - {j.private})[j.target := w[j.private]], Done(true))
            case Absent =>
              if j.target in w then Conf(w, Drop(false))
              else Conf(Move(w, j.private, j.target), Done(true))
            case Present(_) =>
              if j.target !in w then Conf(w, Done(false))
              else Conf(Exchange(w, j.private, j.target), Inspect))
    case Inspect =>
      if j.private !in w || !w[j.private].Reg? then Conf(w, Done(false))
      else if Present(w[j.private].digest) == j.before then Conf(w, Drop(true))
      else Conf(w, Undo)
    case Undo =>
      if j.private !in w || j.target !in w then Conf(w, Done(false))
      else Conf(Exchange(w, j.private, j.target), Drop(false))
    case Drop(ok) =>
      if j.private !in w || w[j.private].Dir? then Conf(w, Done(false))
      else Conf(w - {j.private}, Done(ok))
    case _ => Conf(w, Done(pc.Done? && pc.ok))
  }

  function StepDelete(j: Job, w: World, pc: Pc): Conf
    requires j.Delete?
  {
    match pc
    case Begin =>
      if j.target in w && w[j.target].Link? then Conf(w, Done(false)) else Conf(w, Claim)
    case Claim =>
      if !j.before.Present? || j.target !in w || j.private in w then Conf(w, Done(false))
      else Conf(Move(w, j.target, j.private), Inspect)
    case Inspect =>
      if j.private in w && w[j.private].Reg? && Present(w[j.private].digest) == j.before
      then Conf(w, Drop(true)) else Conf(w, PutBack)
    case PutBack =>
      if j.private !in w || j.target in w then Conf(w, Done(false))
      else Conf(Move(w, j.private, j.target), Done(false))
    case Drop(ok) =>
      if j.private !in w || w[j.private].Dir? then Conf(w, Done(false))
      else Conf(w - {j.private}, Done(ok))
    case _ => Conf(w, Done(pc.Done? && pc.ok))
  }

  function StepRename(kid: string, j: Job, w: World, pc: Pc): Conf
    requires j.Rename?
  {
    match pc
    case Begin =>
      if j.source in w && w[j.source].Link? then Conf(w, Done(false))
      else if j.source == j.target then Conf(w, Done(false))
      else if j.target in w && w[j.target].Link? then Conf(w, Done(false))
      else Conf(w, Claim)
    case Claim =>
      if !j.before.Present? || j.source !in w || j.private in w then Conf(w, Done(false))
      else Conf(Move(w, j.source, j.private), Inspect)
    case Inspect =>
      if j.private in w && w[j.private].Reg? && Present(w[j.private].digest) == j.before
      then Conf(w, Reattest) else Conf(w, PutBack)
    case PutBack =>
      if j.private !in w || j.source in w then Conf(w, Done(false))
      else Conf(Move(w, j.private, j.source), Done(false))
    case Reattest =>
      if j.attFails || !j.before.Present? || !Opens(w, j.private) then Conf(w, PutBack)
      else Conf(SetAtt(w, j.private, Some(Sealed(kid, j.rid, j.target, j.before.digest))), Place)
    case Place =>
      if j.private !in w then Conf(w, Done(false))
      else if j.target in w then Conf(w, MoveBack)
      else Conf(Move(w, j.private, j.target), Done(true))
    case MoveBack =>
      if j.private !in w || j.source in w then Conf(w, Done(false))
      else Conf(Move(w, j.private, j.source), RestoreAtt)
    case RestoreAtt =>
      if !Opens(w, j.source) then Conf(w, Done(false))
      else Conf(SetAtt(w, j.source, j.sourceAtt), Done(false))
    case _ => Conf(w, Done(pc.Done? && pc.ok))
  }

  function Step(kid: string, j: Job, c: Conf): (c': Conf)
    ensures c.pc.Done? ==> c' == c
    ensures !c.pc.Done? ==> Rank(c'.pc) < Rank(c.pc)
  {
    match j
    case Write(_, _, _, _, _) => StepWrite(kid, j, c.w, c.pc)
    case Delete(_, _, _, _) => StepDelete(j, c.w, c.pc)
    case Rename(_, _, _, _, _, _, _, _) => StepRename(kid, j, c.w, c.pc)
  }

  /** The signature a step mints, if it is one of the two that sign. */
  function Minted(kid: string, j: Job, c: Conf): set<Sig> {
    if j.Write? && c.pc == Attest && Opens(c.w, j.private)
    then {Sealed(kid, j.rid, j.target, j.digest).sig}
    else if j.Rename? && c.pc == Reattest && !j.attFails && j.before.Present? && Opens(c.w, j.private)
    then {Sealed(kid, j.rid, j.target, j.before.digest).sig}
    else {}
  }

  /** `n` steps, undisturbed. */
  function Steps(kid: string, j: Job, c: Conf, n: nat): Conf {
    if n == 0 then c else Step(kid, j, Steps(kid, j, c, n - 1))
  }

  /** To the end, undisturbed. */
  function Finish(kid: string, j: Job, c: Conf): (c': Conf)
    ensures c'.pc.Done?
    decreases Rank(c.pc)
  {
    if c.pc.Done? then c else Finish(kid, j, Step(kid, j, c))
  }

  // ---- The verdicts ----------------------------------------------------------------

  datatype Verdict = ConfirmedSuccess | ConfirmedFailure | Unresolved

  /** The state the invocation asks for; none when a rename's source was not a regular file. */
  function Intended(j: Job): Option<State> {
    match j
    case Write(_, _, _, d, _) => Some(Present(d))
    case Delete(_, _, _, _) => Some(Absent)
    case Rename(_, _, _, _, before, _, _, _) => if before.Present? then Some(before) else None
  }

  function Reconcile(before: State, intended: State, observed: State): Verdict {
    if observed == Unavailable then Unresolved
    else if observed == intended then ConfirmedSuccess
    else if before != intended && observed == before then ConfirmedFailure
    else Unresolved
  }

  /** A rename is classified by both of its paths. */
  function ClassifyRename(j: Job, sourceNow: State, targetNow: State): Verdict
    requires j.Rename?
  {
    if Intended(j) == Some(targetNow) && sourceNow == Absent then ConfirmedSuccess
    else if sourceNow == j.before && targetNow == j.targetBefore then ConfirmedFailure
    else Unresolved
  }

  function Classify(j: Job, sourceNow: State, targetNow: State): Verdict {
    match j
    case Write(_, _, _, d, before) => Reconcile(before, Present(d), targetNow)
    case Delete(_, _, _, before) => Reconcile(before, Absent, targetNow)
    case Rename(_, _, _, _, _, _, _, _) => ClassifyRename(j, sourceNow, targetNow)
  }

  function SourceOf(j: Job): Path {
    if j.Rename? then j.source else j.target
  }

  /** The verdict reached by observing the world once the effect is over. */
  function VerdictIn(j: Job, w: World): Verdict {
    Classify(j, Observe(w, SourceOf(j)), Observe(w, j.target))
  }

  // ---- Recovery of an interrupted rename --------------------------------------------

  datatype RPc =
    | Look | Aim | Weigh | Peek | Forward | Back(ours: bool) | Compare | FixAtt | See
    | Seen(sourceNow: State) | End(verdict: Verdict)

  datatype RConf = RConf(w: World, pc: RPc)

  function RRank(pc: RPc): nat {
    match pc
    case Look => 7
    case Aim => 6
    case Weigh => 5
    case Peek => 5
    case Forward => 4
    case Back(_) => 4
    case Compare => 4
    case FixAtt => 3
    case See => 2
    case Seen(_) => 1
    case End(_) => 0
  }

  /** The file at the private name carries this rename's own attestation. */
  predicate Reattested(ring: Ring, j: Job, w: World)
    requires j.Rename?
  {
    var a := AttAt(w, j.private);
    Checks(ring, a) && a.value.target == j.target && a.value.rid == j.rid
  }

  function RecoverStep(ring: Ring, j: Job, c: RConf): (c': RConf)
    requires j.Rename?
    ensures c.pc.End? ==> c' == c
    ensures !c.pc.End? ==> RRank(c'.pc) < RRank(c.pc)
  {
    var w := c.w;
    match c.pc
    case Look =>
      if j.private !in w then RConf(w, Peek)
      else if Reattested(ring, j, w) then RConf(w, Aim)
      else RConf(w, Weigh)
    case Aim => if j.target !in w then RConf(w, Forward) else RConf(w, Weigh)
    case Peek =>
      if j.before.Present? && HasDigest(w, j.source, j.before.digest) then RConf(w, Compare) else RConf(w, See)
    case Weigh => RConf(w, Back(j.before.Present? && HasDigest(w, j.private, j.before.digest)))
    case Compare => if AttAt(w, j.source) != j.sourceAtt then RConf(w, FixAtt) else RConf(w, See)
    case Forward =>
      if j.private !in w || j.target in w then RConf(w, End(Unresolved))
      else RConf(Move(w, j.private, j.target), See)
    case Back(ours) =>
      if j.private !in w || j.source in w then RConf(w, End(Unresolved))
      else RConf(Move(w, j.private, j.source), if ours then FixAtt else See)
    case FixAtt =>
      if !Opens(w, j.source) then RConf(w, End(Unresolved))
      else RConf(SetAtt(w, j.source, j.sourceAtt), See)
    case See => RConf(w, Seen(Observe(w, j.source)))
    case Seen(sourceNow) => RConf(w, End(ClassifyRename(j, sourceNow, Observe(w, j.target))))
    case End(_) => c
  }

  function RecoverSteps(ring: Ring, j: Job, c: RConf, n: nat): RConf
    requires j.Rename?
  {
    if n == 0 then c else RecoverStep(ring, j, RecoverSteps(ring, j, c, n - 1))
  }

  function Recover(ring: Ring, j: Job, c: RConf): (c': RConf)
    requires j.Rename?
    ensures c'.pc.End?
    decreases RRank(c.pc)
  {
    if c.pc.End? then c else Recover(ring, j, RecoverStep(ring, j, c))
  }
}
