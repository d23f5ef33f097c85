/** A request's program reads and writes its own names only. */
module Locality {
  import opened Attest
  import opened Files
  import opened Effects
  import opened Record
  import R = Rename
  import S = Sequential

  /** The names of a request: what it acts on, where its result goes, and its private name. */
  function Names(j: Job): set<Path> {
    {SourceOf(j), j.target, j.private}
  }

  ghost predicate Agree(u: World, v: World, names: set<Path>) {
    forall p <- names :: At(u, p) == At(v, p)
  }

  ghost predicate Elsewhere(u: World, v: World, names: set<Path>) {
    forall p | p !in names :: At(u, p) == At(v, p)
  }

  lemma SameEverywhere(u: World, v: World, names: set<Path>)
    requires Agree(u, v, names) && Elsewhere(u, v, names)
    ensures u == v
  {
    forall p ensures p in u <==> p in v {
      assert At(u, p) == At(v, p);
    }
    assert forall p <- u :: At(u, p) == At(v, p);
  }

  lemma ElsewhereGoesOn(u: World, v: World, x: World, names: set<Path>)
    requires Elsewhere(u, v, names) && Elsewhere(v, x, names)
    ensures Elsewhere(u, x, names)
  {
    forall p | p !in names ensures At(u, p) == At(x, p) {
      assert At(u, p) == At(v, p);
    }
  }

  lemma AgreeOnOthers(u: World, v: World, names: set<Path>, others: set<Path>)
    requires Elsewhere(u, v, names) && names !! others
    ensures Agree(u, v, others)
  {
  }

  // ---- One step ------------------------------------------------------------------------------

  lemma WriteIsLocal(kid: string, j: Job, u: World, v: World, pc: Pc)
    requires j.Write? && Agree(u, v, Names(j))
    ensures var c, d := StepWrite(kid, j, u, pc), StepWrite(kid, j, v, pc);
      c.pc == d.pc && Agree(c.w, d.w, Names(j)) && Elsewhere(u, c.w, Names(j))
  {
    assert At(u, j.target) == At(v, j.target) && At(u, j.private) == At(v, j.private);
    match pc {
      case Begin =>
      case Create =>
      case Attest =>
      case Swap =>
      case Inspect =>
      case Undo =>
      case Drop(_) =>
      case _ =>
    }
  }

  lemma DeleteIsLocal(j: Job, u: World, v: World, pc: Pc)
    requires j.Delete? && Agree(u, v, Names(j))
    ensures var c, d := StepDelete(j, u, pc), StepDelete(j, v, pc);
      c.pc == d.pc && Agree(c.w, d.w, Names(j)) && Elsewhere(u, c.w, Names(j))
  {
    assert At(u, j.target) == At(v, j.target) && At(u, j.private) == At(v, j.private);
    match pc {
      case Begin =>
      case Claim =>
      case Inspect =>
      case PutBack =>
      case Drop(_) =>
      case _ =>
    }
  }

  lemma RenameIsLocal(kid: string, j: Job, u: World, v: World, pc: Pc)
    requires j.Rename? && Agree(u, v, Names(j))
    ensures var c, d := StepRename(kid, j, u, pc), StepRename(kid, j, v, pc);
      c.pc == d.pc && Agree(c.w, d.w, Names(j)) && Elsewhere(u, c.w, Names(j))
  {
    assert At(u, j.target) == At(v, j.target) && At(u, j.private) == At(v, j.private);
    assert At(u, j.source) == At(v, j.source);
    match pc {
      case Begin =>
      case Claim =>
      case Inspect =>
      case PutBack =>
      case Reattest =>
      case Place =>
      case MoveBack =>
      case RestoreAtt =>
      case _ =>
    }
  }

  lemma StepIsLocal(kid: string, j: Job, u: World, v: World, pc: Pc)
    requires Agree(u, v, Names(j))
    ensures var c, d := Step(kid, j, Conf(u, pc)), Step(kid, j, Conf(v, pc));
      c.pc == d.pc && Agree(c.w, d.w, Names(j)) && Elsewhere(u, c.w, Names(j))
  {
    match j {
      case Write(_, _, _, _, _) => WriteIsLocal(kid, j, u, v, pc);
      case Delete(_, _, _, _) => DeleteIsLocal(j, u, v, pc);
      case Rename(_, _, _, _, _, _, _, _) => RenameIsLocal(kid, j, u, v, pc);
    }
  }

  lemma RecoverStepIsLocal(ring: Ring, j: Job, u: World, v: World, pc: RPc)
    requires j.Rename? && Agree(u, v, Names(j))
    ensures var c, d := RecoverStep(ring, j, RConf(u, pc)), RecoverStep(ring, j, RConf(v, pc));
      c.pc == d.pc && Agree(c.w, d.w, Names(j)) && Elsewhere(u, c.w, Names(j))
  {
    assert At(u, j.target) == At(v, j.target) && At(u, j.private) == At(v, j.private);
    assert At(u, j.source) == At(v, j.source);
    match pc {
      case Look =>
      case Aim =>
      case Weigh =>
      case Peek =>
      case Forward =>
      case Back(_) =>
      case Compare =>
      case FixAtt =>
      case See =>
      case Seen(_) =>
      case End(_) =>
    }
  }

  // ---- Many steps ------------------------------------------------------------------------------

  lemma OneMoreStep(kid: string, j: Job, u: World, c: Conf, d: Conf)
    requires c.pc == d.pc && Agree(c.w, d.w, Names(j)) && Elsewhere(u, c.w, Names(j))
    ensures var c', d' := Step(kid, j, c), Step(kid, j, d);
      c'.pc == d'.pc && Agree(c'.w, d'.w, Names(j)) && Elsewhere(u, c'.w, Names(j))
  {
    StepIsLocal(kid, j, c.w, d.w, c.pc);
    ElsewhereGoesOn(u, c.w, Step(kid, j, c).w, Names(j));
  }

  lemma {:induction false} StepsAreLocal(kid: string, j: Job, u: World, v: World, n: nat)
    requires Agree(u, v, Names(j))
    ensures var c, d := Steps(kid, j, Conf(u, Begin), n), Steps(kid, j, Conf(v, Begin), n);
      c.pc == d.pc && Agree(c.w, d.w, Names(j)) && Elsewhere(u, c.w, Names(j))
  {
    if n > 0 {
      StepsAreLocal(kid, j, u, v, n - 1);
      OneMoreStep(kid, j, u, Steps(kid, j, Conf(u, Begin), n - 1), Steps(kid, j, Conf(v, Begin), n - 1));
    }
  }

  lemma OneMoreRecoverStep(ring: Ring, j: Job, u: World, c: RConf, d: RConf)
    requires j.Rename? && c.pc == d.pc && Agree(c.w, d.w, Names(j)) && Elsewhere(u, c.w, Names(j))
    ensures var c', d' := RecoverStep(ring, j, c), RecoverStep(ring, j, d);
      c'.pc == d'.pc && Agree(c'.w, d'.w, Names(j)) && Elsewhere(u, c'.w, Names(j))
  {
    RecoverStepIsLocal(ring, j, c.w, d.w, c.pc);
    ElsewhereGoesOn(u, c.w, RecoverStep(ring, j, c).w, Names(j));
  }

  lemma {:induction false} RecoverStepsAreLocal(ring: Ring, j: Job, u: World, v: World, n: nat)
    requires j.Rename? && Agree(u, v, Names(j))
    ensures var c, d := RecoverSteps(ring, j, RConf(u, Look), n), RecoverSteps(ring, j, RConf(v, Look), n);
      c.pc == d.pc && Agree(c.w, d.w, Names(j)) && Elsewhere(u, c.w, Names(j))
  {
    if n > 0 {
      RecoverStepsAreLocal(ring, j, u, v, n - 1);
      var c, d := RecoverSteps(ring, j, RConf(u, Look), n - 1), RecoverSteps(ring, j, RConf(v, Look), n - 1);
      OneMoreRecoverStep(ring, j, u, c, d);
    }
  }

  lemma {:induction false} CrashesAreLocal(ring: Ring, j: Job, u: World, v: World, n: nat, attempts: seq<R.Attempt>)
    requires j.Rename? && ring.active.Some? && Agree(u, v, Names(j))
    ensures var x, y := R.Crashes(ring, j, u, n, attempts), R.Crashes(ring, j, v, n, attempts);
      Agree(x, y, Names(j)) && Elsewhere(u, x, Names(j))
  {
    if attempts == [] {
      StepsAreLocal(ring.active.value, j, u, v, n);
    } else {
      var m := |attempts| - 1;
      CrashesAreLocal(ring, j, u, v, n, attempts[..m]);
      var x, y := R.Crashes(ring, j, u, n, attempts[..m]), R.Crashes(ring, j, v, n, attempts[..m]);
      RecoverStepsAreLocal(attempts[m].now, j, x, y, attempts[m].steps);
      ElsewhereGoesOn(u, x, R.Crashes(ring, j, u, n, attempts), Names(j));
    }
  }

  /** What is observed of a request's names says nothing about others. */
  lemma ObservedIsLocal(ring: Ring, u: World, v: World, j: Job)
    requires Agree(u, v, Names(j)) && S.AsObserved(ring, u, j)
    ensures S.AsObserved(ring, v, j)
  {
    assert At(u, j.target) == At(v, j.target) && At(u, j.private) == At(v, j.private);
    assert At(u, SourceOf(j)) == At(v, SourceOf(j));
  }

  lemma VerdictIsLocal(j: Job, u: World, v: World)
    requires Agree(u, v, Names(j))
    ensures VerdictIn(j, u) == VerdictIn(j, v)
  {
    assert At(u, j.target) == At(v, j.target) && At(u, SourceOf(j)) == At(v, SourceOf(j));
  }

  // ---- Taken one by one, and taken to the end -----------------------------------------------------

  lemma {:induction false} StepsThenFinish(kid: string, j: Job, w: World, n: nat)
    ensures Finish(kid, j, Conf(w, Begin)) == Finish(kid, j, Steps(kid, j, Conf(w, Begin), n))
  {
    if n > 0 { StepsThenFinish(kid, j, w, n - 1); }
  }

  lemma {:induction false} StepsThenRecover(ring: Ring, j: Job, w: World, n: nat)
    requires j.Rename?
    ensures Recover(ring, j, RConf(w, Look)) == Recover(ring, j, RecoverSteps(ring, j, RConf(w, Look), n))
  {
    if n > 0 { StepsThenRecover(ring, j, w, n - 1); }
  }
}
