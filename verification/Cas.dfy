/** Compare-and-swap under interference. A schedule interleaves the routine's own steps with
    foreign changes to any name but the private one. Every schedule that ends in success is shown
    equal to one in which the routine acts in a single atomic step, at its first own step; of those
    that end in a refusal it is shown when exactly the routine might as well not have acted. */
module Cas {
  import opened Attest
  import opened Files
  import opened Effects

  datatype Event = Go | Foreign(p: Path, node: Option<Node>)

  function React(kid: string, j: Job, c: Conf, e: Event): Conf {
    match e
    case Go => Step(kid, j, c)
    case Foreign(p, node) => Conf(Put(c.w, p, node), c.pc)
  }

  function Play(kid: string, j: Job, c: Conf, evs: seq<Event>): Conf {
    if evs == [] then c else React(kid, j, Play(kid, j, c, evs[..|evs| - 1]), evs[|evs| - 1])
  }

  /** The same schedule with the routine's own steps taken out. */
  function Outside(w: World, evs: seq<Event>): World {
    if evs == [] then w
    else
      var w' := Outside(w, evs[..|evs| - 1]);
      match evs[|evs| - 1]
      case Go => w'
      case Foreign(p, node) => Put(w', p, node)
  }

  /** Foreign processes never touch the private name. Elsewhere they may put and remove anything. */
  predicate Polite(j: Job, evs: seq<Event>) {
    forall e <- evs :: e.Foreign? ==> e.p != j.private
  }

  /** The index of the routine's first own step. */
  function FirstGo(evs: seq<Event>): (k: nat)
    ensures k <= |evs|
    ensures forall i | 0 <= i < k :: evs[i].Foreign?
    ensures k < |evs| ==> evs[k].Go?
  {
    if evs == [] then 0
    else if evs[0].Go? then 0
    else 1 + FirstGo(evs[1..])
  }

  lemma FirstGoExtends(evs: seq<Event>, e: Event)
    ensures FirstGo(evs + [e]) == if FirstGo(evs) < |evs| || e.Go? then FirstGo(evs) else |evs| + 1
  {
    var k, k' := FirstGo(evs), FirstGo(evs + [e]);
    assert forall i | 0 <= i < |evs| :: (evs + [e])[i] == evs[i];
    assert (evs + [e])[|evs|] == e;
  }

  /** Foreign changes elsewhere commute with removing the private name. */
  lemma {:induction false} OutsideIgnoresPrivate(j: Job, w: World, evs: seq<Event>)
    requires Polite(j, evs)
    ensures Outside(w, evs) - {j.private} == Outside(w - {j.private}, evs)
    ensures AttAt(Outside(w, evs), j.private) == AttAt(w, j.private)
    ensures j.private in Outside(w, evs) <==> j.private in w
    ensures j.private in w ==> Outside(w, evs)[j.private] == w[j.private]
  {
    if evs != [] { OutsideIgnoresPrivate(j, w, evs[..|evs| - 1]); }
  }

  lemma OutsideSnoc(w: World, evs: seq<Event>, e: Event)
    ensures Outside(w, evs + [e]) == if e.Go? then Outside(w, evs) else Put(Outside(w, evs), e.p, e.node)
  {
    assert (evs + [e])[..|evs|] == evs;
  }

  /** The tail of a schedule after its first own step. */
  function After(evs: seq<Event>): seq<Event>
    requires FirstGo(evs) < |evs|
  {
    evs[FirstGo(evs) + 1..]
  }

  /** The world just before the routine's first own step. */
  function AtFirst(w: World, evs: seq<Event>): World {
    Outside(w, evs[..FirstGo(evs)])
  }

  lemma ExtendSplit(w: World, evs: seq<Event>, e: Event)
    ensures FirstGo(evs) < |evs| ==>
      && FirstGo(evs + [e]) == FirstGo(evs)
      && AtFirst(w, evs + [e]) == AtFirst(w, evs)
      && After(evs + [e]) == After(evs) + [e]
    ensures FirstGo(evs) == |evs| && e.Go? ==>
      && FirstGo(evs + [e]) == |evs|
      && AtFirst(w, evs + [e]) == Outside(w, evs)
      && After(evs + [e]) == []
    ensures Outside(w, evs + [e]) == if e.Go? then Outside(w, evs) else Put(Outside(w, evs), e.p, e.node)
  {
    FirstGoExtends(evs, e);
    OutsideSnoc(w, evs, e);
    var k := FirstGo(evs);
    if k < |evs| {
      assert (evs + [e])[..k] == evs[..k];
      assert (evs + [e])[k + 1..] == evs[k + 1..] + [e];
    } else if e.Go? {
      assert (evs + [e])[..k] == evs;
      assert (evs + [e])[k + 1..] == [];
    }
  }

  /** Visible part of the world: everything but the routine's private name. */
  function Visible(j: Job, w: World): World {
    w - {j.private}
  }

  lemma VisiblePut(j: Job, w: World, p: Path, node: Option<Node>)
    requires p != j.private
    ensures Visible(j, Put(w, p, node)) == Put(Visible(j, w), p, node)
    ensures j.private in w ==> j.private in Put(w, p, node) && Put(w, p, node)[j.private] == w[j.private]
    ensures j.private !in w ==> j.private !in Put(w, p, node)
  {}

  /** The effect as one atomic step at the routine's first own step, with every foreign
      change before and after it. */
  function AtomicAtFirst(j: Job, node: Option<Node>, w: World, evs: seq<Event>): World
    requires FirstGo(evs) < |evs|
  {
    Outside(Put(Visible(j, AtFirst(w, evs)), j.target, node), After(evs))
  }

  lemma AtomicExtends(j: Job, node: Option<Node>, w: World, evs: seq<Event>, e: Event)
    requires FirstGo(evs) < |evs|
    ensures FirstGo(evs + [e]) < |evs| + 1
    ensures AtFirst(w, evs + [e]) == AtFirst(w, evs)
    ensures AtomicAtFirst(j, node, w, evs + [e])
         == if e.Go? then AtomicAtFirst(j, node, w, evs) else Put(AtomicAtFirst(j, node, w, evs), e.p, e.node)
  {
    ExtendSplit(w, evs, e);
    OutsideSnoc(Put(Visible(j, AtFirst(w, evs)), j.target, node), After(evs), e);
  }

  lemma PoliteFront(j: Job, evs: seq<Event>, e: Event)
    requires Polite(j, evs + [e])
    ensures Polite(j, evs)
    ensures e.Foreign? ==> e.p != j.private
  {
    assert e in evs + [e];
    assert forall x <- evs :: x in evs + [e];
  }

  // ---- Compare-and-swap and compare-and-delete --------------------------------------------

  predicate Swaps(j: Job) {
    j.Delete? || (j.Write? && !j.before.Unavailable?)
  }

  /** The routine at its first own step: a write has its new file ready at the private name,
      a delete has a private name nobody uses. */
  predicate Ready(j: Job, w: World) {
    && Swaps(j) && j.private != j.target
    && (if j.Write? then j.private in w && w[j.private].Reg? else j.private !in w)
  }

  function Start(j: Job, w: World): Conf {
    Conf(w, if j.Write? then Swap else Claim)
  }

  /** What the routine puts at the target. */
  function NewNode(j: Job, w: World): Option<Node>
    requires Ready(j, w)
  {
    if j.Write? then Some(w[j.private]) else None
  }

  /** `u` is the world at the first own step, `v` the atomic outcome carried forward. Once the
      routine has refused nothing is said here. */
  ghost predicate Linear(j: Job, u: World, v: World, c: Conf) {
    && c.pc in {Inspect, Undo, PutBack, Drop(true), Drop(false), Done(true), Done(false)}
    && (j.Delete? ==> c.pc !in {Undo, Drop(false)})
    && (c.pc in {Inspect, Undo, PutBack, Drop(true)} ==>
          && Visible(j, c.w) == v
          && j.target in u && j.private in c.w && c.w[j.private] == u[j.target])
    && (c.pc == Drop(true) ==> Observe(u, j.target) == j.before && j.before.Present?)
    && (c.pc == Done(true) ==> Observe(u, j.target) == j.before && c.w == v)
  }

  lemma LinearFirst(kid: string, j: Job, w: World)
    requires Ready(j, w)
    ensures Linear(j, w, Put(Visible(j, w), j.target, NewNode(j, w)), Step(kid, j, Start(j, w)))
  {
    var c := Step(kid, j, Start(j, w));
    var v := Put(Visible(j, w), j.target, NewNode(j, w));
    if c.pc == Inspect {
      assert Visible(j, c.w) == v;
    } else if c.pc == Done(true) {
      assert c.w == v;
    }
  }

  lemma LinearLater(kid: string, j: Job, u: World, v: World, c: Conf)
    requires Swaps(j) && j.private != j.target && Linear(j, u, v, c)
    ensures Linear(j, u, v, Step(kid, j, c))
  {
  }

  lemma LinearForeign(j: Job, u: World, v: World, c: Conf, p: Path, node: Option<Node>)
    requires p != j.private && Linear(j, u, v, c)
    ensures Linear(j, u, Put(v, p, node), Conf(Put(c.w, p, node), c.pc))
  {
    VisiblePut(j, c.w, p, node);
  }

  lemma {:induction false} Linearises(kid: string, j: Job, w: World, evs: seq<Event>)
    requires Ready(j, w) && Polite(j, evs)
    ensures var c := Play(kid, j, Start(j, w), evs);
      if FirstGo(evs) == |evs| then c == Start(j, Outside(w, evs))
      else Linear(j, AtFirst(w, evs), AtomicAtFirst(j, NewNode(j, w), w, evs), c)
  {
    if evs != [] {
      var front, e := evs[..|evs| - 1], evs[|evs| - 1];
      assert evs == front + [e];
      PoliteFront(j, front, e);
      Linearises(kid, j, w, front);
      ExtendSplit(w, front, e);
      var c := Play(kid, j, Start(j, w), front);
      var node := NewNode(j, w);
      if FirstGo(front) < |front| {
        AtomicExtends(j, node, w, front, e);
        var u, v := AtFirst(w, front), AtomicAtFirst(j, node, w, front);
        if e.Go? { LinearLater(kid, j, u, v, c); } else { LinearForeign(j, u, v, c, e.p, e.node); }
      } else if e.Go? {
        OutsideIgnoresPrivate(j, w, front);
        LinearFirst(kid, j, c.w);
      }
    }
  }

  /** Success: the effect happened at the first own step, atomically, on the recorded state,
      and everything before and after it is foreign. */
  lemma SuccessIsAtomic(kid: string, j: Job, w: World, evs: seq<Event>)
    requires Ready(j, w) && Polite(j, evs)
    requires Play(kid, j, Start(j, w), evs).pc == Done(true)
    ensures FirstGo(evs) < |evs|
    ensures Observe(AtFirst(w, evs), j.target) == j.before
    ensures Play(kid, j, Start(j, w), evs).w == AtomicAtFirst(j, NewNode(j, w), w, evs)
  {
    Linearises(kid, j, w, evs);
  }

  /** From its first check on, a write that reaches the swap has its whole new file, signed for
      its own content, at the private name; and it signs nothing else. */
  lemma {:induction false} WriteGetsReady(kid: string, j: Job, w: World, evs: seq<Event>)
    requires j.Write? && !j.before.Unavailable? && j.private != j.target && Polite(j, evs)
    ensures var c := Play(kid, j, Conf(w, Begin), evs);
      && (c.pc == Attest ==> HasDigest(c.w, j.private, j.digest))
      && (c.pc == Swap ==>
            Ready(j, c.w) && c.w[j.private] == Reg(j.digest, Some(Sealed(kid, j.rid, j.target, j.digest))))
      && (Minted(kid, j, c) != {} ==>
            Minted(kid, j, c) == {Sig(kid, Message(j.rid, j.target, c.w[j.private].digest))})
  {
    if evs != [] {
      var front, e := evs[..|evs| - 1], evs[|evs| - 1];
      assert evs == front + [e];
      PoliteFront(j, front, e);
      WriteGetsReady(kid, j, w, front);
    }
  }

  /** Where no state could be recorded there is nothing to compare: the write replaces whatever is
      there, unless that is a directory, in one step. */
  lemma ReplacesWhateverIsThere(kid: string, j: Job, w: World)
    requires j.Write? && j.before.Unavailable? && j.private != j.target && j.private in w
    ensures var c := Step(kid, j, Conf(w, Swap));
      if j.target in w && w[j.target].Dir? then c == Conf(w, Done(false))
      else c == Conf(Put(Visible(j, w), j.target, Some(w[j.private])), Done(true))
  {
  }

  /** And the new file is made under a name that was free: one that is taken ends the write. */
  lemma TakenNamesAreLeftAlone(kid: string, j: Job, w: World)
    requires j.Write? && j.private in w
    ensures Step(kid, j, Conf(w, Create)) == Conf(w, Done(false))
  {
  }

  /** A link where the effect begins, or where a rename would end, is never followed or touched. */
  lemma LinksAreRefused(kid: string, j: Job, w: World)
    requires (SourceOf(j) in w && w[SourceOf(j)].Link?) || (j.target in w && w[j.target].Link?)
    ensures Step(kid, j, Conf(w, Begin)) == Conf(w, Done(false))
  {
  }

  /** What the routine holds at its private name on the way to a clean end. */
  ghost predicate Tidy(j: Job, c: Conf) {
    var holds := j.private in c.w && c.w[j.private].Reg?;
    match c.pc
    case Swap => j.Write? && holds
    case Claim => j.Delete? && j.private !in c.w
    case Inspect => j.before.Present?
    case Undo => j.before.Present?
    case PutBack => j.before.Present?
    case Drop(ok) => ok || j.before.Absent? ==> holds
    case Done(ok) => ok || j.before.Absent? ==> j.private !in c.w
    case _ => false
  }

  lemma {:induction false} StaysTidy(kid: string, j: Job, w: World, evs: seq<Event>)
    requires Ready(j, w) && Polite(j, evs)
    ensures Tidy(j, Play(kid, j, Start(j, w), evs))
  {
    if evs != [] {
      var front, e := evs[..|evs| - 1], evs[|evs| - 1];
      assert evs == front + [e];
      PoliteFront(j, front, e);
      StaysTidy(kid, j, w, front);
    }
  }

  /** Whatever happens around it, a write or delete that succeeds leaves nothing at its private name,
      nor does a write that was to create its target, however it ends. */
  lemma NothingIsLeftBehind(kid: string, j: Job, w: World, evs: seq<Event>)
    requires Ready(j, w) && Polite(j, evs) && Play(kid, j, Start(j, w), evs).pc.Done?
    requires Play(kid, j, Start(j, w), evs).pc == Done(true) || j.before.Absent?
    ensures j.private !in Play(kid, j, Start(j, w), evs).w
  {
    StaysTidy(kid, j, w, evs);
  }

  // ---- Refusal: exactly when the foreign state is what it would have been ----------------------

  /** A foreign change to the target, and where the routine was when it fell. */
  datatype Touch = Touch(at: Conf, node: Option<Node>)

  /** The last foreign change to the target along a schedule. */
  function LastTouch(kid: string, j: Job, c: Conf, evs: seq<Event>): Option<Touch> {
    if evs == [] then None
    else
      var front, e := evs[..|evs| - 1], evs[|evs| - 1];
      if e.Foreign? && e.p == j.target then Some(Touch(Play(kid, j, c, front), e.node))
      else LastTouch(kid, j, c, front)
  }

  /** Between taking the target and giving it back. */
  predicate Window(pc: Pc) {
    pc in {Inspect, Undo, PutBack}
  }

  predicate Early(t: Option<Touch>) {
    t.None? || t.value.at.pc in {Swap, Claim}
  }

  /** What undoes the wrong thing. A delete gives its file back although the name was emptied in
      the window. A write exchanges out a file that was put there in the window. And a write that
      displaced something it cannot read gives nothing back at all. `out` is what the foreign
      changes alone make of the world. */
  predicate Misgiven(j: Job, t: Option<Touch>, out: World) {
    if j.Delete? then t.Some? && Window(t.value.at.pc) && t.value.node.None?
    else
      || (&& t.Some? && Window(t.value.at.pc) && t.value.node.Some?
          && j.private in t.value.at.w && t.value.at.w[j.private].Reg?
          && t.value.node.value != t.value.at.w[j.private])
      || (Early(t) && j.before.Present? && j.target in out && !out[j.target].Reg?)
  }

  /** Everything but the target and the private name. */
  function Others(j: Job, w: World): World {
    w - {j.private} - {j.target}
  }

  /** The state of a run, against what the foreign changes alone make of the world. `mine` is what
      the routine puts at the target. */
  ghost predicate Tracked(j: Job, mine: Option<Node>, out: World, t: Option<Touch>, c: Conf) {
    && (j.Write? <==> mine.Some?) && (mine.Some? ==> mine.value.Reg?)
    && Others(j, c.w) == Others(j, out)
    && match c.pc
       case Swap => j.Write? && At(c.w, j.private) == mine && Early(t) && At(c.w, j.target) == At(out, j.target)
       case Claim => j.Delete? && j.private !in c.w && Early(t) && At(c.w, j.target) == At(out, j.target)
       case Inspect => Held(j, mine, out, t, c.w)
       case Undo => j.Write? && Held(j, mine, out, t, c.w) && c.w[j.private].Reg?
       case PutBack => j.Delete? && Held(j, mine, out, t, c.w)
       case Drop(ok) =>
         if ok then j.private in c.w && c.w[j.private].Reg?
         else At(c.w, j.target) == At(out, j.target) <==> !Misgiven(j, t, out)
       case Done(ok) => ok || (At(c.w, j.target) == At(out, j.target) <==> !Misgiven(j, t, out))
       case _ => false
  }

  /** The displaced object is at the private name; the target is the routine's, unless a foreign
      process has changed it since. */
  ghost predicate Held(j: Job, mine: Option<Node>, out: World, t: Option<Touch>, w: World) {
    && j.private in w && (j.Write? ==> j.before.Present?)
    && if Early(t) then At(w, j.target) == mine && At(out, j.target) == Some(w[j.private])
       else
         && Window(t.value.at.pc) && At(t.value.at.w, j.private) == Some(w[j.private])
         && At(w, j.target) == t.value.node == At(out, j.target)
  }

  lemma TrackedStep(kid: string, j: Job, mine: Option<Node>, out: World, t: Option<Touch>, c: Conf)
    requires Swaps(j) && j.private != j.target && Tracked(j, mine, out, t, c)
    ensures Tracked(j, mine, out, t, Step(kid, j, c))
  {
    var c' := Step(kid, j, c);
    assert Others(j, c'.w) == Others(j, c.w);
    match c.pc {
      case Swap =>
      case Claim =>
      case Inspect =>
      case Undo =>
      case PutBack =>
      case _ =>
    }
  }

  lemma TrackedAtTarget(j: Job, mine: Option<Node>, out: World, t: Option<Touch>, c: Conf, n: Option<Node>)
    requires j.private != j.target && Tracked(j, mine, out, t, c)
    ensures Tracked(j, mine, Put(out, j.target, n), Some(Touch(c, n)), Conf(Put(c.w, j.target, n), c.pc))
  {
    var out', w' := Put(out, j.target, n), Put(c.w, j.target, n);
    assert Others(j, w') == Others(j, c.w) && Others(j, out') == Others(j, out);
    assert At(w', j.private) == At(c.w, j.private);
    assert At(w', j.target) == n == At(out', j.target);
  }

  lemma TrackedElsewhere(j: Job, mine: Option<Node>, out: World, t: Option<Touch>, c: Conf, p: Path, n: Option<Node>)
    requires p != j.private && p != j.target && j.private != j.target && Tracked(j, mine, out, t, c)
    ensures Tracked(j, mine, Put(out, p, n), t, Conf(Put(c.w, p, n), c.pc))
  {
    var out', w' := Put(out, p, n), Put(c.w, p, n);
    assert Others(j, w') == Put(Others(j, c.w), p, n) && Others(j, out') == Put(Others(j, out), p, n);
    assert At(w', j.private) == At(c.w, j.private);
    assert At(w', j.target) == At(c.w, j.target) && At(out', j.target) == At(out, j.target);
    assert Misgiven(j, t, out') == Misgiven(j, t, out);
  }

  lemma {:induction false} RunIsTracked(kid: string, j: Job, w: World, evs: seq<Event>)
    requires Ready(j, w) && Polite(j, evs)
    ensures var t, c := LastTouch(kid, j, Start(j, w), evs), Play(kid, j, Start(j, w), evs);
      Tracked(j, NewNode(j, w), Outside(w, evs), t, c)
  {
    if evs != [] {
      var front, e := evs[..|evs| - 1], evs[|evs| - 1];
      assert evs == front + [e];
      PoliteFront(j, front, e);
      RunIsTracked(kid, j, w, front);
      var c, out := Play(kid, j, Start(j, w), front), Outside(w, front);
      var t := LastTouch(kid, j, Start(j, w), front);
      if e.Go? {
        TrackedStep(kid, j, NewNode(j, w), out, t, c);
      } else if e.p == j.target {
        TrackedAtTarget(j, NewNode(j, w), out, t, c, e.node);
      } else {
        TrackedElsewhere(j, NewNode(j, w), out, t, c, e.p, e.node);
      }
    }
  }

  lemma VisibleIsOthersAndTarget(j: Job, w: World, out: World)
    requires j.private != j.target && Others(j, w) == Others(j, out)
    ensures Visible(j, w) == Visible(j, out) <==> At(w, j.target) == At(out, j.target)
  {
    assert At(Visible(j, w), j.target) == At(w, j.target);
    assert At(Visible(j, out), j.target) == At(out, j.target);
    if At(w, j.target) == At(out, j.target) {
      forall p ensures At(Visible(j, w), p) == At(Visible(j, out), p) {
        assert p != j.target ==> At(Visible(j, w), p) == At(Others(j, w), p);
        assert p != j.target ==> At(Visible(j, out), p) == At(Others(j, out), p);
      }
      assert forall p :: p in Visible(j, w) <==> p in Visible(j, out) by {
        forall p ensures p in Visible(j, w) <==> p in Visible(j, out) {
          assert At(Visible(j, w), p) == At(Visible(j, out), p);
        }
      }
      assert forall p <- Visible(j, w) :: At(Visible(j, w), p) == At(Visible(j, out), p);
    }
  }

  /** After any schedule that ends in a refusal, every name is as the foreign changes alone would
      have left it, exactly unless the routine gave back the wrong thing. */
  lemma RefusalRestoresIff(kid: string, j: Job, w: World, evs: seq<Event>)
    requires Ready(j, w) && Polite(j, evs)
    requires Play(kid, j, Start(j, w), evs).pc == Done(false)
    ensures Visible(j, Play(kid, j, Start(j, w), evs).w) == Visible(j, Outside(w, evs))
       <==> !Misgiven(j, LastTouch(kid, j, Start(j, w), evs), Outside(w, evs))
  {
    RunIsTracked(kid, j, w, evs);
    VisibleIsOthersAndTarget(j, Play(kid, j, Start(j, w), evs).w, Outside(w, evs));
  }

  /** No foreign change to the target between taking it and giving it back. */
  predicate Quiet(kid: string, j: Job, c: Conf, evs: seq<Event>) {
    forall i | 0 <= i < |evs| && evs[i].Foreign? && evs[i].p == j.target ::
      !Window(Play(kid, j, c, evs[..i]).pc)
  }

  lemma {:induction false} QuietTouchesOutside(kid: string, j: Job, c: Conf, evs: seq<Event>)
    requires Quiet(kid, j, c, evs) && LastTouch(kid, j, c, evs).Some?
    ensures !Window(LastTouch(kid, j, c, evs).value.at.pc)
  {
    var m := |evs| - 1;
    if !(evs[m].Foreign? && evs[m].p == j.target) {
      assert forall i | 0 <= i < m :: evs[..m][..i] == evs[..i];
      QuietTouchesOutside(kid, j, c, evs[..m]);
    }
  }

  /** In particular if the window is quiet, and a write finds at the target, if anything, a file. */
  lemma RefusalRestores(kid: string, j: Job, w: World, evs: seq<Event>)
    requires Ready(j, w) && Polite(j, evs) && Quiet(kid, j, Start(j, w), evs)
    requires j.Write? && j.target in Outside(w, evs) ==> Outside(w, evs)[j.target].Reg?
    requires Play(kid, j, Start(j, w), evs).pc == Done(false)
    ensures Visible(j, Play(kid, j, Start(j, w), evs).w) == Visible(j, Outside(w, evs))
  {
    RefusalRestoresIff(kid, j, w, evs);
    if LastTouch(kid, j, Start(j, w), evs).Some? { QuietTouchesOutside(kid, j, Start(j, w), evs); }
  }

  /** A quiet window is needed: a change that lands between the exchange and the undo is itself
      exchanged out and unlinked, and the older foreign file comes back instead. */
  lemma AChangeInTheWindowIsLost(kid: string, j: Job, mine: Node, first: Node, second: Node)
    requires j.Write? && j.before.Present? && j.private != j.target
    requires mine.Reg? && first.Reg? && second.Reg? && Present(first.digest) != j.before
    ensures
      var w := map[j.private := mine, j.target := first];
      var evs := [Go] + [Foreign(j.target, Some(second))] + [Go] + [Go] + [Go];
      && Ready(j, w) && Polite(j, evs)
      && Play(kid, j, Start(j, w), evs) == Conf(map[j.target := first], Done(false))
      && j.target in Outside(w, evs) && Outside(w, evs)[j.target] == second
  {
    var w := map[j.private := mine, j.target := first];
    var e := Foreign(j.target, Some(second));
    var c0 := Conf(w, Swap);
    var c1 := Conf(map[j.private := first, j.target := mine], Inspect);
    var c2 := Conf(map[j.private := first, j.target := second], Inspect);
    var c4 := Conf(map[j.private := second, j.target := first], Drop(false));
    assert React(kid, j, c0, Go) == c1;
    assert React(kid, j, c1, e) == c2;
    assert React(kid, j, c2, Go) == Conf(c2.w, Undo);
    assert React(kid, j, Conf(c2.w, Undo), Go) == c4;
    assert React(kid, j, c4, Go) == Conf(map[j.target := first], Done(false));
    FiveEvents(kid, j, c0, Go, e, Go, Go, Go);
  }

  /** And what a write displaced stays under the private name if it cannot be read as a file: the
      write is in place although it reports an error. */
  lemma AnUnreadableTargetIsNotGivenBack(kid: string, j: Job, mine: Node, other: Node)
    requires j.Write? && j.before.Present? && j.private != j.target && mine.Reg? && !other.Reg?
    ensures
      var w := map[j.private := mine, j.target := other];
      var evs := [Go] + [Go];
      && Ready(j, w) && Polite(j, evs)
      && Play(kid, j, Start(j, w), evs) == Conf(map[j.private := other, j.target := mine], Done(false))
      && Outside(w, evs) == w
  {
    var w := map[j.private := mine, j.target := other];
    var swapped := Conf(map[j.private := other, j.target := mine], Inspect);
    assert React(kid, j, Conf(w, Swap), Go) == swapped;
    PlaySnoc(kid, j, Conf(w, Swap), [], Go);
    PlaySnoc(kid, j, Conf(w, Swap), [Go], Go);
    assert [] + [Go] == [Go];
    OutsideSnoc(w, [Go], Go);
    OutsideSnoc(w, [], Go);
  }

  /** A refused delete gives back a file whose name was emptied meanwhile. */
  lemma ARemovalInTheWindowIsUndone(kid: string, j: Job, other: Node)
    requires j.Delete? && j.before.Present? && j.private != j.target
    requires other.Reg? ==> Present(other.digest) != j.before
    ensures
      var w := map[j.target := other];
      var evs := [Go] + [Foreign(j.target, None)] + [Go] + [Go];
      && Ready(j, w) && Polite(j, evs)
      && Play(kid, j, Start(j, w), evs) == Conf(w, Done(false))
      && j.target !in Outside(w, evs)
  {
    var w := map[j.target := other];
    var e := Foreign(j.target, None);
    var moved := Conf(map[j.private := other], Inspect);
    var c := Conf(w, Claim);
    assert React(kid, j, c, Go) == moved;
    assert React(kid, j, moved, e) == moved;
    assert React(kid, j, moved, Go) == Conf(moved.w, PutBack);
    assert React(kid, j, Conf(moved.w, PutBack), Go) == Conf(w, Done(false));
    FourEvents(kid, j, c, Go, e, Go, Go);
  }

  lemma FourEvents(kid: string, j: Job, c: Conf, e1: Event, e2: Event, e3: Event, e4: Event)
    ensures Play(kid, j, c, [e1] + [e2] + [e3] + [e4])
         == React(kid, j, React(kid, j, React(kid, j, React(kid, j, c, e1), e2), e3), e4)
    ensures e1.Go? && e2.Foreign? && e3.Go? && e4.Go? ==>
      Outside(c.w, [e1] + [e2] + [e3] + [e4]) == Put(c.w, e2.p, e2.node)
  {
    PlaySnoc(kid, j, c, [], e1);
    PlaySnoc(kid, j, c, [e1], e2);
    PlaySnoc(kid, j, c, [e1] + [e2], e3);
    PlaySnoc(kid, j, c, [e1] + [e2] + [e3], e4);
    OutsideSnoc(c.w, [], e1);
    OutsideSnoc(c.w, [e1], e2);
    OutsideSnoc(c.w, [e1] + [e2], e3);
    OutsideSnoc(c.w, [e1] + [e2] + [e3], e4);
    assert [] + [e1] == [e1];
  }

  lemma FiveEvents(kid: string, j: Job, c: Conf, e1: Event, e2: Event, e3: Event, e4: Event, e5: Event)
    ensures Play(kid, j, c, [e1] + [e2] + [e3] + [e4] + [e5])
         == React(kid, j, React(kid, j, React(kid, j, React(kid, j, React(kid, j, c, e1), e2), e3), e4), e5)
    ensures e1.Go? && e2.Foreign? && e3.Go? && e4.Go? && e5.Go? ==>
      Outside(c.w, [e1] + [e2] + [e3] + [e4] + [e5]) == Put(c.w, e2.p, e2.node)
  {
    FourEvents(kid, j, c, e1, e2, e3, e4);
    PlaySnoc(kid, j, c, [e1] + [e2] + [e3] + [e4], e5);
    OutsideSnoc(c.w, [e1] + [e2] + [e3] + [e4], e5);
  }

  lemma PlaySnoc(kid: string, j: Job, c: Conf, evs: seq<Event>, e: Event)
    ensures Play(kid, j, c, evs + [e]) == React(kid, j, Play(kid, j, c, evs), e)
  {
    assert (evs + [e])[..|evs|] == evs;
  }

  // ---- A delete never loses a file it was not told to delete ---------------------------------

  function Slot(w: World, p: Path): multiset<Node> {
    if p in w then multiset{w[p]} else multiset{}
  }

  /** The files at the target and at the side name. */
  function Slots(j: Job, w: World): multiset<Node> {
    Slot(w, j.target) + Slot(w, j.private)
  }

  lemma MoveSlots(w: World, a: Path, b: Path)
    requires a in w && b !in w
    ensures Slot(Move(w, a, b), a) == multiset{} == Slot(w, b)
    ensures Slot(Move(w, a, b), b) == Slot(w, a)
  {}

  lemma MoveKeepsSlots(j: Job, w: World, w': World)
    requires j.private != j.target
    requires || (j.target in w && j.private !in w && w' == Move(w, j.target, j.private))
             || (j.private in w && j.target !in w && w' == Move(w, j.private, j.target))
    ensures Slots(j, w') == Slots(j, w)
  {
    if j.target in w { MoveSlots(w, j.target, j.private); } else { MoveSlots(w, j.private, j.target); }
  }

  lemma DropsOneSlot(j: Job, w: World)
    requires j.private != j.target && j.private in w
    ensures Slots(j, w - {j.private}) == Slots(j, w) - multiset{w[j.private]}
  {
    assert Slot(w - {j.private}, j.private) == multiset{};
    assert Slot(w - {j.private}, j.target) == Slot(w, j.target);
    assert Slots(j, w) == Slot(w, j.target) + multiset{w[j.private]};
  }

  lemma DeleteStepKeepsSlots(kid: string, j: Job, c: Conf)
    requires j.Delete? && j.private != j.target
    requires c.pc.Drop? ==> j.private in c.w && c.w[j.private].Reg?
    ensures Slots(j, Step(kid, j, c).w)
         == if c.pc.Drop? then Slots(j, c.w) - multiset{c.w[j.private]} else Slots(j, c.w)
  {
    var w, w' := c.w, Step(kid, j, c).w;
    if c.pc.Drop? {
      DropsOneSlot(j, w);
    } else if w' == w {
    } else {
      MoveKeepsSlots(j, w, w');
    }
  }

  /** Under any foreign changes, each own step of a delete keeps the files of the two names,
      except the one unlink, which removes a file with exactly the recorded digest. */
  lemma DeleteLosesNothingElse(kid: string, j: Job, w: World, evs: seq<Event>)
    requires Ready(j, w) && j.Delete? && Polite(j, evs)
    ensures var c := Play(kid, j, Start(j, w), evs); var c' := Step(kid, j, c);
      if c.pc == Drop(true) then
        && j.private in c.w && c.w[j.private].Reg? && Present(c.w[j.private].digest) == j.before
        && Slots(j, c'.w) == Slots(j, c.w) - multiset{c.w[j.private]}
      else Slots(j, c'.w) == Slots(j, c.w)
  {
    Linearises(kid, j, w, evs);
    DeleteStepKeepsSlots(kid, j, Play(kid, j, Start(j, w), evs));
  }
}
