/** The hash-chained log file, its independent verifier, and signed checkpoints of its head. */
module AuditLog {
  import opened Attest

  /** An entry as stored: the hash it follows, everything else it says, and its own hash. */
  datatype Line = Line(prev: string, body: string, hash: string)

  /** What the first entry follows: sixty-four zeros. */
  function Zero(): string {
    seq(64, _ => '0')
  }

  /** A hash without collisions, printed without bars: what was hashed is a function of the
      hash, here `origin`. */
  ghost predicate Collisionless(h: (string, string) -> string, origin: string -> (string, string)) {
    && (forall p, b :: origin(h(p, b)) == (p, b))
    && (forall p, b :: '|' !in h(p, b))
  }

  function Before(lines: seq<Line>, n: nat): string
    requires n <= |lines|
  {
    if n == 0 then Zero() else lines[n - 1].hash
  }

  predicate Follows(lines: seq<Line>, n: nat)
    requires n < |lines|
  {
    lines[n].prev == Before(lines, n)
  }

  predicate Stamped(h: (string, string) -> string, l: Line) {
    l.hash == h(l.prev, l.body)
  }

  predicate Intact(h: (string, string) -> string, lines: seq<Line>) {
    && (forall n {:trigger Follows(lines, n)} | 0 <= n < |lines| :: Follows(lines, n))
    && (forall n | 0 <= n < |lines| :: Stamped(h, lines[n]))
  }

  function Genesis(lines: seq<Line>): Option<string> {
    if lines == [] then None else Some(lines[0].hash)
  }

  lemma IntactSnoc(h: (string, string) -> string, lines: seq<Line>, l: Line)
    requires Intact(h, lines) && l.prev == Before(lines, |lines|) && Stamped(h, l)
    ensures Intact(h, lines + [l])
  {
    var more := lines + [l];
    forall n | 0 <= n < |more| ensures Follows(more, n) && Stamped(h, more[n]) {
      if n < |lines| { assert Follows(lines, n) && Stamped(h, lines[n]); }
    }
  }

  // ---- The log object ------------------------------------------------------------------------

  class Log {
    var file: seq<Line>
    var prev: string
    var count: nat
    var genesis: Option<string>

    ghost predicate Valid(h: (string, string) -> string)
      reads this
    {
      && Intact(h, file)
      && prev == Before(file, |file|) && count == |file| && genesis == Genesis(file)
    }

    constructor (onDisk: seq<Line>)
      ensures file == onDisk && prev == Zero() && count == 0 && genesis == None
    {
      file, prev, count, genesis := onDisk, Zero(), 0, None;
    }

    /** Reading an existing file: refused at the first entry that does not fit, and otherwise
        exactly the state the writer of that file had. */
    method Load(h: (string, string) -> string) returns (ok: bool)
      requires prev == Zero() && count == 0 && genesis == None
      modifies this
      ensures file == old(file)
      ensures ok <==> Intact(h, file)
      ensures ok ==> Valid(h)
    {
      for n := 0 to |file|
        invariant file == old(file)
        invariant prev == Before(file, n) && count == n && genesis == Genesis(file[..n])
        invariant forall m {:trigger Follows(file, m)} | 0 <= m < n :: Follows(file, m)
        invariant forall m | 0 <= m < n :: Stamped(h, file[m])
      {
        var e := file[n];
        if e.prev != prev || h(e.prev, e.body) != e.hash {
          assert !(Follows(file, n) && Stamped(h, file[n]));
          return false;
        }
        prev := e.hash;
        count := count + 1;
        if genesis == None { genesis := Some(e.hash); }
      }
      assert file[..|file|] == file;
      ok := true;
    }

    method Append(h: (string, string) -> string, body: string)
      requires Valid(h)
      modifies this
      ensures Valid(h)
      ensures file == old(file) + [Line(old(prev), body, h(old(prev), body))]
    {
      var hash := h(prev, body);
      ghost var before := file;
      file := file + [Line(prev, body, hash)];
      IntactSnoc(h, before, file[|before|]);
      prev := hash;
      count := count + 1;
      if genesis == None { genesis := Some(hash); }
    }
  }

  datatype Problem = DoesNotFollow(entry: nat) | WrongHash(entry: nat)

  /** The outside verifier: it reports every place the chain does not hold, and nothing else,
      so it is content with exactly the files the broker agrees to open. */
  method ChainProblems(h: (string, string) -> string, lines: seq<Line>) returns (problems: seq<Problem>)
    ensures forall n: nat :: DoesNotFollow(n) in problems <==> n < |lines| && !Follows(lines, n)
    ensures forall n: nat :: WrongHash(n) in problems <==> n < |lines| && !Stamped(h, lines[n])
    ensures problems == [] <==> Intact(h, lines)
  {
    problems := [];
    var prev := Zero();
    for n := 0 to |lines|
      invariant prev == Before(lines, n)
      invariant forall m: nat :: DoesNotFollow(m) in problems <==> m < n && !Follows(lines, m)
      invariant forall m: nat :: WrongHash(m) in problems <==> m < n && !Stamped(h, lines[m])
    {
      var e := lines[n];
      if e.prev != prev { problems := problems + [DoesNotFollow(n)]; }
      if h(e.prev, e.body) != e.hash { problems := problems + [WrongHash(n)]; }
      prev := e.hash;
    }
    if problems != [] {
      match problems[0] {
        case DoesNotFollow(n) => assert DoesNotFollow(n) in problems;
        case WrongHash(n) => assert WrongHash(n) in problems;
      }
    }
    if !Intact(h, lines) {
      var n :| 0 <= n < |lines| && !(Follows(lines, n) && Stamped(h, lines[n]));
      assert DoesNotFollow(n) in problems || WrongHash(n) in problems;
    }
  }

  // ---- Checkpoints ------------------------------------------------------------------------------

  datatype Checkpoint = Checkpoint(genesis: string, count: nat, head: string, kid: string, sig: Sig)

  predicate CheckpointVerifies(ring: Ring, c: Checkpoint) {
    c.kid in ring.publics && c.sig == Sig(c.kid, CheckpointMessage(c.genesis, c.count, c.head))
  }

  datatype Verdict = UnknownKey | BadSignature | OtherLog | Truncated | Rewritten | Agrees

  /** The entry a checkpoint's count names; index -1 is the last one. */
  function Named(lines: seq<Line>, count: nat): Line
    requires 0 < |lines| && count <= |lines|
  {
    if count == 0 then lines[|lines| - 1] else lines[count - 1]
  }

  function Judge(ring: Ring, lines: seq<Line>, c: Checkpoint): Verdict {
    if c.kid !in ring.publics then UnknownKey
    else if !CheckpointVerifies(ring, c) then BadSignature
    else if Genesis(lines) != Some(c.genesis) then OtherLog
    else if |lines| < c.count then Truncated
    else if Named(lines, c.count).hash != c.head then Rewritten
    else Agrees
  }

  datatype Finding = Finding(checkpoint: nat, why: Verdict)

  /** A checkpoint that does not agree, and why. */
  ghost predicate Reported(ring: Ring, lines: seq<Line>, cps: seq<Checkpoint>, f: Finding) {
    exists c <- cps :: !Judge(ring, lines, c).Agrees? && f == Finding(c.count, Judge(ring, lines, c))
  }

  lemma ReportedSnoc(ring: Ring, lines: seq<Line>, cps: seq<Checkpoint>, c: Checkpoint)
    ensures forall f :: Reported(ring, lines, cps + [c], f) <==>
      Reported(ring, lines, cps, f) || (!Judge(ring, lines, c).Agrees? && f == Finding(c.count, Judge(ring, lines, c)))
  {
    assert forall x <- cps :: x in cps + [c];
    assert c in cps + [c];
  }

  method CheckLog(ring: Ring, lines: seq<Line>, cps: seq<Checkpoint>)
      returns (findings: seq<Finding>, covered: nat)
    ensures forall f :: f in findings <==> Reported(ring, lines, cps, f)
    ensures findings == [] <==> forall c <- cps :: Judge(ring, lines, c).Agrees?
    ensures forall c <- cps :: Judge(ring, lines, c).Agrees? ==> c.count <= covered
    ensures covered == 0 || exists c <- cps :: Judge(ring, lines, c).Agrees? && c.count == covered
  {
    findings, covered := [], 0;
    for n := 0 to |cps|
      invariant forall f :: f in findings <==> Reported(ring, lines, cps[..n], f)
      invariant findings == [] <==> forall c <- cps[..n] :: Judge(ring, lines, c).Agrees?
      invariant forall c <- cps[..n] :: Judge(ring, lines, c).Agrees? ==> c.count <= covered
      invariant covered == 0 || exists c <- cps[..n] :: Judge(ring, lines, c).Agrees? && c.count == covered
    {
      assert cps[..n + 1] == cps[..n] + [cps[n]];
      assert cps[n] in cps[..n + 1];
      assert forall c <- cps[..n] :: c in cps[..n + 1];
      var c := cps[n];
      ReportedSnoc(ring, lines, cps[..n], c);
      if c.kid !in ring.publics {
        findings := findings + [Finding(c.count, UnknownKey)];
      } else if !CheckpointVerifies(ring, c) {
        findings := findings + [Finding(c.count, BadSignature)];
      } else if lines == [] || c.genesis != lines[0].hash {
        findings := findings + [Finding(c.count, OtherLog)];
      } else if |lines| < c.count {
        findings := findings + [Finding(c.count, Truncated)];
      } else if Named(lines, c.count).hash != c.head {
        findings := findings + [Finding(c.count, Rewritten)];
      } else if c.count > covered {
        covered := c.count;
      }
    }
    assert cps[..|cps|] == cps;
  }

  lemma EqualHashesEqualLines(h: (string, string) -> string, origin: string -> (string, string), x: Line, y: Line)
    requires Collisionless(h, origin) && Stamped(h, x) && Stamped(h, y) && x.hash == y.hash
    ensures x == y
  {
    assert origin(x.hash) == (x.prev, x.body) && origin(y.hash) == (y.prev, y.body);
  }

  /** Equal hashes at one position of two intact chains mean equal entries at every position
      before it, by going backwards. */
  lemma {:induction false} EqualBackwards(h: (string, string) -> string, origin: string -> (string, string),
                                          a: seq<Line>, b: seq<Line>, n: nat, m: nat)
    requires Collisionless(h, origin) && Intact(h, a) && Intact(h, b)
    requires m <= n < |a| && n < |b| && a[n].hash == b[n].hash
    ensures a[m] == b[m]
  {
    assert Stamped(h, a[n]) && Stamped(h, b[n]);
    EqualHashesEqualLines(h, origin, a[n], b[n]);
    if m < n {
      assert Follows(a, n) && Follows(b, n);
      EqualBackwards(h, origin, a, b, n - 1, m);
    }
  }

  lemma EqualHeadsEqualPrefixes(h: (string, string) -> string, origin: string -> (string, string),
                                a: seq<Line>, b: seq<Line>, n: nat)
    requires Collisionless(h, origin) && Intact(h, a) && Intact(h, b)
    requires 0 < n <= |a| && n <= |b| && a[n - 1].hash == b[n - 1].hash
    ensures a[..n] == b[..n]
  {
    forall m: nat | m < n ensures a[m] == b[m] {
      EqualBackwards(h, origin, a, b, n - 1, m);
    }
  }

  /** Everything the broker ever signed: attestations, and heads of its own log. */
  ghost predicate SignedByTheBroker(original: seq<Line>, sig: Sig) {
    sig.Sig? && (
      || (exists r, t, d :: sig.message == Message(r, t, d))
      || (exists n: nat :: IsHead(original, n, sig.message)))
  }

  predicate IsHead(original: seq<Line>, n: nat, message: string) {
    0 < n <= |original| && message == CheckpointMessage(original[0].hash, n, original[n - 1].hash)
  }

  /** A log that passes the chain check and agrees with a checkpoint is, up to the checkpoint's
      count, the original log, though nothing but public keys is trusted. */
  lemma AgreementIsIdentity(h: (string, string) -> string, origin: string -> (string, string), ring: Ring,
                            original: seq<Line>, shown: seq<Line>, c: Checkpoint)
    requires Collisionless(h, origin) && Intact(h, original) && Intact(h, shown)
    requires CheckpointVerifies(ring, c) ==> SignedByTheBroker(original, c.sig)
    requires Judge(ring, shown, c) == Agrees
    ensures 0 < c.count <= |shown| && c.count <= |original| && shown[..c.count] == original[..c.count]
  {
    AgreedHashes(h, origin, ring, shown, c);
    forall r, t, d ensures c.sig.message != Message(r, t, d) {
      DomainsAreSeparate(r, t, d, c.genesis, c.count, c.head);
    }
    var n: nat :| IsHead(original, n, c.sig.message);
    assert Stamped(h, original[0]) && Stamped(h, original[n - 1]);
    CheckpointMessageDetermines(c.genesis, c.count, c.head, original[0].hash, n, original[n - 1].hash);
    EqualHeadsEqualPrefixes(h, origin, shown, original, n);
  }

  lemma AgreedHashes(h: (string, string) -> string, origin: string -> (string, string), ring: Ring,
                     shown: seq<Line>, c: Checkpoint)
    requires Collisionless(h, origin) && Intact(h, shown) && Judge(ring, shown, c) == Agrees
    ensures '|' !in c.genesis && '|' !in c.head
  {
    var m := if c.count == 0 then |shown| - 1 else c.count - 1;
    assert Stamped(h, shown[0]) && Stamped(h, shown[m]);
  }

  /** The same for the whole check: the first `covered` entries are the original's. */
  lemma CoveredPrefixIsOriginal(h: (string, string) -> string, origin: string -> (string, string), ring: Ring,
                                original: seq<Line>, shown: seq<Line>, cps: seq<Checkpoint>, covered: nat)
    requires Collisionless(h, origin) && Intact(h, original) && Intact(h, shown)
    requires forall c <- cps :: CheckpointVerifies(ring, c) ==> SignedByTheBroker(original, c.sig)
    requires covered == 0 || exists c <- cps :: Judge(ring, shown, c).Agrees? && c.count == covered
    ensures covered <= |shown| && covered <= |original| && shown[..covered] == original[..covered]
  {
    if covered != 0 {
      var c :| c in cps && Judge(ring, shown, c).Agrees? && c.count == covered;
      AgreementIsIdentity(h, origin, ring, original, shown, c);
    }
  }

  /** The checkpoint of a log's head, as the broker signs it. */
  predicate HeadOf(ring: Ring, log: seq<Line>, c: Checkpoint) {
    && log != [] && c.genesis == log[0].hash && c.count == |log| && c.head == log[|log| - 1].hash
    && c.kid in ring.publics && c.sig == Sig(c.kid, CheckpointMessage(c.genesis, c.count, c.head))
  }

  /** A checkpoint of a log agrees with exactly the intact logs that extend it, itself among them. */
  lemma HeadAgreesIffExtended(h: (string, string) -> string, origin: string -> (string, string), ring: Ring,
                              log: seq<Line>, shown: seq<Line>, c: Checkpoint)
    requires Collisionless(h, origin) && Intact(h, log) && Intact(h, shown) && HeadOf(ring, log, c)
    ensures Judge(ring, shown, c) == Agrees <==> log <= shown
  {
    if Judge(ring, shown, c) == Agrees {
      EqualHeadsEqualPrefixes(h, origin, shown, log, |log|);
      assert log[..|log|] == log;
    }
    if log <= shown {
      assert shown[0] == log[0] && shown[|log| - 1] == log[|log| - 1];
    }
  }

  /** With no assumption at all, what extends the log agrees. */
  lemma ExtensionsAgree(ring: Ring, log: seq<Line>, tail: seq<Line>, c: Checkpoint)
    requires HeadOf(ring, log, c)
    ensures Judge(ring, log + tail, c) == Agrees
  {
    assert (log + tail)[0] == log[0] && (log + tail)[|log| - 1] == log[|log| - 1];
  }

  /** What each reason means. */
  lemma ReasonsMean(ring: Ring, shown: seq<Line>, c: Checkpoint)
    ensures var v := Judge(ring, shown, c);
      && (v == UnknownKey <==> c.kid !in ring.publics)
      && (v == BadSignature <==> c.kid in ring.publics && !CheckpointVerifies(ring, c))
      && (v == OtherLog <==> CheckpointVerifies(ring, c) && (shown == [] || shown[0].hash != c.genesis))
      && (v == Truncated <==>
            CheckpointVerifies(ring, c) && shown != [] && shown[0].hash == c.genesis && |shown| < c.count)
      && (v == Agrees <==>
            && CheckpointVerifies(ring, c) && shown != [] && shown[0].hash == c.genesis && c.count <= |shown|
            && (c.count == 0 ==> shown[|shown| - 1].hash == c.head)
            && (c.count > 0 ==> shown[c.count - 1].hash == c.head))
  {
  }
}
