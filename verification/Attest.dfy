/** Attestations and checkpoints: the two messages the broker signs, and the key ring
    that signs and verifies them. A signature is symbolic: `Sig(kid, message)` can be
    produced only by the holder of the key `kid`; anything else is `Junk`. */
module Attest {

  datatype Option<+T> = None | Some(value: T)

  const DOMAIN := "darm-attest-v2"
  const CHECKPOINT_DOMAIN := "darm-checkpoint-v1"

  function Message(rid: string, target: string, digest: string): string {
    DOMAIN + "|" + rid + "|" + target + "|" + digest
  }

  function CheckpointMessage(genesis: string, count: nat, head: string): string {
    CHECKPOINT_DOMAIN + "|" + genesis + "|" + Decimal(count) + "|" + head
  }

  /** The decimal digits of `n`, without leading zeros. */
  function Decimal(n: nat): (s: string)
    ensures |s| > 0 && forall c <- s :: '0' <= c <= '9'
  {
    var last := [('0' as int + n % 10) as char];
    if n < 10 then last else Decimal(n / 10) + last
  }

  lemma {:induction false} DecimalDetermines(m: nat, n: nat)
    requires Decimal(m) == Decimal(n)
    ensures m == n
  {
    var s, t := Decimal(m), Decimal(n);
    assert s[|s| - 1] == ('0' as int + m % 10) as char;
    assert t[|t| - 1] == ('0' as int + n % 10) as char;
    assert m % 10 == n % 10;
    if m >= 10 && n >= 10 {
      assert s[..|s| - 1] == Decimal(m / 10) && t[..|t| - 1] == Decimal(n / 10);
      DecimalDetermines(m / 10, n / 10);
    }
  }

  // ---- Fields separated by a bar ------------------------------------------------

  lemma FirstBarSplits(a: string, x: string, b: string, y: string)
    requires '|' !in a && '|' !in b
    requires a + "|" + x == b + "|" + y
    ensures a == b && x == y
  {
    var s, t := a + "|" + x, b + "|" + y;
    assert s[|a|] == '|' && t[|b|] == '|';
    assert forall i | 0 <= i < |a| :: s[i] == a[i] != '|';
    assert forall i | 0 <= i < |b| :: t[i] == b[i] != '|';
    assert s[..|a|] == a && t[..|b|] == b;
    assert s[|a| + 1..] == x && t[|b| + 1..] == y;
  }

  lemma LastBarSplits(x: string, a: string, y: string, b: string)
    requires '|' !in a && '|' !in b
    requires x + "|" + a == y + "|" + b
    ensures x == y && a == b
  {
    var s, t := x + "|" + a, y + "|" + b;
    assert s[|x|] == '|' && t[|y|] == '|';
    assert forall i | |x| < i < |s| :: s[i] == a[i - |x| - 1] != '|';
    assert forall i | |y| < i < |t| :: t[i] == b[i - |y| - 1] != '|';
    assert s[..|x|] == x && t[..|y|] == y;
    assert s[|x| + 1..] == a && t[|y| + 1..] == b;
  }

  /** The signed message determines the digest even when neither the request id nor the
      target is known to be free of bars. */
  lemma MessageDeterminesDigest(r: string, t: string, d: string, r': string, t': string, d': string)
    requires '|' !in d && '|' !in d'
    requires Message(r, t, d) == Message(r', t', d')
    ensures d == d'
  {
    LastBarSplits(DOMAIN + "|" + r + "|" + t, d, DOMAIN + "|" + r' + "|" + t', d');
  }

  /** Two bars in one string are the same two. */
  lemma TwoBarsSplit(r: string, t: string, d: string, r': string, t': string, d': string)
    requires '|' !in r && '|' !in t && '|' !in d
    requires r + "|" + t + "|" + d == r' + "|" + t' + "|" + d'
    ensures r == r' && t == t' && d == d'
  {
    var s, m, n := r + "|" + t + "|" + d, |r'|, |r'| + 1 + |t'|;
    assert s[m] == '|' && s[n] == '|';
    assert forall i | 0 <= i < |r| :: s[i] == r[i] != '|';
    assert forall i | |r| < i < |r| + 1 + |t| :: s[i] == t[i - |r| - 1] != '|';
    assert forall i | |r| + 1 + |t| < i < |s| :: s[i] == d[i - |r| - |t| - 2] != '|';
    assert m == |r| && n == |r| + 1 + |t|;
    assert s[..m] == r == r' && s[m + 1..n] == t == t' && s[n + 1..] == d == d';
  }

  lemma WithoutDomain(r: string, t: string, d: string, r': string, t': string, d': string)
    requires Message(r, t, d) == Message(r', t', d')
    ensures r + "|" + t + "|" + d == r' + "|" + t' + "|" + d'
  {
    var h := DOMAIN + "|";
    assert Message(r, t, d) == h + (r + "|" + t + "|" + d);
    assert Message(r', t', d') == h + (r' + "|" + t' + "|" + d');
    assert (h + (r + "|" + t + "|" + d))[|h|..] == r + "|" + t + "|" + d;
    assert (h + (r' + "|" + t' + "|" + d'))[|h|..] == r' + "|" + t' + "|" + d';
  }

  /** The message was signed for the first three fields. It determines all three if the target has
      no bar, or if the request id and the digest it is presented with have none. */
  lemma MessageDetermines(r: string, t: string, d: string, r': string, t': string, d': string)
    requires '|' !in r && '|' !in d && ('|' !in t || ('|' !in r' && '|' !in d'))
    requires Message(r, t, d) == Message(r', t', d')
    ensures r == r' && t == t' && d == d'
  {
    WithoutDomain(r, t, d, r', t', d');
    if '|' !in t {
      TwoBarsSplit(r, t, d, r', t', d');
    } else {
      LastBarSplits(r + "|" + t, d, r' + "|" + t', d');
      FirstBarSplits(r, t, r', t');
    }
  }

  /** A bar in a target can be taken for the one before it: the same message is one for another
      request id and another target. */
  lemma ABarInTheTargetMoves(r: string, u: string, v: string, d: string)
    ensures Message(r, u + "|" + v, d) == Message(r + "|" + u, v, d)
  {
    var h := DOMAIN + "|";
    assert r + "|" + (u + "|" + v) == r + "|" + u + "|" + v;
    assert Message(r, u + "|" + v, d) == h + (r + "|" + (u + "|" + v)) + "|" + d;
    assert Message(r + "|" + u, v, d) == h + (r + "|" + u + "|" + v) + "|" + d;
  }

  /** All that could be presented with the signature for these fields is these fields. */
  ghost predicate Unambiguous(r: string, t: string, d: string) {
    forall r', t', d' | Message(r', t', d') == Message(r, t, d) :: r' == r && t' == t && d' == d
  }

  /** What the broker signs is unambiguous exactly if the target has no bar. */
  lemma UnambiguousIff(r: string, t: string, d: string)
    requires '|' !in r && '|' !in d
    ensures Unambiguous(r, t, d) <==> '|' !in t
  {
    if '|' in t {
      var n :| 0 <= n < |t| && t[n] == '|';
      var u, v := t[..n], t[n + 1..];
      assert t == u + "|" + v;
      ABarInTheTargetMoves(r, u, v, d);
      assert |r + "|" + u| > |r|;
      assert Message(r + "|" + u, v, d) == Message(r, t, d);
    } else {
      forall r', t', d' | Message(r', t', d') == Message(r, t, d)
        ensures r' == r && t' == t && d' == d
      {
        MessageDetermines(r, t, d, r', t', d');
      }
    }
  }

  /** A checkpoint message determines the log head it was signed over. */
  lemma CheckpointMessageDetermines(g: string, n: nat, h: string, g': string, n': nat, h': string)
    requires '|' !in g && '|' !in g' && '|' !in h && '|' !in h'
    requires CheckpointMessage(g, n, h) == CheckpointMessage(g', n', h')
    ensures g == g' && n == n' && h == h'
  {
    var p := CHECKPOINT_DOMAIN + "|";
    LastBarSplits(p + g + "|" + Decimal(n), h, p + g' + "|" + Decimal(n'), h');
    LastBarSplits(p + g, Decimal(n), p + g', Decimal(n'));
    assert (p + g)[|p|..] == g && (p + g')[|p|..] == g';
    DecimalDetermines(n, n');
  }

  /** No file's attestation has the signed text of a checkpoint, whatever the fields. */
  lemma DomainsAreSeparate(r: string, t: string, d: string, g: string, n: nat, h: string)
    ensures Message(r, t, d) != CheckpointMessage(g, n, h)
  {
    assert Message(r, t, d)[5] == 'a';
    assert CheckpointMessage(g, n, h)[5] == 'c';
  }

  // ---- The key ring ---------------------------------------------------------------

  datatype Sig = Sig(kid: string, message: string) | Junk(tag: nat)

  datatype Att = Att(rid: string, target: string, digest: string, kid: string, sig: Sig)

  /** The public half of the ring: the key ids that verify, and the one that signs. */
  datatype Ring = Ring(publics: set<string>, active: Option<string>)

  function Sealed(kid: string, rid: string, target: string, digest: string): Att {
    Att(rid, target, digest, kid, Sig(kid, Message(rid, target, digest)))
  }

  predicate Verifies(ring: Ring, a: Att) {
    a.kid in ring.publics && a.sig == Sig(a.kid, Message(a.rid, a.target, a.digest))
  }

  predicate Checks(ring: Ring, a: Option<Att>) {
    a.Some? && Verifies(ring, a.value)
  }

  class KeyRing {
    var publics: set<string>
    var active: Option<string>

    function Value(): Ring
      reads this
    {
      Ring(publics, active)
    }

    constructor (known: set<string>, private: Option<string>)
      ensures active == private
      ensures publics == known + (if private.Some? then {private.value} else {})
    {
      publics := known + (if private.Some? then {private.value} else {});
      active := private;
    }

    /** A new signing key, whose id is not yet in the ring; the old public key stays, so
        whatever verified before still does, and nothing is signed under the old key again. */
    method Rotate(newKid: string)
      modifies this
      ensures active == Some(newKid) && publics == old(publics) + {newKid}
      ensures forall a :: Verifies(old(Value()), a) ==> Verifies(Value(), a)
    {
      active := Some(newKid);
      publics := publics + {newKid};
    }

    /** None when the ring holds public keys only. */
    method Sign(rid: string, target: string, digest: string) returns (a: Option<Att>)
      ensures a.Some? <==> active.Some?
      ensures a.Some? ==> a.value == Sealed(active.value, rid, target, digest)
      ensures a.Some? && active.value in publics ==> Verifies(Value(), a.value)
    {
      if active.None? { return None; }
      return Some(Att(rid, target, digest, active.value,
                      Sig(active.value, Message(rid, target, digest))));
    }
  }
}
