/** Single-use intents: which proposals one fits, the order they are kept in, and revocation. */
module Intents {
  import opened Attest

  /** A tool and the constraints an invocation of it must meet. */
  datatype Intent = Intent(tool: string, cons: seq<(string, string)>)

  // ---- Fitting ---------------------------------------------------------------------------

  const PREMISE := "if_"
  const DIGEST_SUFFIX := "_sha256"

  predicate EndsWith(s: string, t: string) {
    |t| <= |s| && s[|s| - |t|..] == t
  }

  /** Some argument has the name and every argument of that name has the value. */
  predicate Binds(args: seq<(string, string)>, name: string, seen: string -> string, value: string) {
    && (exists a <- args :: a.0 == name)
    && (forall a <- args :: a.0 == name ==> seen(a.1) == value)
  }

  predicate Holds(sha: string -> string, args: seq<(string, string)>, c: (string, string)) {
    if PREMISE <= c.0 then true
    else if EndsWith(c.0, DIGEST_SUFFIX) then Binds(args, c.0[..|c.0| - |DIGEST_SUFFIX|], sha, c.1)
    else Binds(args, c.0, s => s, c.1)
  }

  predicate Fits(sha: string -> string, i: Intent, tool: string, args: seq<(string, string)>) {
    i.tool == tool && forall c <- i.cons :: Holds(sha, args, c)
  }

  // ---- The order: fewest constraints first, stable ------------------------------------------

  predicate NoWider(i: Intent, k: Intent) {
    |i.cons| <= |k.cons|
  }

  predicate Ordered(s: seq<Intent>) {
    forall m, n | 0 <= m < n < |s| :: NoWider(s[m], s[n])
  }

  lemma OrderedSnoc(s: seq<Intent>, x: Intent)
    ensures Ordered(s + [x]) <==> Ordered(s) && forall i <- s :: NoWider(i, x)
  {
    var t := s + [x];
    if Ordered(t) {
      forall i <- s ensures NoWider(i, x) {
        var m :| 0 <= m < |s| && s[m] == i;
        assert NoWider(t[m], t[|s|]);
      }
      assert forall m, n | 0 <= m < n < |s| :: s[m] == t[m] && s[n] == t[n];
    }
  }

  lemma OrderedCons(x: Intent, s: seq<Intent>)
    ensures Ordered([x] + s) <==> Ordered(s) && forall i <- s :: NoWider(x, i)
  {
    var t := [x] + s;
    if Ordered(t) {
      forall i <- s ensures NoWider(x, i) {
        var m :| 0 <= m < |s| && s[m] == i;
        assert NoWider(t[0], t[m + 1]);
      }
      assert forall m, n | 0 <= m < n < |s| :: s[m] == t[m + 1] && s[n] == t[n + 1];
    }
  }

  function Insert(s: seq<Intent>, x: Intent): seq<Intent> {
    if s == [] || NoWider(s[|s| - 1], x) then s + [x]
    else Insert(s[..|s| - 1], x) + [s[|s| - 1]]
  }

  lemma {:induction false} InsertKeeps(s: seq<Intent>, x: Intent)
    ensures multiset(Insert(s, x)) == multiset(s) + multiset{x}
  {
    if s != [] {
      InsertKeeps(s[..|s| - 1], x);
      assert s == s[..|s| - 1] + [s[|s| - 1]];
    }
  }

  lemma InMultiset(s: seq<Intent>, t: seq<Intent>, x: Intent)
    requires multiset(s) == multiset(t) + multiset{x}
    ensures forall i <- s :: i in t || i == x
  {
    forall i <- s ensures i in t || i == x {
      assert i in multiset(s);
    }
  }

  lemma {:induction false} InsertOrdered(s: seq<Intent>, x: Intent)
    requires Ordered(s)
    ensures Ordered(Insert(s, x))
    ensures Ordered(s + [x]) ==> Insert(s, x) == s + [x]
  {
    OrderedSnoc(s, x);
    if s != [] {
      var front, last := s[..|s| - 1], s[|s| - 1];
      assert s == front + [last];
      OrderedSnoc(front, last);
      if NoWider(last, x) {
        assert forall i <- s :: NoWider(i, last) || i == last;
      } else {
        assert last in s;
        InsertOrdered(front, x);
        InsertKeeps(front, x);
        InMultiset(Insert(front, x), front, x);
        OrderedSnoc(Insert(front, x), last);
      }
    }
  }

  /** `sorted` by the number of constraints. */
  function Order(s: seq<Intent>): seq<Intent> {
    if s == [] then [] else Insert(Order(s[..|s| - 1]), s[|s| - 1])
  }

  lemma {:induction false} OrderSorts(s: seq<Intent>)
    ensures Ordered(Order(s)) && multiset(Order(s)) == multiset(s)
    ensures Ordered(s) ==> Order(s) == s
  {
    if s != [] {
      var front, last := s[..|s| - 1], s[|s| - 1];
      assert s == front + [last];
      OrderSorts(front);
      InsertOrdered(Order(front), last);
      InsertKeeps(Order(front), last);
      OrderedSnoc(front, last);
    }
  }

  /** Python's `remove`: the first equal element. */
  function RemoveFirst(s: seq<Intent>, x: Intent): seq<Intent>
    requires x in s
  {
    if s[0] == x then s[1..] else [s[0]] + RemoveFirst(s[1..], x)
  }

  lemma {:induction false} RemoveKeeps(s: seq<Intent>, x: Intent)
    requires x in s
    ensures multiset(RemoveFirst(s, x)) + multiset{x} == multiset(s)
    ensures Ordered(s) ==> Ordered(RemoveFirst(s, x))
  {
    var rest := s[1..];
    assert s == [s[0]] + rest;
    OrderedCons(s[0], rest);
    if s[0] != x {
      RemoveKeeps(rest, x);
      var r := RemoveFirst(rest, x);
      InMultiset(rest, r, x);
      assert forall i <- r :: i in multiset(rest);
      OrderedCons(s[0], r);
    }
  }

  /** The first element that may be used, if any. */
  function FirstUsable(s: seq<Intent>, usable: Intent -> bool): (r: Option<Intent>)
    ensures r.None? ==> forall i <- s :: !usable(i)
    ensures r.Some? ==> r.value in s && usable(r.value)
  {
    if s == [] then None
    else if usable(s[0]) then Some(s[0])
    else
      assert forall i <- s :: i == s[0] || i in s[1..];
      FirstUsable(s[1..], usable)
  }

  /** In an ordered list the first usable intent has the fewest constraints of all usable ones. */
  lemma {:induction false} FirstUsableIsBroadest(s: seq<Intent>, usable: Intent -> bool)
    requires Ordered(s) && FirstUsable(s, usable).Some?
    ensures forall i <- s :: usable(i) ==> |FirstUsable(s, usable).value.cons| <= |i.cons|
  {
    assert s == [s[0]] + s[1..];
    OrderedCons(s[0], s[1..]);
    if !usable(s[0]) { FirstUsableIsBroadest(s[1..], usable); }
  }

  // ---- Revocation ------------------------------------------------------------------------------

  datatype Line = Tool(tool: string) | Exactly(intent: Intent) | Unreadable

  predicate Revokes(l: Line, i: Intent) {
    match l
    case Tool(t) => i.tool == t
    case Exactly(r) => i == r
    case Unreadable => true
  }

  predicate Revoked(lines: seq<Line>, i: Intent) {
    exists l <- lines :: Revokes(l, i)
  }

  function Without(s: seq<Intent>, l: Line): seq<Intent> {
    if s == [] then []
    else if Revokes(l, s[0]) then Without(s[1..], l)
    else [s[0]] + Without(s[1..], l)
  }

  /** What is left after the whole revocations file has been applied. */
  function Unrevoked(s: seq<Intent>, lines: seq<Line>): seq<Intent> {
    if s == [] then []
    else if Revoked(lines, s[0]) then Unrevoked(s[1..], lines)
    else [s[0]] + Unrevoked(s[1..], lines)
  }

  lemma {:induction false} UnrevokedIs(s: seq<Intent>, lines: seq<Line>)
    ensures forall i :: i in Unrevoked(s, lines) <==> i in s && !Revoked(lines, i)
    ensures multiset(Unrevoked(s, lines)) <= multiset(s)
    ensures Ordered(s) ==> Ordered(Unrevoked(s, lines))
  {
    if s != [] {
      var r := Unrevoked(s[1..], lines);
      UnrevokedIs(s[1..], lines);
      assert s == [s[0]] + s[1..];
      OrderedCons(s[0], s[1..]);
      OrderedCons(s[0], r);
    }
  }

  /** An intent is left exactly if the file can be read and has neither a star line for its tool nor
      its own line; and it is then left as often as it was there. */
  lemma {:induction false} SurvivesIff(s: seq<Intent>, lines: seq<Line>, i: Intent)
    ensures multiset(Unrevoked(s, lines))[i]
         == if Unreadable in lines || Tool(i.tool) in lines || Exactly(i) in lines then 0 else multiset(s)[i]
  {
    RevokedIff(lines, i);
    if s != [] {
      SurvivesIff(s[1..], lines, i);
      RevokedIff(lines, s[0]);
      assert s == [s[0]] + s[1..];
    }
  }

  lemma RevokedIff(lines: seq<Line>, i: Intent)
    ensures Revoked(lines, i) <==> Unreadable in lines || Tool(i.tool) in lines || Exactly(i) in lines
  {
    assert Revokes(Unreadable, i) && Revokes(Tool(i.tool), i) && Revokes(Exactly(i), i);
    if Revoked(lines, i) {
      var l :| l in lines && Revokes(l, i);
      match l {
        case Tool(_) =>
        case Exactly(_) =>
        case Unreadable =>
      }
    }
  }

  /** What it takes for an intent to fit: the same tool, and of every constraint that is not a premise
      that some argument has its name, and every argument of that name has its value, or the hash it
      gives. */
  lemma FitsIff(sha: string -> string, i: Intent, tool: string, args: seq<(string, string)>)
    ensures Fits(sha, i, tool, args) <==>
      i.tool == tool && forall c <- i.cons :: "if_" <= c.0 || MetBy(sha, args, c)
  {
    assert forall c <- i.cons :: Holds(sha, args, c) <==> "if_" <= c.0 || MetBy(sha, args, c);
  }

  predicate MetBy(sha: string -> string, args: seq<(string, string)>, c: (string, string)) {
    var n := |c.0| - 7;
    var hashed := n >= 0 && c.0[n..] == "_sha256";
    var name := if hashed then c.0[..n] else c.0;
    && (exists k :: 0 <= k < |args| && args[k].0 == name)
    && (forall k :: 0 <= k < |args| && args[k].0 == name ==> c.1 == if hashed then sha(args[k].1) else args[k].1)
  }

  lemma {:induction false} UnrevokedSnoc(s: seq<Intent>, lines: seq<Line>, l: Line)
    ensures Unrevoked(s, lines + [l]) == Without(Unrevoked(s, lines), l)
  {
    if s != [] {
      UnrevokedSnoc(s[1..], lines, l);
      assert Revoked(lines + [l], s[0]) <==> Revoked(lines, s[0]) || Revokes(l, s[0]) by {
        assert forall x <- lines :: x in lines + [l];
        assert forall x <- lines + [l] :: x in lines || x == l;
        assert l in lines + [l];
      }
      var r := Unrevoked(s[1..], lines);
      assert ([s[0]] + r)[1..] == r;
    }
  }

  lemma {:induction false} NothingRevoked(s: seq<Intent>)
    ensures Unrevoked(s, []) == s
  {
    if s != [] { NothingRevoked(s[1..]); }
  }

  lemma {:induction false} AllRevoked(s: seq<Intent>, lines: seq<Line>)
    requires Unreadable in lines
    ensures Unrevoked(s, lines) == []
  {
    if s != [] {
      AllRevoked(s[1..], lines);
      assert Revokes(Unreadable, s[0]);
    }
  }

  /** The loop over the file: one line after the other, everything gone at an unreadable one. */
  method ApplyRevocations(s: seq<Intent>, lines: seq<Line>) returns (r: seq<Intent>)
    ensures r == Unrevoked(s, lines)
  {
    r := s;
    NothingRevoked(s);
    assert lines[..0] == [];
    for n := 0 to |lines|
      invariant r == Unrevoked(s, lines[..n])
    {
      if lines[n].Unreadable? {
        assert lines[n] in lines;
        AllRevoked(s, lines);
        return [];
      }
      assert lines[..n + 1] == lines[..n] + [lines[n]];
      UnrevokedSnoc(s, lines[..n], lines[n]);
      r := Without(r, lines[n]);
    }
    assert lines[..|lines|] == lines;
  }

  /** Applying a longer file to what a shorter one left is applying the longer file, so
      re-reading changes nothing and a line once written stays in force. */
  lemma {:induction false} RevocationAbsorbs(s: seq<Intent>, lines: seq<Line>, more: seq<Line>)
    ensures Unrevoked(Unrevoked(s, lines), lines + more) == Unrevoked(s, lines + more)
    ensures multiset(Unrevoked(s, lines + more)) <= multiset(Unrevoked(s, lines))
  {
    if s != [] {
      RevocationAbsorbs(s[1..], lines, more);
      var r := Unrevoked(s[1..], lines);
      assert ([s[0]] + r)[1..] == r;
      assert Revoked(lines, s[0]) ==> Revoked(lines + more, s[0]) by {
        assert forall x <- lines :: x in lines + more;
      }
    }
  }

  // ---- Position --------------------------------------------------------------------------------------

  /** The intents with a given number of constraints, in their order. */
  function WithCount(s: seq<Intent>, n: nat): seq<Intent> {
    if s == [] then []
    else WithCount(s[..|s| - 1], n) + if |s[|s| - 1].cons| == n then [s[|s| - 1]] else []
  }

  lemma {:induction false} InsertIsStable(s: seq<Intent>, x: Intent, n: nat)
    requires Ordered(s)
    ensures WithCount(Insert(s, x), n) == WithCount(s, n) + if |x.cons| == n then [x] else []
  {
    if s == [] || NoWider(s[|s| - 1], x) {
      assert (s + [x])[..|s|] == s;
    } else {
      var front, last := s[..|s| - 1], s[|s| - 1];
      assert s == front + [last];
      OrderedSnoc(front, last);
      InsertIsStable(front, x, n);
      assert (Insert(front, x) + [last])[..|Insert(front, x)|] == Insert(front, x);
    }
  }

  /** Intents with equally many constraints stay in the order of the file. */
  lemma {:induction false} OrderIsStable(s: seq<Intent>, n: nat)
    ensures WithCount(Order(s), n) == WithCount(s, n)
  {
    if s != [] {
      OrderIsStable(s[..|s| - 1], n);
      OrderSorts(s[..|s| - 1]);
      InsertIsStable(Order(s[..|s| - 1]), s[|s| - 1], n);
    }
  }

  /** One occurrence is removed, the first, and all else stays where it is. */
  lemma {:induction false} RemovesTheFirst(s: seq<Intent>, x: Intent) returns (k: nat)
    requires x in s
    ensures k < |s| && s[k] == x && x !in s[..k] && RemoveFirst(s, x) == s[..k] + s[k + 1..]
  {
    if s[0] == x {
      k := 0;
    } else {
      var m := RemovesTheFirst(s[1..], x);
      k := m + 1;
      assert s[..k] == [s[0]] + s[1..][..m];
      assert s[k + 1..] == s[1..][m + 1..];
    }
  }

  /** The usable intent that is found is the first in the list. */
  lemma {:induction false} FindsTheFirst(s: seq<Intent>, usable: Intent -> bool) returns (k: nat)
    requires FirstUsable(s, usable).Some?
    ensures k < |s| && FirstUsable(s, usable) == Some(s[k]) && usable(s[k])
    ensures forall m | 0 <= m < k :: !usable(s[m])
  {
    if usable(s[0]) {
      k := 0;
    } else {
      var m := FindsTheFirst(s[1..], usable);
      k := m + 1;
    }
  }

  /** Revocation looks at each intent by itself and keeps the order. */
  lemma {:induction false} RevocationIsPointwise(s: seq<Intent>, t: seq<Intent>, lines: seq<Line>)
    ensures Unrevoked(s + t, lines) == Unrevoked(s, lines) + Unrevoked(t, lines)
  {
    if s == [] {
      assert s + t == t;
    } else {
      assert (s + t)[0] == s[0] && (s + t)[1..] == s[1..] + t;
      RevocationIsPointwise(s[1..], t, lines);
    }
  }
}
