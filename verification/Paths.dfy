/** Paths: normal form, prefixes read as strings and as components, resolution. */
module Paths {
  import opened Strings

  predicate OkComponent(c: string) {
    c != "" && c != "." && c != ".."
  }

  /** The root itself, or an absolute path in which every component is a name to go down to. */
  predicate NormalForm(p: string) {
    p == "/" || (p != "" && p[0] == '/' && forall c <- Split(p[1..], '/') :: OkComponent(c))
  }

  predicate EndsInSlash(p: string) {
    p != "" && p[|p| - 1] == '/'
  }

  /** What a path names, component by component. */
  function Components(p: string): seq<string>
    requires p != ""
  {
    Split(p[1..], '/')
  }

  /** What a prefix names: nothing if it is empty, and without the empty string after a final slash. */
  function PrefixComponents(q: string): seq<string> {
    if q == "" then []
    else
      var cs := Split(q[1..], '/');
      if EndsInSlash(q) then cs[..|cs| - 1] else cs
  }

  /** The check on a configured path prefix. */
  predicate PrefixAccepted(q: string) {
    q == "" || EndsInSlash(q)
  }

  lemma SlashEnd(q: string)
    requires q != "" && q[0] == '/' && EndsInSlash(q)
    ensures |q| > 1 ==> Split(q[1..], '/') == Split(q[1..|q| - 1], '/') + [""]
    ensures |q| == 1 ==> Split(q[1..], '/') == [""]
  {
    if |q| > 1 {
      var a := q[1..|q| - 1];
      assert q[1..] == a + ['/'] + "";
      SplitAt(a, "", '/');
    }
  }

  /** One string extends another past a separator exactly when its parts do. */
  lemma SplitsExtend(a: string, s: string, sep: char)
    ensures a + [sep] <= s <==> Split(a, sep) < Split(s, sep)
  {
    var cs, n := Split(s, sep), |Split(a, sep)|;
    if a + [sep] <= s {
      var b := s[|a| + 1..];
      assert s == a + [sep] + b;
      SplitAt(a, b, sep);
    }
    if Split(a, sep) < cs {
      assert cs == Split(a, sep) + cs[n..];
      JoinSplit(s, sep);
      JoinSplit(a, sep);
      JoinConcat(Split(a, sep), cs[n..], sep);
    }
  }

  lemma ConsPrefix(c: char, a: string, p: string)
    requires p != "" && p[0] == c
    ensures [c] + a <= p <==> a <= p[1..]
  {
    assert p == [c] + p[1..];
    assert ([c] + a)[1..] == a;
    if [c] + a <= p {
      assert p[..|a| + 1] == [c] + a;
      assert a == p[1..][..|a|];
    }
  }

  /** A directory's own slash is what its prefix adds to its components. */
  lemma DirectoryPrefix(a: string, p: string)
    requires p != "" && p[0] == '/'
    ensures ['/'] + a + ['/'] <= p <==> Split(a, '/') < Split(p[1..], '/')
  {
    assert ['/'] + a + ['/'] == ['/'] + (a + ['/']);
    ConsPrefix('/', a + ['/'], p);
    SplitsExtend(a, p[1..], '/');
  }

  /** A prefix that starts and ends with a slash admits, as a string, exactly the paths that
      are properly below the components it names. */
  lemma SlashPrefixIsComponentPrefix(q: string, p: string)
    requires q != "" && q[0] == '/' && EndsInSlash(q) && p != "" && p[0] == '/'
    ensures q <= p <==> PrefixComponents(q) < Components(p)
  {
    SlashEnd(q);
    if |q| > 1 {
      var a := q[1..|q| - 1];
      assert q == ['/'] + a + ['/'];
      DirectoryPrefix(a, p);
    }
  }

  lemma {:induction false} JoinConcat(a: seq<string>, b: seq<string>, sep: char)
    requires |a| > 0 && |b| > 0
    ensures Join(a + b, sep) == Join(a, sep) + [sep] + Join(b, sep)
  {
    if |a| == 1 {
      assert (a + b)[1..] == b;
    } else {
      assert (a + b)[1..] == a[1..] + b;
      JoinConcat(a[1..], b, sep);
    }
  }

  /** A normal-form prefix that does not end in a slash also admits a sibling: a normal-form
      path it is a string prefix of, but that is not below the components it names. */
  lemma OtherPrefixesAdmitSiblings(q: string)
    requires NormalForm(q) && !EndsInSlash(q)
    ensures NormalForm(q + "0") && q <= q + "0"
    ensures !(PrefixComponents(q) <= Components(q + "0"))
  {
    var cs := Split(q[1..], '/');
    assert (q + "0")[1..] == q[1..] + "0";
    LastGrows(q[1..], '0', '/');
    var n := |cs| - 1;
    assert Components(q + "0") == cs[..n] + [cs[n] + "0"];
    forall c <- Components(q + "0") ensures OkComponent(c) {
      if c == cs[n] + "0" {
        assert c[|c| - 1] == '0';
      } else {
        assert c in cs;
      }
    }
    assert |cs[n] + "0"| == |cs[n]| + 1;
  }

  lemma {:induction false} LastGrows(s: string, c: char, sep: char)
    requires c != sep
    ensures var cs := Split(s, sep); Split(s + [c], sep) == cs[..|cs| - 1] + [cs[|cs| - 1] + [c]]
  {
    if s == [] {
      assert s + [c] == [c];
      assert Split([c], sep) == [[c]] by { SplitPlain([c], sep); }
    } else {
      assert (s + [c])[1..] == s[1..] + [c] && (s + [c])[0] == s[0];
      LastGrows(s[1..], c, sep);
      var rest := Split(s[1..], sep);
      if s[0] != sep && |rest| == 1 {
        assert [s[0]] + (rest[0] + [c]) == [s[0]] + rest[0] + [c];
      }
    }
  }

  /** What a prefix can mean: everything, a path in normal form, or a directory, with its slash. */
  predicate Meaningful(q: string) {
    q == "" || NormalForm(q) || (|q| > 1 && EndsInSlash(q) && NormalForm(q[..|q| - 1]))
  }

  /** Read as a string, and by its components, the prefix admits the same normal-form paths. */
  ghost predicate ReadingsAgree(q: string) {
    forall p | NormalForm(p) :: q <= p <==> PrefixComponents(q) < Components(p)
  }

  /** A prefix is accepted exactly when its two readings agree. */
  lemma AcceptedIffReadingsAgree(q: string)
    requires Meaningful(q)
    ensures PrefixAccepted(q) <==> ReadingsAgree(q)
  {
    if q == "" {
    } else if EndsInSlash(q) {
      forall p | NormalForm(p) ensures q <= p <==> PrefixComponents(q) < Components(p) {
        SlashPrefixIsComponentPrefix(q, p);
      }
    } else {
      OtherPrefixesAdmitSiblings(q);
    }
  }

  // ---- Resolution ---------------------------------------------------------------------------------

  const ROOT := "/workspace/"

  /** The components resolution walks through, if it does not refuse the path outright. */
  function Parts(p: string): (r: seq<string>)
  {
    if !(ROOT <= p) then []
    else
      var parts := Split(p[|ROOT|..], '/');
      if forall c <- parts :: OkComponent(c) then parts else []
  }

  lemma BelowDirectory(w: string, rest: string)
    requires OkComponent(w) && '/' !in w
    ensures NormalForm(['/'] + w + ['/'] + rest) <==> forall c <- Split(rest, '/') :: OkComponent(c)
  {
    var p := ['/'] + w + ['/'] + rest;
    assert p[1..] == w + ['/'] + rest;
    SplitAt(w, rest, '/');
    SplitPlain(w, '/');
    var cs := Split(rest, '/');
    assert Split(p[1..], '/') == [w] + cs;
    assert forall c <- cs :: c in [w] + cs;
    assert |p| > 1 && p != "/";
  }

  /** Below the root, resolution accepts exactly the normal-form paths, and walks components
      that are each a single name, never one that stays or goes up, and join back to the path. */
  lemma ResolutionAcceptsNormalForm(p: string)
    requires ROOT <= p
    ensures Parts(p) != [] <==> NormalForm(p)
    ensures Parts(p) != [] ==> ROOT + Join(Parts(p), '/') == p
    ensures forall c <- Parts(p) :: OkComponent(c) && '/' !in c
  {
    var rest := p[|ROOT|..];
    var w := "workspace";
    assert ROOT == ['/'] + w + ['/'];
    assert p == ['/'] + w + ['/'] + rest;
    BelowDirectory(w, rest);
    JoinSplit(rest, '/');
    forall c <- Split(rest, '/') ensures '/' !in c {
      var n :| 0 <= n < |Split(rest, '/')| && Split(rest, '/')[n] == c;
      PartsArePlain(rest, '/', n);
    }
  }

  // ---- Walking ---------------------------------------------------------------------------------------

  /** Where a directory walk is after the given components: "" and "." stay, ".." goes up, and any other
      goes one level down. */
  function Walked(parts: seq<string>): seq<string> {
    if parts == [] then []
    else
      var here, c := Walked(parts[..|parts| - 1]), parts[|parts| - 1];
      if c == "" || c == "." then here
      else if c == ".." then (if here == [] then [] else here[..|here| - 1])
      else here + [c]
  }

  /** The component goes one level down, to the name it is. */
  predicate GoesDown(parts: seq<string>, n: nat)
    requires n < |parts|
  {
    Walked(parts[..n + 1]) == Walked(parts[..n]) + [parts[n]]
  }

  ghost predicate OnlyDown(parts: seq<string>) {
    forall n: nat | n < |parts| :: GoesDown(parts, n)
  }

  lemma StepIsDown(parts: seq<string>, n: nat)
    requires n < |parts|
    ensures GoesDown(parts, n) <==> parts[n] != "" && parts[n] != "." && parts[n] != ".."
  {
    assert parts[..n + 1][..n] == parts[..n] && parts[..n + 1][n] == parts[n];
    assert |Walked(parts[..n]) + [parts[n]]| == |Walked(parts[..n])| + 1;
  }

  lemma OnlyDownIff(parts: seq<string>)
    ensures OnlyDown(parts) <==> forall c <- parts :: OkComponent(c)
  {
    forall n: nat | n < |parts| ensures GoesDown(parts, n) <==> OkComponent(parts[n]) {
      StepIsDown(parts, n);
    }
    if OnlyDown(parts) {
      forall c <- parts ensures OkComponent(c) {
        var n: nat :| n < |parts| && parts[n] == c;
        assert GoesDown(parts, n);
      }
    }
  }

  lemma {:induction false} DownIsAll(parts: seq<string>, n: nat)
    requires n <= |parts| && OnlyDown(parts)
    ensures Walked(parts[..n]) == parts[..n]
  {
    if n > 0 {
      DownIsAll(parts, n - 1);
      assert GoesDown(parts, n - 1);
      assert parts[..n] == parts[..n - 1] + [parts[n - 1]];
    }
  }

  /** Below the root, resolution accepts a path exactly if walking it never stays and never goes up,
      and so ends where its components say. */
  lemma AcceptedIffOnlyDown(p: string)
    requires ROOT <= p
    ensures Parts(p) != [] <==> OnlyDown(Split(p[|ROOT|..], '/'))
    ensures Parts(p) != [] ==> Parts(p) == Split(p[|ROOT|..], '/') && Walked(Parts(p)) == Parts(p)
  {
    var parts := Split(p[|ROOT|..], '/');
    OnlyDownIff(parts);
    if OnlyDown(parts) {
      DownIsAll(parts, |parts|);
      assert parts[..|parts|] == parts;
    }
  }

  /** A normal-form path is the root, or one whose walk only goes down. */
  lemma NormalFormIffOnlyDown(p: string)
    ensures NormalForm(p) <==> p == "/" || (p != "" && p[0] == '/' && OnlyDown(Split(p[1..], '/')))
  {
    if p != "" { OnlyDownIff(Split(p[1..], '/')); }
  }
}
