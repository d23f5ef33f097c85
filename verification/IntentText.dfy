/** Intents as text: the parser, the printer, and the intents file. */
module IntentText {
  import opened Attest
  import opened Intents
  import Strings
  import Paths
  import Books = Bookkeeping
  import IntentRuns

  // ---- Words -------------------------------------------------------------------------------

  /** The characters `str.split` splits at. */
  predicate Space(c: char) {
    || '\t' <= c <= '\r' || '\U{1c}' <= c <= ' '
    || c in {'\U{85}', '\U{a0}', '\U{1680}', '\U{2028}', '\U{2029}', '\U{202f}', '\U{205f}', '\U{3000}'}
    || '\U{2000}' <= c <= '\U{200a}'
  }

  predicate Word(s: string) {
    s != "" && forall c <- s :: !Space(c)
  }

  /** Length of the word the string starts with. */
  function WordLength(s: string): (n: nat)
    ensures n <= |s| && forall c <- s[..n] :: !Space(c)
    ensures n < |s| ==> Space(s[n])
  {
    if s == [] || Space(s[0]) then 0 else 1 + WordLength(s[1..])
  }

  function Words(s: string): (ws: seq<string>)
    ensures forall w <- ws :: Word(w)
    decreases |s|
  {
    if s == [] then []
    else if Space(s[0]) then Words(s[1..])
    else
      var n := WordLength(s);
      [s[..n]] + Words(s[n..])
  }

  lemma {:induction false} WordLengthIs(w: string, rest: string)
    requires forall c <- w :: !Space(c)
    requires rest == "" || Space(rest[0])
    ensures WordLength(w + rest) == |w|
  {
    if w == [] {
      assert w + rest == rest;
    } else {
      assert (w + rest)[1..] == w[1..] + rest && (w + rest)[0] == w[0];
      assert w[0] in w;
      WordLengthIs(w[1..], rest);
    }
  }

  lemma WordThenRest(w: string, rest: string)
    requires Word(w) && (rest == "" || Space(rest[0]))
    ensures Words(w + rest) == [w] + Words(rest)
  {
    WordLengthIs(w, rest);
    assert w[0] in w && (w + rest)[0] == w[0];
    assert (w + rest)[..|w|] == w && (w + rest)[|w|..] == rest;
  }

  lemma {:induction false} WordsOfJoined(ws: seq<string>)
    requires |ws| > 0 && forall w <- ws :: Word(w)
    ensures Words(Strings.Join(ws, ' ')) == ws
  {
    if |ws| == 1 {
      assert ws[0] in ws;
      WordThenRest(ws[0], "");
      assert ws[0] + "" == ws[0];
    } else {
      var tail := Strings.Join(ws[1..], ' ');
      WordsOfJoined(ws[1..]);
      assert ws[0] in ws;
      WordThenRest(ws[0], [' '] + tail);
      assert ws[0] + [' '] + tail == ws[0] + ([' '] + tail);
      assert ([' '] + tail)[1..] == tail;
      assert ws == [ws[0]] + ws[1..];
    }
  }

  // ---- One constraint ------------------------------------------------------------------------

  predicate Hex64(s: string) {
    |s| == 64 && forall c <- s :: '0' <= c <= '9' || 'a' <= c <= 'f'
  }

  /** Where the first, or last, occurrence of a character is; none is the length, or zero. */
  function First(s: string, c: char): (n: nat)
    ensures n <= |s| && c !in s[..n] && (n < |s| ==> s[n] == c)
  {
    if s == [] || s[0] == c then 0 else 1 + First(s[1..], c)
  }

  function Last(s: string, c: char): (n: nat)
    ensures n <= |s| && (n == 0 ==> c !in s) && (n > 0 ==> s[n - 1] == c && c !in s[n..])
  {
    if s == [] then 0
    else if s[|s| - 1] == c then |s|
    else Last(s[..|s| - 1], c)
  }

  /** A constraint that could hold of some proposal or world. */
  predicate Sensible(k: string, v: string) {
    && k != "" && v != ""
    && (k in {"path", "destination"} ==> Paths.NormalForm(v))
    && (EndsWith(k, DIGEST_SUFFIX) ==> Hex64(v))
    && (PREMISE <= k ==> k in {"if_present", "if_absent", "if_digest"})
    && (k in {"if_present", "if_absent"} ==> Paths.NormalForm(v))
    && (k == "if_digest" ==>
          var n := Last(v, '@');
          n > 0 && Paths.NormalForm(v[..n - 1]) && Hex64(v[n..]))
  }

  function ParseConstraint(w: string): Option<(string, string)> {
    var n := First(w, '=');
    if n == |w| || !Sensible(w[..n], w[n + 1..]) then None else Some((w[..n], w[n + 1..]))
  }

  function PrintConstraint(c: (string, string)): string {
    c.0 + "=" + c.1
  }

  /** What a parsed constraint looks like. */
  predicate Proper(c: (string, string)) {
    '=' !in c.0 && Sensible(c.0, c.1) && Word(PrintConstraint(c))
  }

  lemma ParsedIsProper(w: string)
    requires Word(w) && ParseConstraint(w).Some?
    ensures Proper(ParseConstraint(w).value) && PrintConstraint(ParseConstraint(w).value) == w
  {
    var n := First(w, '=');
    assert w == w[..n] + "=" + w[n + 1..];
  }

  lemma {:induction false} FirstIs(a: string, c: char, b: string)
    requires c !in a
    ensures First(a + [c] + b, c) == |a|
  {
    if a == [] {
      assert a + [c] + b == [c] + b;
    } else {
      assert (a + [c] + b)[1..] == a[1..] + [c] + b && (a + [c] + b)[0] == a[0];
      FirstIs(a[1..], c, b);
    }
  }

  lemma ProperParses(c: (string, string))
    requires Proper(c)
    ensures ParseConstraint(PrintConstraint(c)) == Some(c)
  {
    var w := PrintConstraint(c);
    var n := First(w, '=');
    FirstIs(c.0, '=', c.1);
    assert w[..n] == c.0 && w[n + 1..] == c.1;
  }

  // ---- A whole intent -------------------------------------------------------------------------

  function ParseAll(ws: seq<string>): Option<seq<(string, string)>> {
    if ws == [] then Some([])
    else
      match (ParseConstraint(ws[0]), ParseAll(ws[1..]))
      case (Some(c), Some(cs)) => Some([c] + cs)
      case _ => None
  }

  predicate DistinctNames(cons: seq<(string, string)>) {
    forall m, n | 0 <= m < n < |cons| :: cons[m].0 != cons[n].0
  }

  /** None stands for the refusal of a malformed line. */
  function Parse(line: string): Option<Intent> {
    var ws := Words(line);
    if ws == [] then None
    else
      match ParseAll(ws[1..])
      case None => None
      case Some(cons) => if DistinctNames(cons) then Some(Intent(ws[0], cons)) else None
  }

  function Printed(cons: seq<(string, string)>): seq<string> {
    if cons == [] then [] else [PrintConstraint(cons[0])] + Printed(cons[1..])
  }

  function Print(i: Intent): string {
    Strings.Join([i.tool] + Printed(i.cons), ' ')
  }

  predicate WellFormed(i: Intent) {
    Word(i.tool) && (forall c <- i.cons :: Proper(c)) && DistinctNames(i.cons)
  }

  lemma {:induction false} ParsedAllProper(ws: seq<string>)
    requires (forall w <- ws :: Word(w)) && ParseAll(ws).Some?
    ensures forall c <- ParseAll(ws).value :: Proper(c)
  {
    if ws != [] {
      assert ws[0] in ws;
      ParsedIsProper(ws[0]);
      ParsedAllProper(ws[1..]);
    }
  }

  lemma {:induction false} PrintedParses(cons: seq<(string, string)>)
    requires forall c <- cons :: Proper(c)
    ensures ParseAll(Printed(cons)) == Some(cons) && forall w <- Printed(cons) :: Word(w)
  {
    if cons != [] {
      assert cons[0] in cons;
      ProperParses(cons[0]);
      PrintedParses(cons[1..]);
      var ws := Printed(cons);
      assert ws[1..] == Printed(cons[1..]);
      assert cons == [cons[0]] + cons[1..];
    }
  }

  /** Whatever parses, prints to a line that parses to the same intent; and the intents that
      survive the round trip are exactly the well-formed ones. */
  lemma PrintThenParse(i: Intent)
    ensures WellFormed(i) ==> Parse(Print(i)) == Some(i)
    ensures Parse(Print(i)) == Some(i) ==> WellFormed(i)
  {
    if WellFormed(i) {
      PrintedParses(i.cons);
      var ws := [i.tool] + Printed(i.cons);
      WordsOfJoined(ws);
      assert ws[1..] == Printed(i.cons);
    }
    if Parse(Print(i)) == Some(i) { ParsedIsWellFormed(Print(i)); }
  }

  lemma ParsedIsWellFormed(line: string)
    requires Parse(line).Some?
    ensures WellFormed(Parse(line).value)
  {
    var ws := Words(line);
    assert ws[0] in ws;
    ParsedAllProper(ws[1..]);
  }

  lemma ParsePrintParse(line: string)
    requires Parse(line).Some?
    ensures Parse(Print(Parse(line).value)) == Parse(line)
  {
    ParsedIsWellFormed(line);
    PrintThenParse(Parse(line).value);
  }

  // ---- What parses ------------------------------------------------------------------------------

  predicate Digest64(s: string) {
    |s| == 64 && forall i | 0 <= i < 64 :: '0' <= s[i] <= '9' || 'a' <= s[i] <= 'f'
  }

  /** The word is a name, the first equals sign, and a value, both there; a path is in normal form, a
      digest 64 lower-case hexadecimal digits, a premise one of the three there are, about a path in
      normal form and, for a digest, with the digest after the last at-sign. */
  predicate ConstraintAt(w: string, n: nat) {
    && 0 < n < |w| - 1 && w[n] == '=' && '=' !in w[..n]
    && var k, v := w[..n], w[n + 1..];
    && (k == "path" || k == "destination" || k == "if_present" || k == "if_absent" ==> Paths.NormalForm(v))
    && (|k| >= 7 && k[|k| - 7..] == "_sha256" ==> Digest64(v))
    && ("if_" <= k ==> k == "if_present" || k == "if_absent" || k == "if_digest")
    && (k == "if_digest" ==> exists m: nat | m < |v| :: PathAndDigest(v, m))
  }

  predicate PathAndDigest(v: string, m: nat) {
    m < |v| && v[m] == '@' && '@' !in v[m + 1..] && Paths.NormalForm(v[..m]) && Digest64(v[m + 1..])
  }

  lemma ConstraintIff(w: string)
    ensures ParseConstraint(w).Some? <==> exists n: nat | n < |w| :: ConstraintAt(w, n)
    ensures forall n: nat | ConstraintAt(w, n) :: ParseConstraint(w) == Some((w[..n], w[n + 1..]))
  {
    var n := First(w, '=');
    if k: nat :| ConstraintAt(w, k) {
      OnlyFirst(w, n, k);
    }
    if n < |w| {
      SensibleIff(w, n);
    }
    forall k: nat | ConstraintAt(w, k) ensures k == n {
      OnlyFirst(w, n, k);
    }
  }

  lemma OnlyFirst(w: string, n: nat, k: nat)
    requires n == First(w, '=') && k < |w| && w[k] == '=' && '=' !in w[..k]
    ensures n == k && n < |w|
  {
    assert w == w[..k] + ['='] + w[k + 1..];
    FirstIs(w[..k], '=', w[k + 1..]);
  }

  lemma HexIs(s: string)
    ensures Hex64(s) <==> Digest64(s)
  {
    if Digest64(s) {
      forall c <- s ensures '0' <= c <= '9' || 'a' <= c <= 'f' {
        var i :| 0 <= i < |s| && s[i] == c;
      }
    }
    if Hex64(s) {
      forall i | 0 <= i < |s| ensures '0' <= s[i] <= '9' || 'a' <= s[i] <= 'f' {
        assert s[i] in s;
      }
    }
  }

  lemma SensibleIff(w: string, n: nat)
    requires n < |w| && w[n] == '=' && '=' !in w[..n]
    ensures Sensible(w[..n], w[n + 1..]) <==> ConstraintAt(w, n)
  {
    var k, v := w[..n], w[n + 1..];
    HexIs(v);
    LastAtIff(v);
  }

  lemma LastAtIff(v: string)
    ensures var m := Last(v, '@');
      (m > 0 && Paths.NormalForm(v[..m - 1]) && Hex64(v[m..])) <==> exists l: nat | l < |v| :: PathAndDigest(v, l)
  {
    var m := Last(v, '@');
    if m > 0 { AtLast(v, m - 1); }
    if exists l: nat | l < |v| :: PathAndDigest(v, l) { SomewhereIsLast(v); }
  }

  lemma SomewhereIsLast(v: string)
    requires exists l: nat | l < |v| :: PathAndDigest(v, l)
    ensures Last(v, '@') > 0 && PathAndDigest(v, Last(v, '@') - 1)
  {
    var l: nat :| l < |v| && PathAndDigest(v, l);
    OnlyLast(v, l);
  }

  lemma AtLast(v: string, l: nat)
    requires l < |v| && v[l] == '@' && '@' !in v[l + 1..]
    ensures Paths.NormalForm(v[..l]) && Hex64(v[l + 1..]) <==> PathAndDigest(v, l)
  {
    HexIs(v[l + 1..]);
  }

  lemma OnlyLast(v: string, l: nat)
    requires l < |v| && v[l] == '@' && '@' !in v[l + 1..]
    ensures Last(v, '@') == l + 1
  {
    assert v == v[..l] + ['@'] + v[l + 1..];
    LastIs(v[..l], '@', v[l + 1..]);
  }

  lemma {:induction false} LastIs(a: string, c: char, b: string)
    requires c !in b
    ensures Last(a + [c] + b, c) == |a| + 1
  {
    var s := a + [c] + b;
    if b != [] {
      assert s[..|s| - 1] == a + [c] + b[..|b| - 1];
      assert s[|s| - 1] == b[|b| - 1] && b[|b| - 1] in b;
      LastIs(a, c, b[..|b| - 1]);
    }
  }

  /** A line parses exactly if it has a tool and every further word is such a constraint, with names all
      different; and it parses to just these, in their order. */
  lemma ParsesIff(line: string)
    ensures Parse(line).Some? <==>
      && Words(line) != [] && ParseAll(Words(line)[1..]).Some? && DistinctNames(ParseAll(Words(line)[1..]).value)
    ensures Words(line) != [] ==>
      (ParseAll(Words(line)[1..]).Some? <==>
       forall w <- Words(line)[1..] :: exists n: nat | n < |w| :: ConstraintAt(w, n))
    ensures Parse(line).Some? ==>
      var i, ws := Parse(line).value, Words(line);
      && i.tool == ws[0] && |i.cons| == |ws| - 1
      && forall m | 0 <= m < |i.cons| :: ParseConstraint(ws[1..][m]) == Some(i.cons[m])
  {
    if Words(line) != [] {
      var ws := Words(line)[1..];
      AllParse(ws);
      forall w <- ws ensures ParseConstraint(w).Some? <==> exists n: nat | n < |w| :: ConstraintAt(w, n) {
        ConstraintIff(w);
      }
      assert forall m | 0 <= m < |ws| :: ws[m] in ws;
    }
  }

  lemma {:induction false} AllParse(ws: seq<string>)
    ensures ParseAll(ws).Some? <==> forall m | 0 <= m < |ws| :: ParseConstraint(ws[m]).Some?
    ensures ParseAll(ws).Some? ==>
      |ParseAll(ws).value| == |ws| && forall m | 0 <= m < |ws| :: ParseConstraint(ws[m]) == Some(ParseAll(ws).value[m])
  {
    if ws != [] {
      AllParse(ws[1..]);
      assert forall m | 0 < m < |ws| :: ws[m] == ws[1..][m - 1];
      assert forall m | 0 <= m < |ws| - 1 :: ws[1..][m] == ws[m + 1];
    }
  }

  // ---- The intents file -----------------------------------------------------------------------

  /** What is written: one printed intent per line. */
  function FileText(intents: seq<Intent>): string {
    if intents == [] then "" else Print(intents[0]) + ['\n'] + FileText(intents[1..])
  }

  /** The lines that are not blank, parsed. */
  function ParseLines(lines: seq<string>): Option<seq<Intent>> {
    if lines == [] then Some([])
    else if Words(lines[0]) == [] then ParseLines(lines[1..])
    else
      match (Parse(lines[0]), ParseLines(lines[1..]))
      case (Some(i), Some(rest)) => Some([i] + rest)
      case _ => None
  }

  /** What is loaded at a start. */
  function Load(text: string): Option<seq<Intent>> {
    match ParseLines(Strings.Split(text, '\n'))
    case None => None
    case Some(read) => Some(Order(read))
  }

  lemma {:induction false} JoinKeeps(ws: seq<string>, c: char)
    requires |ws| > 0 && c != ' ' && forall w <- ws :: c !in w
    ensures c !in Strings.Join(ws, ' ')
  {
    assert ws[0] in ws;
    if |ws| > 1 { JoinKeeps(ws[1..], c); }
  }

  lemma PrintHasNoNewline(i: Intent)
    requires WellFormed(i)
    ensures '\n' !in Print(i)
  {
    PrintedParses(i.cons);
    JoinKeeps([i.tool] + Printed(i.cons), '\n');
  }

  lemma {:induction false} FileParses(intents: seq<Intent>)
    requires forall i <- intents :: WellFormed(i)
    ensures ParseLines(Strings.Split(FileText(intents), '\n')) == Some(intents)
  {
    if intents == [] {
      assert Strings.Split("", '\n') == [""];
      assert [""][1..] == [];
    } else {
      var i := intents[0];
      assert i in intents;
      FileParses(intents[1..]);
      PrintHasNoNewline(i);
      PrintThenParse(i);
      Strings.SplitAt(Print(i), FileText(intents[1..]), '\n');
      Strings.SplitPlain(Print(i), '\n');
      var rest := Strings.Split(FileText(intents[1..]), '\n');
      assert ([Print(i)] + rest)[1..] == rest;
      assert intents == [i] + intents[1..];
    }
  }

  /** Writing the in-memory list and starting again gives exactly that list back, in its order. */
  lemma LoadingWhatWasWritten(intents: seq<Intent>)
    requires (forall i <- intents :: WellFormed(i)) && Ordered(intents)
    ensures Load(FileText(intents)) == Some(intents)
  {
    FileParses(intents);
    OrderSorts(intents);
  }

  /** That is so at any point of any run that began with files that could be read, and in which
      whoever else wrote the intents file wrote what could be read: what a restart would load is
      exactly what the broker has. */
  lemma RunsCanReload(sha: string -> string, b: Books.Book, es: seq<Books.Event>, b': Books.Book)
    requires Books.Fresh(b) && Books.Run(sha, b, es, b')
    requires (forall i <- b.intents :: WellFormed(i)) && (forall i <- b.file :: WellFormed(i))
    requires (forall r <- b.reserved :: WellFormed(b.reserved[r])) && Ordered(b.intents)
    requires forall e <- es :: e.Edit? ==> forall i <- e.file :: WellFormed(i)
    ensures Load(FileText(b'.intents)) == Some(b'.intents)
    ensures Load(FileText(b'.file)) == Some(Order(b'.file))
    ensures forall r <- b'.reserved :: Parse(Print(b'.reserved[r])) == Some(b'.reserved[r])
  {
    IntentRuns.RunWithin(sha, b, es, b', WellFormed);
    IntentRuns.RunInOrder(sha, b, es, b');
    LoadingWhatWasWritten(b'.intents);
    FileParses(b'.file);
    forall r <- b'.reserved ensures Parse(Print(b'.reserved[r])) == Some(b'.reserved[r]) {
      PrintThenParse(b'.reserved[r]);
    }
  }

  // ---- The revocations file ---------------------------------------------------------------------

  /** One line that is not blank. */
  function ParseRevocation(line: string): Line {
    var ws := Words(line);
    if |ws| == 2 && ws[1] == "*" then Tool(ws[0])
    else
      match Parse(line)
      case Some(i) => Exactly(i)
      case None => Unreadable
  }

  /** Any intent the broker can hold is revoked, alone, by the line it prints as; and a tool
      followed by a star revokes that tool's intents. */
  lemma RevocationLines(i: Intent)
    requires WellFormed(i)
    ensures ParseRevocation(Print(i)) == Exactly(i)
    ensures ParseRevocation(Strings.Join([i.tool, "*"], ' ')) == Tool(i.tool)
  {
    PrintedParses(i.cons);
    WordsOfJoined([i.tool] + Printed(i.cons));
    PrintThenParse(i);
    if |i.cons| == 1 {
      assert Printed(i.cons)[0] == PrintConstraint(i.cons[0]);
      assert i.cons[0] in i.cons;
      assert |i.cons[0].0| > 0 && |i.cons[0].1| > 0 && |PrintConstraint(i.cons[0])| >= 3;
    }
    WordsOfJoined([i.tool, "*"]);
  }

  /** A star line is exactly two words; with more words after the star it revokes everything. */
  lemma StarLines(line: string, tool: string)
    ensures ParseRevocation(line) == Tool(tool) <==> Words(line) == [tool, "*"]
    ensures |Words(line)| > 2 && Words(line)[1] == "*" ==> ParseRevocation(line) == Unreadable
  {
    var ws := Words(line);
    if |ws| > 2 && ws[1] == "*" {
      AllParse(ws[1..]);
      assert ws[1..][0] == "*";
    }
  }
}
