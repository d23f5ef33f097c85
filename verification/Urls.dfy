/** URLs: the normal form the broker insists on, and the normalisation of section 6.2.2 of
    RFC 3986, which it makes unnecessary. */
module Urls {
  import opened Attest
  import Strings

  // ---- Characters --------------------------------------------------------------------------

  predicate Digit(c: char) { '0' <= c <= '9' }
  predicate Lower(c: char) { 'a' <= c <= 'z' }
  predicate Upper(c: char) { 'A' <= c <= 'Z' }
  predicate HexDigit(c: char) { Digit(c) || 'a' <= c <= 'f' || 'A' <= c <= 'F' }

  predicate Unreserved(c: char) {
    Digit(c) || Lower(c) || Upper(c) || c in "-._~"
  }

  predicate PathChar(c: char) {
    Unreserved(c) || c in "!$&'()*+,;=:@/"
  }

  predicate QueryChar(c: char) {
    PathChar(c) || c == '?'
  }

  function UpperOf(c: char): char {
    if Lower(c) then (c as int - 32) as char else c
  }

  function LowerOf(c: char): char {
    if Upper(c) then (c as int + 32) as char else c
  }

  function HexValue(c: char): (v: nat)
    requires HexDigit(c)
    ensures v < 16
  {
    if Digit(c) then c as int - 48 else if c <= 'F' then c as int - 55 else c as int - 87
  }

  /** The string starts with a percent sign and two hexadecimal digits. */
  predicate Triplet(s: string) {
    |s| >= 3 && s[0] == '%' && HexDigit(s[1]) && HexDigit(s[2])
  }

  function Decoded(s: string): char
    requires Triplet(s)
  {
    (16 * HexValue(s[1]) + HexValue(s[2])) as char
  }

  // ---- The broker's normal form --------------------------------------------------------------

  /** Every character is allowed, or starts an upper-case triplet. */
  predicate Chars(s: string, ok: char -> bool) {
    if s == "" then true
    else if ok(s[0]) then Chars(s[1..], ok)
    else Triplet(s) && !Lower(s[1]) && !Lower(s[2]) && Chars(s[3..], ok)
  }

  /** No triplet is lower-case, or encodes what need not or must not be encoded. */
  predicate PctOk(s: string) {
    if s == "" then true
    else if Triplet(s) then
      && s[1] == UpperOf(s[1]) && s[2] == UpperOf(s[2])
      && !Unreserved(Decoded(s)) && Decoded(s) !in "/\\."
      && PctOk(s[3..])
    else PctOk(s[1..])
  }

  /** The position of the first of the given characters. */
  function Find(s: string, stops: set<char>): (n: nat)
    ensures n <= |s| && (forall i | 0 <= i < n :: s[i] !in stops) && (n < |s| ==> s[n] in stops)
  {
    if s == "" || s[0] in stops then 0 else 1 + Find(s[1..], stops)
  }

  const SCHEME := "https://"

  /** What follows the scheme, taken apart. */
  function Authority(rest: string): string { rest[..Find(rest, {'/', '?'})] }
  function AfterAuthority(rest: string): string { rest[Find(rest, {'/', '?'})..] }
  function PathOf(rest: string): string {
    var t := AfterAuthority(rest);
    t[..Find(t, {'?'})]
  }
  function QueryOf(rest: string): string {
    var t := AfterAuthority(rest);
    var n := Find(t, {'?'});
    if n == |t| then "" else t[n + 1..]
  }
  function Host(authority: string): string { authority[..Find(authority, {':'})] }
  function PortOf(authority: string): string {
    var n := Find(authority, {':'});
    if n == |authority| then "" else authority[n + 1..]
  }

  predicate AllDigits(s: string) {
    s != "" && forall c <- s :: Digit(c)
  }

  function Number(s: string): nat
    requires forall c <- s :: Digit(c)
  {
    if s == "" then 0
    else
      assert s[|s| - 1] in s && Digit(s[|s| - 1]);
      assert forall c <- s[..|s| - 1] :: c in s;
      10 * Number(s[..|s| - 1]) + (s[|s| - 1] as int - 48)
  }

  predicate PortOk(port: string) {
    port != "" ==> AllDigits(port) && port[0] != '0' && Number(port) != 443 && 0 < Number(port) < 65536
  }

  predicate LabelChar(c: char) { Digit(c) || Lower(c) }

  predicate Label(s: string) {
    && 0 < |s| <= 63 && LabelChar(s[0]) && LabelChar(s[|s| - 1])
    && forall c <- s :: LabelChar(c) || c == '-'
  }

  /** A decimal number up to 255 without leading zeros. */
  predicate Octet(s: string) {
    AllDigits(s) && |s| <= 3 && (|s| > 1 ==> s[0] != '0') && Number(s) <= 255
  }

  predicate Ipv4(host: string) {
    var parts := Strings.Split(host, '.');
    |parts| == 4 && forall p <- parts :: Octet(p)
  }

  predicate NumericPart(s: string) {
    AllDigits(s) || (|s| > 2 && s[..2] == "0x" && forall c <- s[2..] :: Digit(c) || 'a' <= c <= 'f')
  }

  predicate HostOk(host: string) {
    var parts := Strings.Split(host, '.');
    Ipv4(host) || (
      && !(forall p <- parts :: NumericPart(p)) && !AllDigits(parts[|parts| - 1])
      && parts[|parts| - 1] != "" && |host| <= 253 && (|parts| > 1 || host == "localhost")
      && forall p <- parts :: Label(p))
  }

  predicate NoDots(path: string) {
    forall seg <- Strings.Split(path, '/') :: seg != "." && seg != ".."
  }

  predicate NoDoubleSlash(s: string) {
    forall i | 0 < i < |s| :: !(s[i - 1] == '/' && s[i] == '/')
  }

  predicate NormalUrl(url: string) {
    && 0 < |url| <= 2048 && (forall c <- url :: '!' <= c <= '~' && c != '\\' && c != '#')
    && SCHEME <= url
    && var rest := url[|SCHEME|..];
       var authority, path, query := Authority(rest), PathOf(rest), QueryOf(rest);
    && !(exists c <- authority :: c in "@[]")
    && Host(authority) != "" && (forall c <- Host(authority) :: c == LowerOf(c))
    && PortOk(PortOf(authority)) && HostOk(Host(authority))
    && path != "" && path[0] == '/' && NoDoubleSlash(path) && NoDots(path)
    && Chars(path, PathChar) && PctOk(path)
    && ('?' in url ==> query != "")
    && Chars(query, QueryChar) && PctOk(query)
  }

  // ---- Section 6.2.2 of RFC 3986 ---------------------------------------------------------------

  /** Case and percent-encoding normalisation: digits of triplets in upper case, unreserved
      characters decoded. */
  function PctNormal(s: string): string {
    if s == "" then ""
    else if Triplet(s) then
      (if Unreserved(Decoded(s)) then [Decoded(s)] else ['%', UpperOf(s[1]), UpperOf(s[2])]) + PctNormal(s[3..])
    else [s[0]] + PctNormal(s[1..])
  }

  function Lowered(s: string): string {
    if s == "" then "" else [LowerOf(s[0])] + Lowered(s[1..])
  }

  /** The last segment of the output buffer, with its slash, is dropped. */
  function DropLast(output: string): string {
    if output == "" then ""
    else if output[|output| - 1] == '/' then output[..|output| - 1]
    else DropLast(output[..|output| - 1])
  }

  /** The first segment of the input buffer: an initial slash, if any, up to the next one. */
  function Segment(input: string): (n: nat)
    requires input != ""
    ensures 0 < n <= |input|
  {
    1 + Find(input[1..], {'/'})
  }

  /** Section 5.2.4: remove_dot_segments, on the input and the output buffer. */
  function RemoveDots(input: string, output: string): string
    decreases |input|
  {
    if input == "" then output
    else if "../" <= input then RemoveDots(input[3..], output)
    else if "./" <= input then RemoveDots(input[2..], output)
    else if "/./" <= input then RemoveDots(input[2..], output)
    else if input == "/." then RemoveDots("/", output)
    else if "/../" <= input then RemoveDots(input[3..], DropLast(output))
    else if input == "/.." then RemoveDots("/", DropLast(output))
    else if input == "." || input == ".." then output
    else RemoveDots(input[Segment(input)..], output + input[..Segment(input)])
  }

  /** Syntax-based normalisation of a URL with this scheme: the scheme and the host in lower
      case, triplets normalised, dot segments removed. */
  function Normalise(url: string): string
    requires SCHEME <= url
  {
    SCHEME + NormalRest(url[|SCHEME|..])
  }

  function NormalRest(rest: string): string {
    NormalAuthority(Authority(rest)) + RemoveDots(PctNormal(PathOf(rest)), "") + NormalTail(rest)
  }

  function NormalAuthority(authority: string): string {
    PctNormal(Lowered(Host(authority))) + authority[|Host(authority)|..]
  }

  function NormalTail(rest: string): string {
    var t := AfterAuthority(rest);
    if Find(t, {'?'}) == |t| then "" else ['?'] + PctNormal(QueryOf(rest))
  }

  lemma {:induction false} PctOkIsNormal(s: string)
    requires PctOk(s)
    ensures PctNormal(s) == s
  {
    if s != "" {
      if Triplet(s) {
        PctOkIsNormal(s[3..]);
        assert s == [s[0], s[1], s[2]] + s[3..];
      } else {
        PctOkIsNormal(s[1..]);
        assert s == [s[0]] + s[1..];
      }
    }
  }

  lemma {:induction false} NoPercent(s: string)
    requires '%' !in s
    ensures PctNormal(s) == s
  {
    if s != "" {
      NoPercent(s[1..]);
      assert s[0] in s && s == [s[0]] + s[1..];
    }
  }

  lemma {:induction false} LowerAlready(s: string)
    requires forall c <- s :: c == LowerOf(c)
    ensures Lowered(s) == s
  {
    if s != "" {
      LowerAlready(s[1..]);
      assert s[0] in s && s == [s[0]] + s[1..];
    }
  }

  /** The two characters after the first slash do not begin a dot segment. */
  predicate PlainStart(input: string) {
    && input != "" && input[0] == '/'
    && (|input| >= 2 && input[1] == '.' ==>
          |input| >= 3 && input[2] != '/' && (input[2] == '.' ==> |input| >= 4 && input[3] != '/'))
  }

  lemma PlainSegment(input: string, seg: string, rest: string)
    requires input == ['/'] + seg + rest && '/' !in seg && (rest == "" || rest[0] == '/')
    requires seg != "." && seg != ".."
    ensures PlainStart(input)
  {
    if |seg| == 0 {
      assert input == ['/'] + rest;
    } else if |seg| == 1 {
      assert seg == [seg[0]];
    } else if |seg| == 2 {
      assert seg == [seg[0], seg[1]];
      assert input[2] == seg[1] && seg[1] in seg;
    } else {
      assert input[2] == seg[1] && seg[1] in seg;
      assert input[3] == seg[2] && seg[2] in seg;
    }
  }

  /** Then no rule but the last applies. */
  lemma KeepsSegment(input: string, output: string)
    requires PlainStart(input)
    ensures RemoveDots(input, output) == RemoveDots(input[Segment(input)..], output + input[..Segment(input)])
  {
    assert !("../" <= input) && !("./" <= input);
    assert !("/./" <= input) && input != "/.";
    assert !("/../" <= input) && input != "/..";
  }

  /** A path none of whose segments is a dot segment passes through unchanged. */
  lemma {:induction false} NothingToRemove(input: string, output: string)
    requires input == "" || (input[0] == '/' && NoDots(input[1..]))
    ensures RemoveDots(input, output) == output + input
    decreases |input|
  {
    if input == "" {
      assert output + input == output;
    } else {
      var n := Segment(input);
      FirstSegment(input);
      PlainSegment(input, input[1..n], input[n..]);
      KeepsSegment(input, output);
      NothingToRemove(input[n..], output + input[..n]);
      Cut(input, n);
      Regroup(output, input[..n], input[n..]);
    }
  }

  /** What stands between the first two slashes is a segment, and what follows has no others. */
  lemma FirstSegment(input: string)
    requires input != "" && input[0] == '/' && NoDots(input[1..])
    ensures var n := Segment(input);
            && input == ['/'] + input[1..n] + input[n..] && '/' !in input[1..n]
            && input[1..n] != "." && input[1..n] != ".."
            && (input[n..] == "" || (input[n] == '/' && NoDots(input[n + 1..])))
  {
    var n := Segment(input);
    var seg := input[1..n];
    assert '/' !in seg;
    Strings.SplitPlain(seg, '/');
    if n == |input| {
      assert input[1..] == seg && seg in [seg];
    } else {
      var below := input[n + 1..];
      assert input[1..] == seg + ['/'] + below;
      Strings.SplitAt(seg, below, '/');
      assert seg in [seg] + Strings.Split(below, '/');
      forall x <- Strings.Split(below, '/') ensures x != "." && x != ".." {
        assert x in [seg] + Strings.Split(below, '/');
      }
    }
  }

  lemma BelowRoot(path: string)
    requires path != "" && path[0] == '/' && NoDots(path)
    ensures NoDots(path[1..])
  {
    assert path == "" + ['/'] + path[1..];
    Strings.SplitAt("", path[1..], '/');
    forall x <- Strings.Split(path[1..], '/') ensures x != "." && x != ".." {
      assert x in Strings.Split("", '/') + Strings.Split(path[1..], '/');
    }
  }

  lemma AuthorityIsNormal(authority: string)
    requires HostOk(Host(authority)) && forall c <- Host(authority) :: c == LowerOf(c)
    ensures NormalAuthority(authority) == authority
  {
    var host := Host(authority);
    LowerAlready(host);
    HostHasNoPercent(host);
    NoPercent(host);
    assert host + authority[|host|..] == authority;
  }

  lemma PathIsNormal(path: string)
    requires path != "" && path[0] == '/' && NoDots(path) && PctOk(path)
    ensures RemoveDots(PctNormal(path), "") == path
  {
    PctOkIsNormal(path);
    BelowRoot(path);
    NothingToRemove(path, "");
    assert "" + path == path;
  }

  lemma Cut(s: string, n: nat)
    requires n <= |s|
    ensures s == s[..n] + s[n..]
  {}

  lemma CutAt(s: string, n: nat, c: char)
    requires n < |s| && s[n] == c
    ensures s == s[..n] + ([c] + s[n + 1..])
  {}

  lemma Regroup(a: string, b: string, c: string)
    ensures a + b + c == a + (b + c)
  {}

  /** Authority, path and query make up the rest. */
  lemma PutTogether(rest: string)
    ensures var t := AfterAuthority(rest);
            rest == Authority(rest) + PathOf(rest) + if Find(t, {'?'}) == |t| then "" else ['?'] + QueryOf(rest)
  {
    var t := AfterAuthority(rest);
    var n := Find(t, {'?'});
    Cut(rest, Find(rest, {'/', '?'}));
    if n == |t| {
      Cut(t, n);
      Regroup(Authority(rest), PathOf(rest), "");
    } else {
      CutAt(t, n, '?');
      Regroup(Authority(rest), PathOf(rest), ['?'] + QueryOf(rest));
    }
  }

  /** On every accepted URL the normalisation of section 6.2.2 changes nothing. */
  lemma AcceptedIsNormal(url: string)
    requires NormalUrl(url)
    ensures Normalise(url) == url
  {
    var rest := url[|SCHEME|..];
    AuthorityIsNormal(Authority(rest));
    PathIsNormal(PathOf(rest));
    PctOkIsNormal(QueryOf(rest));
    PutTogether(rest);
    assert NormalRest(rest) == rest;
    assert url == url[..|SCHEME|] + rest;
  }

  /** Two accepted URLs that the normalisation identifies are the same string. */
  lemma EquivalentAcceptedAreEqual(a: string, b: string)
    requires NormalUrl(a) && NormalUrl(b) && Normalise(a) == Normalise(b)
    ensures a == b
  {
    AcceptedIsNormal(a);
    AcceptedIsNormal(b);
  }

  lemma HostHasNoPercent(host: string)
    requires HostOk(host)
    ensures '%' !in host
  {
    var parts := Strings.Split(host, '.');
    forall p <- parts ensures '%' !in p {}
    Strings.JoinSplit(host, '.');
    JoinHasNone(parts, '.', '%');
  }

  lemma {:induction false} JoinHasNone(parts: seq<string>, sep: char, c: char)
    requires |parts| > 0 && c != sep && forall p <- parts :: c !in p
    ensures c !in Strings.Join(parts, sep)
  {
    assert parts[0] in parts;
    if |parts| > 1 { JoinHasNone(parts[1..], sep, c); }
  }

  // ---- What is accepted -----------------------------------------------------------------------------

  lemma {:induction false} DecimalReads(n: nat)
    ensures AllDigits(Decimal(n)) && Number(Decimal(n)) == n
    ensures n > 0 ==> Decimal(n)[0] != '0'
    ensures n == 0 ==> Decimal(n) == "0"
    ensures n < 1000 ==> |Decimal(n)| <= 3
  {
    var s := Decimal(n);
    var last := [('0' as int + n % 10) as char];
    if n < 10 {
      assert s == last && s[..0] == "";
    } else {
      DecimalReads(n / 10);
      var front := Decimal(n / 10);
      assert s == front + last && s[..|s| - 1] == front && s[|s| - 1] == last[0];
      assert s[0] == front[0];
      if n < 1000 { DecimalIsShort(n / 10); }
    }
  }

  lemma DecimalIsShort(n: nat)
    requires n < 100
    ensures |Decimal(n)| <= 2
  {
    if n >= 10 { assert n / 10 < 10; }
  }

  /** Digits without a leading zero are the decimal of the number they read as. */
  lemma {:induction false} ReadsDecimal(s: string)
    requires AllDigits(s) && (|s| > 1 ==> s[0] != '0')
    ensures Decimal(Number(s)) == s
  {
    var front, c := s[..|s| - 1], s[|s| - 1];
    LastDigit(s, front, c);
    if front == "" {
      assert s == [c];
    } else {
      ReadsDecimal(front);
      PositiveNumber(front);
      OneMoreDigit(Number(front), c);
    }
  }

  lemma LastDigit(s: string, front: string, c: char)
    requires AllDigits(s) && front == s[..|s| - 1] && c == s[|s| - 1]
    ensures s == front + [c] && Digit(c) && forall x <- front :: Digit(x)
    ensures Number(s) == 10 * Number(front) + (c as int - 48)
    ensures front != "" ==> front[0] == s[0]
  {
    assert c in s && forall x <- front :: x in s;
  }

  lemma OneMoreDigit(n: nat, c: char)
    requires n > 0 && Digit(c)
    ensures Decimal(10 * n + (c as int - 48)) == Decimal(n) + [c]
  {
    var m := 10 * n + (c as int - 48);
    assert m / 10 == n && m % 10 == c as int - 48;
  }

  lemma {:induction false} PositiveNumber(s: string)
    requires AllDigits(s) && s[0] != '0'
    ensures Number(s) > 0
  {
    var front, c := s[..|s| - 1], s[|s| - 1];
    assert c in s && s[0] in s;
    if front != "" {
      assert front[0] == s[0] && forall x <- front :: x in s;
      PositiveNumber(front);
    }
  }

  /** A port is left out, or is the decimal of one there is, other than the scheme's own. */
  lemma PortIff(port: string)
    ensures PortOk(port) <==> port == "" || exists n: nat :: 0 < n < 65536 && n != 443 && port == Decimal(n)
  {
    if port != "" && PortOk(port) {
      ReadsDecimal(port);
      assert port == Decimal(Number(port));
    }
    if n: nat :| 0 < n < 65536 && n != 443 && port == Decimal(n) { DecimalReads(n); }
  }

  ghost predicate ByteInDecimal(s: string) {
    exists n: nat :: n <= 255 && s == Decimal(n)
  }

  lemma OctetIff(s: string)
    ensures Octet(s) <==> ByteInDecimal(s)
  {
    if Octet(s) {
      ReadsDecimal(s);
      assert s == Decimal(Number(s));
    }
    if n: nat :| n <= 255 && s == Decimal(n) { DecimalReads(n); }
  }

  /** A host that reads as numbers, or ends in one, is four octets in their one decimal spelling. */
  lemma NumericHostsAreCanonical(host: string, parts: seq<string>)
    requires HostOk(host) && parts == Strings.Split(host, '.')
    requires AllDigits(parts[|parts| - 1]) || forall p <- parts :: NumericPart(p)
    ensures |parts| == 4 && forall p <- parts :: ByteInDecimal(p)
  {
    assert Ipv4(host);
    forall p <- parts ensures ByteInDecimal(p) { OctetIff(p); }
  }

  /** If a triplet starts here, it is in upper case and stands for nothing that needs no encoding, and
      for no slash, backslash or dot. */
  predicate FineAt(s: string, i: nat)
    requires i < |s|
  {
    var t := s[i..];
    Triplet(t) ==>
      && !Lower(t[1]) && !Lower(t[2])
      && !Unreserved(Decoded(t)) && Decoded(t) != '/' && Decoded(t) != '\\' && Decoded(t) != '.'
  }

  lemma FineShift(s: string, n: nat, i: nat)
    requires n + i < |s|
    ensures FineAt(s[n..], i) == FineAt(s, n + i)
  {
    assert s[n..][i..] == s[n + i..];
  }

  lemma {:induction false} PctOkIff(s: string)
    ensures PctOk(s) <==> forall i: nat | i < |s| :: FineAt(s, i)
  {
    if s != "" {
      var n := if Triplet(s) then 3 else 1;
      PctOkIff(s[n..]);
      assert s[0..] == s;
      forall i: nat | i < |s| - n ensures FineAt(s[n..], i) == FineAt(s, n + i) { FineShift(s, n, i); }
      forall i: nat | 0 < i < n ensures FineAt(s, i) { assert s[i..][0] == s[i]; }
      if PctOk(s) {
        forall i: nat | i < |s| ensures FineAt(s, i) {
          if i >= n { assert FineAt(s[n..], i - n); }
        }
      }
      if forall i: nat | i < |s| :: FineAt(s, i) {
        assert FineAt(s, 0);
        forall i: nat | i < |s[n..]| ensures FineAt(s[n..], i) { assert FineAt(s, n + i); }
      }
    }
  }

  /** The segments of an accepted path go down: none but the last is empty, none is a dot or two. */
  lemma SegmentsGoDown(url: string, segs: seq<string>, n: nat)
    requires NormalUrl(url) && segs == Strings.Split(PathOf(url[|SCHEME|..]), '/') && 0 < n < |segs|
    ensures segs[n] !in {".", ".."} && (segs[n] == "" ==> n == |segs| - 1)
  {
    assert segs[n] in segs;
    if n < |segs| - 1 { NoneEmpty(PathOf(url[|SCHEME|..]), n); }
  }

  lemma {:induction false} NoneEmpty(s: string, n: nat)
    requires NoDoubleSlash(s) && 0 < n < |Strings.Split(s, '/')| - 1
    ensures Strings.Split(s, '/')[n] != ""
  {
    var t := s[1..];
    assert forall i | 0 < i < |t| :: t[i - 1] == s[i] && t[i] == s[i + 1];
    var rest := Strings.Split(t, '/');
    if s[0] != '/' {
      NoneEmpty(t, n);
    } else if n > 1 {
      NoneEmpty(t, n - 1);
    } else {
      assert t[0] == s[1];
    }
  }

  // ---- Prefixes and credentials -------------------------------------------------------------------

  lemma {:induction false} FindInPrefix(a: string, b: string, stops: set<char>)
    requires a <= b && Find(a, stops) < |a|
    ensures Find(b, stops) == Find(a, stops)
  {
    if a[0] !in stops {
      assert a[1..] <= b[1..];
      FindInPrefix(a[1..], b[1..], stops);
    }
  }

  /** An accepted URL that starts with an accepted prefix has the prefix's authority. */
  lemma PrefixFixesAuthority(prefix: string, url: string)
    requires NormalUrl(prefix) && NormalUrl(url) && prefix <= url
    ensures Authority(url[|SCHEME|..]) == Authority(prefix[|SCHEME|..])
  {
    var a, b := prefix[|SCHEME|..], url[|SCHEME|..];
    assert a <= b;
    assert PathOf(a) != "";
    FindInPrefix(a, b, {'/', '?'});
  }

  datatype Credential = Credential(prefix: string, header: string)

  /** Entry `n` matches, nothing that matches is longer, and nothing before it is as long. */
  predicate FirstLongest(credentials: seq<Credential>, url: string, n: nat) {
    && n < |credentials| && credentials[n].prefix <= url
    && forall m | 0 <= m < |credentials| && credentials[m].prefix <= url ::
         |credentials[m].prefix| <= |credentials[n].prefix| &&
         (m < n ==> |credentials[m].prefix| < |credentials[n].prefix|)
  }

  /** The credential for the longest matching prefix, the first of them if there are several. */
  method CredentialFor(url: string, credentials: seq<Credential>) returns (best: Option<Credential>)
    ensures best.None? <==> forall c <- credentials :: !(c.prefix <= url)
    ensures best.Some? ==> exists n: nat :: FirstLongest(credentials, url, n) && credentials[n] == best.value
  {
    best := None;
    ghost var at: nat := 0;
    for n := 0 to |credentials|
      invariant best.None? <==> forall m | 0 <= m < n :: !(credentials[m].prefix <= url)
      invariant best.Some? ==> FirstLongest(credentials[..n], url, at) && credentials[at] == best.value
    {
      var c := credentials[n];
      if c.prefix <= url && (best.None? || |c.prefix| > |best.value.prefix|) {
        best := Some(c);
        at := n;
      }
    }
    assert credentials[..|credentials|] == credentials;
  }

  /** So a credential configured for accepted prefixes is only ever sent to the authority its
      prefix names. */
  lemma CredentialStaysWithItsAuthority(url: string, c: Credential)
    requires NormalUrl(url) && NormalUrl(c.prefix) && c.prefix <= url
    ensures Host(Authority(url[|SCHEME|..])) == Host(Authority(c.prefix[|SCHEME|..]))
    ensures PortOf(Authority(url[|SCHEME|..])) == PortOf(Authority(c.prefix[|SCHEME|..]))
  {
    PrefixFixesAuthority(c.prefix, url);
  }
}
