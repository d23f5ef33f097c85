/** The governed directory tree, one slot per name. The digest of a file stands for its
    content, so two files have the same content exactly when their digests are equal. */
module Files {
  import opened Attest

  type Path = string

  /** Lower-case hexadecimal in the program; that it has no bar is all that matters here. */
  type Digest = s: string | '|' !in s witness ""
  type Rid = s: string | '|' !in s witness ""

  /** A regular file with its attestation attribute, a directory, or a symbolic link that
      does or does not resolve. */
  datatype Node = Reg(digest: Digest, att: Option<Att>) | Dir | Link(live: bool)

  type World = map<Path, Node>

  /** What an observation of a name reports. */
  datatype State = Absent | Present(digest: Digest) | Unavailable

  function Observe(w: World, p: Path): State {
    if p !in w then Absent
    else if w[p].Reg? then Present(w[p].digest)
    else Unavailable
  }

  function AttAt(w: World, p: Path): Option<Att> {
    if p in w && w[p].Reg? then w[p].att else None
  }

  /** What the name holds. */
  function At(w: World, p: Path): Option<Node> {
    if p in w then Some(w[p]) else None
  }

  // ---- The atomic primitives ------------------------------------------------------

  function Move(w: World, from: Path, to: Path): World
    requires from in w && to !in w
  {
    (w - {from})[to := w[from]]
  }

  function Exchange(w: World, a: Path, b: Path): World
    requires a in w && b in w
  {
    w[a := w[b]][b := w[a]]
  }

  /** Opening without following links. */
  predicate Opens(w: World, p: Path) {
    p in w && !w[p].Link?
  }

  function SetAtt(w: World, p: Path, att: Option<Att>): World
    requires Opens(w, p)
  {
    if w[p].Reg? then w[p := Reg(w[p].digest, att)] else w
  }

  function Put(w: World, p: Path, node: Option<Node>): World {
    match node
    case None => w - {p}
    case Some(n) => w[p := n]
  }

  predicate HasDigest(w: World, p: Path, d: Digest) {
    p in w && w[p].Reg? && w[p].digest == d
  }
}
