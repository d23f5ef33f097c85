/** What the broker remembers: the log, the idempotency keys, the available and the reserved
    intents, in memory and on disk. Decision through reservation is one step, as it runs under
    the lock; execution, outcome, settlement and key update are later, separate steps. */
module Bookkeeping {
  import opened Attest
  import opened Files
  import opened Effects
  import opened Record
  import opened Intents

  /** What closed a request: its outcome's effect, or its reconciliation's verdict. */
  datatype Closing = ByEffect(effect: Effect) | ByVerdict(verdict: Verdict)

  datatype Phase = Applied | NotApplied | InDoubt

  datatype KeyState = KeyState(rid: Rid, hash: string, phase: Phase, closing: Option<Closing>)

  /** A request under way: executing, or with its outcome recorded and still to be settled. */
  datatype Flight =
    | Executing(job: Option<Job>, key: Option<string>)
    | Concluded(key: Option<string>, effect: Effect, verdict: Verdict)

  /** Durable: `log`, `file`, `reservedFile`, `revocations`. The rest is lost in a crash.
      `written` is what the broker believes the intents file holds; `spent` and `revoked`
      account for the intents that have left the books. */
  datatype Book = Book(
    log: seq<Entry>, gated: bool, up: bool,
    keys: map<string, KeyState>, flight: map<Rid, Flight>,
    intents: seq<Intent>, reserved: map<Rid, Intent>, frozen: bool, written: seq<Intent>,
    file: seq<Intent>, reservedFile: map<Rid, Intent>, revocations: seq<Line>,
    spent: multiset<Intent>, revoked: multiset<Intent>)

  // ---- Reading the log -----------------------------------------------------------------------

  function ClosingIn(e: Entry): Option<Closing> {
    match e
    case Outcome(_, _, effect, _) => Some(ByEffect(effect))
    case Reconciled(_, _, v) => if v.Some? then Some(ByVerdict(v.value)) else None
    case _ => None
  }

  /** The last word on a request. */
  function ClosingOf(log: seq<Entry>, rid: Rid): Option<Closing> {
    if log == [] then None
    else if Closes(log[|log| - 1], rid) then ClosingIn(log[|log| - 1])
    else ClosingOf(log[..|log| - 1], rid)
  }

  function PhaseOf(c: Option<Closing>): Phase {
    if c in {Some(ByEffect(Succeeded)), Some(ByVerdict(ConfirmedSuccess))} then Applied
    else if c in {Some(ByEffect(Failed)), Some(ByVerdict(ConfirmedFailure))} then NotApplied
    else InDoubt
  }

  function EffectVerdict(e: Effect): Verdict {
    match e
    case Succeeded => ConfirmedSuccess
    case Failed => ConfirmedFailure
    case Unknown => Unresolved
  }

  /** The verdict the live broker settles by. */
  function LiveVerdict(job: Option<Job>, effect: Effect, observed: Verdict): Verdict {
    if job.Some? then observed else EffectVerdict(effect)
  }

  function VerdictOfEntry(e: Entry): Verdict {
    match e
    case Outcome(_, _, effect, v) => if v.Some? then v.value else EffectVerdict(effect)
    case Reconciled(_, _, v) => if v.Some? then v.value else Unresolved
    case _ => Unresolved
  }

  /** The verdict a restart settles by: the latest recorded for the request. */
  function StartupVerdict(log: seq<Entry>, rid: Rid): Verdict {
    if log == [] then Unresolved
    else if Closes(log[|log| - 1], rid) then VerdictOfEntry(log[|log| - 1])
    else StartupVerdict(log[..|log| - 1], rid)
  }

  // ---- Under the lock ---------------------------------------------------------------------------

  function Persisted(b: Book): Book {
    b.(file := b.intents, written := b.intents, reservedFile := b.reserved)
  }

  /** Drop what the revocations file revokes. */
  function Purged(b: Book): Book {
    var left := Unrevoked(b.intents, b.revocations);
    b.(intents := left, revoked := b.revoked + (multiset(b.intents) - multiset(left)))
  }

  /** Before every decision on intents: freeze if someone else wrote the file, and apply the
      revocations. The second component says that the decision is refused. */
  function Refresh(b: Book): (Book, bool) {
    if b.frozen || b.file != b.written then (b.(frozen := true), true)
    else if Unrevoked(b.intents, b.revocations) == b.intents then (b, false)
    else (Persisted(Purged(b)), false)
  }

  /** A proposal as it reaches the lock. `hash` is none if it is malformed; `premises` are the
      intents whose premises hold at this moment; `sourceOk` is the check on a rename's source. */
  datatype Query = Query(rid: Rid, key: Option<string>, hash: Option<string>, tool: string,
                         args: seq<(string, string)>, job: Option<Job>, sourceOk: bool,
                         kernelAdmits: bool, premises: set<Intent>)

  predicate Usable(sha: string -> string, q: Query, i: Intent) {
    Fits(sha, i, q.tool, q.args) && i in q.premises
  }

  datatype Decision = Decision(book: Book, matched: Option<Intent>, admit: bool)

  function Decide(sha: string -> string, b: Book, q: Query): Decision {
    if q.hash.None? then Decision(b, None, false)
    else if !b.gated then Decision(b, None, q.kernelAdmits)
    else
      var (b', refused) := Refresh(b);
      if refused then Decision(b', None, false)
      else
        var m := FirstUsable(b'.intents, i => Usable(sha, q, i));
        Decision(b', m, m.Some? && q.kernelAdmits)
  }

  datatype Reply =
    | Rejected | OtherInvocation | AlreadyApplied(original: Rid) | EarlierFailed | StillInDoubt
    | Admitted(intent: Option<Intent>)

  function Duplicate(prior: KeyState, hash: Option<string>): Reply {
    if hash != Some(prior.hash) then OtherInvocation
    else
      match prior.phase
      case Applied => AlreadyApplied(prior.rid)
      case NotApplied => EarlierFailed
      case InDoubt => StillInDoubt
  }

  function Noting(b: Book, rid: Rid): Book {
    b.(log := b.log + [Note(Some(rid))])
  }

  function Recorded(b: Book, q: Query): Book
    requires q.hash.Some?
  {
    b.(log := b.log + [Prepared(q.rid, q.job, q.key, q.hash.value)])
  }

  predicate Admits(sha: string -> string, b: Book, q: Query) {
    var d := Decide(sha, b, q);
    && !(q.key.Some? && q.key.value in d.book.keys)
    && d.admit && (q.job.Some? && q.job.value.Rename? ==> q.sourceOk)
  }

  /** The request is on record, under way, and its key taken. */
  function Underway(b: Book, q: Query): Book
    requires q.hash.Some?
  {
    Recorded(b, q).(
      flight := b.flight[q.rid := Executing(q.job, q.key)],
      keys := if q.key.None? then b.keys
              else b.keys[q.key.value := KeyState(q.rid, q.hash.value, InDoubt, None)])
  }

  function Reserving(b: Book, rid: Rid, used: Intent): Book
    requires used in b.intents
  {
    b.(intents := RemoveFirst(b.intents, used), reserved := b.reserved[rid := used])
  }

  function Admit(sha: string -> string, b: Book, q: Query): (Book, Reply) {
    var d := Decide(sha, b, q);
    if q.key.Some? && q.key.value in d.book.keys then
      (Noting(d.book, q.rid), Duplicate(d.book.keys[q.key.value], q.hash))
    else if !Admits(sha, b, q) then (Noting(d.book, q.rid), Rejected)
    else
      var b' := Underway(d.book, q);
      if d.matched.None? then (b', Admitted(None))
      else (Persisted(Reserving(b', q.rid, d.matched.value)), Admitted(d.matched))
  }

  // ---- After the lock ----------------------------------------------------------------------------

  function RecordOutcome(b: Book, rid: Rid, effect: Effect, observed: Verdict): Book
    requires rid in b.flight && b.flight[rid].Executing?
  {
    var f := b.flight[rid];
    b.(log := b.log + [Outcome(rid, f.job, effect, if f.job.Some? then Some(observed) else None)],
       flight := b.flight[rid := Concluded(f.key, effect, LiveVerdict(f.job, effect, observed))])
  }

  /** A confirmed success spends the reserved intent, a confirmed failure returns it. */
  function Settle(b: Book, rid: Rid, v: Verdict): Book {
    if rid !in b.reserved then b
    else
      var used := b.reserved[rid];
      var b' := Noting(b, rid);
      match v
      case ConfirmedSuccess =>
        Persisted(b'.(reserved := b.reserved - {rid}, spent := b.spent + multiset{used}))
      case ConfirmedFailure =>
        Persisted(b'.(reserved := b.reserved - {rid}, intents := Order(b.intents + [used])))
      case Unresolved => b'
  }

  function CloseKey(b: Book, rid: Rid): Book
    requires rid in b.flight && b.flight[rid].Concluded?
  {
    var f := b.flight[rid];
    var b' := b.(flight := b.flight - {rid});
    if f.key.None? || f.key.value !in b.keys then b'
    else
      var c := Some(ByEffect(f.effect));
      b'.(keys := b.keys[f.key.value := b.keys[f.key.value].(phase := PhaseOf(c), closing := c)])
  }

  // ---- Crash and restart ----------------------------------------------------------------------------

  function Crashed(b: Book): Book {
    b.(up := false, keys := map[], flight := map[], intents := [], reserved := map[], frozen := false, written := [])
  }

  /** The records reconciliation appends for the first `n` entries: one per prepared request
      without an outcome, with the verdict the observation gives. */
  function Missing(log: seq<Entry>, seen: map<Rid, Verdict>, n: nat): seq<Entry>
    requires n <= |log|
  {
    if n == 0 then []
    else
      var e := log[n - 1];
      if e.Prepared? && !IsClosed(log, e.rid) then
        Missing(log, seen, n - 1)
          + [Reconciled(e.rid, e.job, Some(if e.job.Some? && e.rid in seen then seen[e.rid] else Unresolved))]
      else Missing(log, seen, n - 1)
  }

  function ReconciledLog(log: seq<Entry>, seen: map<Rid, Verdict>): seq<Entry> {
    log + Missing(log, seen, |log|)
  }

  function KeyFor(log: seq<Entry>, rid: Rid, hash: string): KeyState {
    KeyState(rid, hash, PhaseOf(ClosingOf(log, rid)), ClosingOf(log, rid))
  }

  /** The key table read off the first `n` entries of a log. */
  function KeysFrom(log: seq<Entry>, n: nat): map<string, KeyState>
    requires n <= |log|
  {
    if n == 0 then map[]
    else
      var e := log[n - 1];
      if e.Prepared? && e.key.Some? then KeysFrom(log, n - 1)[e.key.value := KeyFor(log, e.rid, e.hash)]
      else KeysFrom(log, n - 1)
  }

  /** Load the files, reconcile, rebuild the keys. */
  function Started(b: Book, seen: map<Rid, Verdict>): Book {
    var log' := ReconciledLog(b.log, seen);
    b.(log := log', up := true, keys := KeysFrom(log', |log'|), flight := map[],
       intents := Order(b.file), reserved := b.reservedFile, frozen := false, written := b.file)
  }

  // ---- Events -----------------------------------------------------------------------------------------

  datatype Event =
    | Ask(q: Query)                                        // the whole locked section
    | Cut(q: Query)                                        // a crash inside it, before any record
    | Torn(q: Query)                                       // a crash inside it, after the prepared record
    | Record(rid: Rid, effect: Effect, observed: Verdict)
    | SettleLive(rid: Rid)
    | SettleAtStart(rid: Rid)
    | Close(rid: Rid)
    | Remark(about: Option<Rid>)                           // any other record, such as that of a
                                                           // settlement a crash then cuts short
    | Revoke(line: Line)                                   // the principal appends a line
    | Edit(file: seq<Intent>)                              // someone else writes the intents file
    | Crash
    | HalfReconcile(seen: map<Rid, Verdict>, n: nat)       // a restart that crashes again
    | Start(seen: map<Rid, Verdict>)

  predicate Enabled(sha: string -> string, b: Book, e: Event) {
    match e
    case Ask(q) => b.up && q.rid !in Logged(b.log)
    case Cut(_) => b.up
    case Torn(q) => b.up && q.rid !in Logged(b.log) && Admits(sha, b, q)
    case Record(rid, _, _) => b.up && rid in b.flight && b.flight[rid].Executing?
    case SettleLive(rid) => b.up && rid in b.flight && b.flight[rid].Concluded?
    case SettleAtStart(rid) => b.up && rid !in b.flight
    case Close(rid) => b.up && rid in b.flight && b.flight[rid].Concluded?
    case Remark(_) => b.up
    case Revoke(_) => true
    case Edit(_) => true
    case Crash => b.up
    case HalfReconcile(seen, n) => !b.up && n <= |Missing(b.log, seen, |b.log|)|
    case Start(_) => !b.up
  }

  function Next(sha: string -> string, b: Book, e: Event): Book
    requires Enabled(sha, b, e)
  {
    match e
    case Ask(q) => Admit(sha, b, q).0
    case Cut(q) => Crashed(Decide(sha, b, q).book)
    case Torn(q) => Crashed(Recorded(Decide(sha, b, q).book, q))
    case Record(rid, effect, observed) => RecordOutcome(b, rid, effect, observed)
    case SettleLive(rid) => Settle(b, rid, b.flight[rid].verdict)
    case SettleAtStart(rid) => Settle(b, rid, StartupVerdict(b.log, rid))
    case Close(rid) => CloseKey(b, rid)
    case Remark(about) => b.(log := b.log + [Note(about)])
    case Revoke(line) => b.(revocations := b.revocations + [line])
    case Edit(file) => b.(file := file)
    case Crash => Crashed(b)
    case HalfReconcile(seen, n) => b.(log := b.log + Missing(b.log, seen, |b.log|)[..n])
    case Start(seen) => Started(b, seen)
  }

  /** A broker on an empty log, with the principal's intents file and nothing reserved. */
  predicate Fresh(b: Book) {
    && b.log == [] && !b.up && b.reservedFile == map[] && b.flight == map[]
    && b.spent == multiset{} && b.revoked == multiset{}
  }

  /** The broker is down afterwards. */
  predicate Dies(e: Event) {
    e.Crash? || e.Cut? || e.Torn?
  }

  ghost predicate Follows(sha: string -> string, b: Book, e: Event, b': Book) {
    Enabled(sha, b, e) && b' == Next(sha, b, e)
  }

  ghost predicate Run(sha: string -> string, b: Book, es: seq<Event>, b': Book) {
    if es == [] then b' == b
    else
      var front, e := es[..|es| - 1], es[|es| - 1];
      exists t :: Run(sha, b, front, t) && Follows(sha, t, e, b')
  }
}
