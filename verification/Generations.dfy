/**
 * The billing state on disk while it is backed up: a writer adds generations, commits each by
 * replacing the anchor, and prunes old ones; a reader captures a committed generation meanwhile.
 */
module Generations {
  import opened Options
  import opened Decimals

  /** What a file holds. A file's bytes and what they parse to determine each other. */
  datatype Content =
    | Snapshot(version: int, sequence: int, ledger: nat)
    | Anchor(version: int, sequence: int, generation: string, checksum: Checksum)
    | Manifest(version: int, id: string, snapshotFile: string, snapshotSha: Checksum, anchorFile: string,
      anchorSha: Checksum, status: string)
    | Sidecar(digest: Checksum, name: string)
    | Other(bytes: nat)

  /** SHA-256 as an injective function; 64 hexadecimal digits that are no known digest; any other text. */
  datatype Checksum = Sha256(of: Content) | Hex(n: nat) | Text(text: string)

  predicate ValidSequence(n: int) { 0 < n < 0x1_0000_0000_0000_0000 }

  predicate ValidChecksum(c: Checksum) { !c.Text? }

  function GenerationName(n: int): string {
    "billing_state.json.gen_" + if n >= 0 then NatText(n) else "-" + NatText(-n)
  }

  lemma GenerationNameInjective(m: nat, n: nat)
    ensures GenerationName(m) == GenerationName(n) ==> m == n
  {
    assert GenerationName(m)[23..] == NatText(m) && GenerationName(n)[23..] == NatText(n);
    if NatText(m) == NatText(n) { NatTextInjective(m, n); }
  }

  // ---- The writer --------------------------------------------------------------------------

  datatype Committed = Committed(sequence: int, payload: Content)

  /** `log`: every generation ever committed, in order. */
  datatype Data = Data(anchor: Option<Content>, files: map<string, Content>, log: seq<Committed>)

  datatype Step = Write(sequence: int, ledger: nat) | Commit(sequence: int) | Prune(sequence: int)

  function AnchorOf(c: Committed): Content { Anchor(2, c.sequence, GenerationName(c.sequence), Sha256(c.payload)) }

  function Current(d: Data): int { if d.log == [] then 0 else d.log[|d.log| - 1].sequence }

  /**
   * One step: write a generation newer than the committed one (again, if a commit did not follow),
   * commit one that is written, or remove one older than the committed one and its predecessor.
   */
  function Act(d: Data, step: Step): Data {
    match step
    case Write(n, ledger) =>
      if ValidSequence(n) && n > Current(d) then d.(files := d.files[GenerationName(n) := Snapshot(2, n, ledger)])
        else d
    case Commit(n) =>
      if ValidSequence(n) && n > Current(d) && GenerationName(n) in d.files then
        var c := Committed(n, d.files[GenerationName(n)]);
        d.(anchor := Some(AnchorOf(c)), log := d.log + [c])
      else d
    case Prune(n) =>
      if 0 <= n < Current(d) - 1 then d.(files := d.files - {GenerationName(n)}) else d
  }

  function Run(d: Data, steps: seq<Step>): Data
    decreases |steps|
  {
    if steps == [] then d else Run(Act(d, steps[0]), steps[1..])
  }

  predicate IsSnapshotOf(c: Content, n: int) { c.Snapshot? && c.version == 2 && c.sequence == n }

  ghost predicate Written(files: map<string, Content>) {
    forall n: nat | GenerationName(n) in files :: IsSnapshotOf(files[GenerationName(n)], n)
  }

  predicate Ordered(log: seq<Committed>) {
    && (forall i | 0 <= i < |log| :: ValidSequence(log[i].sequence) && IsSnapshotOf(log[i].payload, log[i].sequence))
    && forall i, j | 0 <= i < j < |log| :: log[i].sequence < log[j].sequence
  }

  /** The anchor is the last commit's, and the generation it names is there, whole. */
  ghost predicate Sound(d: Data) {
    && Ordered(d.log) && Written(d.files)
    && (if d.log == [] then d.anchor == None
        else var last := d.log[|d.log| - 1];
             d.anchor == Some(AnchorOf(last)) && GenerationName(last.sequence) in d.files
               && d.files[GenerationName(last.sequence)] == last.payload)
  }

  /** The newest generation committed: 0 while there is none. */
  lemma CurrentIsNewest(log: seq<Committed>, d: Data)
    requires d.log == log && Ordered(log)
    ensures log == [] ==> Current(d) == 0
    ensures forall c | c in log :: c.sequence <= Current(d)
    ensures log != [] ==> exists c | c in log :: c.sequence == Current(d)
  {
    if log != [] { assert log[|log| - 1] in log; }
  }

  /** One of the numbers of 64 bits, without a sign, and not 0. */
  predicate IsNumber(n: int) { n >= 1 && n <= 18446744073709551615 }

  /** Newer than every generation committed. */
  predicate IsNewer(n: int, log: seq<Committed>) { n > 0 && forall c | c in log :: c.sequence < n }

  /** Neither the newest committed nor its predecessor nor anything newer. */
  predicate IsPast(n: int, log: seq<Committed>) { n >= 0 && exists c | c in log :: n < c.sequence - 1 }

  /** What one step does to the directory. */
  ghost predicate IsStep(d: Data, step: Step, after: Data) {
    match step
    case Write(n, ledger) =>
      && after.anchor == d.anchor && after.log == d.log
      && (if IsNumber(n) && IsNewer(n, d.log) then
            after.files == d.files[GenerationName(n) := Snapshot(2, n, ledger)]
          else after.files == d.files)
    case Commit(n) =>
      if IsNumber(n) && IsNewer(n, d.log) && GenerationName(n) in d.files then
        var payload := d.files[GenerationName(n)];
        && after.files == d.files && after.log == d.log + [Committed(n, payload)]
        && after.anchor == Some(Anchor(2, n, GenerationName(n), Sha256(payload)))
      else after == d
    case Prune(n) =>
      && after.anchor == d.anchor && after.log == d.log
      && (GenerationName(n) in after.files <==> GenerationName(n) in d.files && !IsPast(n, d.log))
      && forall name | name != GenerationName(n) ::
           (name in after.files <==> name in d.files) && (name in d.files ==> after.files[name] == d.files[name])
  }

  /**
   * A step writes or commits exactly a generation newer than every committed one, and removes
   * exactly one older than the newest but one number.
   */
  lemma ActExactly(d: Data, step: Step)
    requires Ordered(d.log)
    ensures IsStep(d, step, Act(d, step))
  {
    CurrentIsNewest(d.log, d);
    if d.log != [] { assert d.log[|d.log| - 1] in d.log; }
  }

  lemma ActSound(d: Data, step: Step)
    requires Sound(d)
    ensures Sound(Act(d, step)) && d.log <= Act(d, step).log
  {
    match step
    case Write(n, ledger) => if ValidSequence(n) && n > Current(d) { WriteSound(d, n, ledger); }
    case Commit(n) =>
    case Prune(n) => if 0 <= n < Current(d) - 1 { PruneSound(d, n); }
  }

  lemma WriteSound(d: Data, n: nat, ledger: nat)
    requires Sound(d) && n > Current(d)
    ensures Sound(d.(files := d.files[GenerationName(n) := Snapshot(2, n, ledger)]))
  {
    var files := d.files[GenerationName(n) := Snapshot(2, n, ledger)];
    forall m: nat | GenerationName(m) in files ensures IsSnapshotOf(files[GenerationName(m)], m) {
      GenerationNameInjective(m, n);
    }
    if d.log != [] { GenerationNameInjective(Current(d), n); }
  }

  lemma PruneSound(d: Data, n: nat)
    requires Sound(d) && n < Current(d)
    ensures Sound(d.(files := d.files - {GenerationName(n)}))
  {
    GenerationNameInjective(Current(d), n);
  }

  lemma {:induction false} RunSound(d: Data, steps: seq<Step>)
    requires Sound(d)
    ensures Sound(Run(d, steps)) && d.log <= Run(d, steps).log
    decreases |steps|
  {
    if steps != [] {
      ActSound(d, steps[0]);
      RunSound(Act(d, steps[0]), steps[1..]);
    }
  }

  /** While nothing is committed, the committed generation stays as it is. */
  lemma SteadyGeneration(d: Data, later: Data)
    requires Sound(d) && Sound(later) && d.log == later.log && d.log != []
    ensures var name := GenerationName(Current(d));
            name in later.files && later.files[name] == d.log[|d.log| - 1].payload
  {
  }

  // ---- The reader --------------------------------------------------------------------------

  datatype Reason = InvalidAnchor | NotItsAnchors | NotTheSynchronized
  datatype Capture = Captured(payload: Content, anchor: Content, generation: string) | Refused(reason: Reason) | Again

  /** What a synchronization confirmed to be on disk. */
  datatype Synced = Synced(sequence: int, checksum: Checksum)

  predicate ValidAnchor(a: Content) {
    a.Anchor? && a.version == 2 && ValidSequence(a.sequence) && a.generation == GenerationName(a.sequence)
      && ValidChecksum(a.checksum)
  }

  /**
   * One attempt: the anchor is read in the first state, its generation in the second, the anchor again in the third.
   */
  function Attempt(first: Data, second: Data, third: Data, synced: Synced): Capture {
    if first.anchor.None? then Again
    else
      var a := first.anchor.value;
      if !ValidAnchor(a) then Refused(InvalidAnchor)
      else if a.generation !in second.files || third.anchor != first.anchor then Again
      else
        var payload := second.files[a.generation];
        if a.checksum != Sha256(payload) || !payload.Snapshot? || !ValidSequence(payload.sequence)
           || payload.sequence != a.sequence || payload.version != a.version then Refused(NotItsAnchors)
        else if a.sequence < synced.sequence || (a.sequence == synced.sequence && Sha256(payload) != synced.checksum)
          then Refused(NotTheSynchronized)
        else Captured(payload, a, a.generation)
  }

  /** The synchronized state was committed by then. */
  predicate WasSynced(log: seq<Committed>, synced: Synced) {
    exists i :: 0 <= i < |log| && log[i].sequence == synced.sequence && Sha256(log[i].payload) == synced.checksum
  }

  /** Among the committed ones is one of that number and that digest. */
  lemma WasSyncedExactly(log: seq<Committed>, synced: Synced)
    ensures WasSynced(log, synced) <==>
              exists c | c in log :: c.sequence == synced.sequence && Sha256(c.payload) == synced.checksum
  {
    forall c | c in log && c.sequence == synced.sequence && Sha256(c.payload) == synced.checksum
      ensures WasSynced(log, synced)
    {
      var i :| 0 <= i < |log| && log[i] == c;
    }
    if WasSynced(log, synced) {
      var i :| 0 <= i < |log| && log[i].sequence == synced.sequence && Sha256(log[i].payload) == synced.checksum;
      assert log[i] in log;
    }
  }

  /** An attempt that is not to be made again has captured the generation committed at its start. */
  lemma AttemptCaptures(first: Data, second: Data, third: Data, synced: Synced)
    requires Sound(first) && Sound(second) && Sound(third) && first.log <= second.log <= third.log
    ensures var r := Attempt(first, second, third, synced);
            match r
            case Again => first.log == [] || |third.log| > |first.log|
            case Refused(why) => why == NotTheSynchronized && !WasSynced(first.log, synced)
            case Captured(payload, anchor, generation) =>
              first.log != [] && var c := first.log[|first.log| - 1];
              r == Captured(c.payload, AnchorOf(c), GenerationName(c.sequence)) && c.sequence >= synced.sequence
  {
    if first.log != [] && first.anchor == third.anchor {
      var n := |first.log|;
      assert third.log[n - 1] == first.log[n - 1];
      assert third.log == first.log && second.log == first.log;
      SteadyGeneration(first, second);
    }
  }

  predicate IsCaptured(c: Committed, synced: Synced, r: Capture) {
    c.sequence >= synced.sequence && r == Captured(c.payload, AnchorOf(c), GenerationName(c.sequence))
  }

  /** What is captured was the committed generation at index `from` of the log or later. */
  predicate CapturedSince(log: seq<Committed>, from: int, synced: Synced, r: Capture) {
    exists i :: 0 <= i < |log| && from <= i && IsCaptured(log[i], synced, r)
  }

  lemma StaysSynced(log: seq<Committed>, longer: seq<Committed>, synced: Synced)
    requires log <= longer && WasSynced(log, synced)
    ensures WasSynced(longer, synced)
  {
    var i :| 0 <= i < |log| && log[i].sequence == synced.sequence && Sha256(log[i].payload) == synced.checksum;
    assert longer[i] == log[i];
  }

  /** One attempt, among the writer's steps. */
  method TryCapture(d: Data, schedule: nat -> seq<Step>, k: nat, synced: Synced) returns (r: Capture, end: Data)
    requires Sound(d)
    ensures Sound(end) && d.log <= end.log
    ensures r.Again? ==> d.log == [] || |end.log| > |d.log|
    ensures r.Refused? ==> r.reason == NotTheSynchronized && !WasSynced(d.log, synced)
    ensures r.Captured? ==> CapturedSince(end.log, |d.log| - 1, synced, r)
  {
    RunSound(d, schedule(k));
    var first := Run(d, schedule(k));
    RunSound(first, schedule(k + 1));
    var second := Run(first, schedule(k + 1));
    RunSound(second, schedule(k + 2));
    end := Run(second, schedule(k + 2));
    r := Attempt(first, second, end, synced);
    AttemptCaptures(first, second, end, synced);
    if WasSynced(d.log, synced) { StaysSynced(d.log, first.log, synced); }
    if first.log != [] { assert end.log[|first.log| - 1] == first.log[|first.log| - 1]; }
  }

  /**
   * For every schedule of the writer's steps between the reads. A captured generation was the
   * committed one when its attempt began, not older than the synchronized one; nothing is refused
   * when the synchronized one was committed; and the reader gives up only if the writer committed
   * during every attempt.
   */
  method CaptureGeneration(d: Data, schedule: nat -> seq<Step>, synced: Synced, attempts: nat)
    returns (r: Capture, end: Data)
    requires Sound(d)
    ensures Sound(end) && d.log <= end.log
    ensures r.Refused? ==> r.reason == NotTheSynchronized && !WasSynced(d.log, synced)
    ensures r.Again? ==> d.log == [] || |end.log| >= |d.log| + attempts
    ensures r.Captured? ==> CapturedSince(end.log, |d.log| - 1, synced, r)
  {
    end := d;
    for attempt := 0 to attempts
      invariant Sound(end) && d.log <= end.log
      invariant d.log == [] || |end.log| >= |d.log| + attempt
    {
      if WasSynced(d.log, synced) { StaysSynced(d.log, end.log, synced); }
      r, end := TryCapture(end, schedule, 3 * attempt, synced);
      if !r.Again? { return; }
    }
    r := Again;
  }
}
