/**
 * What a release promotion acts on: the production machine, each single remote command's
 * effect on it, and what must hold of it at every instant. Writes reach the ledger whenever a
 * gateway runs, between any two commands.
 */
module ReleaseWorld {
  import opened Options

  /** A release directory, an image digest and an environment file's text, by identity. */
  type Release = int
  type Image = int
  type Text = int
  type Digest = int

  /** One write to the ledger: the gateway image that made it, and whether a customer sent it. */
  datatype Write = Write(image: Image, ingress: bool, body: int)
  type Ledger = seq<Write>

  /** `loaded`: the ledger sequence the gateway said it restored when it started. */
  datatype Gateway = Gateway(image: Image, running: bool, loaded: Option<nat>)
  datatype Ingress = Ingress(release: Release, running: bool)
  datatype Environment = Environment(gateway: Text, caddy: Text)
  datatype Status =
    | Staging | Stopping | BackedUp | Exposing | Deployed
    | NeedsAttention | RolledBack | RestartedPrevious | RollbackFailed

  /** Of the live configuration, of the candidate's files, and of the staged migration's. */
  datatype Digests = Digests(configuration: Digest, candidate: Digest, migration: Digest)

  /**
   * `recorded`: the digests at staging. `sequenceOf`: the sequence a ledger's anchor names, none for
   * a machine with no ledger.
   */
  datatype Job = Job(candidate: Release, previous: Release, candidateId: Image, previousId: Image, recorded: Digests,
                     migrating: bool, staged: Environment, sequenceOf: Ledger -> Option<nat>)

  /**
   * `current`, and the temporary link it is renamed from. `misled` is history, not state: a link
   * was once made inside a leftover one.
   */
  datatype Links = Links(current: Release, leftover: Option<Release>, misled: bool)

  /** The live data, the copy being restored, the copy of the stopped data and its mark, the candidate's data. */
  datatype Disk = Disk(live: Option<Ledger>, restore: Option<Ledger>, backup: Option<Ledger>, complete: bool,
                       failed: Option<Ledger>)

  /**
   * Production. `record` is the status last saved on the server. `accepted` is history, not state:
   * every write a customer ever sent.
   */
  datatype World = World(
    gateway: Gateway, ingress: Ingress,
    links: Links, disk: Disk, backupDir: bool,
    etc: Environment, etcCopy: Option<Environment>,
    record: Status,
    accepted: Ledger)

  /** One command of a remote script. Copies name what actually arrived: only a diff proves more. */
  datatype Op =
    | StopIngress | StopGateway
    | MakeBackup | CopyEtc(seen: Environment)
    | CopyData(arrived: Ledger) | TouchComplete | RemoveBackupData
    | UpGateway(image: Image, loaded: Option<nat>) | UpIngress(release: Release)
    | Link(target: Release) | MoveLink
    | CopyRestore(arrived: Ledger) | MoveLiveAway | MoveRestoreIn
    | SetGatewayEnv(text: Text) | SetCaddyEnv(text: Text)
    | Save(status: Status)

  /** The command's effect and whether it exits 0; a refused command changes nothing. */
  function Apply(op: Op, w: World): (r: (World, bool)) {
    match op
    case StopIngress => (w.(ingress := w.ingress.(running := false)), true)
    case StopGateway => (w.(gateway := w.gateway.(running := false)), true)
    case MakeBackup => if w.backupDir then (w, false) else (w.(backupDir := true), true)
    case CopyEtc(seen) => (w.(etcCopy := Some(seen)), true)
    case CopyData(arrived) => if w.disk.live.None? then (w, false)
      else (w.(disk := w.disk.(backup := Some(arrived))), true)
    case TouchComplete => (w.(disk := w.disk.(complete := true)), true)
    case RemoveBackupData => (w.(disk := w.disk.(backup := None)), true)
    case UpGateway(image, loaded) => (w.(gateway := Gateway(image, true, loaded)), true)
    case UpIngress(release) => (w.(ingress := Ingress(release, true)), true)
    // `ln -s target link` over an existing link to a directory makes its link inside that
    // directory, exits 0 and leaves the existing link as it was.
    case Link(target) => if w.links.leftover.Some? then (w.(links := w.links.(misled := true)), true)
      else (w.(links := w.links.(leftover := Some(target))), true)
    case MoveLink => if w.links.leftover.None? then (w, false)
      else (w.(links := w.links.(current := w.links.leftover.value, leftover := None)), true)
    case CopyRestore(arrived) => if w.disk.backup.None? then (w, false)
      else (w.(disk := w.disk.(restore := Some(arrived))), true)
    case MoveLiveAway => if w.disk.live.None? then (w, false)
      else (w.(disk := w.disk.(failed := w.disk.live, live := None)), true)
    case MoveRestoreIn => if w.disk.restore.None? then (w, false)
      else (w.(disk := w.disk.(live := w.disk.restore, restore := None)), true)
    case SetGatewayEnv(text) => (w.(etc := w.etc.(gateway := text)), true)
    case SetCaddyEnv(text) => (w.(etc := w.etc.(caddy := text)), true)
    case Save(status) => (w.(record := status), true)
  }

  /** The command finds its target there already, or not what it is to copy or rename. */
  predicate Fails(op: Op, w: World) {
    match op
    case MakeBackup => w.backupDir
    case CopyData(_) | MoveLiveAway => w.disk.live == None
    case CopyRestore(_) => w.disk.backup == None
    case MoveRestoreIn => w.disk.restore == None
    case MoveLink => w.links.leftover == None
    case _ => false
  }

  /** Just these commands exit with an error, and they change nothing. */
  lemma FailsExactly(op: Op, w: World)
    ensures Apply(op, w).1 <==> !Fails(op, w)
    ensures Fails(op, w) ==> Apply(op, w).0 == w
  {
  }

  /** The customers' writes in a ledger, in order. */
  function IngressOf(l: Ledger): (r: Ledger) {
    if l == [] then [] else if l[0].ingress then [l[0]] + IngressOf(l[1..]) else IngressOf(l[1..])
  }

  lemma {:induction false} IngressOfAppend(a: Ledger, b: Ledger)
    ensures IngressOf(a + b) == IngressOf(a) + IngressOf(b)
  {
    if a == [] {
      assert a + b == b;
    } else {
      IngressOfAppend(a[1..], b);
      assert (a + b)[0] == a[0] && (a + b)[1..] == a[1..] + b;
      assert IngressOf(a + b) == if a[0].ingress then [a[0]] + IngressOf(a[1..] + b) else IngressOf(a[1..] + b);
    }
  }

  lemma {:induction false} NoIngress(l: Ledger)
    requires forall i | 0 <= i < |l| :: !l[i].ingress
    ensures IngressOf(l) == []
  {
    if l != [] { NoIngress(l[1..]); }
  }

  /** What a running gateway makes of the requests it gets: a customer's reach it only through ingress. */
  function Landed(w: World, requests: seq<Write>): (r: Ledger) {
    seq(|requests|, i requires 0 <= i < |requests| =>
      Write(w.gateway.image, requests[i].ingress && w.ingress.running, requests[i].body))
  }

  /** The machine after it has served these requests. */
  function Serve(w: World, requests: seq<Write>): World {
    if w.gateway.running && w.disk.live.Some? then
      var landed := Landed(w, requests);
      w.(disk := w.disk.(live := Some(w.disk.live.value + landed)), accepted := w.accepted + IngressOf(landed))
    else
      w
  }

  predicate CopiesKept(d: Disk, d': Disk) {
    d'.restore == d.restore && d'.backup == d.backup && d'.complete == d.complete && d'.failed == d.failed
  }

  /** What requests served meanwhile can have changed of the data: the live ledger grew. */
  predicate Grown(w: World, w': World) {
    && CopiesKept(w.disk, w'.disk)
    && (w.disk.live.None? ==> w'.disk.live.None?)
    && (w.disk.live.Some? ==> w'.disk.live.Some? && w.disk.live.value <= w'.disk.live.value)
    && (!w.gateway.running ==> w'.disk.live == w.disk.live)
    && (!w.ingress.running ==> w'.accepted == w.accepted)
  }

  /** Saved files and the record are as they were. */
  predicate Kept(w: World, w': World) {
    w'.backupDir == w.backupDir && w'.etc == w.etc && w'.etcCopy == w.etcCopy && w'.record == w.record
  }

  /** Requests were served meanwhile; nothing else happened. */
  predicate Served(w: World, w': World) {
    w'.gateway == w.gateway && w'.ingress == w.ingress && w'.links == w.links && Kept(w, w') && Grown(w, w')
  }

  predicate OneOf(j: Job, r: Release) { r == j.previous || r == j.candidate }

  predicate Stopped(w: World) { !w.gateway.running && !w.ingress.running }

  /** The new release is reachable by customers. */
  predicate Public(j: Job, w: World) { w.ingress == Ingress(j.candidate, true) }

  /** The running gateway is the pinned image, and said it loaded the very ledger that was backed up. */
  predicate Verified(j: Job, w: World) {
    && w.gateway.running && w.gateway.image == j.candidateId
    && w.disk.complete && w.disk.backup.Some?
    && (j.sequenceOf(w.disk.backup.value).Some? ==> w.gateway.loaded == j.sequenceOf(w.disk.backup.value))
  }

  /**
   * At every instant: the live data directory holds exactly the customers' writes ever accepted,
   * in order; or, for the moment between the two renames of a restore, everything is stopped and
   * the verified copy about to be renamed in holds them.
   */
  predicate Inv(j: Job, w: World) {
    && (w.disk.live.Some? ==> IngressOf(w.disk.live.value) == w.accepted)
    && (w.disk.live.None? ==>
         Stopped(w) && w.disk.complete && w.disk.backup.Some? && w.disk.restore == w.disk.backup
         && IngressOf(w.disk.backup.value) == w.accepted)
    && (w.disk.complete ==> w.disk.backup.Some?)
  }

  /** From one instant to the next. */
  predicate SafeStep(j: Job, w: World, w': World) {
    // The live ledger only grows, unless both containers are stopped.
    && (w'.disk.live != w.disk.live ==>
         Stopped(w)
         || (w.disk.live.Some? && w'.disk.live.Some? && w.disk.live.value <= w'.disk.live.value && w.gateway.running))
    // The mark is put only on an exact copy of the stopped data; marked, the copy is for ever.
    && (!w.disk.complete && w'.disk.complete ==> Stopped(w) && w.disk.live.Some? && w.disk.backup == w.disk.live)
    && (w.disk.complete ==> w'.disk.complete && w'.disk.backup == w.disk.backup)
    // `current` changes only to one of the two releases.
    && (w'.links.current != w.links.current ==> OneOf(j, w'.links.current))
    // The new release is linked only once verified, and becomes current only by that link: at once, or left over.
    && (w.links.leftover != Some(j.candidate) && w'.links.leftover == Some(j.candidate) ==> Verified(j, w))
    && (w.links.current != j.candidate && w'.links.current == j.candidate ==> w.links.leftover == Some(j.candidate))
    && (w.links.current != j.candidate && w'.links.current == j.candidate ==> Verified(j, w) || w.links.misled)
    // A release customers reach is never stopped, replaced or recreated as another.
    && (Public(j, w) ==> w'.ingress == w.ingress && w'.gateway == w.gateway)
    // No accepted write is ever forgotten.
    && w.accepted <= w'.accepted
    // The candidate's own data, moved away once, is kept.
    && (w.disk.failed.Some? ==> w'.disk.failed == w.disk.failed)
  }

  /** What a caller must know before it sends a command. */
  predicate Allowed(j: Job, op: Op, w: World) {
    match op
    case StopIngress | StopGateway => !Public(j, w)
    case CopyData(_) => !w.disk.complete
    case TouchComplete => Stopped(w) && w.disk.live.Some? && w.disk.backup == w.disk.live
    case RemoveBackupData => !w.disk.complete
    case UpGateway(_, _) => w.disk.live.Some? && !Public(j, w)
    case UpIngress(release) => w.disk.live.Some? && (release == j.candidate || !Public(j, w))
    case Link(target) => OneOf(j, target) && (target == j.candidate ==> Verified(j, w))
    case MoveLink =>
      && (w.links.leftover.Some? ==> OneOf(j, w.links.leftover.value))
      && (w.links.leftover == Some(j.candidate) && w.links.current != j.candidate ==> Verified(j, w) || w.links.misled)
    case CopyRestore(_) => w.disk.live.Some?
    case MoveLiveAway =>
      && Stopped(w) && w.disk.failed.None? && w.disk.complete && w.disk.backup.Some?
      && w.disk.restore == w.disk.backup && IngressOf(w.disk.backup.value) == w.accepted
    case MoveRestoreIn => w.disk.live.None?
    case _ => true
  }

  /** A command sent only when allowed keeps the invariant and is a safe step. */
  lemma OpSafe(j: Job, op: Op, w: World)
    requires Inv(j, w) && Allowed(j, op, w)
    ensures Inv(j, Apply(op, w).0) && SafeStep(j, w, Apply(op, w).0)
  {
  }

  /** Serving is safe in every state, and while ingress is down it accepts nothing. */
  lemma ServeSafe(j: Job, w: World, requests: seq<Write>)
    requires Inv(j, w)
    ensures Inv(j, Serve(w, requests)) && SafeStep(j, w, Serve(w, requests))
    ensures Served(w, Serve(w, requests))
  {
    if w.gateway.running && w.disk.live.Some? {
      var landed := Landed(w, requests);
      IngressOfAppend(w.disk.live.value, landed);
      if !w.ingress.running { NoIngress(landed); }
      assert w.disk.live.value <= w.disk.live.value + landed;
      assert w.accepted <= w.accepted + IngressOf(landed);
    }
  }

  /** Serving cannot make an allowed command unallowed. */
  lemma ServeKeepsAllowed(j: Job, op: Op, w: World, requests: seq<Write>)
    requires Allowed(j, op, w)
    ensures Allowed(j, op, Serve(w, requests))
  {
    if w.gateway.running && w.disk.live.Some? {
      var w' := Serve(w, requests);
      assert w' == w.(disk := w.disk.(live := w'.disk.live), accepted := w'.accepted) && w'.disk.live.Some?;
    }
  }

  /** Every instant of a run is safe, and so is every step. */
  ghost predicate SafeTrace(j: Job, t: seq<World>) {
    && (forall i | 0 <= i < |t| :: InvAt(j, t, i))
    && (forall i | 0 <= i < |t| - 1 :: SafeStepAt(j, t, i))
  }

  predicate InvAt(j: Job, t: seq<World>, i: nat)
    requires i < |t|
  {
    Inv(j, t[i])
  }

  predicate SafeStepAt(j: Job, t: seq<World>, i: nat)
    requires i < |t| - 1
  {
    SafeStep(j, t[i], t[i + 1])
  }

  lemma SafeTraceExtend(j: Job, t: seq<World>, w: World)
    requires SafeTrace(j, t) && Inv(j, w)
    requires t != [] ==> SafeStep(j, t[|t| - 1], w)
    ensures SafeTrace(j, t + [w])
  {
    var t' := t + [w];
    forall i | 0 <= i < |t'| ensures InvAt(j, t', i) {
      if i < |t| { assert InvAt(j, t, i); }
    }
    forall i | 0 <= i < |t'| - 1 ensures SafeStepAt(j, t', i) {
      if i < |t| - 1 { assert SafeStepAt(j, t, i); }
    }
  }

  /** A run goes on safely over requests served, and over a command sent when allowed. */
  lemma ServeExtends(j: Job, t: seq<World>, requests: seq<Write>)
    requires t != [] && SafeTrace(j, t)
    ensures SafeTrace(j, t + [Serve(t[|t| - 1], requests)]) && Served(t[|t| - 1], Serve(t[|t| - 1], requests))
  {
    assert InvAt(j, t, |t| - 1);
    ServeSafe(j, t[|t| - 1], requests);
    SafeTraceExtend(j, t, Serve(t[|t| - 1], requests));
  }

  lemma OpExtends(j: Job, t: seq<World>, op: Op)
    requires t != [] && SafeTrace(j, t) && Allowed(j, op, t[|t| - 1])
    ensures SafeTrace(j, t + [Apply(op, t[|t| - 1]).0])
  {
    assert InvAt(j, t, |t| - 1);
    OpSafe(j, op, t[|t| - 1]);
    SafeTraceExtend(j, t, Apply(op, t[|t| - 1]).0);
  }

  /** Over a whole run: once marked complete, the copy of the stopped data never changes again. */
  lemma {:induction false} BackupIsForever(j: Job, t: seq<World>, i: nat, k: nat)
    requires SafeTrace(j, t) && i <= k < |t| && t[i].disk.complete
    ensures t[k].disk.complete && t[k].disk.backup == t[i].disk.backup && t[k].disk.backup.Some?
    decreases k - i
  {
    assert InvAt(j, t, i);
    if i < k {
      assert SafeStepAt(j, t, i);
      BackupIsForever(j, t, i + 1, k);
    }
  }

  /**
   * Over a whole run: a customer's write once accepted, by either release, is in the live data
   * at every later instant, or in the verified copy being renamed in while everything is stopped.
   */
  lemma {:induction false} AcceptedIsNeverRewound(j: Job, t: seq<World>, i: nat, k: nat)
    requires SafeTrace(j, t) && i <= k < |t|
    ensures t[k].disk.live.Some? ==> t[i].accepted <= IngressOf(t[k].disk.live.value)
    ensures t[k].disk.live.None? ==>
        Stopped(t[k]) && t[k].disk.restore.Some? && t[i].accepted <= IngressOf(t[k].disk.restore.value)
    ensures t[i].accepted <= t[k].accepted
    decreases k - i
  {
    assert InvAt(j, t, k);
    if i < k {
      AcceptedIsNeverRewound(j, t, i + 1, k);
      assert SafeStepAt(j, t, i);
    }
  }

  /** Over a whole run: once customers reach the new release, it stays up and its ledger only grows. */
  lemma {:induction false} PublicIsForever(j: Job, t: seq<World>, i: nat, k: nat)
    requires SafeTrace(j, t) && i <= k < |t| && Public(j, t[i])
    ensures Public(j, t[k]) && t[k].gateway == t[i].gateway
    ensures t[i].disk.live.Some? && t[k].disk.live.Some? && t[i].disk.live.value <= t[k].disk.live.value
    decreases k - i
  {
    assert InvAt(j, t, i);
    if i < k {
      assert SafeStepAt(j, t, i);
      PublicIsForever(j, t, i + 1, k);
    }
  }

  /** Over a whole run: `current` is what it was at the start, whatever that was, or one of the two releases. */
  lemma {:induction false} CurrentIsKnown(j: Job, t: seq<World>, k: nat)
    requires SafeTrace(j, t) && k < |t|
    ensures t[k].links.current == t[0].links.current || OneOf(j, t[k].links.current)
  {
    if k > 0 {
      CurrentIsKnown(j, t, k - 1);
      assert SafeStepAt(j, t, k - 1);
    }
  }

  /** The new release is current, or a link waits to make it so. */
  predicate Linked(j: Job, w: World) {
    w.links.current == j.candidate || w.links.leftover == Some(j.candidate)
  }

  /**
   * Over a whole run: wherever the new release is current, by whichever switch, or linked to be, at some
   * earlier instant its image ran and had loaded the very ledger sequence that was backed up.
   */
  lemma {:induction false} LinkedWasVerified(j: Job, t: seq<World>, k: nat)
    requires SafeTrace(j, t) && k < |t| && !Linked(j, t[0]) && Linked(j, t[k])
    ensures exists i :: 0 <= i < k && Verified(j, t[i])
  {
    if !Linked(j, t[k - 1]) {
      assert SafeStepAt(j, t, k - 1);
    } else {
      LinkedWasVerified(j, t, k - 1);
    }
  }

  /** The two commands of a switch, the second sent only after the first. */
  function Switched(w: World, target: Release): World {
    Apply(MoveLink, Apply(Link(target), w).0).0
  }

  /** A switch puts its target in place if and only if no link was left over from an earlier one. */
  lemma SwitchExact(w: World, target: Release)
    requires w.links.leftover != Some(target)
    ensures Switched(w, target).links.current == target <==> w.links.leftover.None?
    ensures w.links.leftover.Some? ==>
        Switched(w, target).links.current == w.links.leftover.value && Switched(w, target).links.misled
  {
  }

  /**
   * A run in which it goes wrong: the switch to the new release stops between its two commands,
   * and the rollback's switch, every command exiting 0, makes the new release current.
   */
  lemma RollbackCanSwitchForward(j: Job, w: World)
    requires j.previous != j.candidate && w.links.current == j.previous && w.links.leftover.None?
    ensures var interrupted := Apply(Link(j.candidate), w).0;
            && Apply(Link(j.previous), interrupted).1 && Apply(MoveLink, Apply(Link(j.previous), interrupted).0).1
            && Switched(interrupted, j.previous).links.current == j.candidate
  {
  }
}
