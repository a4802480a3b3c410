/**
 * The promotion transaction and its recovery. Every remote command may be refused, may take
 * effect and still be reported as failed, or may never arrive; nothing takes effect after its
 * failure is reported. How each fares is a schedule's to say, any schedule at all: a contract
 * proved here holds of every run, or of every run on the schedules it names.
 */
module ReleasePromotion {
  import opened Options
  import opened ReleaseWorld

  /** How a promotion ends: refused before any change, failed, or done. */
  datatype End = Refused | Failed | Promoted
  datatype Arrival = Lost | Unconfirmed | Confirmed

  /**
   * What a run meets at its nth step: the requests served meanwhile; how a command fares; whether the
   * answer to a look arrives; whether what a run can only find out is as wanted; what arrives of
   * a copy; which image a tag starts, and what that says it loaded; how a command on the lock fares.
   */
  datatype Schedule = Schedule(
    requests: nat -> seq<Write>,
    fate: (nat, Op, World) -> Arrival,
    answers: nat -> bool,
    fine: (nat, Look) -> bool,
    copied: (nat, Ledger) -> Ledger,
    copiedFiles: (nat, Environment) -> Environment,
    tagged: (nat, Image) -> Image,
    loads: (nat, Option<nat>) -> Option<nat>,
    lock: nat -> Arrival)

  /** From this step on every answer arrives and every copy is exact; the requests are any at all. */
  ghost predicate AsWanted(s: Schedule, from: nat) {
    && (forall n | n >= from :: s.answers(n))
    && (forall n, ledger | n >= from :: s.copied(n, ledger) == ledger)
    && (forall n, files | n >= from :: s.copiedFiles(n, files) == files)
    && (forall n, image | n >= from :: s.tagged(n, image) == image)
    && (forall n, sequence | n >= from :: s.loads(n, sequence) == sequence)
    && (forall n | n >= from :: s.lock(n) == Confirmed)
  }

  /**
   * The one thing that goes wrong in a run, if any. The old gateway is found to have stopped abnormally; or
   * a command never arrives: the renaming of a switch's own link (of one left over
   * the links tell), the record that the new release is being exposed, or the copy of the stopped data.
   */
  datatype Mishap = NoMishap | AbnormalStop | OwnMove | ExposingRecord | StoppedCopy

  /** What a run can only find out: that something went well which no command of its own decides. */
  datatype Look =
    | IngressDown | GatewayDown | CleanStop | SequenceRead | Rehearsal | StagedAgain | ComposeReads
    | Healthy | Reachable | StillUp | ExtraReadiness

  predicate Loses(mishap: Mishap, op: Op, w: World) {
    match mishap
    case NoMishap | AbnormalStop => false
    case OwnMove => op.MoveLink? && !w.links.misled
    case ExposingRecord => op == Save(Exposing)
    case StoppedCopy => op.CopyData?
  }

  /** From this step on all is as wanted but for the one mishap, and every other command is done and confirmed. */
  ghost predicate CalmFrom(s: Schedule, mishap: Mishap, from: nat) {
    && AsWanted(s, from)
    && (forall n, look | n >= from :: s.fine(n, look) <==> !(mishap.AbnormalStop? && look.CleanStop?))
    && forall n, op, w | n >= from :: s.fate(n, op, w) == if Loses(mishap, op, w) then Lost else Confirmed
  }

  /** There is such a schedule whatever requests are served: no claim about them is about nothing. */
  function Undisturbed(requests: nat -> seq<Write>, mishap: Mishap): (s: Schedule)
    ensures s.requests == requests && CalmFrom(s, mishap, 0)
  {
    Schedule(requests, (n, op, w) => if Loses(mishap, op, w) then Lost else Confirmed, n => true,
             (n, look: Look) => !(mishap.AbnormalStop? && look.CleanStop?), (n, ledger) => ledger,
              (n, files) => files, (n, image) => image, (n, sequence) => sequence, n => Confirmed)
  }

  const FREE_SPACE_MARGIN := 0x4000_0000

  /**
   * What the server shows before the promotion: the build's exit code, digests, whether the build
   * recorded its image, the images the two tags name, the release the Compose file starts, and space.
   */
  datatype Survey = Survey(exit: int, found: Digests, identified: bool, tagged: Image, composed: Release,
    rollbackTagged: Image, free: int, used: int)

  /** The build succeeded, and neither production nor the candidate changed since staging. */
  predicate StagedStill(j: Job, s: Survey, w: World) {
    && s.exit == 0 && w.links.current == j.previous
    && s.found.configuration == j.recorded.configuration && s.found.candidate == j.recorded.candidate
  }

  predicate MigrationStill(j: Job, s: Survey) { j.migrating ==> s.found.migration == j.recorded.migration }

  /** Both images are the recorded ones under their tags, the previous one runs, and there is room for the copy. */
  predicate ImagesStill(j: Job, s: Survey, w: World) {
    && s.identified && s.tagged == j.candidateId && s.composed == j.candidate
    && w.gateway.image == j.previousId && s.rollbackTagged == j.previousId
    && s.free >= 2 * s.used + FREE_SPACE_MARGIN
  }

  predicate Preconditions(j: Job, s: Survey, w: World) {
    StagedStill(j, s, w) && MigrationStill(j, s) && ImagesStill(j, s, w)
  }

  /** A changed migration is a failure, for an operator to look at; every other check refuses. */
  predicate Refusable(j: Job, s: Survey, w: World) {
    !StagedStill(j, s, w) || (MigrationStill(j, s) && !ImagesStill(j, s, w))
  }

  /** A switch touches nothing but the two links. */
  predicate SwitchFrame(w: World, w': World) {
    w'.gateway == w.gateway && w'.ingress == w.ingress && Kept(w, w') && Grown(w, w')
  }

  lemma FrameChains(w: World, linked: World, w': World)
    requires SwitchFrame(w, linked) && SwitchFrame(linked, w')
    ensures SwitchFrame(w, w')
  {
  }

  /** Stopping starts nothing and touches nothing else; data grows until then. */
  predicate StopFrame(w: World, w': World) {
    && Kept(w, w') && Grown(w, w') && w'.links == w.links
    && w'.gateway == w.gateway.(running := w'.gateway.running) && (w'.gateway.running ==> w.gateway.running)
    && w'.ingress == w.ingress.(running := w'.ingress.running) && (w'.ingress.running ==> w.ingress.running)
  }

  lemma StopChains(w: World, stopping: World, w': World)
    requires StopFrame(w, stopping) && StopFrame(stopping, w')
    ensures StopFrame(w, w')
  {
  }

  /**
   * How a switch can end. From a clean start: not begun, linked only, or done; reported done, the
   * target is current. Over a leftover link: reported done, the target of that link is current.
   */
  predicate SwitchEnds(l: Links, l': Links, target: Release, ok: bool) {
    if l.leftover.None? then
      && l'.misled == l.misled
      && (l'.leftover.Some? ==> l'.leftover == Some(target) && l'.current == l.current)
      && (l'.leftover.None? ==> l'.current == l.current || l'.current == target)
      && (ok ==> l'.leftover.None? && l'.current == target)
    else
      && (ok ==> l'.leftover.None? && l'.current == l.leftover.value && l'.misled)
  }

  /** The gateway runs this image and customers reach it as this release's ingress configures. */
  predicate Serves(w: World, image: Image, release: Release) {
    w.gateway.running && w.gateway.image == image && w.ingress == Ingress(release, true) && w.disk.live.Some?
  }

  /** The release's timestamp is its own: nothing named by it exists yet. */
  predicate NewRelease(j: Job, w: World) {
    && w.links.leftover.None? && !w.links.misled && w.ingress.release != j.candidate
    && w.disk.live.Some? && w.disk.backup.None? && !w.disk.complete && w.disk.failed.None?
  }

  /** Production has only served. */
  predicate Untouched(w: World, w': World) {
    w'.gateway == w.gateway && w'.ingress == w.ingress && w'.links == w.links && Grown(w, w')
  }

  predicate OnPrevious(j: Job, w: World) {
    w.links == Links(j.previous, None, false) && w.ingress.release != j.candidate && w.disk.failed.None?
      && w.disk.live.Some?
  }

  predicate ConfigurationSaved(w: World) { w.backupDir && w.etcCopy == Some(w.etc) }

  /** The stopped data is copied and marked; customers reach nothing; a switch may have begun. */
  predicate Marked(j: Job, w: World, sequence: Option<nat>) {
    && !w.ingress.running && w.disk.live.Some? && w.disk.failed.None?
    && w.disk.complete && w.disk.backup.Some? && IngressOf(w.disk.backup.value) == w.accepted
    && sequence == j.sequenceOf(w.disk.backup.value)
    && w.etcCopy.Some? && (!j.migrating ==> w.etc == w.etcCopy.value)
    && !w.links.misled && (w.links.leftover.Some? ==> w.links.leftover == Some(j.candidate))
  }

  /** The new release is verified, current and running; ingress is down or its own. */
  predicate Launched(j: Job, w: World) {
    && Verified(j, w) && w.disk.live.Some? && w.links == Links(j.candidate, None, false)
    && (w.ingress.running ==> w.ingress.release == j.candidate)
  }

  /** What is known wherever the transaction stops, by the phase it had reached. */
  predicate Halted(j: Job, w: World, status: Status, cleanStop: bool, sequence: Option<nat>) {
    match status
    case Stopping => OnPrevious(j, w) && ConfigurationSaved(w) && (cleanStop ==> Stopped(w))
    case BackedUp => Marked(j, w, sequence)
    case Exposing => Launched(j, w)
    case Deployed => Launched(j, w) && Public(j, w)
    case _ => false
  }

  predicate DeployedState(j: Job, w: World) {
    Launched(j, w) && Serves(w, j.candidateId, j.candidate) && w.record == Deployed
  }

  /**
   * The previous release serves its own data and configuration again, and the candidate's data is
   * kept apart. It is current exactly when the forward switch had left no link behind.
   */
  predicate RolledBackState(j: Job, w: World) {
    && Serves(w, j.previousId, j.previous)
    && w.disk.complete && w.disk.backup.Some? && w.disk.backup.value <= w.disk.live.value
    && w.disk.failed.Some? && w.etcCopy == Some(w.etc)
    && w.links.current == (if w.links.misled then j.candidate else j.previous)
  }

  /** The previous release serves again and the unfinished copy is gone. */
  predicate RestartedState(j: Job, w: World) {
    && Serves(w, j.previousId, j.previous) && w.links == Links(j.previous, None, false)
    && !w.disk.complete && w.disk.backup.None? && w.disk.failed.None? && w.etcCopy == Some(w.etc)
  }

  /** Where an attempt failed: at which step, after how many failures, in what phase, and the machine then. */
  datatype Fall = Fall(step: nat, failures: nat, phase: Status, world: World)

  /** The environment files and their copy are as they were. */
  predicate SameEtc(w: World, w': World) { w'.etc == w.etc && w'.etcCopy == w.etcCopy }

  /** The environment files a release is to run with: as they are, or as a migration staged them. */
  function EtcFor(j: Job, etc: Environment): Environment { if j.migrating then j.staged else etc }

  class Promotion {
    const job: Job
    const survey: Survey
    const schedule: Schedule
    var sent: nat
    var world: World
    var status: Status
    var cleanStop: bool
    var sequence: Option<nat>
    var locked: bool
    ghost const mishap: Mishap
    ghost var trace: seq<World>
    /** How many commands did not succeed, and how many looks did not find what they were to find. */
    ghost var failures: nat

    /** From here on nothing but the one mishap disturbs the run. */
    ghost predicate Calm()
      reads this`sent
    {
      CalmFrom(schedule, mishap, sent)
    }

    /** `trace` holds every instant since the start, all of them safe; the last is now. */
    ghost predicate Valid()
      reads this`world, this`trace
    {
      job.previous != job.candidate && trace != [] && trace[|trace| - 1] == world && SafeTrace(job, trace)
    }

    constructor (job: Job, survey: Survey, schedule: Schedule, ghost mishap: Mishap, world: World, locked: bool)
      requires Inv(job, world) && job.previous != job.candidate
      ensures Valid() && this.job == job && this.survey == survey && this.schedule == schedule && this.mishap == mishap
      ensures this.world == world && trace == [world] && sent == 0 && failures == 0
      ensures status == Staging && !cleanStop && this.locked == locked
    {
      this.job, this.survey, this.schedule, this.mishap := job, survey, schedule, mishap;
      this.world, this.status, this.locked, sent := world, Staging, locked, 0;
      cleanStop, sequence, trace, failures := false, None, [world], 0;
    }

    /** A command among no requests, and its reply (if any). */
    method Run(op: Op) returns (ok: bool)
      requires Valid() && Allowed(job, op, world)
      modifies this`world, this`trace, this`sent, this`failures
      ensures Valid() && (trace == old(trace) || trace == old(trace) + [world])
      ensures world == old(world) || world == Apply(op, old(world)).0
      ensures ok ==> !Fails(op, old(world)) && world == Apply(op, old(world)).0
      ensures sent == old(sent) + 1
      ensures old(Calm()) ==> Calm()
      ensures old(Calm()) && !Loses(mishap, op, old(world)) ==>
                world == Apply(op, old(world)).0 && ok == !Fails(op, old(world))
      ensures old(Calm()) && Loses(mishap, op, old(world)) ==> world == old(world) && !ok
      ensures failures == old(failures) + if ok then 0 else 1
    {
      var arrival := schedule.fate(sent, op, world);
      sent := sent + 1;
      ok := false;
      if arrival != Lost {
        FailsExactly(op, world);
        var (w, done) := Apply(op, world);
        OpExtends(job, trace, op);
        world := w;
        trace := trace + [w];
        ok := done && arrival == Confirmed;
      }
      if !ok { failures := failures + 1; }
    }

    /** The requests served since the last command, then the command, then its reply (if any). */
    method Do(op: Op) returns (ok: bool, ghost before: World)
      requires Valid() && Allowed(job, op, world)
      modifies this`world, this`trace, this`sent, this`failures
      ensures Valid() && old(trace) <= trace
      ensures trace == old(trace) + [before] || trace == old(trace) + [before, world]
      ensures Served(old(world), before)
      ensures world == before || world == Apply(op, before).0
      ensures ok ==> !Fails(op, before) && world == Apply(op, before).0
      ensures sent == old(sent) + 1
      ensures old(Calm()) ==> Calm()
      ensures old(Calm()) && !Loses(mishap, op, before) ==>
          world == Apply(op, before).0 && ok == !Fails(op, before)
      ensures old(Calm()) && Loses(mishap, op, before) ==> world == before && !ok
      ensures failures == old(failures) + if ok then 0 else 1
    {
      var served := schedule.requests(sent);
      ServeExtends(job, trace, served);
      ServeKeepsAllowed(job, op, world, served);
      world := Serve(world, served);
      before := world;
      trace := trace + [before];
      ok := Run(op);
      assert old(trace) + [before] + [world] == old(trace) + [before, world];
    }

    /** A command that only looks; its reply may be lost too. */
    method Confirm(claim: bool) returns (ok: bool)
      modifies this`sent, this`failures
      ensures ok ==> claim
      ensures sent == old(sent) + 1
      ensures old(Calm()) ==> Calm()
      ensures old(Calm()) ==> (ok <==> claim)
      ensures failures == old(failures) + if ok then 0 else 1
    {
      ok := schedule.answers(sent) && claim;
      sent := sent + 1;
      if !ok { failures := failures + 1; }
    }

    /** At this step or later it is found so. */
    ghost predicate Found(look: Look, from: nat) { exists n | n >= from :: schedule.fine(n, look) }

    /** A look at what is claimed, and at what nothing here knows beforehand. */
    method Find(look: Look, claim: bool) returns (ok: bool)
      modifies this`sent, this`failures
      ensures ok ==> claim && schedule.fine(old(sent), look) && Found(look, old(sent))
      ensures sent == old(sent) + 1
      ensures old(Calm()) ==> Calm()
      ensures old(Calm()) ==> (ok <==> claim && !(mishap.AbnormalStop? && look.CleanStop?))
      ensures failures == old(failures) + if ok then 0 else 1
    {
      ok := Confirm(claim && schedule.fine(sent, look));
    }

    /** The gateway becomes healthy, and is the image named. */
    method WaitGateway(id: Image) returns (ok: bool)
      modifies this`sent, this`failures
      ensures ok ==> world.gateway.running && world.gateway.image == id && Found(Healthy, old(sent))
      ensures sent >= old(sent)
      ensures old(Calm()) ==> Calm()
      ensures old(Calm()) ==> (ok <==> world.gateway.running && world.gateway.image == id)
      ensures failures == old(failures) + if ok then 0 else 1
    {
      ok := Find(Healthy, world.gateway.running);
      if ok { ok := Confirm(world.gateway.image == id); }
    }

    /** Public checks pass only while the site is served. */
    method ExternalReadiness() returns (ok: bool)
      modifies this`sent, this`failures
      ensures ok ==> world.ingress.running && world.gateway.running && Found(Reachable, old(sent))
      ensures sent >= old(sent)
      ensures old(Calm()) ==> Calm()
      ensures old(Calm()) ==> (ok <==> world.ingress.running && world.gateway.running)
      ensures failures == old(failures) + if ok then 0 else 1
    {
      ok := Find(Reachable, world.ingress.running && world.gateway.running);
    }

    method VerifyLedgerLoaded() returns (ok: bool)
      modifies this`sent, this`failures
      ensures ok ==> sequence.None? || world.gateway.loaded == sequence
      ensures old(Calm()) ==> Calm()
      ensures old(Calm()) ==> (ok <==> sequence.None? || world.gateway.loaded == sequence)
      ensures failures == old(failures) + if ok then 0 else 1
    {
      ok := true;
      if sequence.Some? { ok := Confirm(world.gateway.loaded == sequence); }
    }

    method Stop(op: Op) returns (ok: bool)
      requires Valid() && !Public(job, world) && (op.StopIngress? || op.StopGateway?)
      modifies this`world, this`trace, this`sent, this`failures
      ensures Valid() && old(trace) <= trace
      ensures StopFrame(old(world), world)
      ensures ok ==> if op.StopIngress? then !world.ingress.running else !world.gateway.running
      ensures old(Calm()) ==> Calm()
      ensures old(Calm()) ==> ok
      ensures failures == old(failures) + if ok then 0 else 1
    {
      ghost var before;
      ok, before := Do(op);
    }

    method StopServices() returns (ok: bool)
      requires Valid() && !Public(job, world)
      modifies this`world, this`trace, this`sent, this`failures
      ensures Valid() && old(trace) <= trace
      ensures ok ==> Stopped(world) && Found(IngressDown, 0) && Found(GatewayDown, 0)
      ensures old(Calm()) ==> Calm()
      ensures old(Calm()) ==> ok
      ensures StopFrame(old(world), world)
      ensures failures == old(failures) + if ok then 0 else 1
    {
      ok := Stop(StopIngress);
      if ok {
        ghost var stopping := world;
        ok := Stop(StopGateway);
        StopChains(old(world), stopping, world);
      }
      if ok { ok := Find(IngressDown, !world.ingress.running); }
      if ok { ok := Find(GatewayDown, !world.gateway.running); }
    }

    method LinkTo(target: Release) returns (ok: bool)
      requires Valid() && OneOf(job, target) && (target == job.candidate ==> Verified(job, world))
      modifies this`world, this`trace, this`sent, this`failures
      ensures Valid() && old(trace) <= trace
      ensures SwitchFrame(old(world), world)
      ensures world.links == old(world).links || world.links == Apply(Link(target), old(world)).0.links
      ensures ok ==> world.links == Apply(Link(target), old(world)).0.links
      ensures old(Calm()) ==> Calm()
      ensures old(Calm()) ==> ok
      ensures failures == old(failures) + if ok then 0 else 1
    {
      ghost var before;
      ok, before := Do(Link(target));
    }

    method MoveLinkIn() returns (ok: bool)
      requires Valid() && Allowed(job, MoveLink, world) && world.links.leftover.Some?
      modifies this`world, this`trace, this`sent, this`failures
      ensures Valid() && old(trace) <= trace
      ensures SwitchFrame(old(world), world)
      ensures world.links == old(world).links || world.links == Apply(MoveLink, old(world)).0.links
      ensures ok ==> world.links == Apply(MoveLink, old(world)).0.links
      ensures old(Calm()) ==> Calm()
      ensures old(Calm()) && (!mishap.OwnMove? || old(world).links.misled) ==> ok
      ensures old(Calm()) && mishap.OwnMove? && !old(world).links.misled ==> !ok && world.links == old(world).links
      ensures failures == old(failures) + if ok then 0 else 1
    {
      ghost var before;
      ok, before := Do(MoveLink);
    }

    method SwitchCurrent(target: Release) returns (ok: bool)
      requires Valid() && OneOf(job, target)
      requires target == job.candidate ==> Verified(job, world) && world.links.leftover.None?
      requires world.links.leftover.Some? ==> world.links.leftover == Some(job.candidate)
      modifies this`world, this`trace, this`sent, this`failures
      ensures Valid() && old(trace) <= trace
      ensures SwitchFrame(old(world), world)
      ensures SwitchEnds(old(world).links, world.links, target, ok)
      ensures old(Calm()) ==> Calm()
      ensures old(Calm()) && (!mishap.OwnMove? || old(world).links.leftover.Some?) ==> ok
      ensures old(Calm()) && mishap.OwnMove? && old(world).links.leftover.None? && !old(world).links.misled ==>
          !ok && world.links.leftover == Some(target)
      ensures failures == old(failures) + if ok then 0 else 1
    {
      ok := LinkTo(target);
      if ok {
        ghost var linked := world;
        ok := MoveLinkIn();
        FrameChains(old(world), linked, world);
      }
    }

    /** One precondition: found not to hold, it refuses the promotion; with no answer nothing is known. */
    method Check(holds: bool) returns (passed: bool, refused: bool)
      modifies this`sent, this`failures
      ensures (passed ==> holds) && (refused ==> !holds)
      ensures old(Calm()) ==> Calm()
      ensures old(Calm()) ==> (passed <==> holds) && (refused <==> !holds)
      ensures failures == old(failures) + if passed || refused then 0 else 1
    {
      var answered := Confirm(true);
      passed, refused := answered && holds, answered && !holds;
    }

    method CheckStaged() returns (passed: bool, refused: bool)
      modifies this`sent, this`failures
      ensures (passed ==> StagedStill(job, survey, world)) && (refused ==> !StagedStill(job, survey, world))
      ensures old(Calm()) ==> Calm()
      ensures old(Calm()) ==> (passed <==> StagedStill(job, survey, world)) && (refused <==> !passed)
      ensures failures == old(failures) + if passed || refused then 0 else 1
    {
      passed, refused := Check(survey.exit == 0);
      if passed { passed, refused := Check(world.links.current == job.previous); }
      if passed { passed, refused := Check(survey.found.configuration == job.recorded.configuration); }
      if passed { passed, refused := Check(survey.found.candidate == job.recorded.candidate); }
    }

    method CheckImages() returns (passed: bool, refused: bool)
      modifies this`sent, this`failures
      ensures (passed ==> ImagesStill(job, survey, world)) && (refused ==> !ImagesStill(job, survey, world))
      ensures old(Calm()) ==> Calm()
      ensures old(Calm()) ==> (passed <==> ImagesStill(job, survey, world)) && (refused <==> !passed)
      ensures failures == old(failures) + if passed || refused then 0 else 1
    {
      passed, refused := Check(survey.identified);
      if passed { passed, refused := Check(survey.tagged == job.candidateId); }
      if passed { passed, refused := Check(survey.composed == job.candidate); }
      if passed { passed, refused := Check(world.gateway.image == job.previousId); }
      if passed { passed, refused := Check(survey.rollbackTagged == job.previousId); }
      if passed { passed, refused := Check(survey.free >= 2 * survey.used + FREE_SPACE_MARGIN); }
    }

    /** The checks before any change: passed, refused by a precondition, or a command failed. */
    method Preflight() returns (passed: bool, refused: bool)
      modifies this`sent, this`failures
      ensures passed ==> !refused && Preconditions(job, survey, world)
      ensures refused ==> Refusable(job, survey, world)
      ensures old(Calm()) ==> Calm()
      ensures old(Calm()) ==>
          (passed <==> Preconditions(job, survey, world)) && (refused <==> Refusable(job, survey, world))
      ensures failures == old(failures) + if passed || refused then 0 else 1
    {
      passed, refused := CheckStaged();
      if passed && job.migrating { passed := Confirm(survey.found.migration == job.recorded.migration); }
      if passed { passed, refused := CheckImages(); }
    }

    /** The environment files, copied apart from the data and compared. */
    method CopyConfiguration() returns (ok: bool)
      requires Valid()
      modifies this`world, this`trace, this`sent, this`failures
      ensures Valid() && old(trace) <= trace
      ensures Untouched(old(world), world)
      ensures world.etc == old(world).etc
      ensures ok ==> ConfigurationSaved(world)
      ensures old(Calm()) ==> Calm()
      ensures old(Calm()) ==> (ok <==> !old(world).backupDir)
      ensures failures == old(failures) + if ok then 0 else 1
    {
      ghost var before;
      ok, before := Do(MakeBackup);
      if ok { ok, before := Do(CopyEtc(schedule.copiedFiles(sent, world.etc))); }
      if ok { ok := Confirm(world.etcCopy == Some(world.etc)); }
    }

    /** Copies and marks the stopped data; the copy may arrive incomplete. */
    method CopyStoppedData() returns (ok: bool)
      requires Valid() && OnPrevious(job, world) && ConfigurationSaved(world) && Stopped(world) && !world.disk.complete
      modifies this`world, this`trace, this`sent, this`failures
      ensures Valid() && old(trace) <= trace
      ensures OnPrevious(job, world) && ConfigurationSaved(world) && Stopped(world)
      ensures SameEtc(old(world), world)
      ensures world.disk.restore == old(world).disk.restore
      ensures ok ==> world.disk.complete && world.disk.backup == world.disk.live
      ensures ok ==> Marked(job, world, job.sequenceOf(world.disk.live.value))
      ensures old(Calm()) ==> Calm()
      ensures old(Calm()) ==> if mishap.StoppedCopy? then !ok && !world.disk.complete else ok
      ensures failures == old(failures) + if ok then 0 else 1
    {
      ghost var before;
      ok, before := Do(CopyData(schedule.copied(sent, world.disk.live.value)));
      if ok { ok := Confirm(world.disk.backup == world.disk.live); }
      if ok { ok, before := Do(TouchComplete); }
      assert InvAt(job, trace, |trace| - 1);
    }

    /** Copies the stopped data and reads the sequence it names. */
    method KeepCopy() returns (ok: bool)
      requires Valid() && OnPrevious(job, world) && ConfigurationSaved(world) && Stopped(world) && !world.disk.complete
      modifies this`world, this`trace, this`sent, this`failures
      ensures Valid() && old(trace) <= trace
      ensures OnPrevious(job, world) && ConfigurationSaved(world) && Stopped(world)
      ensures SameEtc(old(world), world) && world.disk.restore == old(world).disk.restore
      ensures ok ==> Marked(job, world, job.sequenceOf(world.disk.live.value)) && Found(SequenceRead, 0)
      ensures ok ==> world.disk.live == world.disk.backup
      ensures old(Calm()) ==> Calm()
      ensures old(Calm()) ==> if mishap.StoppedCopy? then !ok && !world.disk.complete else ok
      ensures failures == old(failures) + if ok then 0 else 1
    {
      ok := CopyStoppedData();
      if ok { ok := Find(SequenceRead, true); }
    }

    /** Stops both containers and sees how the gateway stopped. */
    method StopCleanly() returns (ok: bool)
      requires Valid() && status == Stopping && OnPrevious(job, world) && ConfigurationSaved(world)
          && !world.disk.complete
      requires !cleanStop
      modifies this`world, this`trace, this`sent, this`failures, this`cleanStop
      ensures Valid() && old(trace) <= trace
      ensures OnPrevious(job, world) && ConfigurationSaved(world) && !world.disk.complete
      ensures world.disk.restore == old(world).disk.restore && SameEtc(old(world), world)
      ensures ok == cleanStop && (ok ==> Stopped(world) && Found(CleanStop, 0))
      ensures old(Calm()) ==> Calm() && Stopped(world) && (ok <==> !mishap.AbnormalStop?)
      ensures failures == old(failures) + if ok then 0 else 1
    {
      ok := StopServices();
      if ok { ok := Find(CleanStop, true); }
      cleanStop := ok;
    }

    method BackUp() returns (ok: bool)
      requires Valid() && status == Stopping && OnPrevious(job, world) && ConfigurationSaved(world)
          && !world.disk.complete
      requires !cleanStop
      modifies this`world, this`trace, this`sent, this`failures, this`status, this`cleanStop, this`sequence
      ensures Valid() && old(trace) <= trace
      ensures Halted(job, world, status, cleanStop, sequence) && status in {Stopping, BackedUp}
      ensures ok ==>
          status == BackedUp && Stopped(world) && world.links == Links(job.previous, None, false)
          && ConfigurationSaved(world)
      ensures ok ==> world.disk.live == world.disk.backup
      ensures world.disk.restore == old(world).disk.restore
      ensures SameEtc(old(world), world)
      ensures cleanStop ==> Found(CleanStop, 0)
      ensures status == BackedUp ==> cleanStop
      ensures ok ==> world.record == BackedUp && Found(SequenceRead, 0)
      ensures old(Calm()) ==> Calm()
      ensures old(Calm()) ==>
          match mishap
          case AbnormalStop => !ok && status == Stopping && !cleanStop && Stopped(world)
          case StoppedCopy => !ok && status == Stopping && cleanStop && !world.disk.complete
          case _ => ok
      ensures failures == old(failures) + if ok then 0 else 1
    {
      ok := StopCleanly();
      if !ok { return; }
      ok := KeepCopy();
      if !ok { return; }
      sequence := job.sequenceOf(world.disk.live.value);
      status := BackedUp;
      ok := SaveStatus();
    }

    /** Puts environment files in place of the live ones, one after the other. */
    method SetEnvironment(files: Environment) returns (ok: bool)
      requires Valid()
      modifies this`world, this`trace, this`sent, this`failures
      ensures Valid() && old(trace) <= trace
      ensures world.gateway == old(world).gateway && world.ingress == old(world).ingress
          && world.links == old(world).links
      ensures Grown(old(world), world) && world.etcCopy == old(world).etcCopy
      ensures ok ==> world.etc == files
      ensures old(Calm()) ==> Calm()
      ensures old(Calm()) ==> ok
      ensures failures == old(failures) + if ok then 0 else 1
    {
      ghost var before;
      ok, before := Do(SetGatewayEnv(files.gateway));
      if ok { ok, before := Do(SetCaddyEnv(files.caddy)); }
    }

    /** The staged environment files, rehearsed, put in place of the live ones and read by Compose. */
    method ApplyStaged() returns (ok: bool)
      requires Valid() && status == BackedUp && job.migrating && Marked(job, world, sequence) && Stopped(world)
      modifies this`world, this`trace, this`sent, this`failures
      ensures Valid() && old(trace) <= trace
      ensures Marked(job, world, sequence) && Stopped(world) && world.links == old(world).links
          && world.disk == old(world).disk
      ensures world.etcCopy == old(world).etcCopy
      ensures ok ==> world.etc == job.staged && Found(Rehearsal, 0) && Found(StagedAgain, 0) && Found(ComposeReads, 0)
      ensures old(Calm()) ==> Calm()
      ensures old(Calm()) ==> ok
      ensures failures == old(failures) + if ok then 0 else 1
    {
      ok := Find(Rehearsal, true);
      if ok { ok := SaveStatus(); }
      if ok { ok := Find(StagedAgain, true); }
      if ok { ok := SetEnvironment(job.staged); }
      if ok { ok := Find(ComposeReads, true); }
      if ok { ok := SaveStatus(); }
    }

    /** Starts a gateway: which image its tag names, and what it loads, is seen only afterwards. */
    method StartGateway(image: Image) returns (ok: bool)
      requires Valid() && world.disk.live.Some? && !Public(job, world)
      modifies this`world, this`trace, this`sent, this`failures
      ensures Valid() && old(trace) <= trace
      ensures world.ingress == old(world).ingress && world.links == old(world).links
      ensures Kept(old(world), world) && Grown(old(world), world)
      ensures sent == old(sent) + 1
      ensures old(Calm()) ==> Calm()
      ensures old(Calm()) ==> ok && world.gateway == Gateway(image, true, job.sequenceOf(old(world).disk.live.value))
      ensures failures == old(failures) + if ok then 0 else 1
    {
      var started, loaded := schedule.tagged(sent, image), schedule.loads(sent, job.sequenceOf(world.disk.live.value));
      ghost var before;
      ok, before := Do(UpGateway(started, loaded));
    }

    /** Starts a gateway and waits until it is healthy and the image named. */
    method BringGatewayUp(image: Image) returns (ok: bool)
      requires Valid() && world.disk.live.Some? && !Public(job, world)
      modifies this`world, this`trace, this`sent, this`failures
      ensures Valid() && old(trace) <= trace
      ensures world.ingress == old(world).ingress && world.links == old(world).links
      ensures Kept(old(world), world) && Grown(old(world), world)
      ensures ok ==> world.gateway.running && world.gateway.image == image && Found(Healthy, old(sent))
      ensures sent >= old(sent)
      ensures old(Calm()) ==> Calm()
      ensures old(Calm()) ==> ok && world.gateway == Gateway(image, true, job.sequenceOf(old(world).disk.live.value))
      ensures failures == old(failures) + if ok then 0 else 1
    {
      ok := StartGateway(image);
      if ok { ok := WaitGateway(image); }
    }

    /** The new gateway runs, is the pinned image and loaded the ledger it was given. */
    method StartCandidate() returns (ok: bool)
      requires Valid() && status == BackedUp && Marked(job, world, sequence)
      requires world.links == Links(job.previous, None, false) && Stopped(world) && world.disk.live == world.disk.backup
      modifies this`world, this`trace, this`sent, this`failures
      ensures Valid() && old(trace) <= trace
      ensures Marked(job, world, sequence) && world.links == old(world).links
      ensures world.disk.restore == old(world).disk.restore && world.etcCopy == old(world).etcCopy
      ensures ok ==> Verified(job, world) && IsSetUp(old(world).etc)
      ensures old(Calm()) ==> Calm() && ok
      ensures failures == old(failures) + if ok then 0 else 1
    {
      if job.migrating {
        ok := ApplyStaged();
        if !ok { return; }
      }
      ok := BringGatewayUp(job.candidateId);
      if ok { ok := VerifyLedgerLoaded(); }
    }

    /** The new gateway, started and seen to be what it is to be, becomes current, and that is recorded. */
    method Launch() returns (ok: bool)
      requires Valid() && status == BackedUp && Marked(job, world, sequence)
      requires world.links == Links(job.previous, None, false) && Stopped(world) && world.disk.live == world.disk.backup
      modifies this`world, this`trace, this`sent, this`failures, this`status
      ensures Valid() && old(trace) <= trace
      ensures Halted(job, world, status, cleanStop, sequence) && status in {BackedUp, Exposing}
      ensures ok ==> status == Exposing && world.record == Exposing
      ensures world.disk.restore == old(world).disk.restore && world.etcCopy == old(world).etcCopy
      ensures status == Exposing ==> IsSetUp(old(world).etc)
      ensures old(Calm()) ==> Calm()
      ensures old(Calm()) && mishap.OwnMove? ==> !ok && status == BackedUp && world.links.leftover.Some?
      ensures old(Calm()) && mishap.ExposingRecord? ==> !ok && status == Exposing
      ensures old(Calm()) && !mishap.OwnMove? && !mishap.ExposingRecord? ==> ok
      ensures failures == old(failures) + if ok then 0 else 1
    {
      ok := StartCandidate();
      if !ok { return; }
      ok := SwitchCurrent(job.candidate);
      if !ok { return; }
      status := Exposing;
      ok := SaveStatus();
    }

    method Expose() returns (ok: bool)
      requires Valid() && status == Exposing && Launched(job, world)
      modifies this`world, this`trace, this`sent, this`failures, this`status
      ensures Valid() && old(trace) <= trace
      ensures Halted(job, world, status, cleanStop, sequence) && status in {Exposing, Deployed}
      ensures ok ==> status == Deployed && DeployedState(job, world)
      ensures status == Deployed ==>
          Found(Reachable, old(sent)) && Found(Healthy, old(sent)) && Found(StillUp, old(sent))
      ensures SameEtc(old(world), world)
      ensures old(Calm()) ==> Calm()
      ensures old(Calm()) ==> ok
      ensures failures == old(failures) + if ok then 0 else 1
    {
      ghost var before;
      ok, before := Do(UpIngress(job.candidate));
      if !ok { return; }
      ok := ExternalReadiness();
      if !ok { return; }
      ok := WaitGateway(job.candidateId);
      if !ok { return; }
      ok := Find(StillUp, world.ingress.running);
      if !ok { return; }
      status := Deployed;
      ok := SaveStatus();
    }

    /** A copy of the verified copy, compared with it, beside the live data. */
    method CopyBack() returns (ok: bool)
      requires Valid() && Marked(job, world, sequence) && Stopped(world)
      modifies this`world, this`trace, this`sent, this`failures
      ensures Valid() && old(trace) <= trace
      ensures Marked(job, world, sequence) && Stopped(world) && Kept(old(world), world)
          && world.links == old(world).links
      ensures ok ==> old(world).disk.restore.None? && world.disk.restore == world.disk.backup
      ensures old(Calm()) ==> Calm()
      ensures old(Calm()) && old(world).disk.restore.None? ==> ok
      ensures failures == old(failures) + if ok then 0 else 1
    {
      ok := Confirm(world.disk.complete && world.disk.restore.None?);
      if !ok { return; }
      ghost var before;
      ok, before := Do(CopyRestore(schedule.copied(sent, world.disk.backup.value)));
      if ok { ok := Confirm(world.disk.restore == world.disk.backup && world.disk.failed.None?); }
    }

    /** The candidate's data moved away, then the verified copy moved in. */
    method SwapData() returns (ok: bool)
      requires Valid() && Marked(job, world, sequence) && Stopped(world) && world.disk.restore == world.disk.backup
      modifies this`world, this`trace, this`sent, this`failures
      ensures Valid() && old(trace) <= trace
      ensures Stopped(world) && Kept(old(world), world) && world.links == old(world).links
      ensures ok ==>
          world.disk.complete && world.disk.backup.Some? && world.disk.live == world.disk.backup
          && world.disk.failed.Some?
      ensures old(Calm()) ==> Calm()
      ensures old(Calm()) ==> ok
      ensures failures == old(failures) + if ok then 0 else 1
    {
      ghost var before;
      ok, before := Do(MoveLiveAway);
      if ok { ok, before := Do(MoveRestoreIn); }
    }

    /** Puts a verified copy of the stopped data in place of the candidate's, which is kept. */
    method RewindData() returns (ok: bool)
      requires Valid() && Marked(job, world, sequence) && Stopped(world)
      modifies this`world, this`trace, this`sent, this`failures
      ensures Valid() && old(trace) <= trace
      ensures Stopped(world) && Kept(old(world), world) && world.links == old(world).links
      ensures ok ==>
          world.disk.complete && world.disk.backup.Some? && world.disk.live == world.disk.backup
          && world.disk.failed.Some?
      ensures ok ==> old(world).disk.restore.None?
      ensures old(Calm()) ==> Calm()
      ensures old(Calm()) && old(world).disk.restore.None? ==> ok
      ensures failures == old(failures) + if ok then 0 else 1
    {
      ok := CopyBack();
      if ok { ok := SwapData(); }
    }

    /** Brings the previous release up again, its gateway first. */
    method StartPrevious() returns (ok: bool)
      requires Valid() && world.disk.live.Some? && !Public(job, world)
      modifies this`world, this`trace, this`sent, this`failures
      ensures Valid() && old(trace) <= trace
      ensures world.links == old(world).links && Kept(old(world), world)
      ensures CopiesKept(old(world).disk, world.disk)
      ensures world.disk.live.Some? && old(world).disk.live.value <= world.disk.live.value
      ensures ok ==> Serves(world, job.previousId, job.previous)
      ensures ok ==> Found(Healthy, old(sent)) && Found(Reachable, old(sent))
      ensures old(Calm()) ==> Calm()
      ensures old(Calm()) ==> ok
      ensures failures == old(failures) + if ok then 0 else 1
    {
      ok := BringGatewayUp(job.previousId);
      if !ok { return; }
      ghost var before;
      ok, before := Do(UpIngress(job.previous));
      if !ok { return; }
      ok := ExternalReadiness();
    }

    /** A failure after the copy was marked and before customers could reach the new release. */
    method RollBack() returns (ok: bool)
      requires Valid() && Marked(job, world, sequence)
      modifies this`world, this`trace, this`sent, this`failures
      ensures Valid() && old(trace) <= trace
      ensures ok ==> RolledBackState(job, world)
      ensures world.etcCopy == old(world).etcCopy
      // A link the forward switch left behind, and nothing else, makes the wrong release current.
      ensures ok ==> (world.links.misled <==> old(world).links.leftover.Some?)
      ensures ok ==> old(world).disk.restore.None?
      ensures ok ==> Found(Healthy, 0) && Found(Reachable, 0)
      ensures old(Calm()) ==> Calm()
      ensures old(Calm()) && old(world).disk.restore.None? && (!mishap.OwnMove? || old(world).links.leftover.Some?) ==>
          ok
      ensures failures == old(failures) + if ok then 0 else 1
    {
      ok := StopServices();
      if !ok { return; }
      ok := RewindData();
      if !ok { return; }
      if job.migrating {
        ok := SetEnvironment(world.etcCopy.value);
        if !ok { return; }
      }
      ok := SwitchCurrent(job.previous);
      if !ok { return; }
      ok := StartPrevious();
    }

    /** A failure after the new release became current: it is never taken down, only brought up. */
    method BringIngressUp() returns (ok: bool)
      requires Valid() && Launched(job, world)
      modifies this`world, this`trace, this`sent, this`failures
      ensures Valid() && old(trace) <= trace
      ensures Launched(job, world) && SameEtc(old(world), world)
      ensures ok || old(Public(job, world)) ==> Public(job, world)
      ensures old(Calm()) ==> Calm() && ok
      ensures failures == old(failures) + if ok then 0 else 1
    {
      ok := Confirm(true);
      if !ok { return; }
      if !world.ingress.running {
        ghost var before;
        ok, before := Do(UpIngress(job.candidate));
        if ok { ok := ExternalReadiness(); }
      }
    }

    /** The old gateway stopped cleanly and only its copy failed. */
    method RestartPrevious() returns (ok: bool)
      requires Valid() && OnPrevious(job, world) && ConfigurationSaved(world) && Stopped(world)
      modifies this`world, this`trace, this`sent, this`failures
      ensures Valid() && old(trace) <= trace
      ensures ok ==> RestartedState(job, world)
      ensures SameEtc(old(world), world)
      ensures ok ==> Found(Healthy, 0) && Found(Reachable, 0)
      ensures old(Calm()) ==> Calm()
      ensures old(Calm()) && !old(world).disk.complete ==> ok
      ensures failures == old(failures) + if ok then 0 else 1
    {
      ok := Confirm(!world.disk.complete);
      if !ok { return; }
      ghost var before;
      ok, before := Do(RemoveBackupData);
      if !ok { return; }
      ok := StartPrevious();
    }

    /**
     * What recovering undisturbed makes of each phase. The new release, once current, is brought up to
     * customers; the copied data is put back; a failed copy is dropped and the previous release started
     * again; and what stopped abnormally is left stopped.
     */
    ghost predicate IsUndone(phase: Status, was: World, cleanStop: bool, outcome: Status, w: World) {
      match phase
      case BackedUp => was.disk.restore.None? && (!mishap.OwnMove? || was.links.leftover.Some?) ==>
        outcome == RolledBack
      case Exposing => outcome == NeedsAttention && Public(job, w)
      case Stopping =>
        if cleanStop then !was.disk.complete ==> outcome == RestartedPrevious
        else outcome == NeedsAttention && Stopped(w)
      case _ => true
    }

    /** What the phase reached allows to be undone; every other phase is left to an operator. */
    method Undo(phase: Status) returns (handled: bool, outcome: Status)
      requires Valid() && Halted(job, world, phase, cleanStop, sequence)
      modifies this`world, this`trace, this`sent, this`failures
      ensures Valid() && old(trace) <= trace
      ensures outcome in {NeedsAttention, RolledBack, RestartedPrevious, RollbackFailed}
      ensures outcome == RolledBack ==> phase == BackedUp && RolledBackState(job, world)
      ensures world.etcCopy == old(world).etcCopy && (phase != BackedUp ==> world.etc == old(world).etc)
      ensures phase == Stopping && !cleanStop ==> OnPrevious(job, world) && ConfigurationSaved(world)
      ensures outcome == RolledBack ==> (world.links.misled <==> old(world).links.leftover.Some?)
      ensures outcome in {RolledBack, RestartedPrevious} ==> Found(Healthy, 0) && Found(Reachable, 0)
      ensures old(Calm()) ==> Calm()
      ensures old(Calm()) ==> IsUndone(phase, old(world), cleanStop, outcome, world)
      ensures phase == Deployed || (phase == Exposing && handled) ==> Public(job, world)
      ensures phase == Stopping && !cleanStop && handled ==> Stopped(world)
      ensures outcome == RestartedPrevious ==> phase == Stopping && cleanStop && RestartedState(job, world)
      ensures outcome == RollbackFailed <==> phase == BackedUp && !handled
      ensures phase in {Exposing, Deployed} ==> Launched(job, world)
      ensures failures == old(failures) + if handled then 0 else 1
    {
      outcome := NeedsAttention;
      handled := true;
      match phase {
        case BackedUp =>
          handled := RollBack();
          outcome := if handled then RolledBack else RollbackFailed;
        case Exposing =>
          handled := BringIngressUp();
        case Stopping =>
          if cleanStop {
            handled := RestartPrevious();
            outcome := if handled then RestartedPrevious else NeedsAttention;
          } else {
            handled := StopServices();
          }
        case _ =>
      }
    }

    method SaveStatus() returns (saved: bool)
      requires Valid()
      modifies this`world, this`trace, this`sent, this`failures
      ensures Valid() && old(trace) <= trace
      ensures Untouched(old(world), world) && world.etc == old(world).etc && world.etcCopy == old(world).etcCopy
      ensures world.backupDir == old(world).backupDir
      ensures saved ==> world.record == status
      ensures old(Calm()) ==> Calm()
      ensures old(Calm()) && !(mishap.ExposingRecord? && status == Exposing) ==> saved
      ensures old(Calm()) && mishap.ExposingRecord? && status == Exposing ==> !saved
      ensures failures == old(failures) + if saved then 0 else 1
    {
      ghost var before;
      saved, before := Do(Save(status));
    }

    /** The exception handler: whatever was undone, the outcome is saved for the operator. */
    method Recover()
      requires Valid() && Halted(job, world, status, cleanStop, sequence)
      modifies this`world, this`trace, this`sent, this`failures, this`status
      ensures Valid() && old(trace) <= trace
      ensures status in {NeedsAttention, RolledBack, RestartedPrevious, RollbackFailed}
      ensures status == RolledBack ==> old(status) == BackedUp && RolledBackState(job, world)
      ensures world.etcCopy == old(world).etcCopy && (old(status) != BackedUp ==> world.etc == old(world).etc)
      ensures old(status) == Stopping && !cleanStop ==> OnPrevious(job, world) && ConfigurationSaved(world)
      ensures status == RolledBack ==> (world.links.misled <==> old(world).links.leftover.Some?)
      ensures status in {RolledBack, RestartedPrevious} ==> Found(Healthy, 0) && Found(Reachable, 0)
      ensures old(Calm()) ==> Calm()
      ensures old(Calm()) ==> IsUndone(old(status), old(world), cleanStop, status, world) && world.record == status
      ensures old(status) == Deployed ==> Public(job, world)
      ensures status == RestartedPrevious ==> old(status) == Stopping && cleanStop && RestartedState(job, world)
      ensures status == RollbackFailed ==> old(status) == BackedUp
      ensures old(status) in {Exposing, Deployed} ==> status == NeedsAttention && Launched(job, world)
      ensures old(failures) <= failures <= old(failures) + 2
    {
      var handled;
      handled, status := Undo(status);
      var saved := SaveStatus();
    }

    /** The environment files are those to run with, and a migration of them was rehearsed, found staged and read. */
    ghost predicate IsSetUp(was: Environment)
      reads this`world
    {
      && world.etc == EtcFor(job, was)
      && (job.migrating ==> Found(Rehearsal, 0) && Found(StagedAgain, 0) && Found(ComposeReads, 0))
    }

    /** From the stop to the record of the deployment; where it fails, the phase says what is known. */
    method Attempt() returns (ok: bool)
      requires Valid() && status == Stopping && OnPrevious(job, world) && ConfigurationSaved(world)
          && !world.disk.complete
      requires !cleanStop
      modifies this`world, this`trace, this`sent, this`failures, this`status, this`cleanStop, this`sequence
      ensures Valid() && old(trace) <= trace
      ensures Halted(job, world, status, cleanStop, sequence)
      ensures ok ==> status == Deployed && DeployedState(job, world)
      ensures status == Deployed ==> Found(Healthy, 0) && Found(Reachable, 0) && Found(StillUp, 0)
      ensures old(Calm()) ==> Calm()
      ensures world.etcCopy == old(world).etcCopy && (cleanStop ==> Found(CleanStop, 0))
      ensures status == Stopping ==> world.etc == old(world).etc
      ensures status in {Exposing, Deployed} ==> IsSetUp(old(world).etc)
      ensures status != Stopping ==> cleanStop
      ensures old(Calm()) ==> (ok <==> mishap.NoMishap?)
      ensures old(Calm()) ==>
          match mishap
          case NoMishap => true
          case AbnormalStop => status == Stopping && !cleanStop && Stopped(world)
          case OwnMove =>
            status == BackedUp && world.links.leftover.Some? && world.disk.restore == old(world).disk.restore
          case ExposingRecord => status == Exposing
          case StoppedCopy => status == Stopping && cleanStop && !world.disk.complete
      ensures failures == old(failures) + if ok then 0 else 1
    {
      ok := BackUp();
      if ok { ok := Launch(); }
      if ok { ok := Expose(); }
    }

    /** The checks, the copy of the configuration and the record that the stop follows; production only serves. */
    method Begin() returns (ok: bool, refused: bool)
      requires Valid() && status == Staging && NewRelease(job, world)
      modifies this`world, this`trace, this`sent, this`failures, this`status
      ensures Valid() && old(trace) <= trace
      ensures status in {Staging, Stopping} && Untouched(old(world), world) && world.etc == old(world).etc
      ensures refused ==>
          !ok && Refusable(job, survey, old(world)) && world == old(world) && trace == old(trace) && status == Staging
      ensures ok ==>
          Preconditions(job, survey, old(world)) && status == Stopping && OnPrevious(job, world)
          && ConfigurationSaved(world) && !world.disk.complete && world.record == Stopping
      ensures old(Calm()) ==> Calm()
      ensures old(Calm()) ==>
          (refused <==> Refusable(job, survey, old(world)))
          && (ok <==> Preconditions(job, survey, old(world)) && !old(world).backupDir)
      ensures failures == old(failures) + if ok || refused then 0 else 1
    {
      ok, refused := Preflight();
      if ok { ok := CopyConfiguration(); }
      if ok {
        status := Stopping;
        ok := SaveStatus();
      }
    }

    /**
     * What a smooth run with one mishap comes to. With none, the release is deployed. After an abnormal stop all
     * stays stopped, the previous release current. With only the renaming lost, what is recorded as rolled back
     * has the new release current; with only the record of exposing, customers reach the new release; with
     * only the copy, the previous one serves again.
     */
    ghost predicate AsMishapLeaves()
      reads this`world, this`status
    {
      match mishap
      case NoMishap => status == Deployed
      case AbnormalStop =>
        status == NeedsAttention && Stopped(world) && OnPrevious(job, world) && ConfigurationSaved(world)
      case OwnMove =>
        status == RolledBack && Serves(world, job.previousId, job.previous) && world.links.current == job.candidate
      case ExposingRecord => status == NeedsAttention && Launched(job, world) && Public(job, world)
      case StoppedCopy => status == RestartedPrevious
    }

    /** What the status recorded last says of production, whose environment files were these when it was stopped. */
    ghost predicate AsRecorded(was: Environment)
      reads this`world, this`status
    {
      && (status == Deployed ==> DeployedState(job, world) && IsSetUp(was))
      && (status == RolledBack ==> RolledBackState(job, world) && world.etc == was)
      && (status == RestartedPrevious ==> RestartedState(job, world) && world.etc == was)
      // A release is recorded as serving only if the old gateway was found to have stopped cleanly, and it was found
      // up.
      && (status in {RolledBack, RestartedPrevious, Deployed} ==>
           Found(CleanStop, 0) && Found(Healthy, 0) && Found(Reachable, 0))
      && (status == Deployed ==> Found(StillUp, 0))
    }

    /** Where it fell, recovering undisturbed made of it what the phase allows, and the outcome was recorded. */
    ghost predicate IsRecovered(fall: Fall)
      reads this`world, this`status, this`cleanStop, this`sequence
    {
      && Halted(job, fall.world, fall.phase, cleanStop, sequence)
      && (CalmFrom(schedule, mishap, fall.step) ==>
            IsUndone(fall.phase, fall.world, cleanStop, status, world) && world.record == status)
    }

    /** From the stop to the record of the deployment, or to that of what became of its failure. */
    method Transact() returns (ok: bool, ghost fall: Option<Fall>)
      requires Valid() && status == Stopping && OnPrevious(job, world) && ConfigurationSaved(world)
          && !world.disk.complete
      requires !cleanStop
      modifies this`world, this`trace, this`sent, this`failures, this`status, this`cleanStop, this`sequence
      ensures Valid() && old(trace) <= trace
      ensures if ok then status == Deployed
          else status in {NeedsAttention, RolledBack, RestartedPrevious, RollbackFailed}
      ensures AsRecorded(old(world).etc)
      ensures ok <==> fall.None?
      ensures fall.Some? ==> IsRecovered(fall.value) && fall.value.failures == old(failures) + 1
      ensures old(Calm()) ==> Calm() && (ok <==> mishap.NoMishap?)
      ensures old(Calm()) && old(world).disk.restore.None? ==> AsMishapLeaves()
      // It fails exactly if a command or a look of it did, and goes no further.
      ensures failures >= old(failures) && (ok <==> failures == old(failures))
    {
      fall := None;
      ok := Attempt();
      if !ok {
        fall := Some(Fall(sent, failures, status, world));
        Recover();
      }
    }

    /** The whole transaction; `extraReadiness` is a further check once the release is recorded deployed. */
    method Promote(extraReadiness: bool) returns (end: End, ghost fall: Option<Fall>)
      requires Valid() && status == Staging && !cleanStop && NewRelease(job, world)
      modifies this`world, this`trace, this`sent, this`failures, this`status, this`cleanStop, this`sequence
      ensures Valid() && old(trace) <= trace
      ensures AsRecorded(old(world).etc)
      ensures end == Promoted ==> status == Deployed
      ensures end == Refused ==> world == old(world) && trace == old(trace) && status == Staging
      // Until the stop is recorded, production only served.
      ensures status in {Staging, Stopping} ==> Untouched(old(world), world)
      // It fails before the stop is recorded, or after the release is; else it is recovered from where it fell.
      ensures end == Failed ==> fall.Some? || status in {Staging, Stopping, Deployed}
      ensures fall.Some? ==> IsRecovered(fall.value) && fall.value.failures == old(failures) + 1
      // It fails exactly if a command or a look of it does; the first is where it falls.
      ensures failures >= old(failures) && (end == Failed <==> failures > old(failures))
      ensures extraReadiness && end == Promoted ==> Found(ExtraReadiness, 0)
      // On a smooth run it succeeds, unless it may not begin, or one thing goes wrong.
      ensures old(Calm()) ==> Calm() && (end == Refused <==> Refusable(job, survey, old(world)))
      ensures old(Calm()) ==>
          (end == Promoted <==> mishap.NoMishap? && Preconditions(job, survey, old(world)) && !old(world).backupDir)
      ensures old(Calm()) && Preconditions(job, survey, old(world)) ==>
          (!old(world).backupDir && old(world).disk.restore.None? ==> AsMishapLeaves())
    {
      end, fall := Failed, None;
      var ok, refused := Begin();
      if !ok { return if refused then Refused else Failed, None; }
      ok, fall := Transact();
      if ok && extraReadiness { ok := Find(ExtraReadiness, true); }
      if ok { end := Promoted; }
    }

    /** Makes the lock directory; one already there is another deployment's. */
    method TakeLock() returns (ok: bool)
      modifies this`locked, this`sent, this`failures
      ensures ok ==> !old(locked) && locked
      ensures old(locked) ==> locked
      ensures sent == old(sent) + 1
      ensures old(Calm()) ==> Calm()
      ensures old(Calm()) ==> (ok <==> !old(locked))
      ensures failures == old(failures) + if ok then 0 else 1
    {
      var arrival := schedule.lock(sent);
      sent := sent + 1;
      ok := arrival == Confirmed && !locked;
      if !ok { failures := failures + 1; }
      locked := locked || arrival != Lost;
    }

    method FreeLock() returns (ok: bool)
      modifies this`locked, this`sent, this`failures
      ensures ok ==> !locked
      ensures sent == old(sent) + 1
      ensures old(Calm()) ==> Calm()
      ensures old(Calm()) ==> ok
      ensures failures == old(failures) + if ok then 0 else 1
    {
      var arrival := schedule.lock(sent);
      sent := sent + 1;
      ok := arrival == Confirmed;
      if !ok { failures := failures + 1; }
      locked := locked && arrival == Lost;
    }

    /** A promotion under the deployment lock, which is kept whenever anything is uncertain. */
    method PromoteLocked(extraReadiness: bool) returns (end: End)
      requires Valid() && status == Staging && !cleanStop && NewRelease(job, world)
      modifies this`world, this`trace, this`sent, this`failures, this`status, this`cleanStop, this`sequence, this`locked
      ensures Valid() && old(trace) <= trace
      ensures AsRecorded(old(world).etc)
      ensures end == Promoted ==> status == Deployed && !locked
      // Free at the end only if deployed, or if nothing at all was changed.
      ensures !locked ==> !old(locked) && (status == Deployed || (world == old(world) && trace == old(trace)))
      ensures old(locked) ==> end == Failed && world == old(world) && trace == old(trace)
      ensures old(Calm()) ==> Calm()
      ensures old(Calm()) ==>
          (end == Promoted <==>
             mishap.NoMishap? && !old(locked) && Preconditions(job, survey, old(world)) && !old(world).backupDir)
      ensures end == Failed <==> failures > old(failures)
    {
      ghost var fall;
      var ok := TakeLock();
      if !ok { return Failed; }
      end, fall := Promote(extraReadiness);
      if end == Failed { return; }
      ok := FreeLock();
      if !ok { end := Failed; }
    }
  }
}
