/**
  The pre-rendered index page. Recorders commit a sample, bump the history version and send on a channel of
  capacity one; the renderer drains the channel, reads a signature, then the data, and stores a body per
  locale; request handlers render only a body that is missing. Every step below is atomic, and any process
  may take the next one.
*/
module IndexRenderer {
  import opened Common
  import opened ProbeStore

  type Locale = string

  const INDEX_RENDER_KEEPALIVE := 240

  /** What the page signature hashes: the history version, and everything else as one value. */
  datatype Signature = Signature(version: nat, other: int)

  /** One reading of the probe tables, with the number of commits made by then. */
  datatype Reading = Reading(commits: nat, tables: Tables)

  datatype Body = Body(signature: Signature, readings: seq<Reading>, renderedAt: Instant)

  /** Idle, between its commit and its bump, or between its bump and its send. */
  datatype Recorder = Resting | Committed | Bumped

  /** A body in the making, under the render lock. */
  datatype Work = Starting | Building(signature: Signature, readings: seq<Reading>)

  datatype Renderer =
    | Unconfigured
    | AwaitingStart
    | Waiting
    | Draining
    | Trying(now: Instant)
    | Rendering(now: Instant, force: bool, next: nat, work: Work)

  datatype Handler = Ready | Missed(locale: Locale) | Filling(locale: Locale, work: Work)

  datatype LockHolder = NoOne | TheRenderer | AHandler(h: nat)

  /** How the renderer's latest pass ended. */
  datatype PassOutcome = NoPassYet | Completed | LockBusy | BuildFailed

  datatype State = State(
    committed: seq<Tables>,          // the tables after each commit, oldest first
    version: nat,                    // indexHistoryVersion
    token: bool,                     // the channel holds a request
    recorders: seq<Recorder>,
    renderer: Renderer,
    handlers: seq<Handler>,
    renderLock: LockHolder,
    bodies: map<Locale, Body>,
    outcome: PassOutcome,
    startupFailed: bool,
    clock: Instant)
  {
    function Tables(): Tables
      requires committed != []
    {
      committed[|committed| - 1]
    }

    function Commits(): int {
      |committed| - 1
    }

    predicate Configured() {
      !renderer.Unconfigured?
    }

    /** The server listens once start-up is over. */
    predicate Serving() {
      renderer.Waiting? || renderer.Draining? || renderer.Trying? || (renderer.Rendering? && !renderer.force)
    }
  }

  predicate CanSkip(bodies: map<Locale, Body>, locale: Locale, signature: Signature, now: Instant) {
    && locale in bodies
    && bodies[locale].signature == signature
    && bodies[locale].renderedAt != 0
    && now < bodies[locale].renderedAt + INDEX_RENDER_KEEPALIVE
  }

  datatype Action =
    | Commit(r: nat, sample: Sample)
    | Bump(r: nat)
    | Send(r: nat)
    | OtherRequest
    | Tick(seconds: nat)
    | Configure
    | StartPass
    | Receive
    | DrainOne
    | DrainDone
    | TryLockTaken
    | TryLockBusy
    | ReadSignature(other: int)
    | ReadTables
    | StoreBody
    | BuildFails
    | EndPass
    | HandlerMisses(h: nat, locale: Locale)
    | HandlerLocks(h: nat)
    | HandlerReadsSignature(h: nat, other: int)
    | HandlerReadsTables(h: nat)
    | HandlerStores(h: nat)
    | HandlerFails(h: nat)

  predicate IsRecorder(s: State, r: nat, at: Recorder) {
    r < |s.recorders| && s.recorders[r] == at
  }

  predicate IsFilling(s: State, h: nat) {
    h < |s.handlers| && s.handlers[h].Filling?
  }

  predicate Enabled(locales: seq<Locale>, s: State, a: Action) {
    match a
    case Commit(r, sample) =>
      IsRecorder(s, r, Resting) && s.committed != [] && Recorded(s.Tables(), sample) != s.Tables()
    case Bump(r) => IsRecorder(s, r, Committed)
    case Send(r) => IsRecorder(s, r, Bumped)
    case OtherRequest => true
    case Tick(_) => true
    case Configure => s.renderer.Unconfigured?
    case StartPass => s.renderer.AwaitingStart? && s.renderLock == NoOne
    case Receive => s.renderer.Waiting? && s.token
    case DrainOne => s.renderer.Draining? && s.token
    case DrainDone => s.renderer.Draining? && !s.token
    case TryLockTaken => s.renderer.Trying? && s.renderLock == NoOne
    case TryLockBusy => s.renderer.Trying? && s.renderLock != NoOne
    case ReadSignature(_) => s.renderer.Rendering? && s.renderer.next < |locales| && s.renderer.work.Starting?
    case ReadTables => s.renderer.Rendering? && s.renderer.work.Building? && s.committed != []
    case StoreBody => s.renderer.Rendering? && s.renderer.next < |locales| && s.renderer.work.Building?
    case BuildFails => s.renderer.Rendering? && s.renderer.work.Building?
    case EndPass => s.renderer.Rendering? && s.renderer.next == |locales| && s.renderer.work.Starting?
    case HandlerMisses(h, l) =>
      s.Serving() && h < |s.handlers| && s.handlers[h].Ready? && l in locales && l !in s.bodies
    case HandlerLocks(h) => h < |s.handlers| && s.handlers[h].Missed? && s.renderLock == NoOne
    case HandlerReadsSignature(h, _) => IsFilling(s, h) && s.handlers[h].work.Starting?
    case HandlerReadsTables(h) => IsFilling(s, h) && s.handlers[h].work.Building? && s.committed != []
    case HandlerStores(h) => IsFilling(s, h) && s.handlers[h].work.Building?
    case HandlerFails(h) => IsFilling(s, h) && s.handlers[h].work.Building?
  }

  function WithReading(s: State, work: Work): Work
    requires work.Building? && s.committed != []
  {
    work.(readings := work.readings + [Reading(|s.committed| - 1, s.Tables())])
  }

  function Finished(s: State, work: Work): Body
    requires work.Building?
  {
    Body(work.signature, work.readings, s.clock)
  }

  function Apply(locales: seq<Locale>, s: State, a: Action): State
    requires Enabled(locales, s, a)
  {
    match a
    case Commit(r, sample) =>
      s.(committed := s.committed + [Recorded(s.Tables(), sample)], recorders := s.recorders[r := Committed])
    case Bump(r) => s.(version := s.version + 1, recorders := s.recorders[r := Bumped])
    case Send(r) => s.(token := s.token || s.Configured(), recorders := s.recorders[r := Resting])
    case OtherRequest => s.(token := s.token || s.Configured())
    case Tick(seconds) => s.(clock := s.clock + seconds)
    case Configure => s.(renderer := AwaitingStart)
    case StartPass => s.(renderer := Rendering(s.clock, true, 0, Starting), renderLock := TheRenderer)
    case Receive => s.(token := false, renderer := Draining)
    case DrainOne => s.(token := false)
    case DrainDone => s.(renderer := Trying(s.clock))
    case TryLockTaken => s.(renderer := Rendering(s.renderer.now, false, 0, Starting), renderLock := TheRenderer)
    case TryLockBusy => s.(renderer := Waiting, outcome := LockBusy)
    case ReadSignature(other) =>
      var p, signature := s.renderer, Signature(s.version, other);
      if !p.force && CanSkip(s.bodies, locales[p.next], signature, p.now) then s.(renderer := p.(next := p.next + 1))
      else s.(renderer := p.(work := Building(signature, [])))
    case ReadTables => s.(renderer := s.renderer.(work := WithReading(s, s.renderer.work)))
    case StoreBody =>
      var p := s.renderer;
      s.(bodies := s.bodies[locales[p.next] := Finished(s, p.work)],
         renderer := p.(next := p.next + 1, work := Starting))
    case BuildFails =>
      s.(renderer := Waiting, renderLock := NoOne, outcome := BuildFailed,
         startupFailed := s.startupFailed || s.renderer.force)
    case EndPass => s.(renderer := Waiting, renderLock := NoOne, outcome := Completed)
    case HandlerMisses(h, l) => s.(handlers := s.handlers[h := Missed(l)])
    case HandlerLocks(h) =>
      s.(handlers := s.handlers[h := Filling(s.handlers[h].locale, Starting)], renderLock := AHandler(h))
    case HandlerReadsSignature(h, other) =>
      s.(handlers := s.handlers[h := s.handlers[h].(work := Building(Signature(s.version, other), []))])
    case HandlerReadsTables(h) =>
      s.(handlers := s.handlers[h := s.handlers[h].(work := WithReading(s, s.handlers[h].work))])
    case HandlerStores(h) =>
      s.(bodies := s.bodies[s.handlers[h].locale := Finished(s, s.handlers[h].work)],
         handlers := s.handlers[h := Ready], renderLock := NoOne)
    case HandlerFails(h) => s.(handlers := s.handlers[h := Ready], renderLock := NoOne)
  }

  ghost predicate IsInitial(s: State) {
    && |s.committed| == 1 && s.version == 0 && !s.token
    && (forall r :: 0 <= r < |s.recorders| ==> s.recorders[r] == Resting)
    && s.renderer == Unconfigured
    && (forall h :: 0 <= h < |s.handlers| ==> s.handlers[h] == Ready)
    && s.renderLock == NoOne && s.bodies == map[] && s.outcome == NoPassYet && !s.startupFailed
  }

  ghost predicate Step(locales: seq<Locale>, s: State, a: Action, s': State) {
    Enabled(locales, s, a) && s' == Apply(locales, s, a)
  }

  ghost predicate CanStep(locales: seq<Locale>, s: State, s': State) {
    exists a :: Step(locales, s, a, s')
  }

  ghost predicate StepsAt(locales: seq<Locale>, run: seq<State>, i: nat) {
    i + 1 < |run| && CanStep(locales, run[i], run[i + 1])
  }

  /** A run: from an initial state, each state one atomic step of some process after the one before. */
  ghost predicate IsRun(locales: seq<Locale>, run: seq<State>) {
    && run != []
    && IsInitial(run[0])
    && forall i :: 0 <= i < |run| - 1 ==> StepsAt(locales, run, i)
  }

  lemma StepOfRun(locales: seq<Locale>, run: seq<State>, n: nat)
    requires IsRun(locales, run) && 0 < n < |run|
    ensures CanStep(locales, run[n - 1], run[n])
  {
    assert StepsAt(locales, run, n - 1);
  }

  /** Any enabled action continues a run. */
  lemma RunExtends(locales: seq<Locale>, run: seq<State>, a: Action) returns (longer: seq<State>)
    requires IsRun(locales, run) && Enabled(locales, run[|run| - 1], a)
    ensures IsRun(locales, longer) && run <= longer
    ensures longer[|longer| - 1] == Apply(locales, run[|run| - 1], a)
  {
    var s' := Apply(locales, run[|run| - 1], a);
    longer := run + [s'];
    assert Step(locales, run[|run| - 1], a, s');
    forall i | 0 <= i < |longer| - 1
      ensures StepsAt(locales, longer, i)
    {
      if i < |run| - 1 {
        assert StepsAt(locales, run, i);
      }
    }
  }

  ghost predicate NoneAt(s: State, at: Recorder) {
    forall r :: 0 <= r < |s.recorders| ==> s.recorders[r] != at
  }
}
