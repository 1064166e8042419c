/** Apps over whole runs of the instance: launches in threads, operators, promotions of another primary domain,
    crashes, power losses and boots. */
module AppLifecycle {
  import opened Common
  import opened Apps
  import opened AppRecovery

  // ---------------------------------------------------------------- the machine

  /** Where a thread is: called, and whether to build first; past `start_app_process`'s mark; past reading the primary
      domain into the environment; past `run_app_image`'s mark; past `run_container`. Or it is a rename between its
      stop and its outcome, which puts the old status and container back if the directories cannot be moved. */
  datatype Stage =
    | Called(build: bool)
    | Marked
    | HasDomain(domain: string)
    | Launching(domain: string)
    | Launched(id: ContainerId)
    | Renaming(prior: Status, container: Option<ContainerId>)

  /** `byArchive`: the restart of a quiesced app, inside an archive operation. */
  datatype Job = Job(app: Id, stage: Stage, byArchive: bool)

  /** `archiveBusy`: an archive operation runs, which no promotion does at the same time. */
  datatype System = System(
    primary: string, rows: Rows, containers: Containers, jobs: seq<Job>, archiveBusy: bool)

  /** How the next step of a thread turns out. */
  datatype Turn = Proceeds(id: ContainerId) | Answers | Silent | Raises(report: Note, cleaned: bool)

  datatype Event =
    | Installs(app: Id, row: Row, domain: Option<string>)
    | Turns(job: nat, turn: Turn)
    | RenameEnds(job: nat, moved: bool)
    | Reloads(app: Id)
    | Stops(app: Id)
    | GuardStops(app: Id)
    | RenameStarts(app: Id)
    | RemoveStarts(app: Id)
    | RemoveEnds(app: Id, gone: bool)
    | ArchiveStarts
    | ArchiveResumes(app: Id)
    | ArchiveEnds
    | Promotes(to: string)
    | ContainersStop(which: set<ContainerId>)
    | Crashes
    | Boots(start: int, ids: seq<Id>)

  function WithRow(s: System, a: Id, row: Row): System { s.(rows := s.rows[a := row]) }

  function Dead(containers: Containers, which: set<ContainerId>): Containers {
    map c | c in containers :: if c in which then containers[c].(alive := false) else containers[c]
  }

  function DropJob(jobs: seq<Job>, i: nat): seq<Job>
    requires i < |jobs|
  {
    jobs[..i] + jobs[i + 1..]
  }

  /** An UPDATE touches no row when the app is gone. */
  function Updated(s: System, a: Id, row: Row): System { if a in s.rows then WithRow(s, a, row) else s }

  function RowOf(s: System, a: Id): Row {
    if a in s.rows then s.rows[a] else Row(Stopped, NoNote, None, 0, false, false, false)
  }

  /** An error: recorded in the row, whose container is then the one that could not be cleaned up, or the one it had
      before the launch. */
  function Failing(s: System, i: nat, report: Note, cleaned: bool): System
    requires i < |s.jobs|
  {
    var job := s.jobs[i];
    var row := RowOf(s, job.app);
    var failed := row.(status := Failed, note := report);
    var s' := s.(jobs := DropJob(s.jobs, i));
    match job.stage
    case Launching(_) => Updated(s', job.app, failed.(container := None))
    case Launched(id) =>
      Updated(s', job.app, failed.(container := if cleaned then None else Some(id)))
        .(containers := if cleaned then Dead(s.containers, {id}) else s.containers)
    case _ => Updated(s', job.app, failed)
  }

  function WithStage(s: System, i: nat, stage: Stage): System
    requires i < |s.jobs|
  {
    s.(jobs := s.jobs[i := s.jobs[i].(stage := stage)])
  }

  function TakeTurn(s: System, i: nat, turn: Turn): System
    requires i < |s.jobs|
  {
    var job := s.jobs[i];
    var row := RowOf(s, job.app);
    match turn
    case Raises(report, cleaned) => Failing(s, i, report, cleaned)
    case Proceeds(id) =>
      (match job.stage
       case Called(true) => Updated(WithStage(s, i, Marked), job.app, MarkedStarting(row))
       case Called(false) => WithStage(s, i, HasDomain(s.primary))
       case Marked => WithStage(s, i, HasDomain(s.primary))
       case HasDomain(domain) => Updated(WithStage(s, i, Launching(domain)), job.app, MarkedStarting(row))
       case Launching(domain) =>
         Updated(WithStage(s, i, Launched(id)), job.app, row.(container := Some(id)))
           .(containers := s.containers[id := Container(true, domain)])
       case _ => s)
    case Answers =>
      if job.stage.Launched?
      then Updated(s.(jobs := DropJob(s.jobs, i)), job.app, row.(status := Running, note := NoNote)) else s
    case Silent =>
      if job.stage.Launched?
      then Updated(s.(jobs := DropJob(s.jobs, i)), job.app, row.(status := Failed, note := Other)) else s
  }

  /** Such an app is restarted once its directories have been moved. */
  predicate WasUp(prior: Status) { prior.Running? || prior.Starting? || prior.Building? }

  function EndRename(s: System, i: nat, moved: bool): System
    requires i < |s.jobs| && s.jobs[i].stage.Renaming?
  {
    var job := s.jobs[i];
    if !moved then
      Updated(s.(jobs := DropJob(s.jobs, i)), job.app,
              RowOf(s, job.app).(status := job.stage.prior, container := job.stage.container))
    else if WasUp(job.stage.prior) then
      s.(jobs := s.jobs[i := job.(stage := Called(true))])
    else s.(jobs := DropJob(s.jobs, i))
  }

  function Kill(s: System, row: Row): Containers {
    if row.container.Some? then Dead(s.containers, {row.container.value}) else s.containers
  }

  /** `set_primary_domain` on the app rows, the target being another configured domain. */
  predicate Accepts(s: System, to: string) {
    to != s.primary && forall a :: a in s.rows ==> !BusyForPromotion(s.rows[a])
  }

  function Promote(s: System, to: string): System {
    if Accepts(s, to) then s.(primary := to, rows := map a | a in s.rows :: HandedOver(s.rows[a])) else s
  }

  function JobsFor(queue: Queue): seq<Job> {
    seq(|queue|, i requires 0 <= i < |queue| => Job(queue[i].0, Called(queue[i].1), false))
  }

  function BootSystem(s: System, start: int, ids: seq<Id>): System
    requires forall a :: a in ids ==> a in s.rows
  {
    s.(rows := AllBooted(s.rows, s.containers, start), jobs := JobsFor(BootQueue(s.rows, s.containers, start, ids)))
  }

  /** The state can take the event: its thread exists, its app does, its guard in the route holds. */
  ghost predicate Enabled(s: System, e: Event) {
    match e
    case Installs(a, _, _) => a !in s.rows
    case Turns(i, turn) =>
      i < |s.jobs| && !s.jobs[i].stage.Renaming?
      && (turn.Proceeds? && s.jobs[i].stage.Launching? ==> turn.id !in s.containers)
      && (turn.Raises? ==> turn.report != PromotionMarker)
    case RenameEnds(i, _) => i < |s.jobs| && s.jobs[i].stage.Renaming?
    case Reloads(a) => a in s.rows && !BusyForPromotion(s.rows[a])
    case Stops(a) => a in s.rows && !s.rows[a].status.Removing?
    case GuardStops(a) => a in s.rows && (s.rows[a].status.Running? || s.rows[a].status.Starting?)
    case RenameStarts(a) => a in s.rows && !s.rows[a].status.Removing?
    case RemoveStarts(a) => a in s.rows
    case RemoveEnds(a, _) => a in s.rows && s.rows[a].status.Removing?
    case ArchiveStarts => !s.archiveBusy
    case ArchiveResumes(a) => s.archiveBusy && a in s.rows
    case ArchiveEnds => s.archiveBusy && forall i :: 0 <= i < |s.jobs| ==> !s.jobs[i].byArchive
    case Promotes(_) => !s.archiveBusy
    case ContainersStop(_) => true
    case Crashes => true
    case Boots(_, ids) => s.jobs == [] && !s.archiveBusy && Lists(ids, s.rows)
  }

  function Step(s: System, e: Event): System
    requires Enabled(s, e)
  {
    match e
    case Installs(a, row, domain) =>
      var s' := WithRow(s, a, row);
      if row.container.Some? && domain.Some?
      then s'.(containers := s.containers[row.container.value := Container(true, domain.value)]) else s'
    case Turns(i, turn) => TakeTurn(s, i, turn)
    case RenameEnds(i, moved) => EndRename(s, i, moved)
    case Reloads(a) =>
      WithRow(s, a, s.rows[a].(status := Building, container := None, note := NoNote))
        .(containers := Kill(s, s.rows[a]), jobs := s.jobs + [Job(a, Called(true), false)])
    case Stops(a) => WithRow(s, a, s.rows[a].(status := Stopped, container := None)).(containers := Kill(s, s.rows[a]))
    case GuardStops(a) =>
      WithRow(s, a, s.rows[a].(status := Failed, note := Other, container := None)).(containers := Kill(s, s.rows[a]))
    case RenameStarts(a) =>
      WithRow(s, a, s.rows[a].(status := Stopped, container := None))
        .(containers := Kill(s, s.rows[a]),
          jobs := s.jobs + [Job(a, Renaming(s.rows[a].status, s.rows[a].container), false)])
    case RemoveStarts(a) => WithRow(s, a, s.rows[a].(status := Removing))
    case RemoveEnds(a, gone) =>
      if gone then s.(rows := s.rows - {a}, containers := Kill(s, s.rows[a]))
      else WithRow(s, a, s.rows[a].(status := Failed, note := Other))
    case ArchiveStarts => s.(archiveBusy := true)
    case ArchiveResumes(a) => s.(jobs := s.jobs + [Job(a, Called(false), true)])
    case ArchiveEnds => s.(archiveBusy := false)
    case Promotes(to) => Promote(s, to)
    case ContainersStop(which) => s.(containers := Dead(s.containers, which))
    case Crashes => s.(jobs := [], archiveBusy := false)
    case Boots(start, ids) => BootSystem(s, start, ids)
  }

  ghost predicate Possible(s: System, events: seq<Event>)
    decreases |events|
  {
    events == [] || (Enabled(s, events[0]) && Possible(Step(s, events[0]), events[1..]))
  }

  ghost function RunAll(s: System, events: seq<Event>): System
    requires Possible(s, events)
    decreases |events|
  {
    if events == [] then s else RunAll(Step(s, events[0]), events[1..])
  }

  // ---------------------------------------------------------------- the property and the invariant behind it

  /** There is a container, and it was launched with the current primary domain. */
  predicate UsesPrimary(s: System, container: Option<ContainerId>) {
    container.Some? && container.value in s.containers && s.containers[container.value].domain == s.primary
  }

  /** Promotion has reached every app: one that says running has a container launched with the current primary
      domain. */
  ghost predicate AllUpToDate(s: System) {
    forall a :: a in s.rows && s.rows[a].status.Running? ==> UsesPrimary(s, s.rows[a].container)
  }

  ghost predicate RowOk(s: System, a: Id) {
    a in s.rows ==>
      && (s.rows[a].status.Running? ==> UsesPrimary(s, s.rows[a].container))
      && (s.rows[a].status.Building? ==> s.rows[a].container == None)
  }

  /** A thread holding a domain holds the primary one, whatever its row says meanwhile; one that waits for its container
      has it in the row; and a rename of a running app gives back a container that is up to date. */
  ghost predicate JobOk(s: System, job: Job) {
    && (job.byArchive ==> s.archiveBusy && !job.stage.Renaming?)
    && (job.app in s.rows ==>
          var row := s.rows[job.app];
          match job.stage
          case HasDomain(domain) => domain == s.primary
          case Launching(domain) => domain == s.primary && !row.status.Building?
          case Launched(id) => UsesPrimary(s, row.container) && !row.status.Building?
          case Renaming(prior, container) =>
            && (prior.Running? ==> UsesPrimary(s, container))
            && (prior.Building? ==> container == None)
          case _ => true)
  }

  /** A rename that starts no thread when it ends, and leaves nothing saying running. */
  predicate Harmless(job: Job) { job.stage.Renaming? && !WasUp(job.stage.prior) }

  /** No promotion can be committed before the thread has ended. */
  predicate Bound(job: Job) {
    job.byArchive || job.stage.HasDomain? || job.stage.Launching? || job.stage.Launched?
  }

  /** A harmless rename whose container is up to date may put it back while a thread that stays with this primary domain
      is at work. */
  predicate Yields(s: System, rename: Job, thread: Job) {
    Harmless(rename) && UsesPrimary(s, rename.stage.container) && Bound(thread)
  }

  /** What two jobs of one app may be at the same time. Two threads are never among it. */
  predicate Compatible(s: System, x: Job, y: Job) {
    (Harmless(x) && Harmless(y)) || Yields(s, x, y) || Yields(s, y, x)
  }

  /** Two jobs of one app in the table. */
  predicate Meet(s: System, i: int, k: int) {
    0 <= i < |s.jobs| && 0 <= k < |s.jobs| && i != k && s.jobs[i].app == s.jobs[k].app && s.jobs[i].app in s.rows
  }

  ghost predicate Together(s: System) {
    forall i, k :: Meet(s, i, k) ==> Compatible(s, s.jobs[i], s.jobs[k])
  }

  ghost predicate Inv(s: System) {
    && (forall a :: a in s.rows ==> RowOk(s, a))
    && Together(s)
    && forall i :: 0 <= i < |s.jobs| ==> JobOk(s, s.jobs[i])
  }

  predicate Idle(s: System, a: Id) { forall i :: 0 <= i < |s.jobs| ==> s.jobs[i].app != a }

  /** No thread waits for a container of `a` to answer. */
  predicate NoneWaiting(s: System, a: Id) {
    forall i :: 0 <= i < |s.jobs| ==> !(s.jobs[i].app == a && s.jobs[i].stage.Launched?)
  }

  /** A thread that has read the primary domain for an app that exists, or a rename that would put a running app's row
      back. */
  predicate HoldsDomain(s: System, job: Job) {
    && job.app in s.rows
    && (job.stage.HasDomain? || job.stage.Launching? || job.stage.Launched?
        || (job.stage.Renaming? && job.stage.prior.Running?))
  }

  predicate SafeToPromote(s: System) { forall i :: 0 <= i < |s.jobs| ==> !HoldsDomain(s, s.jobs[i]) }

  /** A restart of the app may join what is at work on it. */
  predicate MayResume(s: System, a: Id) {
    forall i :: 0 <= i < |s.jobs| && s.jobs[i].app == a ==>
      Harmless(s.jobs[i]) && UsesPrimary(s, s.jobs[i].stage.container)
  }

  /** A rename of the app may. */
  predicate MayRename(s: System, a: Id)
    requires a in s.rows
  {
    forall i :: 0 <= i < |s.jobs| && s.jobs[i].app == a ==>
      && !WasUp(s.rows[a].status) && !s.jobs[i].stage.Launched?
      && (Harmless(s.jobs[i]) || (Bound(s.jobs[i]) && UsesPrimary(s, s.rows[a].container)))
  }

  /** What the theorem asks. An app is not reloaded, restarted or renamed on top of what is at work on it, but for a few
      harmless cases; it is not stopped, by an operator or by the storage guard, while a thread waits for its container;
      no promotion is committed while some thread holds the domain; and an installation, taken as one step, launches
      with the primary domain. All but the last are exact: see `PromotionSafeExactly`, `StopSafeExactly` and the module
      `AppConflicts`. */
  ghost predicate Disciplined(s: System, e: Event) {
    match e
    case Installs(a, row, domain) =>
      && Idle(s, a) && (row.status.Building? ==> row.container == None) && (row.status.Running? ==> row.container.Some?)
      && (row.container.Some? ==> domain == Some(s.primary) && row.container.value !in s.containers)
    case Reloads(a) => Idle(s, a)
    case RenameStarts(a) => a in s.rows && MayRename(s, a)
    case ArchiveResumes(a) => MayResume(s, a)
    case Stops(a) => NoneWaiting(s, a)
    case GuardStops(a) => NoneWaiting(s, a)
    case Promotes(_) => SafeToPromote(s)
    case _ => true
  }

  ghost predicate AllDisciplined(s: System, events: seq<Event>)
    requires Possible(s, events)
    decreases |events|
  {
    events == [] || (Disciplined(s, events[0]) && AllDisciplined(Step(s, events[0]), events[1..]))
  }

  // ---------------------------------------------------------------- one step keeps the invariant

  /** The primary domain stays, and containers keep their domains. */
  ghost predicate SameDomains(s: System, s': System) {
    && s'.primary == s.primary
    && forall c :: c in s.containers ==> c in s'.containers && s'.containers[c].domain == s.containers[c].domain
  }

  /** Nothing but app `a` changes on the way. */
  ghost predicate OnlyApp(s: System, s': System, a: Id) {
    && SameDomains(s, s') && s'.archiveBusy == s.archiveBusy
    && (forall b :: b != a && b in s'.rows ==> b in s.rows && s'.rows[b] == s.rows[b])
    && (forall i :: 0 <= i < |s'.jobs| && s'.jobs[i].app != a ==> s'.jobs[i] in s.jobs)
  }

  /** What of the app's own jobs needs no second look: the renames that were there, and all of them once it is gone. */
  lemma {:induction false} OnlyAppKeeps(s: System, s': System, a: Id)
    requires Inv(s) && OnlyApp(s, s', a) && Together(s') && RowOk(s', a)
    requires forall i :: 0 <= i < |s'.jobs| && s'.jobs[i].app == a ==>
      (s'.jobs[i] in s.jobs && (a in s'.rows ==> a in s.rows && s'.jobs[i].stage.Renaming?)) || JobOk(s', s'.jobs[i])
    ensures Inv(s')
  {
    hide Together;
    forall b | b in s'.rows ensures RowOk(s', b) {
      if b != a { assert RowOk(s, b); }
    }
    forall i | 0 <= i < |s'.jobs| ensures JobOk(s', s'.jobs[i]) {
      if s'.jobs[i].app != a || (s'.jobs[i] in s.jobs && (a in s'.rows ==> a in s.rows && s'.jobs[i].stage.Renaming?)) {
        var k :| 0 <= k < |s.jobs| && s.jobs[k] == s'.jobs[i];
        assert JobOk(s, s.jobs[k]);
      }
    }
  }

  lemma {:induction false} StillCompatible(s: System, s': System, x: Job, y: Job)
    requires Compatible(s, x, y) && SameDomains(s, s')
    ensures Compatible(s', x, y)
  {
  }

  lemma {:induction false} SameJobsTogether(s: System, s': System)
    requires Together(s) && SameDomains(s, s') && s'.rows.Keys <= s.rows.Keys && s'.jobs == s.jobs
    ensures Together(s')
  {
    hide Compatible, SameDomains;
    forall i, k | Meet(s', i, k) ensures Compatible(s', s.jobs[i], s.jobs[k]) {
      assert Meet(s, i, k);
      StillCompatible(s, s', s.jobs[i], s.jobs[k]);
    }
  }

  lemma {:induction false} DroppedTogether(s: System, s': System, i: nat)
    requires i < |s.jobs| && Together(s) && SameDomains(s, s') && s'.rows.Keys <= s.rows.Keys
    requires s'.jobs == DropJob(s.jobs, i)
    ensures Together(s') && forall k :: 0 <= k < |s'.jobs| ==> s'.jobs[k] in s.jobs
    ensures forall k :: 0 <= k < |s'.jobs| && s'.jobs[k].app == s.jobs[i].app && s'.jobs[k].app in s.rows ==>
      Compatible(s, s.jobs[i], s'.jobs[k])
  {
    hide Compatible, SameDomains;
    forall k, l | Meet(s', k, l) ensures Compatible(s', s'.jobs[k], s'.jobs[l]) {
      assert Meet(s, if k < i then k else k + 1, if l < i then l else l + 1);
      StillCompatible(s, s', s.jobs[if k < i then k else k + 1], s.jobs[if l < i then l else l + 1]);
    }
    forall k | 0 <= k < |s'.jobs| && s'.jobs[k].app == s.jobs[i].app && s'.jobs[k].app in s.rows
      ensures Compatible(s, s.jobs[i], s'.jobs[k])
    {
      assert Meet(s, i, if k < i then k else k + 1);
      assert s'.jobs[k] == s.jobs[if k < i then k else k + 1];
    }
  }

  lemma {:induction false} ChangedTogether(s: System, s': System, i: nat, job: Job)
    requires i < |s.jobs| && Together(s) && SameDomains(s, s') && s'.rows.Keys <= s.rows.Keys
    requires s'.jobs == s.jobs[i := job] && job.app == s.jobs[i].app
    requires !Harmless(s.jobs[i]) && (Bound(s.jobs[i]) ==> Bound(job))
    ensures Together(s')
    ensures forall k :: 0 <= k < |s'.jobs| && k != i && s'.jobs[k].app == job.app && job.app in s.rows ==>
      s'.jobs[k] in s.jobs && Harmless(s'.jobs[k])
  {
    assert forall k :: 0 <= k < |s.jobs| && k != i && s.jobs[k].app == job.app && job.app in s.rows ==> Meet(s, i, k);
    hide SameDomains, UsesPrimary, Harmless, Bound;
    forall k, l | Meet(s', k, l) ensures Compatible(s', s'.jobs[k], s'.jobs[l]) {
      assert Meet(s, k, l);
      StillCompatible(s, s', s.jobs[k], s.jobs[l]);
    }
  }

  lemma {:induction false} JoinedTogether(s: System, s': System, job: Job)
    requires Together(s) && SameDomains(s, s') && s'.rows.Keys <= s.rows.Keys && s'.jobs == s.jobs + [job]
    requires forall i :: 0 <= i < |s.jobs| && s.jobs[i].app == job.app ==> Compatible(s, s.jobs[i], job)
    ensures Together(s')
  {
    hide SameDomains, UsesPrimary, Harmless, Bound;
    var n := |s.jobs|;
    forall k, l | Meet(s', k, l) ensures Compatible(s', s'.jobs[k], s'.jobs[l]) {
      assert k < n && l < n ==> Meet(s, k, l);
      if k < n { StillCompatible(s, s', s.jobs[k], s'.jobs[l]); } else { StillCompatible(s, s', s.jobs[l], job); }
    }
  }

  lemma {:induction false} FailingStays(s: System, i: nat, report: Note, cleaned: bool)
    requires i < |s.jobs|
    ensures var s', a := Failing(s, i, report, cleaned), s.jobs[i].app;
      && s'.jobs == DropJob(s.jobs, i) && s'.primary == s.primary && s'.archiveBusy == s.archiveBusy
      && (s'.containers == s.containers
          || (s.jobs[i].stage.Launched? && s'.containers == Dead(s.containers, {s.jobs[i].stage.id})))
      && (if a in s.rows then a in s'.rows && s'.rows[a].status.Failed? && s'.rows == s.rows[a := s'.rows[a]]
          else s'.rows == s.rows)
  {
    hide DropJob, Dead, RowOf;
  }

  lemma {:induction false} FailingKeeps(s: System, i: nat, report: Note, cleaned: bool)
    requires Inv(s) && i < |s.jobs| && !s.jobs[i].stage.Renaming?
    ensures Inv(Failing(s, i, report, cleaned))
  {
    hide Together, JobOk, DropJob, Failing;
    FailingStays(s, i, report, cleaned);
    DroppedTogether(s, Failing(s, i, report, cleaned), i);
    OnlyAppKeeps(s, Failing(s, i, report, cleaned), s.jobs[i].app);
  }

  predicate CanProceed(s: System, i: nat, id: ContainerId) {
    && i < |s.jobs| && !s.jobs[i].stage.Renaming? && !s.jobs[i].stage.Launched?
    && (s.jobs[i].stage.Launching? ==> id !in s.containers)
  }

  lemma {:induction false} ProceedingStays(s: System, i: nat, id: ContainerId)
    requires CanProceed(s, i, id)
    ensures var s', a := TakeTurn(s, i, Proceeds(id)), s.jobs[i].app;
      && |s'.jobs| == |s.jobs| && s'.jobs == s.jobs[i := s'.jobs[i]] && s'.jobs[i].app == a
      && s'.primary == s.primary && s'.archiveBusy == s.archiveBusy
      && (Bound(s.jobs[i]) ==> Bound(s'.jobs[i]))
  {
    hide MarkedStarting, RowOf;
  }

  lemma {:induction false} ProceedingSpares(s: System, i: nat, id: ContainerId)
    requires CanProceed(s, i, id)
    ensures var s', a := TakeTurn(s, i, Proceeds(id)), s.jobs[i].app;
      && (forall c :: c in s.containers ==> c in s'.containers && s'.containers[c] == s.containers[c])
      && (forall b :: b in s'.rows ==> b in s.rows && (b != a ==> s'.rows[b] == s.rows[b]))
  {
    hide MarkedStarting, RowOf;
  }

  lemma {:induction false} ProceedingOwn(s: System, i: nat, id: ContainerId)
    requires CanProceed(s, i, id)
    requires JobOk(s, s.jobs[i]) && RowOk(s, s.jobs[i].app)
    ensures var s' := TakeTurn(s, i, Proceeds(id));
      i < |s'.jobs| && RowOk(s', s.jobs[i].app) && JobOk(s', s'.jobs[i])
  {
  }

  lemma {:induction false} ProceedingKeeps(s: System, i: nat, id: ContainerId)
    requires Inv(s) && Enabled(s, Turns(i, Proceeds(id)))
    ensures Inv(TakeTurn(s, i, Proceeds(id)))
  {
    hide TakeTurn, JobOk, RowOk, Together, UsesPrimary;
    var job, s' := s.jobs[i], TakeTurn(s, i, Proceeds(id));
    assert JobOk(s, job) && (job.app in s.rows ==> RowOk(s, job.app)) by { hide *; InvAt(s, i); }
    if !job.stage.Launched? {
      ProceedingStays(s, i, id);
      ProceedingSpares(s, i, id);
      ProceedingOwn(s, i, id);
      ChangedTogether(s, s', i, s'.jobs[i]);
      OnlyAppKeeps(s, s', job.app);
    } else {
      assert s' == s by { hide *; NothingToProceed(s, i, id); }
    }
  }

  lemma {:induction false} InvAt(s: System, i: nat)
    requires Inv(s) && i < |s.jobs|
    ensures JobOk(s, s.jobs[i]) && (s.jobs[i].app in s.rows ==> RowOk(s, s.jobs[i].app))
  {
    hide JobOk, RowOk, Together;
  }

  lemma {:induction false} NothingToProceed(s: System, i: nat, id: ContainerId)
    requires i < |s.jobs| && s.jobs[i].stage.Launched?
    ensures TakeTurn(s, i, Proceeds(id)) == s
  {
  }

  lemma {:induction false} TurnKeeps(s: System, i: nat, turn: Turn)
    requires Inv(s) && Enabled(s, Turns(i, turn))
    ensures Inv(TakeTurn(s, i, turn))
  {
    var job, s' := s.jobs[i], TakeTurn(s, i, turn);
    assert JobOk(s, job);
    match turn
    case Raises(report, cleaned) => FailingKeeps(s, i, report, cleaned); hide *;
    case Proceeds(id) => ProceedingKeeps(s, i, id); hide *;
    case _ =>
      if job.stage.Launched? {
        DroppedTogether(s, s', i);
        OnlyAppKeeps(s, s', job.app);
      }
      hide Together, Failing, DropJob;
  }

  // ---------------------------------------------------------------- renames and operators

  lemma {:induction false} RenameEndKeeps(s: System, i: nat, moved: bool)
    requires Inv(s) && Enabled(s, RenameEnds(i, moved))
    ensures Inv(EndRename(s, i, moved))
  {
    var job, s' := s.jobs[i], EndRename(s, i, moved);
    assert JobOk(s, job) && (job.app in s.rows ==> RowOk(s, job.app));
    hide Together, DropJob;
    if moved && WasUp(job.stage.prior) {
      ChangedTogether(s, s', i, job.(stage := Called(true)));
    } else {
      DroppedTogether(s, s', i);
      PutBackKeeps(s, s', i);
    }
    OnlyAppKeeps(s, s', job.app);
  }

  /** A rename that ends leaves what is left of the app's jobs in order. */
  lemma {:induction false} PutBackKeeps(s: System, s': System, i: nat)
    requires Inv(s) && i < |s.jobs| && s.jobs[i].stage.Renaming? && SameDomains(s, s') &&
      s'.archiveBusy == s.archiveBusy
    requires forall k :: 0 <= k < |s'.jobs| ==> s'.jobs[k] in s.jobs
    requires s'.rows == s.rows || (s.jobs[i].app in s.rows && s'.rows == s.rows[s.jobs[i].app :=
      s.rows[s.jobs[i].app].(status := s.jobs[i].stage.prior, container := s.jobs[i].stage.container)])
    requires forall k :: 0 <= k < |s'.jobs| && s'.jobs[k].app == s.jobs[i].app && s'.jobs[k].app in s.rows ==>
      Compatible(s, s.jobs[i], s'.jobs[k])
    ensures forall k :: 0 <= k < |s'.jobs| && s'.jobs[k].app == s.jobs[i].app ==> JobOk(s', s'.jobs[k])
  {
    hide Together;
    forall k | 0 <= k < |s'.jobs| && s'.jobs[k].app == s.jobs[i].app ensures JobOk(s', s'.jobs[k]) {
      var l :| 0 <= l < |s.jobs| && s.jobs[l] == s'.jobs[k];
      assert JobOk(s, s.jobs[l]);
    }
  }

  /** A job that may join what is at work on its app. */
  lemma {:induction false} NewJobKeeps(s: System, e: Event, a: Id)
    requires Inv(s) && Enabled(s, e) && Disciplined(s, e)
    requires e == Reloads(a) || e == RenameStarts(a) || e == ArchiveResumes(a)
    ensures Inv(Step(s, e))
  {
    hide Together;
    var s' := Step(s, e);
    var n := |s.jobs|;
    assert RowOk(s, a);
    assert s'.jobs == s.jobs + [s'.jobs[n]] && s'.jobs[n].app == a;
    JoinedTogether(s, s', s'.jobs[n]);
    forall i | 0 <= i < |s'.jobs| && s'.jobs[i].app == a
      ensures (s'.jobs[i] in s.jobs && s'.jobs[i].stage.Renaming?) || JobOk(s', s'.jobs[i])
    {
      if i < n { assert JobOk(s, s.jobs[i]); }
    }
    OnlyAppKeeps(s, s', a);
  }

  /** A change of the row alone, with a thread of the app at work or not. */
  lemma {:induction false} RowChangeKeeps(s: System, e: Event, a: Id)
    requires Inv(s) && Enabled(s, e) && Disciplined(s, e)
    requires e == Stops(a) || e == GuardStops(a) || e == RemoveStarts(a) || (e.RemoveEnds? && e.app == a)
    ensures Inv(Step(s, e))
  {
    hide Together;
    var s' := Step(s, e);
    assert RowOk(s, a) && s'.jobs == s.jobs;
    assert forall i :: 0 <= i < |s.jobs| ==> JobOk(s, s.jobs[i]);
    SameJobsTogether(s, s');
    OnlyAppKeeps(s, s', a);
  }

  lemma {:induction false} InstallKeeps(s: System, a: Id, row: Row, domain: Option<string>)
    requires Inv(s) && Enabled(s, Installs(a, row, domain)) && Disciplined(s, Installs(a, row, domain))
    ensures Inv(Step(s, Installs(a, row, domain)))
  {
    hide JobOk;
    var s' := Step(s, Installs(a, row, domain));
    forall i, k | Meet(s', i, k) ensures Compatible(s', s'.jobs[i], s'.jobs[k]) {
      assert Meet(s, i, k);
      StillCompatible(s, s', s.jobs[i], s.jobs[k]);
    }
    OnlyAppKeeps(s, s', a);
  }

  // ---------------------------------------------------------------- promotions, boots and the rest

  lemma {:induction false} PromotionKeeps(s: System, to: string)
    requires Inv(s) && !s.archiveBusy && SafeToPromote(s)
    ensures Inv(Promote(s, to))
  {
    if Accepts(s, to) {
      var s' := Promote(s, to);
      forall i | 0 <= i < |s'.jobs| ensures JobOk(s', s'.jobs[i]) {
        assert JobOk(s, s.jobs[i]) && !HoldsDomain(s, s.jobs[i]);
      }
      forall i, k | Meet(s', i, k) ensures Compatible(s', s'.jobs[i], s'.jobs[k]) {
        assert Meet(s, i, k) && JobOk(s, s.jobs[i]) && JobOk(s, s.jobs[k]);
        assert !HoldsDomain(s, s.jobs[i]) && !HoldsDomain(s, s.jobs[k]);
      }
      assert forall a :: a in s'.rows ==> RowOk(s', a);
    }
  }

  lemma {:induction false} BootKeeps(s: System, start: int, ids: seq<Id>)
    requires Inv(s) && Enabled(s, Boots(start, ids))
    ensures Inv(BootSystem(s, start, ids))
  {
    var s' := BootSystem(s, start, ids);
    QueueIs(s.rows, s.containers, start, ids);
    var queue := BootQueue(s.rows, s.containers, start, ids);
    assert forall i :: 0 <= i < |queue| ==> s'.jobs[i].app == Ids(queue)[i];
    forall a | a in s.rows ensures RowOk(s', a) {
      assert RowOk(s, a);
      if Active(s.rows[a]) { CheckCases(s.rows[a], Alive(s.containers, s.rows[a]), start); }
      hide BootQueue, Ids;
    }
    forall i | 0 <= i < |s'.jobs| ensures JobOk(s', s'.jobs[i]) {
      var a := s'.jobs[i].app;
      assert a in Ids(queue);
      EveryoneIsSorted(s.rows, s.containers, start, ids, a);
      hide BootQueue, AllBooted, Alive;
    }
    assert forall i, k :: Meet(s', i, k) ==> Ids(queue)[i] == Ids(queue)[k];
    assert Together(s');
    hide BootQueue, AllBooted;
  }

  lemma {:induction false} StepKeeps(s: System, e: Event)
    requires Inv(s) && Enabled(s, e) && Disciplined(s, e)
    ensures Inv(Step(s, e))
  {
    match e
    case Turns(i, turn) => TurnKeeps(s, i, turn); hide TakeTurn, Inv;
    case RenameEnds(i, moved) => RenameEndKeeps(s, i, moved); hide EndRename, Inv;
    case Installs(a, row, domain) => InstallKeeps(s, a, row, domain); hide *;
    case Promotes(to) => PromotionKeeps(s, to); hide Promote, Inv;
    case Boots(start, ids) => BootKeeps(s, start, ids); hide BootSystem, Inv;
    case Reloads(a) => NewJobKeeps(s, e, a); hide Inv;
    case RenameStarts(a) => NewJobKeeps(s, e, a); hide Inv;
    case ArchiveResumes(a) => NewJobKeeps(s, e, a); hide Inv;
    case Stops(a) => RowChangeKeeps(s, e, a); hide Inv;
    case GuardStops(a) => RowChangeKeeps(s, e, a); hide Inv;
    case RemoveStarts(a) => RowChangeKeeps(s, e, a); hide Inv;
    case RemoveEnds(a, _) => RowChangeKeeps(s, e, a); hide Inv;
    case ArchiveStarts => SameAppsKeep(s, Step(s, e));
    case ArchiveEnds => SameAppsKeep(s, Step(s, e));
    case ContainersStop(_) => SameAppsKeep(s, Step(s, e));
    case Crashes =>
      assert Step(s, e).jobs == [] && Together(Step(s, e));
      assert forall a :: a in s.rows ==> RowOk(s, a) && RowOk(Step(s, e), a);
  }

  lemma {:induction false} SameAppsKeep(s: System, s': System)
    requires Inv(s) && s'.rows == s.rows && s'.jobs == s.jobs && s'.primary == s.primary
    requires forall c :: c in s.containers ==> c in s'.containers && s'.containers[c].domain == s.containers[c].domain
    requires s.archiveBusy && !s'.archiveBusy ==> forall i :: 0 <= i < |s.jobs| ==> !s.jobs[i].byArchive
    ensures Inv(s')
  {
    hide Together;
    SameJobsTogether(s, s');
    forall a | a in s'.rows ensures RowOk(s', a) { assert RowOk(s, a); }
    forall i | 0 <= i < |s'.jobs| ensures JobOk(s', s'.jobs[i]) { assert JobOk(s, s.jobs[i]); }
  }

  // ---------------------------------------------------------------- promotion reaches every app

  lemma {:induction false} InvIsEnough(s: System)
    requires Inv(s)
    ensures AllUpToDate(s)
  {
    assert forall a :: a in s.rows ==> RowOk(s, a);
  }

  /** Where a run may begin: a new instance; and one at rest, whose apps that say running have an up-to-date
      container. */
  lemma {:induction false} RestSatisfies(s: System)
    requires s.jobs == [] && forall a :: a in s.rows ==>
      (s.rows[a].status.Running? ==> UsesPrimary(s, s.rows[a].container)) && !s.rows[a].status.Building?
    ensures Inv(s)
  {
  }

  /** In every state of every disciplined run, across crashes, power losses and boots at any point, an app that says
      running has a container launched with the current primary domain. */
  lemma {:induction false} PromotionReachesEveryApp(s: System, events: seq<Event>)
    requires Inv(s) && Possible(s, events) && AllDisciplined(s, events)
    ensures Inv(RunAll(s, events)) && AllUpToDate(RunAll(s, events))
    decreases |events|
  {
    if events == [] {
      InvIsEnough(s);
    } else {
      StepKeeps(s, events[0]);
      PromotionReachesEveryApp(Step(s, events[0]), events[1..]);
      hide Inv, Step, Enabled, Disciplined, AllUpToDate;
    }
  }

  ghost predicate StaysUpToDate(s: System, events: seq<Event>) {
    Possible(s, events) && AllDisciplined(s, events) ==> AllUpToDate(RunAll(s, events))
  }

  lemma {:induction false} KeptStaysUpToDate(s: System)
    requires Inv(s)
    ensures forall events :: StaysUpToDate(s, events)
  {
    hide Inv, Possible, AllDisciplined, AllUpToDate;
    forall events ensures StaysUpToDate(s, events) {
      if Possible(s, events) && AllDisciplined(s, events) { PromotionReachesEveryApp(s, events); }
    }
  }

  /** What a thread holds, or waits for, or would put back, is not up to date. */
  predicate Outdated(s: System, job: Job) {
    match job.stage
    case HasDomain(domain) => domain != s.primary
    case Launching(domain) => domain != s.primary
    case Launched(_) => job.app in s.rows && !UsesPrimary(s, s.rows[job.app].container)
    case Renaming(_, container) => !UsesPrimary(s, container)
    case _ => false
  }

  /** A thread with a domain that is not the primary one takes its turns, and the app says running with that domain. */
  lemma {:induction false} SaysRunning(s: System, i: nat) returns (events: seq<Event>)
    requires i < |s.jobs| && HoldsDomain(s, s.jobs[i]) && Outdated(s, s.jobs[i])
    ensures Possible(s, events) && AllDisciplined(s, events) && !AllUpToDate(RunAll(s, events))
    decreases if s.jobs[i].stage.HasDomain? then 2 else if s.jobs[i].stage.Launching? then 1 else 0
  {
    var n := LongerThan(s.containers.Keys);
    var id := seq(n, k => 'x');
    assert id !in s.containers;
    var e := if s.jobs[i].stage.Renaming? then RenameEnds(i, false)
             else if s.jobs[i].stage.Launched? then Turns(i, Answers) else Turns(i, Proceeds(id));
    var s' := Step(s, e);
    if s.jobs[i].stage.HasDomain? || s.jobs[i].stage.Launching? {
      events := SaysRunning(s', i);
    } else {
      var a := s.jobs[i].app;
      assert s'.rows[a].status.Running? && !UsesPrimary(s', s'.rows[a].container);
      events := [];
      assert RunAll(s', events) == s';
    }
    FirstStep(s, e, events);
    FirstStepDisciplined(s, e, events);
    events := [e] + events;
    hide Step, Enabled, Possible, AllDisciplined, AllUpToDate, RunAll;
  }

  lemma {:induction false} FirstStepDisciplined(s: System, e: Event, rest: seq<Event>)
    requires Enabled(s, e) && Disciplined(s, e) && Possible(Step(s, e), rest) && AllDisciplined(Step(s, e), rest)
    ensures Possible(s, [e] + rest) && AllDisciplined(s, [e] + rest)
  {
    FirstStep(s, e, rest);
    assert ([e] + rest)[1..] == rest;
    hide Enabled, Step, Disciplined;
  }

  /** A promotion the app rows accept is safe, whatever follows, if and only if no thread holds the domain for an app
      still in the table, and no rename of a running app is between its stop and its outcome. The rows cannot tell: a
      stop takes an app out of starting while its thread goes on, and a rename that fails puts the row back to running
      with the old container behind the promotion's back. */
  lemma {:induction false} PromotionSafeExactly(s: System, to: string)
    requires Inv(s) && !s.archiveBusy && Accepts(s, to)
    ensures (forall events :: StaysUpToDate(Promote(s, to), events)) <==> SafeToPromote(s)
  {
    var s' := Promote(s, to);
    if SafeToPromote(s) {
      PromotionKeeps(s, to);
      KeptStaysUpToDate(s');
    } else {
      var i :| 0 <= i < |s.jobs| && HoldsDomain(s, s.jobs[i]);
      assert JobOk(s, s.jobs[i]);
      var events := SaysRunning(s', i);
      assert !StaysUpToDate(s', events);
    }
  }

  /** A stop by an operator or by the storage guard is safe, whatever follows, if and only if no thread waits for the
      app's container: otherwise the thread goes on to say running for a row without one. */
  lemma {:induction false} StopSafeExactly(s: System, e: Event, a: Id)
    requires Inv(s) && Enabled(s, e) && (e == Stops(a) || e == GuardStops(a))
    ensures (forall events :: StaysUpToDate(Step(s, e), events)) <==> NoneWaiting(s, a)
  {
    var s' := Step(s, e);
    if NoneWaiting(s, a) {
      RowChangeKeeps(s, e, a);
      KeptStaysUpToDate(s');
    } else {
      var i :| 0 <= i < |s.jobs| && s.jobs[i].app == a && s.jobs[i].stage.Launched?;
      var events := SaysRunning(s', i);
      assert !StaysUpToDate(s', events);
    }
  }

  /** How a promotion gets past the rows: an app stopped between reading the domain and its launch, by an operator or
      for want of disk space, no longer holds it back, and the thread then says running with the old domain. */
  lemma {:induction false} StopDuringLaunch(s: System, e: Event, a: Id, i: nat, to: string) returns (events: seq<Event>)
    requires Inv(s) && Enabled(s, e) && (e == Stops(a) || e == GuardStops(a)) && to != s.primary && !s.archiveBusy
    requires i < |s.jobs| && s.jobs[i].app == a && (s.jobs[i].stage.HasDomain? || s.jobs[i].stage.Launching?)
    requires forall b :: b in s.rows && b != a ==> !BusyForPromotion(s.rows[b])
    ensures Disciplined(s, e) && Accepts(Step(s, e), to)
    ensures var s' := Promote(Step(s, e), to);
      Possible(s', events) && AllDisciplined(s', events) && !AllUpToDate(RunAll(s', events))
  {
    assert JobOk(s, s.jobs[i]);
    assert NoneWaiting(s, a) by {
      forall k | 0 <= k < |s.jobs| && s.jobs[k].app == a ensures !s.jobs[k].stage.Launched? {
        assert k != i ==> Meet(s, k, i);
      }
    }
    events := SaysRunning(Promote(Step(s, e), to), i);
  }

  lemma {:induction false} FirstStep(s: System, e: Event, rest: seq<Event>)
    requires Enabled(s, e) && Possible(Step(s, e), rest)
    ensures Possible(s, [e] + rest) && RunAll(s, [e] + rest) == RunAll(Step(s, e), rest)
  {
    assert ([e] + rest)[1..] == rest;
    hide Enabled, Step;
  }

  // ---------------------------------------------------------------- the marker carries the intent

  /** An operator stops, renames or removes the app itself. */
  predicate Touches(s: System, e: Event, a: Id) {
    || e == Stops(a) || e == RenameStarts(a) || e == RemoveStarts(a) || (e.RemoveEnds? && e.app == a)
    || (e.RenameEnds? && e.job < |s.jobs| && s.jobs[e.job].app == a)
  }

  lemma {:induction false} MarkerStays(s: System, e: Event, a: Id)
    requires a in s.rows && Promoted(s.rows[a]) && Enabled(s, e) && !Touches(s, e, a)
    ensures var s' := Step(s, e);
      a in s'.rows && (Promoted(s'.rows[a]) || s'.rows[a].status.Running? || s'.rows[a].status.Failed?)
  {
    match e
    case Boots(start, ids) => MarkerStaysAtBoot(s, start, ids, a); hide *;
    case Turns(i, turn) => MarkerStaysInTurn(s, i, turn, a); hide *;
    case RenameEnds(i, moved) => hide DropJob;
    case _ => hide TakeTurn, BootSystem, EndRename, Accepts;
  }

  lemma {:induction false} MarkerStaysAtBoot(s: System, start: int, ids: seq<Id>, a: Id)
    requires a in s.rows && Promoted(s.rows[a]) && Enabled(s, Boots(start, ids))
    ensures var s' := Step(s, Boots(start, ids));
      a in s'.rows && (Promoted(s'.rows[a]) || s'.rows[a].status.Running? || s'.rows[a].status.Failed?)
  {
    hide BootQueue, JobsFor, Recoverable;
    CheckCases(s.rows[a], Alive(s.containers, s.rows[a]), start);
  }

  lemma {:induction false} MarkerStaysInTurn(s: System, i: nat, turn: Turn, a: Id)
    requires a in s.rows && Promoted(s.rows[a]) && Enabled(s, Turns(i, turn))
    ensures var s' := Step(s, Turns(i, turn));
      a in s'.rows && (Promoted(s'.rows[a]) || s'.rows[a].status.Running? || s'.rows[a].status.Failed?)
  {
    hide Failing, DropJob;
    if turn.Raises? { FailingStays(s, i, turn.report, turn.cleaned); }
  }

  ghost predicate NeverTouched(s: System, events: seq<Event>, a: Id)
    requires Possible(s, events)
    decreases |events|
  {
    events == [] || (!Touches(s, events[0], a) && NeverTouched(Step(s, events[0]), events[1..], a))
  }

  /** At some state of the run the app is running or failed. */
  ghost predicate ComesToRest(s: System, events: seq<Event>, a: Id)
    requires Possible(s, events)
    decreases |events|
  {
    || (a in s.rows && (s.rows[a].status.Running? || s.rows[a].status.Failed?))
    || (events != [] && ComesToRest(Step(s, events[0]), events[1..], a))
  }

  /** Over any run at all, an app a promotion has marked keeps its status and its marker, through crashes and boots,
      until it is running or failed, unless an operator stops, renames or removes it. */
  lemma {:induction false} MarkedUntilAtRest(s: System, events: seq<Event>, a: Id)
    requires Possible(s, events) && NeverTouched(s, events, a) && a in s.rows && Promoted(s.rows[a])
    ensures ComesToRest(s, events, a) || (a in RunAll(s, events).rows && Promoted(RunAll(s, events).rows[a]))
    decreases |events|
  {
    if events != [] {
      MarkerStays(s, events[0], a);
      var s' := Step(s, events[0]);
      if Promoted(s'.rows[a]) { MarkedUntilAtRest(s', events[1..], a); }
      hide Step, Enabled, Touches;
    }
  }

  // ---------------------------------------------------------------- a promotion, a crash and a boot

  /** An app that said running, or failed with a container it might still have, when a promotion was accepted, and that
      can be recovered: after the crash that follows, with whatever containers survive it, the boot queues it among the
      promoted, before the server starts, and its launch settles it on the new domain. */
  lemma {:induction false} PromotionBringsBack(s: System, to: string, which: set<ContainerId>, start: int, ids: seq<Id>,
                                               outcomes: seq<Outcome>, a: Id) returns (i: nat)
    requires !s.archiveBusy && Accepts(s, to) && Lists(ids, s.rows) && a in s.rows
    requires s.rows[a].status.Running? || (s.rows[a].status.Failed? && s.rows[a].container.Some?)
    requires s.rows[a].hasRepo || (s.rows[a].hasManifest && s.rows[a].hasImage)
    requires var stopped := Step(Step(Step(s, Promotes(to)), ContainersStop(which)), Crashes);
      && Lists(ids, stopped.rows) && |outcomes| == |BootQueue(stopped.rows, stopped.containers, start, ids)|
      && FreshIds(stopped.containers, outcomes) && SaneReports(outcomes)
    ensures var stopped := Step(Step(Step(s, Promotes(to)), ContainersStop(which)), Crashes);
      && Lists(ids, stopped.rows) && Enabled(stopped, Boots(start, ids)) && stopped.primary == to
      && var booted, queue := Step(stopped, Boots(start, ids)), BootQueue(stopped.rows, stopped.containers, start, ids);
      && i < |queue| && queue[i] == (a, !s.rows[a].hasImage) && a in booted.rows
      && i < |QueueOf(stopped.rows, stopped.containers, start, ids, true)|
      && Promoted(booted.rows[a])
      && var end := Swept(World(booted.rows, booted.containers), to, queue, outcomes);
      && a in end.rows && LaunchTold(booted.rows[a], end.rows[a], end.containers, to, outcomes[i])
      && (end.rows[a].status.Running? <==> outcomes[i].Serving?)
  {
    hide Accepts, BootQueue, QueueOf, Swept, AllBooted, Alive, LaunchTold, Lists, FreshIds, SaneReports;
    PromotedAndCrashed(s, to, which, a);
    var stopped := Step(Step(Step(s, Promotes(to)), ContainersStop(which)), Crashes);
    i := BootBringsBack(stopped.rows, stopped.containers, to, start, ids, outcomes, a);
  }

  lemma {:induction false} PromotedAndCrashed(s: System, to: string, which: set<ContainerId>, a: Id)
    requires !s.archiveBusy && Accepts(s, to) && a in s.rows
    requires s.rows[a].status.Running? || (s.rows[a].status.Failed? && s.rows[a].container.Some?)
    ensures var stopped := Step(Step(Step(s, Promotes(to)), ContainersStop(which)), Crashes);
      && stopped.rows.Keys == s.rows.Keys && stopped.primary == to && stopped.jobs == [] && !stopped.archiveBusy
      && stopped.rows[a] == s.rows[a].(status := Starting, note := PromotionMarker)
  {
    hide Dead;
    assert Step(s, Promotes(to)).rows == map b | b in s.rows :: HandedOver(s.rows[b]);
  }

  lemma {:induction false} BootBringsBack(rows: Rows, containers: Containers, primary: string, start: int, ids: seq<Id>,
                                          outcomes: seq<Outcome>, a: Id) returns (i: nat)
    requires Lists(ids, rows) && |outcomes| == |BootQueue(rows, containers, start, ids)|
    requires FreshIds(containers, outcomes) && SaneReports(outcomes)
    requires a in rows && Promoted(rows[a]) && (rows[a].hasRepo || (rows[a].hasManifest && rows[a].hasImage))
    ensures var booted, queue := AllBooted(rows, containers, start), BootQueue(rows, containers, start, ids);
      && i < |queue| && queue[i] == (a, !rows[a].hasImage) && a in booted && Promoted(booted[a])
      && i < |QueueOf(rows, containers, start, ids, true)|
      && var end := Swept(World(booted, containers), primary, queue, outcomes);
      && a in end.rows && LaunchTold(booted[a], end.rows[a], end.containers, primary, outcomes[i])
      && (end.rows[a].status.Running? <==> outcomes[i].Serving?)
  {
    hide BootQueue, QueueOf, Swept, AllBooted, Alive, FreshIds, SaneReports, LaunchTold;
    EveryoneIsSorted(rows, containers, start, ids, a);
    i := FirstInQueue(rows, containers, start, ids, a);
    QueueIs(rows, containers, start, ids);
    RebuiltExactly(rows, containers, start, ids, i);
    BootedSame(rows, containers, start);
    var booted, queue := AllBooted(rows, containers, start), BootQueue(rows, containers, start, ids);
    SweepTold(World(booted, containers), primary, queue, outcomes, i);
    var end := Swept(World(booted, containers), primary, queue, outcomes);
    RunningTold(booted[a], end.rows[a], end.containers, primary, outcomes[i]);
  }

  lemma {:induction false} RunningTold(before: Row, after: Row, containers: Containers, primary: string,
      outcome: Outcome)
    requires LaunchTold(before, after, containers, primary, outcome)
    ensures after.status.Running? <==> outcome.Serving?
  {
  }

  lemma {:induction false} BootedSame(rows: Rows, containers: Containers, start: int)
    ensures AllBooted(rows, containers, start).Keys == rows.Keys
  {
  }

  lemma {:induction false} FirstInQueue(rows: Rows, containers: Containers, start: int, ids: seq<Id>, a: Id)
    returns (i: nat)
    requires Lists(ids, rows) && a in Ids(QueueOf(rows, containers, start, ids, true))
    ensures i < |QueueOf(rows, containers, start, ids, true)| && i < |BootQueue(rows, containers, start, ids)|
    ensures BootQueue(rows, containers, start, ids)[i].0 == a
  {
    hide QueueOf, CorruptOf;
    var queue := QueueOf(rows, containers, start, ids, true);
    i :| 0 <= i < |queue| && Ids(queue)[i] == a;
  }
}
