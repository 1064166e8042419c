/** Applying an update: the walk over the refs together with the migrations each checkout runs. */
module ApplyWalk {
  import opened Common
  import opened Journal
  import opened Migrations
  import opened UpdateWalk

  /** How the steps at one checkout turn out: its migrations, the dependency install, the next checkout. */
  datatype HopFault = HopFault(plan: Plan, installs: bool, checksOut: bool)

  const QUIET := HopFault(map[], true, true)

  function FaultAt(faults: seq<HopFault>, hop: nat): HopFault { if hop < |faults| then faults[hop] else QUIET }

  datatype Ending =
    | Restarted
    | DirtyTree | NoTags
    | NoStep(problem: Problem)
    | MigrationsStopped(outcome: Outcome)
    | InstallFailed | CheckoutFailed

  /** The registry in each commit's code. */
  type Code = map<Commit, seq<int>>

  ghost predicate Covers(code: Code, repo: Repo) { repo.ancestors.Keys <= code.Keys }

  function Latest(code: Code, commit: Commit): int
    requires commit in code
  {
    LatestVersion(code[commit])
  }

  ghost predicate History(entries: Entries) { entries.Ok? && Contiguous(entries.value) }

  function HostVersion(entries: Entries): int { if entries.Ok? then CurrentVersion(entries.value) else 0 }

  /** Along the checkouts `trail`, starting on a host at `version`, no code knows fewer migrations than the host has. */
  ghost predicate NeverBehindHost(code: Code, version: int, trail: seq<Commit>) {
    && (forall c :: c in trail ==> c in code)
    && (trail != [] ==> version <= Latest(code, trail[0]))
    && forall i, j :: 0 <= i < j == i + 1 < |trail| ==> Latest(code, trail[i]) <= Latest(code, trail[j])
  }

  predicate Ascends(versions: seq<int>) { forall i, j :: 0 <= i < j < |versions| ==> versions[i] < versions[j] }

  lemma LandInRepo(repo: Repo, head: Commit)
    requires repo.Valid() && NextStep(repo, head).Ok? && NextStep(repo, head).value.Some?
    ensures Land(repo, head) in repo.ancestors
  {
    StepResolves(repo, head);
    var step := NextStep(repo, head).value.value;
    if step in repo.remote {
      assert repo.remote[step] in repo.remote.Values;
    } else if step in repo.tags {
      assert repo.tags[step] in repo.tags.Values;
    } else {
      assert repo.other[step] in repo.other.Values;
    }
  }

  // ---------------------------------------------------------------- one process, from checkout to checkout

  /** Where the process ended: the commit checked out, what the log reads as, the migrations called, and how. */
  datatype Result = Result(head: Commit, log: Entries, called: seq<int>, ending: Ending)

  ghost predicate Ready(repo: Repo, code: Code, head: Commit) {
    repo.Valid() && repo.TagsUnshadowed() && Covers(code, repo) && head in repo.ancestors
  }

  /** `_apply`, which execs itself after each checkout: migrations, install, next checkout. */
  ghost function Process(codec: Codec, repo: Repo, code: Code, head: Commit, log: Entries, faults: seq<HopFault>,
                         now: string): Result
    requires Ready(repo, code, head)
    decreases Remaining(repo, head)
  {
    var fault := FaultAt(faults, 0);
    var run := ApplyRun(codec, log, code[head], true, fault.plan, now);
    var log' := Join(log, Ok(run.logged));
    if !run.outcome.Applied? then Result(head, log', run.called, MigrationsStopped(run.outcome))
    else if !fault.installs then Result(head, log', run.called, InstallFailed)
    else
      match NextStep(repo, head)
      case Err(problem) => Result(head, log', run.called, NoStep(problem))
      case Ok(None) => Result(head, log', run.called, Restarted)
      case Ok(Some(_)) =>
        if !fault.checksOut then Result(head, log', run.called, CheckoutFailed) else
          HopMakesProgress(repo, head);
          LandInRepo(repo, head);
          var rest := Process(codec, repo, code, Land(repo, head), log', Tail(faults), now);
          rest.(called := run.called + rest.called)
  }

  function Tail(faults: seq<HopFault>): seq<HopFault> { if faults == [] then [] else faults[1..] }

  /** `apply_update`: preflight, first checkout, then the process above. */
  ghost function ApplyUpdate(codec: Codec, repo: Repo, code: Code, head: Commit, dirty: bool, log: Entries,
                             checksOut: bool, faults: seq<HopFault>, now: string): Result
    requires Ready(repo, code, head)
  {
    if dirty then Result(head, log, [], DirtyTree)
    else if NothingTagged(repo) then Result(head, log, [], NoTags)
    else
      match NextStep(repo, head)
      case Err(problem) => Result(head, log, [], NoStep(problem))
      case Ok(None) => Process(codec, repo, code, head, log, faults, now)
      case Ok(Some(_)) =>
        if !checksOut then Result(head, log, [], CheckoutFailed) else
          LandInRepo(repo, head);
          Process(codec, repo, code, Land(repo, head), log, faults, now)
  }

  class Host {
    const log: LogFile
    var head: Commit

    constructor (log: LogFile, head: Commit)
      ensures this.log == log && this.head == head
    {
      this.log := log;
      this.head := head;
    }

    /** One process: the loop stands for the exec at the end of each step. On a contiguous history it only extends it,
        whatever fails, and stays on the trail; ending well it is where the walk ends. */
    method RunProcess(repo: Repo, code: Code, faults: seq<HopFault>, now: string)
      returns (ending: Ending, called: seq<int>)
      requires Ready(repo, code, head) && log.codec.Faithful()
      modifies this, log
      ensures Result(head, ReadLog(log.codec, log.file), called, ending)
        == Process(log.codec, repo, code, old(head), ReadLog(log.codec, old(log.file)), faults, now)
      ensures History(ReadLog(log.codec, old(log.file))) ==>
        Extends(ReadLog(log.codec, old(log.file)), ReadLog(log.codec, log.file), called)
      ensures History(ReadLog(log.codec, old(log.file))) && Walks(repo, old(head)) ==>
        Arrived(repo, code, Trail(repo, old(head)), Result(head, ReadLog(log.codec, log.file), called, ending))
    {
      hide Extends, Arrived, History, Trail, NextStep, Remaining, ApplyRun, Walks, ReadLog;
      ProcessKeeps(log.codec, repo, code, head, ReadLog(log.codec, log.file), faults, now);
      ghost var whole := Process(log.codec, repo, code, head, ReadLog(log.codec, log.file), faults, now);
      var pending := faults;
      called := [];
      while true
        invariant Ready(repo, code, head)
        invariant var rest := Process(log.codec, repo, code, head, ReadLog(log.codec, log.file), pending, now);
          whole == rest.(called := called + rest.called)
        decreases Remaining(repo, head)
      {
        var fault := FaultAt(pending, 0);
        var outcome, more := log.ApplySystemMigrations(code[head], true, fault.plan, now);
        called := called + more;
        if !outcome.Applied? { return MigrationsStopped(outcome), called; }
        if !fault.installs { return InstallFailed, called; }
        var step := NextStep(repo, head);
        if step.Err? { return NoStep(step.error), called; }
        if step.value == None { return Restarted, called; }
        if !fault.checksOut { return CheckoutFailed, called; }
        HopMakesProgress(repo, head);
        LandInRepo(repo, head);
        head := Land(repo, head);
        pending := Tail(pending);
      }
    }

    /** The whole apply: the promises of a process, from the commit the host was on. A clean, tagged or pinned checkout
        on which nothing else fails ends in a restart on the walk's destination exactly when the registries it visits
        never shrink below the host, and is stopped as a host ahead of the code otherwise. */
    method Update(repo: Repo, code: Code, dirty: bool, checksOut: bool, faults: seq<HopFault>, now: string)
      returns (ending: Ending, called: seq<int>)
      requires Ready(repo, code, head) && log.codec.Faithful()
      modifies this, log
      ensures Result(head, ReadLog(log.codec, log.file), called, ending)
        == ApplyUpdate(log.codec, repo, code, old(head), dirty, ReadLog(log.codec, old(log.file)), checksOut, faults,
          now)
      ensures History(ReadLog(log.codec, old(log.file))) ==>
        Extends(ReadLog(log.codec, old(log.file)), ReadLog(log.codec, log.file), called)
      ensures History(ReadLog(log.codec, old(log.file))) && Walks(repo, old(head)) ==>
        Arrived(repo, code, Trail(repo, old(head)), Result(head, ReadLog(log.codec, log.file), called, ending))
      ensures
        !dirty && checksOut && faults == [] && Updatable(repo, code, old(head), ReadLog(log.codec, old(log.file))) ==>
        Completed(repo, code, old(head), ReadLog(log.codec, old(log.file)),
                  Result(head, ReadLog(log.codec, log.file), called, ending))
    {
      hide Extends, Arrived, History, Trail, Updatable, Completed, Process, NextStep, NothingTagged, ReadLog;
      UpdateKeeps(log.codec, repo, code, head, dirty, ReadLog(log.codec, log.file), checksOut, faults, now);
      if dirty { return DirtyTree, []; }
      if NothingTagged(repo) { return NoTags, []; }
      var step := NextStep(repo, head);
      if step.Err? { return NoStep(step.error), []; }
      if step.value.Some? {
        if !checksOut { return CheckoutFailed, []; }
        LandInRepo(repo, head);
        head := Land(repo, head);
      }
      ending, called := RunProcess(repo, code, faults, now);
    }
  }

  // ---------------------------------------------------------------- what the walk does to the history

  /** `called` extends the history `before` to `after`: every migration called is new, they are called in ascending
      order, none twice, and what had succeeded stays. */
  ghost predicate Extends(before: Entries, after: Entries, called: seq<int>) {
    && History(before) && History(after)
    && Successes(before.value) <= Successes(after.value)
    && Ascends(called)
    && (forall v :: v in called ==> v > HostVersion(before))
    && HostVersion(before) <= HostVersion(after)
  }

  lemma ExtendsThenExtends(a: Entries, b: Entries, c: Entries, first: seq<int>, second: seq<int>)
    requires Extends(a, b, first) && Extends(b, c, second)
    requires forall v :: v in first ==> v <= HostVersion(b)
    ensures Extends(a, c, first + second)
  {
    forall i, j | 0 <= i < j < |first + second| ensures (first + second)[i] < (first + second)[j] {
      if i < |first| <= j {
        assert first[i] in first && second[j - |first|] in second;
      }
    }
  }

  /** One checkout's migrations extend the history; when they complete, each one called is logged as succeeded. */
  lemma RunExtends(codec: Codec, log: Entries, registry: seq<int>, plan: Plan, now: string)
    requires History(log)
    ensures var run := ApplyRun(codec, log, registry, true, plan, now);
      var log' := Join(log, Ok(run.logged));
      && log'.Ok? && History(log') && Extends(log, log', run.called)
      && (run.outcome.Applied? ==>
            && HostVersion(log') != 0
            && Successes(log'.value) == Successes(log.value) + run.called
            && HostVersion(log') == LatestVersion(registry)
            && (forall v :: v in run.called ==> v <= HostVersion(log')))
  {
    RunKeeps(codec, log, registry, true, plan, now);
    var run := ApplyRun(codec, log, registry, true, plan, now);
    VersionOnlyRises(log.value, log.value + run.logged);
    LastSuccessIsHighest(log.value + run.logged);
    if run.outcome.Applied? {
      CurrentIsLastSuccess(log.value);
      forall v | v in run.called ensures v <= CurrentVersion(log.value + run.logged) {
        assert v in Successes(log.value) + run.called;
      }
    }
  }

  /** The first checkout of a process: what it leaves in the log, what it calls, and whether the walk goes on. */
  lemma ProcessUnfolds(codec: Codec, repo: Repo, code: Code, head: Commit, log: Entries, faults: seq<HopFault>,
                       now: string)
    returns (log': Entries, called: seq<int>, goesOn: bool, next: Commit)
    requires Ready(repo, code, head) && History(log)
    ensures log.Ok? && log'.Ok? && History(log') && Extends(log, log', called)
    ensures var r := Process(codec, repo, code, head, log, faults, now);
      if goesOn then
        && NextStep(repo, head).Ok? && NextStep(repo, head).value.Some? && repo.Valid() && next == Land(repo, head)
        && Ready(repo, code, next) && Remaining(repo, next) < Remaining(repo, head)
        && (forall v :: v in called ==> v <= HostVersion(log'))
        && Successes(log'.value) == Successes(log.value) + called
        && var rest := Process(codec, repo, code, next, log', Tail(faults), now);
        && r == Result(rest.head, rest.log, called + rest.called, rest.ending)
      else
        && r.head == head && r.log == log' && r.called == called
        && (r.ending == Restarted ==>
              && NextStep(repo, head) == Ok(None)
              && head in code && HostVersion(log') == Latest(code, head) && HostVersion(log') != 0
              && Successes(log'.value) == Successes(log.value) + called)
  {
    var fault := FaultAt(faults, 0);
    var run := ApplyRun(codec, log, code[head], true, fault.plan, now);
    RunExtends(codec, log, code[head], fault.plan, now);
    hide Extends, Successes, Contiguous, CurrentVersion, ApplyRun;
    log', called, next := Join(log, Ok(run.logged)), run.called, head;
    goesOn := run.outcome.Applied? && fault.installs && fault.checksOut
      && NextStep(repo, head).Ok? && NextStep(repo, head).value.Some?;
    if goesOn {
      HopMakesProgress(repo, head);
      LandInRepo(repo, head);
      next := Land(repo, head);
    }
  }

  /** However a process ends, the history stays contiguous and only grows, and no migration is called that had
      succeeded before or was called earlier in the walk; when it ends well, every call is logged as a success, once
      and in order. */
  lemma {:induction false} ProcessExtendsHistory(codec: Codec, repo: Repo, code: Code, head: Commit, log: Entries,
                                                 faults: seq<HopFault>, now: string)
    requires Ready(repo, code, head) && History(log)
    ensures var r := Process(codec, repo, code, head, log, faults, now);
      && log.Ok? && r.log.Ok? && Extends(log, r.log, r.called)
      && (r.ending == Restarted ==> Successes(r.log.value) == Successes(log.value) + r.called)
    decreases Remaining(repo, head)
  {
    hide *;
    var log', called, goesOn, next := ProcessUnfolds(codec, repo, code, head, log, faults, now);
    if goesOn {
      ProcessExtendsHistory(codec, repo, code, next, log', Tail(faults), now);
      var rest := Process(codec, repo, code, next, log', Tail(faults), now);
      ExtendsThenExtends(log, log', rest.log, called, rest.called);
      assert Successes(log.value) + called + rest.called == Successes(log.value) + (called + rest.called);
    }
  }

  /** Wherever a process ends it is on the walk's trail; when it ends well it is at the walk's end, the host version is
      the latest that code knows, the status is fine, and the check finds nothing more to do. */
  ghost predicate Arrived(repo: Repo, code: Code, trail: seq<Commit>, r: Result) {
    && r.head in trail
    && (r.ending == Restarted ==>
          && r.head == trail[|trail| - 1] && r.head in code && r.log.Ok?
          && HostVersion(r.log) == Latest(code, r.head)
          && MigrationStatus(r.log.value, code[r.head]) == Fine
          && FetchUpdates(repo, r.head, false) == Ok(UpToDate))
  }

  lemma ArrivesHere(repo: Repo, code: Code, head: Commit, r: Result)
    requires Walks(repo, head) && r.head == head
    requires r.ending == Restarted ==>
      && NextStep(repo, head) == Ok(None) && head in code
      && r.log.Ok? && HostVersion(r.log) == Latest(code, head) && HostVersion(r.log) != 0
    ensures Arrived(repo, code, Trail(repo, head), r)
  {
    if r.ending == Restarted { CheckAgreesWithWalk(repo, head); }
  }

  lemma ArrivesLater(repo: Repo, code: Code, head: Commit, trail: seq<Commit>, rest: Result, called: seq<int>)
    requires Arrived(repo, code, trail, rest)
    ensures Arrived(repo, code, [head] + trail, Result(rest.head, rest.log, called, rest.ending))
  {
    hide FetchUpdates, MigrationStatus, HostVersion, Latest;
    assert rest.head in [head] + trail;
  }

  lemma {:induction false} ProcessArrives(codec: Codec, repo: Repo, code: Code, head: Commit, log: Entries,
                                          faults: seq<HopFault>, now: string)
    requires Ready(repo, code, head) && Walks(repo, head) && History(log)
    ensures Arrived(repo, code, Trail(repo, head), Process(codec, repo, code, head, log, faults, now))
    decreases Remaining(repo, head)
  {
    hide *;
    var log', called, goesOn, next := ProcessUnfolds(codec, repo, code, head, log, faults, now);
    var r := Process(codec, repo, code, head, log, faults, now);
    if goesOn {
      WalksOn(repo, code, head, next);
      ProcessArrives(codec, repo, code, next, log', Tail(faults), now);
      var rest := Process(codec, repo, code, next, log', Tail(faults), now);
      TrailUnfolds(repo, head);
      ArrivesLater(repo, code, head, Trail(repo, next), rest, called + rest.called);
    } else {
      ArrivesHere(repo, code, head, r);
    }
  }

  lemma WalksOn(repo: Repo, code: Code, head: Commit, next: Commit)
    requires Walks(repo, head) && Ready(repo, code, next)
    ensures Walks(repo, next)
  {
    StepsEverywhere(repo, head, next);
  }

  // ---------------------------------------------------------------- when the host is ahead of the code

  ghost predicate RegistriesValid(code: Code) { forall c :: c in code ==> ValidRegistry(code[c]) }

  /** With valid registries and a set-up host, the only refusal the runner can make is that the host is ahead. */
  lemma OnlyAheadRefuses(codec: Codec, log: Entries, registry: seq<int>, plan: Plan, now: string)
    requires History(log) && HostVersion(log) != 0 && ValidRegistry(registry)
    ensures var run := ApplyRun(codec, log, registry, true, plan, now);
      && (run.outcome == HostAhead <==> HostVersion(log) > LatestVersion(registry))
      && (run.outcome.HostAhead? || run.outcome.Applied? || run.outcome.UpRaised? || run.outcome.ProcessDied?)
      && (plan == map[] && HostVersion(log) <= LatestVersion(registry) ==> run.outcome.Applied?)
  {
    CurrentIsLastSuccess(log.value);
    if HostVersion(log) <= LatestVersion(registry) {
      RunShape(codec, registry, 2, HostVersion(log), plan, now, []);
    }
  }

  /** The walk and the migrations compose exactly when the registries never shrink along the walk. With growing
      registries "the host is ahead" is unreachable whatever else fails; with nothing else failing the walk completes
      if and only if they grow, and "the host is ahead" is what stops it otherwise. */
  lemma {:induction false} CompletesIffRegistriesGrow(codec: Codec, repo: Repo, code: Code, head: Commit, log: Entries,
                                                      faults: seq<HopFault>, now: string)
    requires Ready(repo, code, head) && Walks(repo, head) && RegistriesValid(code)
    requires History(log) && HostVersion(log) != 0
    ensures var r := Process(codec, repo, code, head, log, faults, now);
      var grows := NeverBehindHost(code, HostVersion(log), Trail(repo, head));
      && (grows ==> r.ending != MigrationsStopped(HostAhead))
      && (faults == [] ==> (r.ending == Restarted <==> grows) && (r.ending == MigrationsStopped(HostAhead) <==> !grows))
    decreases Remaining(repo, head)
  {
    hide *;
    var fault := FaultAt(faults, 0);
    FirstRun(codec, repo, code, head, log, fault.plan, now);
    ProcessIs(codec, repo, code, head, log, faults, now);
    NoFaults(faults);
    var run := ApplyRun(codec, log, code[head], true, fault.plan, now);
    var log' := Join(log, Ok(run.logged));
    if NextStep(repo, head).value.Some? {
      TrailUnfolds(repo, head);
      GrowsFrom(code, HostVersion(log), head, Trail(repo, Land(repo, head)));
      if run.outcome.Applied? {
        CompletesIffRegistriesGrow(codec, repo, code, Land(repo, head), log', Tail(faults), now);
      }
    } else {
      TrailStops(repo, head);
      GrowsFrom(code, HostVersion(log), head, []);
      assert [head] + [] == [head];
    }
  }

  lemma NoFaults(faults: seq<HopFault>)
    ensures faults == [] ==>
      var fault := FaultAt(faults, 0); fault.plan == map[] && fault.installs && fault.checksOut && Tail(faults) == []
  {
  }

  lemma TrailStops(repo: Repo, head: Commit)
    requires Walks(repo, head) && NextStep(repo, head).value == None
    ensures Trail(repo, head) == [head]
  {
    hide NextStep;
  }

  /** What the first migrations of a process do to the version: they raise it to the code's latest, or stop. */
  lemma FirstRun(codec: Codec, repo: Repo, code: Code, head: Commit, log: Entries, plan: Plan, now: string)
    requires Ready(repo, code, head) && RegistriesValid(code) && History(log) && HostVersion(log) != 0
    ensures log.Ok? && head in code
    ensures var run := ApplyRun(codec, log, code[head], true, plan, now);
      var log' := Join(log, Ok(run.logged));
      && (run.outcome == HostAhead <==> HostVersion(log) > Latest(code, head))
      && (run.outcome.Applied? ==> History(log') && HostVersion(log') == Latest(code, head) && HostVersion(log') != 0)
      && (plan == map[] && HostVersion(log) <= Latest(code, head) ==> run.outcome.Applied?)
  {
    OnlyAheadRefuses(codec, log, code[head], plan, now);
    RunExtends(codec, log, code[head], plan, now);
    hide ApplyRun, Contiguous, CurrentVersion, ValidRegistry, Extends;
  }

  /** One checkout of the process, taken apart. */
  lemma ProcessIs(codec: Codec, repo: Repo, code: Code, head: Commit, log: Entries, faults: seq<HopFault>, now: string)
    requires Ready(repo, code, head) && Walks(repo, head) && log.Ok?
    ensures head in code && repo.Valid() && NextStep(repo, head).Ok?
    ensures NextStep(repo, head).value.Some? ==>
      var next := Land(repo, head);
      Ready(repo, code, next) && Walks(repo, next) && Remaining(repo, next) < Remaining(repo, head)
    ensures var fault := FaultAt(faults, 0);
      var run := ApplyRun(codec, log, code[head], true, fault.plan, now);
      var ending := Process(codec, repo, code, head, log, faults, now).ending;
      && (!run.outcome.Applied? ==> ending == MigrationsStopped(run.outcome))
      && (run.outcome.Applied? && !fault.installs ==> ending == InstallFailed)
      && (run.outcome.Applied? && fault.installs ==>
            if NextStep(repo, head).value == None then ending == Restarted
            else if !fault.checksOut then ending == CheckoutFailed
            else
              var log' := Join(log, Ok(run.logged));
              ending == Process(codec, repo, code, Land(repo, head), log', Tail(faults), now).ending)
  {
    if NextStep(repo, head).value.Some? {
      HopMakesProgress(repo, head);
      LandInRepo(repo, head);
    }
    hide ApplyRun, NextStep, Remaining, Resolve;
  }

  lemma GrowsFrom(code: Code, version: int, head: Commit, rest: seq<Commit>)
    requires head in code
    ensures NeverBehindHost(code, version, [head] + rest) <==>
      version <= Latest(code, head) && (rest == [] || NeverBehindHost(code, Latest(code, head), rest))
  {
    var trail := [head] + rest;
    if version <= Latest(code, head) {
      GrowthUnfolds(code, version, head, rest);
    } else {
      assert trail[0] == head;
    }
  }

  lemma GrowthUnfolds(code: Code, version: int, head: Commit, rest: seq<Commit>)
    requires head in code && version <= Latest(code, head)
    ensures NeverBehindHost(code, version, [head] + rest) <==> NeverBehindHost(code, Latest(code, head), rest)
  {
    var trail := [head] + rest;
    if NeverBehindHost(code, version, trail) {
      forall c | c in rest ensures c in code { assert c in trail; }
      if rest != [] { assert trail[1] == rest[0]; }
      forall i, j | 0 <= i < j == i + 1 < |rest| ensures Latest(code, rest[i]) <= Latest(code, rest[j]) {
        assert trail[i + 1] == rest[i] && trail[j + 1] == rest[j];
      }
    }
    if NeverBehindHost(code, Latest(code, head), rest) {
      forall i, j | 0 <= i < j == i + 1 < |trail| ensures Latest(code, trail[i]) <= Latest(code, trail[j]) {
        if i > 0 { assert trail[i] == rest[i - 1] && trail[j] == rest[j - 1]; }
      }
    }
  }

  /** The checkouts whose migrations an update runs: all of the trail but the commit it starts from, unless there is
      nowhere to go. */
  ghost function Visited(repo: Repo, head: Commit): seq<Commit>
    requires Walks(repo, head)
  {
    var trail := Trail(repo, head);
    if |trail| == 1 then trail else trail[1..]
  }

  /** A checkout with something to go to, on a set-up host, in a repository whose registries are all valid. */
  ghost predicate Updatable(repo: Repo, code: Code, head: Commit, log: Entries) {
    Walks(repo, head) && RegistriesValid(code) && !NothingTagged(repo) && History(log) && HostVersion(log) != 0
  }

  /** The update restarted on the walk's destination, or was stopped as the host was ahead of the code: the first
      exactly when the registries it visits never shrink below the host. */
  ghost predicate Completed(repo: Repo, code: Code, head: Commit, log: Entries, r: Result)
    requires Walks(repo, head)
  {
    var grows := NeverBehindHost(code, HostVersion(log), Visited(repo, head));
    && (r.ending == Restarted <==> grows) && (r.ending == MigrationsStopped(HostAhead) <==> !grows)
    && (grows ==> r.head == End(repo, head) && r.head in code && r.log.Ok?
                  && MigrationStatus(r.log.value, code[r.head]) == Fine)
  }

  lemma {:induction false} UpdateCompletes(codec: Codec, repo: Repo, code: Code, head: Commit, log: Entries,
      now: string)
    requires Ready(repo, code, head) && Updatable(repo, code, head, log)
    ensures Completed(repo, code, head, log, ApplyUpdate(codec, repo, code, head, false, log, true, [], now))
    ensures var r := ApplyUpdate(codec, repo, code, head, false, log, true, [], now);
      var grows := NeverBehindHost(code, HostVersion(log), Visited(repo, head));
      && (r.ending == Restarted <==> grows) && (r.ending == MigrationsStopped(HostAhead) <==> !grows)
      && (grows ==> r.head == End(repo, head) && r.head in code && r.log.Ok?
                    && MigrationStatus(r.log.value, code[r.head]) == Fine)
  {
    if NextStep(repo, head).value.Some? {
      HopMakesProgress(repo, head);
      LandInRepo(repo, head);
      TrailUnfolds(repo, head);
      assert Trail(repo, head)[1..] == Trail(repo, Land(repo, head));
      Completes(codec, repo, code, Land(repo, head), log, now);
    } else {
      Completes(codec, repo, code, head, log, now);
    }
  }

  lemma Completes(codec: Codec, repo: Repo, code: Code, head: Commit, log: Entries, now: string)
    requires Ready(repo, code, head) && Walks(repo, head) && RegistriesValid(code)
    requires History(log) && HostVersion(log) != 0
    ensures var r := Process(codec, repo, code, head, log, [], now);
      var grows := NeverBehindHost(code, HostVersion(log), Trail(repo, head));
      && (r.ending == Restarted <==> grows) && (r.ending == MigrationsStopped(HostAhead) <==> !grows)
      && (grows ==> r.head == End(repo, head) && r.head in code && r.log.Ok?
                    && MigrationStatus(r.log.value, code[r.head]) == Fine)
  {
    CompletesIffRegistriesGrow(codec, repo, code, head, log, [], now);
    ProcessArrives(codec, repo, code, head, log, [], now);
    hide Process, Trail, NeverBehindHost, MigrationStatus, FetchUpdates, Remaining;
  }

  // ---------------------------------------------------------------- what the methods promise

  lemma {:induction false} ProcessKeeps(codec: Codec, repo: Repo, code: Code, head: Commit, log: Entries,
                                        faults: seq<HopFault>, now: string)
    requires Ready(repo, code, head)
    ensures History(log) ==> Extends(log, Process(codec, repo, code, head, log, faults, now).log,
                                     Process(codec, repo, code, head, log, faults, now).called)
    ensures History(log) && Walks(repo, head) ==>
      Arrived(repo, code, Trail(repo, head), Process(codec, repo, code, head, log, faults, now))
  {
    hide *;
    if History(log) { ProcessExtendsHistory(codec, repo, code, head, log, faults, now); }
    if History(log) && Walks(repo, head) { ProcessArrives(codec, repo, code, head, log, faults, now); }
  }

  /** An update that refuses changes nothing; one that does not is a process, from the first commit it checks out. */
  lemma {:induction false} UpdateIs(codec: Codec, repo: Repo, code: Code, head: Commit, dirty: bool, log: Entries,
                                    checksOut: bool, faults: seq<HopFault>, now: string)
    returns (runs: bool, from: Commit)
    requires Ready(repo, code, head)
    ensures var r := ApplyUpdate(codec, repo, code, head, dirty, log, checksOut, faults, now);
      if runs then
        && Ready(repo, code, from) && r == Process(codec, repo, code, from, log, faults, now)
        && (from == head || (NextStep(repo, head).Ok? && NextStep(repo, head).value.Some? && from == Land(repo, head)))
      else r.head == head && r.log == log && r.called == [] && r.ending != Restarted
  {
    hide Process, NextStep, NothingTagged;
    runs := !dirty && !NothingTagged(repo) && NextStep(repo, head).Ok? &&
      (NextStep(repo, head).value == None || checksOut);
    from := head;
    if runs && NextStep(repo, head).value.Some? {
      LandInRepo(repo, head);
      from := Land(repo, head);
    }
  }

  lemma {:induction false} NothingExtends(log: Entries)
    requires History(log)
    ensures Extends(log, log, [])
  {
  }

  lemma {:induction false} PromisesMean(repo: Repo, code: Code, head: Commit, log: Entries, r: Result)
    requires History(log) && Walks(repo, head) && Extends(log, r.log, r.called)
    requires Arrived(repo, code, Trail(repo, head), r)
    ensures log.Ok? && r.log.Ok? && Contiguous(r.log.value) && Successes(log.value) <= Successes(r.log.value)
    ensures (forall v :: v in r.called ==> v > CurrentVersion(log.value)) && Ascends(r.called)
    ensures r.head in Trail(repo, head)
    ensures r.ending == Restarted ==>
      && r.head == End(repo, head) && r.head in code
      && CurrentVersion(r.log.value) == LatestVersion(code[r.head])
      && MigrationStatus(r.log.value, code[r.head]) == Fine
      && FetchUpdates(repo, r.head, false) == Ok(UpToDate)
  {
    hide Trail, NextStep, FetchUpdates, MigrationStatus, Successes, CurrentVersion, Walks, Contiguous;
  }

  lemma {:induction false} UpdateKeeps(codec: Codec, repo: Repo, code: Code, head: Commit, dirty: bool, log: Entries,
                                       checksOut: bool, faults: seq<HopFault>, now: string)
    requires Ready(repo, code, head)
    ensures var r := ApplyUpdate(codec, repo, code, head, dirty, log, checksOut, faults, now);
      && (History(log) ==> Extends(log, r.log, r.called))
      && (History(log) && Walks(repo, head) ==> Arrived(repo, code, Trail(repo, head), r))
      && (!dirty && checksOut && faults == [] && Updatable(repo, code, head, log) ==>
           Completed(repo, code, head, log, r))
    ensures var r := ApplyUpdate(codec, repo, code, head, dirty, log, checksOut, faults, now);
      History(log) && Walks(repo, head) ==>
        && r.log.Ok? && Contiguous(r.log.value) && Successes(log.value) <= Successes(r.log.value)
        && (forall v :: v in r.called ==> v > CurrentVersion(log.value)) && Ascends(r.called)
        && r.head in Trail(repo, head)
        && (r.ending == Restarted ==>
              && r.head == End(repo, head) && r.head in code
              && CurrentVersion(r.log.value) == LatestVersion(code[r.head])
              && MigrationStatus(r.log.value, code[r.head]) == Fine
              && FetchUpdates(repo, r.head, false) == Ok(UpToDate))
  {
    hide Process, ApplyUpdate, Ready, History, Extends, Trail, NextStep, Updatable, Completed, FetchUpdates,
      MigrationStatus, Latest;
    var r := ApplyUpdate(codec, repo, code, head, dirty, log, checksOut, faults, now);
    var runs, from := UpdateIs(codec, repo, code, head, dirty, log, checksOut, faults, now);
    if runs { ProcessKeeps(codec, repo, code, from, log, faults, now); }
    if History(log) { NothingExtends(log); }
    if History(log) && Walks(repo, head) && runs && from != head {
      WalksOn(repo, code, head, from);
      TrailUnfolds(repo, head);
      ArrivesLater(repo, code, head, Trail(repo, from), r, r.called);
    }
    if History(log) && Walks(repo, head) { PromisesMean(repo, code, head, log, r); }
    if !dirty && checksOut && faults == [] && Updatable(repo, code, head, log) {
      UpdateCompletes(codec, repo, code, head, log, now);
    }
  }

  // ---------------------------------------------------------------- which endings mean what

  /** The process ended at the commit number `n` of the walk, everything before it having worked. */
  ghost predicate EndsAt(trail: seq<Commit>, faults: seq<HopFault>, r: Result, n: nat) {
    && n < |trail| && r.head == trail[n]
    && (forall i :: 0 <= i < n ==> FaultAt(faults, i).installs && FaultAt(faults, i).checksOut)
    && match r.ending
       case InstallFailed => !FaultAt(faults, n).installs
       case CheckoutFailed => FaultAt(faults, n).installs && !FaultAt(faults, n).checksOut && n + 1 < |trail|
       case Restarted => FaultAt(faults, n).installs && n + 1 == |trail|
       case MigrationsStopped(_) => true
       case _ => false
  }

  /** An install that fails, a checkout that fails and a walk that is done are told apart, and each ends the process
      where it happened. */
  lemma {:induction false} EndingTold(codec: Codec, repo: Repo, code: Code, head: Commit, log: Entries,
                                      faults: seq<HopFault>, now: string) returns (n: nat)
    requires Ready(repo, code, head) && Walks(repo, head)
    ensures EndsAt(Trail(repo, head), faults, Process(codec, repo, code, head, log, faults, now), n)
    decreases Remaining(repo, head)
  {
    hide NextStep, ApplyRun, EndsAt, Walks;
    var fault := FaultAt(faults, 0);
    var run := ApplyRun(codec, log, code[head], true, fault.plan, now);
    StepIsOk(repo, head);
    n := 0;
    if NextStep(repo, head).value == None {
      TrailStops(repo, head);
    } else {
      TrailGoesOn(repo, head);
      if run.outcome.Applied? && fault.installs && fault.checksOut {
        LandInRepo(repo, head);
        var next, log' := Land(repo, head), Join(log, Ok(run.logged));
        WalksOn(repo, code, head, next);
        n := EndingTold(codec, repo, code, next, log', Tail(faults), now);
        n := n + 1;
        EndsLater(head, Trail(repo, next), faults, Process(codec, repo, code, next, log', Tail(faults), now),
          run.called, n);
        return;
      }
    }
    EndsHere(codec, repo, code, head, log, faults, now);
  }

  lemma {:induction false} StepIsOk(repo: Repo, head: Commit)
    requires Walks(repo, head)
    ensures NextStep(repo, head).Ok? && repo.Valid() && repo.TagsUnshadowed()
  {
  }

  lemma {:induction false} TrailGoesOn(repo: Repo, head: Commit)
    requires Walks(repo, head) && NextStep(repo, head).value.Some?
    ensures repo.Valid() && Walks(repo, Land(repo, head)) && Remaining(repo, Land(repo, head)) < Remaining(repo, head)
    ensures Trail(repo, head) == [head] + Trail(repo, Land(repo, head)) && |Trail(repo, head)| > 1
  {
    HopMakesProgress(repo, head);
    TrailUnfolds(repo, head);
  }

  lemma {:induction false} EndsHere(codec: Codec, repo: Repo, code: Code, head: Commit, log: Entries,
                                    faults: seq<HopFault>, now: string)
    requires Ready(repo, code, head) && Walks(repo, head)
    requires var fault := FaultAt(faults, 0);
      || NextStep(repo, head).value == None || !fault.installs || !fault.checksOut
      || !ApplyRun(codec, log, code[head], true, fault.plan, now).outcome.Applied?
    requires (NextStep(repo, head).value == None <==> |Trail(repo, head)| == 1)
    ensures EndsAt(Trail(repo, head), faults, Process(codec, repo, code, head, log, faults, now), 0)
  {
    hide NextStep, ApplyRun, Remaining, Resolve;
  }

  lemma {:induction false} EndsLater(head: Commit, trail: seq<Commit>, faults: seq<HopFault>, rest: Result,
                                     called: seq<int>, n: nat)
    requires n > 0 && EndsAt(trail, Tail(faults), rest, n - 1)
    ensures EndsAt([head] + trail, faults, rest.(called := called + rest.called), n)
      <== FaultAt(faults, 0).installs && FaultAt(faults, 0).checksOut
  {
    if FaultAt(faults, 0).installs && FaultAt(faults, 0).checksOut {
      assert forall i :: 0 < i ==> FaultAt(faults, i) == FaultAt(Tail(faults), i - 1);
      forall i | 0 <= i < n ensures FaultAt(faults, i).installs && FaultAt(faults, i).checksOut {
        if i > 0 { assert FaultAt(faults, i) == FaultAt(Tail(faults), i - 1); }
      }
    }
  }

  /** The refusals: a dirty tree before anything else, and a remote with no version tag when there is no pin. Neither
      touches the host. */
  lemma {:induction false} UpdateRefuses(codec: Codec, repo: Repo, code: Code, head: Commit, dirty: bool, log: Entries,
                                         checksOut: bool, faults: seq<HopFault>, now: string)
    requires Ready(repo, code, head)
    ensures var r := ApplyUpdate(codec, repo, code, head, dirty, log, checksOut, faults, now);
      && (r.ending == DirtyTree <==> dirty)
      && (r.ending == NoTags <==> !dirty && NothingTagged(repo))
      && (r.ending == DirtyTree || r.ending == NoTags ==> r == Result(head, log, [], r.ending))
  {
    hide NextStep, NothingTagged, Process;
    if !dirty && !NothingTagged(repo) && NextStep(repo, head).Ok? {
      if NextStep(repo, head).value == None {
        ProcessStarted(codec, repo, code, head, log, faults, now);
      } else if checksOut {
        LandInRepo(repo, head);
        ProcessStarted(codec, repo, code, Land(repo, head), log, faults, now);
      }
    }
  }

  lemma {:induction false} ProcessStarted(codec: Codec, repo: Repo, code: Code, head: Commit, log: Entries,
                                          faults: seq<HopFault>, now: string)
    requires Ready(repo, code, head)
    ensures var r := Process(codec, repo, code, head, log, faults, now); r.ending != DirtyTree && r.ending != NoTags
    decreases Remaining(repo, head)
  {
    hide NextStep, ApplyRun;
    var fault := FaultAt(faults, 0);
    var run := ApplyRun(codec, log, code[head], true, fault.plan, now);
    if run.outcome.Applied? && fault.installs && fault.checksOut && NextStep(repo, head).Ok?
      && NextStep(repo, head).value.Some? {
      HopMakesProgress(repo, head);
      LandInRepo(repo, head);
      ProcessStarted(codec, repo, code, Land(repo, head), Join(log, Ok(run.logged)), Tail(faults), now);
    }
  }

  /** Where all this applies: every commit of a well-formed repository without hidden tags has its registry, a valid one
      being the versions from two on; and the log reads as one contiguous history. */
  lemma {:induction false} WhereItApplies(repo: Repo, code: Code, head: Commit, log: Entries)
    ensures Ready(repo, code, head) <==>
      repo.Valid() && repo.TagsUnshadowed() && head in repo.ancestors && forall c :: c in repo.ancestors ==> c in code
    ensures RegistriesValid(code) <==> forall c, i :: c in code && 0 <= i < |code[c]| ==> code[c][i] == i + 2
    ensures History(log) <==> log.Ok? && Contiguous(log.value)
  {
    if RegistriesValid(code) {
      forall c, i | c in code && 0 <= i < |code[c]| ensures code[c][i] == i + 2 { RegistryExactly(code[c]); }
    }
    if forall c, i :: c in code && 0 <= i < |code[c]| ==> code[c][i] == i + 2 {
      forall c | c in code ensures ValidRegistry(code[c]) { RegistryExactly(code[c]); }
    }
  }
}
