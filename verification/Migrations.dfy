/** The migration runner, its log over any number of runs with failures and crashes, and the status report. */
module Migrations {
  import opened Common
  import opened Journal

  // ---------------------------------------------------------------- registry and log summary

  predicate ValidRegistry(registry: seq<int>) { Consecutive(registry, 2) }

  function LatestVersion(registry: seq<int>): int {
    if registry == [] then 1 else registry[|registry| - 1]
  }

  /** from, from + 1, from + 2, ... */
  predicate Consecutive(versions: seq<int>, from: int) {
    forall i :: 0 <= i < |versions| ==> versions[i] == from + i
  }

  function Successes(entries: seq<Entry>): seq<int> {
    if entries == [] then []
    else (if entries[0].success then [entries[0].version] else []) + Successes(entries[1..])
  }

  /** current_host_version: the version of the last success, 0 when there is none. */
  function CurrentVersion(entries: seq<Entry>): int {
    if entries == [] then 0
    else if entries[|entries| - 1].success then entries[|entries| - 1].version
    else CurrentVersion(entries[..|entries| - 1])
  }

  /** The successes of a host's history: a contiguous increasing run starting at the version it was set up with. */
  predicate Contiguous(entries: seq<Entry>) {
    var ok := Successes(entries);
    ok != [] ==> ok[0] >= 1 && Consecutive(ok, ok[0])
  }

  // ---------------------------------------------------------------- what can go wrong

  datatype Up = Returns | Raises(error: string) | Killed
  datatype Fault = Fault(up: Up, write: Write)

  /** How the `up()` of each version, and the append after it, turn out in one run; all is well by default. */
  type Plan = map<int, Fault>

  function FaultOf(plan: Plan, version: int): Fault {
    if version in plan then plan[version] else Fault(Returns, Whole)
  }

  datatype Outcome =
    | Applied(versions: seq<int>)
    | InvalidRegistry | NotRoot | UnreadableLog | NoHistory | HostAhead
    | UpRaised(version: int)
    | ProcessDied

  /** The entries a run adds, the versions whose `up()` it called, and how it ended. */
  datatype Run = Run(logged: seq<Entry>, called: seq<int>, outcome: Outcome)

  /** One migration: the entries it leaves in the log, and how the run ends there unless it got through. */
  datatype Step = Step(logged: seq<Entry>, stop: Option<Outcome>)

  function Migrate(codec: Codec, version: int, fault: Fault, now: string): Step {
    match fault.up
    case Killed => Step([], Some(ProcessDied))
    case Raises(error) =>
      Step(Kept(codec, Entry(version, now, false, Some(error)), fault.write),
           Some(if fault.write.Whole? then UpRaised(version) else ProcessDied))
    case Returns =>
      Step(Kept(codec, Entry(version, now, true, None), fault.write),
           if fault.write.Whole? then None else Some(ProcessDied))
  }

  /** The migrations of `registry` above `current`, in order, up to the first that does not get through. */
  function RunFrom(codec: Codec, registry: seq<int>, current: int, plan: Plan, now: string, done: seq<int>): Run {
    if registry == [] then Run([], [], Applied(done)) else
      var version := registry[0];
      if version <= current then RunFrom(codec, registry[1..], current, plan, now, done) else
        var step := Migrate(codec, version, FaultOf(plan, version), now);
        if step.stop.Some? then Run(step.logged, [version], step.stop.value) else
          var rest := RunFrom(codec, registry[1..], version, plan, now, done + [version]);
          Run(step.logged + rest.logged, [version] + rest.called, rest.outcome)
  }

  /** One call of apply_system_migrations: its refusals, in their order, then the migrations. */
  function ApplyRun(codec: Codec, log: Entries, registry: seq<int>, root: bool, plan: Plan, now: string): Run {
    if !ValidRegistry(registry) then Run([], [], InvalidRegistry)
    else if !root then Run([], [], NotRoot)
    else
      match log
      case Err(_) => Run([], [], UnreadableLog)
      case Ok(entries) =>
        var current := CurrentVersion(entries);
        if current == 0 then Run([], [], NoHistory)
        else if current > LatestVersion(registry) then Run([], [], HostAhead)
        else RunFrom(codec, registry, current, plan, now, [])
  }

  // ---------------------------------------------------------------- the runner

  /** The log file and the migrations called on the host so far. */
  class LogFile {
    const codec: Codec
    var file: Option<string>

    constructor (codec: Codec, file: Option<string>)
      ensures this.codec == codec && this.file == file
    {
      this.codec := codec;
      this.file := file;
    }

    /** append_entry, which a crash may keep from starting or cut short. */
    method AppendEntry(e: Entry, write: Write)
      requires codec.Faithful()
      modifies this
      ensures ReadLog(codec, file) == Join(ReadLog(codec, old(file)), Ok(Kept(codec, e, write)))
    {
      match write
      case Whole =>
        AppendReadsBack(codec, file, e);
        file := Some(Append(codec, file, e));
      case NotStarted =>
        JoinEmpty(ReadLog(codec, file));
      case Torn(count) =>
        var written := if count <= |codec.render(e)| then count else |codec.render(e)|;
        TornWriteReadsBack(codec, file, e, written);
        file := Some(Written(codec, file, e, written));
    }

    /** The body of the runner's loop: call `up()`, record how it went. */
    method RunMigration(version: int, fault: Fault, now: string) returns (stop: Option<Outcome>)
      requires codec.Faithful()
      modifies this
      ensures var step := Migrate(codec, version, fault, now);
        stop == step.stop && ReadLog(codec, file) == Join(ReadLog(codec, old(file)), Ok(step.logged))
    {
      match fault.up
      case Killed =>
        JoinEmpty(ReadLog(codec, file));
        return Some(ProcessDied);
      case Raises(error) =>
        AppendEntry(Entry(version, now, false, Some(error)), fault.write);
        return Some(if fault.write.Whole? then UpRaised(version) else ProcessDied);
      case Returns =>
        AppendEntry(Entry(version, now, true, None), fault.write);
        return if fault.write.Whole? then None else Some(ProcessDied);
    }

    /** apply_system_migrations: the log afterwards reads as before plus exactly what the run logged. */
    method ApplySystemMigrations(registry: seq<int>, root: bool, plan: Plan, now: string)
      returns (outcome: Outcome, called: seq<int>)
      requires codec.Faithful()
      modifies this
      ensures var run := ApplyRun(codec, ReadLog(codec, old(file)), registry, root, plan, now);
        && outcome == run.outcome && called == run.called
        && ReadLog(codec, file) == Join(ReadLog(codec, old(file)), Ok(run.logged))
    {
      JoinEmpty(ReadLog(codec, file));
      if !ValidRegistry(registry) { return InvalidRegistry, []; }
      if !root { return NotRoot, []; }
      var entries := ReadLog(codec, file);
      if entries.Err? { return UnreadableLog, []; }
      var current := CurrentVersion(entries.value);
      if current == 0 { return NoHistory, []; }
      if current > LatestVersion(registry) { return HostAhead, []; }
      outcome, called := RunPending(registry, current, plan, now);
    }

    /** The runner's loop over the registry. */
    method RunPending(registry: seq<int>, from: int, plan: Plan, now: string)
      returns (outcome: Outcome, called: seq<int>)
      requires codec.Faithful()
      modifies this
      ensures var run := RunFrom(codec, registry, from, plan, now, []);
        && outcome == run.outcome && called == run.called
        && ReadLog(codec, file) == Join(ReadLog(codec, old(file)), Ok(run.logged))
    {
      hide ReadLog, Migrate, Kept;
      ghost var entries := ReadLog(codec, file);
      JoinEmpty(entries);
      ghost var whole := RunFrom(codec, registry, from, plan, now, []);
      ghost var logged: seq<Entry> := [];
      var current, applied, i := from, [], 0;
      called := [];
      while i < |registry|
        invariant 0 <= i <= |registry|
        invariant ReadLog(codec, file) == Join(entries, Ok(logged))
        invariant var rest := RunFrom(codec, registry[i..], current, plan, now, applied);
          && whole.outcome == rest.outcome
          && whole.logged == logged + rest.logged
          && whole.called == called + rest.called
      {
        var version := registry[i];
        assert registry[i..][1..] == registry[i + 1..];
        i := i + 1;
        if version <= current { continue; }
        ghost var step := Migrate(codec, version, FaultOf(plan, version), now);
        called := called + [version];
        var stop := RunMigration(version, FaultOf(plan, version), now);
        JoinAssociates(entries, Ok(logged), Ok(step.logged));
        logged := logged + step.logged;
        if stop.Some? { return stop.value, called; }
        current := version;
        applied := applied + [version];
      }
      outcome := Applied(applied);
      assert whole.logged == logged;
    }
  }

  // ---------------------------------------------------------------- facts about logs

  lemma {:induction false} SuccessesJoin(a: seq<Entry>, b: seq<Entry>)
    ensures Successes(a + b) == Successes(a) + Successes(b)
  {
    if a == [] {
      assert a + b == b;
    } else {
      SuccessesJoin(a[1..], b);
      assert (a + b)[1..] == a[1..] + b;
      var first := if a[0].success then [a[0].version] else [];
      assert Successes(a + b) == first + Successes(a[1..] + b);
      assert first + (Successes(a[1..]) + Successes(b)) == first + Successes(a[1..]) + Successes(b);
    }
  }

  /** The host version is the last success. */
  lemma {:induction false} CurrentIsLastSuccess(entries: seq<Entry>)
    ensures var ok := Successes(entries);
      CurrentVersion(entries) == if ok == [] then 0 else ok[|ok| - 1]
  {
    if entries != [] {
      var init, last := entries[..|entries| - 1], entries[|entries| - 1];
      assert entries == init + [last];
      SuccessesJoin(init, [last]);
      CurrentIsLastSuccess(init);
      assert Successes([last]) == if last.success then [last.version] else [];
    }
  }

  /** In a contiguous history the last success is the highest, so the host version is the maximum. */
  lemma {:induction false} LastSuccessIsHighest(entries: seq<Entry>)
    requires Contiguous(entries)
    ensures forall v :: v in Successes(entries) ==> v <= CurrentVersion(entries)
    ensures Successes(entries) != [] ==> CurrentVersion(entries) in Successes(entries)
  {
    CurrentIsLastSuccess(entries);
  }

  // ---------------------------------------------------------------- one run

  function Max(a: int, b: int): int { if a < b then b else a }

  /** What a run does from `current` when `top` is the latest version on offer: the successes it logs follow the
      current version without a gap, nothing but those and at most one more `up()` is called, none beyond `top`, and
      completion means `top` was reached. */
  ghost predicate Shape(run: Run, current: int, top: int, done: seq<int>) {
    var ok := Successes(run.logged);
    && Consecutive(ok, current + 1) && Consecutive(run.called, current + 1)
    && |ok| <= |run.called| <= |ok| + 1
    && current + |run.called| <= Max(current, top)
    && (run.outcome.Applied? ==>
         run.called == ok && run.outcome.versions == done + ok && current + |ok| == Max(current, top))
    && (run.outcome.Applied? || run.outcome.UpRaised? || run.outcome.ProcessDied?)
  }

  lemma ShapeOneMore(rest: Run, e: Entry, current: int, top: int, done: seq<int>)
    requires e.success && e.version == current + 1 <= top
    requires Shape(rest, current + 1, top, done + [current + 1])
    ensures Shape(Run([e] + rest.logged, [current + 1] + rest.called, rest.outcome), current, top, done)
  {
    var ok := Successes(rest.logged);
    assert Successes([e] + rest.logged) == [current + 1] + ok by {
      assert ([e] + rest.logged)[1..] == rest.logged;
    }
    assert done + [current + 1] + ok == done + ([current + 1] + ok);
  }

  lemma ShapeStopped(logged: seq<Entry>, current: int, top: int, done: seq<int>, outcome: Outcome)
    requires |logged| <= 1 && (forall e :: e in logged ==> e.version == current + 1)
    requires outcome.UpRaised? || outcome.ProcessDied?
    requires current + 1 <= top
    ensures Shape(Run(logged, [current + 1], outcome), current, top, done)
  {
    if logged != [] { assert logged[0] in logged && logged[1..] == []; }
  }

  lemma {:induction false} RunShape(codec: Codec, registry: seq<int>, first: int, current: int, plan: Plan, now: string,
                                    done: seq<int>)
    requires Consecutive(registry, first) && current >= first - 1
    ensures var run := RunFrom(codec, registry, current, plan, now, done);
      Shape(run, current, first + |registry| - 1, done) && (plan == map[] ==> run.outcome.Applied?)
  {
    if registry == [] {
      assert done + [] == done;
    } else {
      var version := registry[0];
      if version <= current {
        RunShape(codec, registry[1..], first + 1, current, plan, now, done);
      } else {
        var fault := FaultOf(plan, version);
        var run := RunFrom(codec, registry, current, plan, now, done);
        assert version == current + 1;
        if fault.up.Returns? && fault.write.Whole? {
          RunShape(codec, registry[1..], first + 1, version, plan, now, done + [version]);
          ShapeOneMore(RunFrom(codec, registry[1..], version, plan, now, done + [version]),
                       Entry(version, now, true, None), current, first + |registry| - 1, done);
        } else {
          ShapeStopped(run.logged, current, first + |registry| - 1, done, run.outcome);
        }
      }
    }
  }

  /** `ran` is a call that began with the log `entries`: the history stays contiguous and only grows, no migration
      that ever logged success is called and none twice, and a completed call leaves the host at `latest`. */
  ghost predicate KeepsHistory(entries: seq<Entry>, run: Run, latest: int) {
    var after := entries + run.logged;
    && Contiguous(after)
    && Successes(entries) <= Successes(after)
    && (forall v :: v in run.called ==> v !in Successes(entries) && v > CurrentVersion(entries))
    && (forall i, j :: 0 <= i < j < |run.called| ==> run.called[i] < run.called[j])
    && (run.outcome.Applied? ==> CurrentVersion(after) == latest
                                 && run.called == run.outcome.versions
                                 && Successes(after) == Successes(entries) + run.called)
    && CurrentVersion(after) <= Max(CurrentVersion(entries), latest)
  }

  lemma ShapeKeepsHistory(entries: seq<Entry>, run: Run, latest: int)
    requires Contiguous(entries) && CurrentVersion(entries) != 0 && CurrentVersion(entries) <= latest
    requires Shape(run, CurrentVersion(entries), latest, [])
    ensures KeepsHistory(entries, run, latest)
  {
    hide Successes, CurrentVersion;
    SuccessesJoin(entries, run.logged);
    CurrentIsLastSuccess(entries);
    CurrentIsLastSuccess(entries + run.logged);
    assert [] + Successes(run.logged) == Successes(run.logged);
    RunsJoin(Successes(entries), Successes(run.logged));
  }

  /** Two runs without a gap between them are one. */
  lemma {:induction false} RunsJoin(before: seq<int>, more: seq<int>)
    requires before != [] && Consecutive(before, before[0]) && Consecutive(more, before[|before| - 1] + 1)
    ensures Consecutive(before + more, before[0]) && before <= before + more
  {
    var after := before + more;
    forall i | 0 <= i < |after| ensures after[i] == before[0] + i {
      if i >= |before| { assert after[i] == more[i - |before|]; }
    }
  }

  lemma NothingKeepsHistory(entries: seq<Entry>, run: Run, latest: int)
    requires Contiguous(entries) && run.logged == [] && run.called == [] && !run.outcome.Applied?
    ensures KeepsHistory(entries, run, latest)
  {
    assert entries + [] == entries;
  }

  lemma {:induction false} RunKeeps(codec: Codec, log: Entries, registry: seq<int>, root: bool, plan: Plan,
      now: string)
    requires log.Ok? && Contiguous(log.value)
    ensures KeepsHistory(log.value, ApplyRun(codec, log, registry, root, plan, now), LatestVersion(registry))
  {
    var entries := log.value;
    var run := ApplyRun(codec, log, registry, root, plan, now);
    CurrentIsLastSuccess(entries);
    var current := CurrentVersion(entries);
    if ValidRegistry(registry) && root && current != 0 && current <= LatestVersion(registry) {
      RunShape(codec, registry, 2, current, plan, now, []);
      ShapeKeepsHistory(entries, run, LatestVersion(registry));
    } else {
      NothingKeepsHistory(entries, run, LatestVersion(registry));
    }
  }

  /** One call of the runner, however it ends, on a host with a contiguous history. */
  lemma {:induction false} RunKeepsHistory(codec: Codec, log: Entries, registry: seq<int>, root: bool, plan: Plan,
      now: string)
    requires log.Ok? && Contiguous(log.value)
    ensures var run := ApplyRun(codec, log, registry, root, plan, now);
      var before, after := log.value, log.value + run.logged;
      && Contiguous(after) && Successes(before) <= Successes(after)
      && (forall v :: v in run.called ==> v !in Successes(before) && v > CurrentVersion(before))
      && (forall i, j :: 0 <= i < j < |run.called| ==> run.called[i] < run.called[j])
      && (run.outcome.Applied? ==>
            && CurrentVersion(after) == LatestVersion(registry) && run.called == run.outcome.versions
            && Successes(after) == Successes(before) + run.called)
      && (CurrentVersion(after) <= CurrentVersion(before) || CurrentVersion(after) <= LatestVersion(registry))
  {
    hide ApplyRun, Successes, CurrentVersion, Contiguous, LatestVersion;
    RunKeeps(codec, log, registry, root, plan, now);
  }

  // ---------------------------------------------------------------- any number of runs

  /** One attempt: the checked-out code's registry, who runs it, and how its migrations turn out. */
  datatype Attempt = Attempt(registry: seq<int>, root: bool, plan: Plan, now: string)

  /** What the log reads as after the attempts, one after the other. */
  function RunAll(codec: Codec, log: Entries, attempts: seq<Attempt>): Entries
    decreases |attempts|
  {
    if attempts == [] then log else
      var a := attempts[0];
      RunAll(codec, Join(log, Ok(ApplyRun(codec, log, a.registry, a.root, a.plan, a.now).logged)), attempts[1..])
  }

  /** Over any runs, with failures, crashes between `up()` and the append, torn writes, and registries of any length:
      the log stays readable, its successes stay one contiguous increasing run that only grows, and the host version,
      which is their maximum, never falls. */
  lemma {:induction false} HistoryStaysContiguous(codec: Codec, log: Entries, attempts: seq<Attempt>)
    requires log.Ok? && Contiguous(log.value)
    ensures var end := RunAll(codec, log, attempts);
      && end.Ok? && Contiguous(end.value)
      && Successes(log.value) <= Successes(end.value)
      && CurrentVersion(log.value) <= CurrentVersion(end.value)
    decreases |attempts|
  {
    if attempts != [] {
      var a := attempts[0];
      var run := ApplyRun(codec, log, a.registry, a.root, a.plan, a.now);
      RunKeepsHistory(codec, log, a.registry, a.root, a.plan, a.now);
      HistoryStaysContiguous(codec, Join(log, Ok(run.logged)), attempts[1..]);
      VersionOnlyRises(log.value, log.value + run.logged);
    }
  }

  lemma VersionOnlyRises(before: seq<Entry>, after: seq<Entry>)
    requires Contiguous(before) && Contiguous(after) && Successes(before) <= Successes(after)
    ensures CurrentVersion(before) <= CurrentVersion(after)
  {
    CurrentIsLastSuccess(before);
    CurrentIsLastSuccess(after);
  }

  // ---------------------------------------------------------------- status

  datatype Status = Missing | Behind | Ahead | Fine

  function MigrationStatus(entries: seq<Entry>, registry: seq<int>): Status {
    var current, expected := CurrentVersion(entries), LatestVersion(registry);
    if current == 0 then Missing
    else if current < expected then Behind
    else if current > expected then Ahead
    else Fine
  }

  /** The status report says what the runner would do: it is fine exactly when a run completes without calling
      anything, behind exactly when a run would call some migration, and the other two are the runner's refusals. */
  lemma {:induction false} StatusForetellsRun(codec: Codec, log: Entries, registry: seq<int>, plan: Plan, now: string)
    requires log.Ok? && Contiguous(log.value) && ValidRegistry(registry)
    ensures var status := MigrationStatus(log.value, registry);
      var run := ApplyRun(codec, log, registry, true, plan, now);
      && (status == Fine <==> run.outcome == Applied([]))
      && (status == Behind <==> run.called != [])
      && (status == Missing <==> run.outcome == NoHistory)
      && (status == Ahead <==> run.outcome == HostAhead)
  {
    var entries := log.value;
    CurrentIsLastSuccess(entries);
    var current := CurrentVersion(entries);
    if current != 0 && current <= LatestVersion(registry) {
      RunShape(codec, registry, 2, current, plan, now, []);
      var run := RunFrom(codec, registry, current, plan, now, []);
      assert [] + Successes(run.logged) == Successes(run.logged);
      if current < LatestVersion(registry) {
        SomethingCalled(codec, registry, 2, current, plan, now, []);
        assert run.outcome.Applied? ==> run.outcome.versions == run.called;
      } else {
        NothingCalled(codec, registry, 2, current, plan, now, []);
      }
    }
  }

  lemma {:induction false} NothingCalled(codec: Codec, registry: seq<int>, first: int, current: int, plan: Plan,
                                         now: string, done: seq<int>)
    requires Consecutive(registry, first) && current >= first + |registry| - 1
    ensures RunFrom(codec, registry, current, plan, now, done) == Run([], [], Applied(done))
  {
    if registry != [] { NothingCalled(codec, registry[1..], first + 1, current, plan, now, done); }
  }

  lemma {:induction false} SomethingCalled(codec: Codec, registry: seq<int>, first: int, current: int, plan: Plan,
                                           now: string, done: seq<int>)
    requires Consecutive(registry, first) && registry != [] && current < registry[|registry| - 1]
    ensures RunFrom(codec, registry, current, plan, now, done).called != []
  {
    if registry[0] <= current {
      assert registry[1..] != [];
      SomethingCalled(codec, registry[1..], first + 1, current, plan, now, done);
    }
  }

  // ---------------------------------------------------------------- what a run says of its migrations

  /** A run is a string of migrations that got through, each logged as a success, and at most one more, the last: that
      one raised, and is logged as failed with its error; or the process died, in it or in logging it, and then it is
      logged only if all of its entry was written. */
  ghost predicate RunTold(run: Run, codec: Codec, plan: Plan, now: string) {
    var n := if run.outcome.Applied? then |run.called| else |run.called| - 1;
    && 0 <= n <= |run.logged|
    && (forall i :: 0 <= i < n ==>
          && run.logged[i] == Entry(run.called[i], now, true, None)
          && (run.called[i] in plan ==> plan[run.called[i]] == Fault(Returns, Whole)))
    && match run.outcome
       case Applied(_) => |run.logged| == n
       case UpRaised(version) =>
         && version == run.called[n] && version in plan && plan[version].write.Whole? && plan[version].up.Raises?
         && run.logged[n..] == [Entry(version, now, false, Some(plan[version].up.error))]
       case ProcessDied =>
         && run.called[n] in plan && plan[run.called[n]] != Fault(Returns, Whole)
         && LoggedInDying(codec, run.called[n], plan[run.called[n]], now, run.logged[n..])
       case _ => false
  }

  /** What the migration the process died in or after leaves in the log. */
  ghost predicate LoggedInDying(codec: Codec, version: int, fault: Fault, now: string, logged: seq<Entry>) {
    match fault.up
    case Killed => logged == []
    case Returns => PerhapsLogged(codec, Entry(version, now, true, None), fault.write, logged)
    case Raises(error) => PerhapsLogged(codec, Entry(version, now, false, Some(error)), fault.write, logged)
  }

  ghost predicate PerhapsLogged(codec: Codec, e: Entry, write: Write, logged: seq<Entry>) {
    match write
    case Whole => false
    case NotStarted => logged == []
    case Torn(written) => logged == if written < |codec.render(e)| then [] else [e]
  }

  lemma {:induction false} OneMoreTold(rest: Run, codec: Codec, plan: Plan, now: string, version: int)
    requires RunTold(rest, codec, plan, now)
    requires version in plan ==> plan[version] == Fault(Returns, Whole)
    ensures RunTold(Run([Entry(version, now, true, None)] + rest.logged, [version] + rest.called, rest.outcome),
                    codec, plan, now)
  {
    hide LoggedInDying;
    var run := Run([Entry(version, now, true, None)] + rest.logged, [version] + rest.called, rest.outcome);
    var n := if rest.outcome.Applied? then |rest.called| else |rest.called| - 1;
    assert run.logged[n + 1..] == rest.logged[n..] && (!run.outcome.Applied? ==> run.called[n + 1] == rest.called[n]);
    forall i | 0 <= i < n + 1 ensures run.logged[i] == Entry(run.called[i], now, true, None) {
      if i > 0 { assert run.logged[i] == rest.logged[i - 1]; }
    }
  }

  lemma {:induction false} RunsTold(codec: Codec, registry: seq<int>, current: int, plan: Plan, now: string,
      done: seq<int>)
    ensures RunTold(RunFrom(codec, registry, current, plan, now, done), codec, plan, now)
  {
    hide RunTold;
    if registry == [] {
      NothingTold(codec, plan, now, done);
    } else {
      var version := registry[0];
      if version <= current {
        RunsTold(codec, registry[1..], current, plan, now, done);
      } else {
        var step := Migrate(codec, version, FaultOf(plan, version), now);
        if step.stop.Some? {
          LastTold(codec, version, plan, now);
        } else {
          assert step.logged == [Entry(version, now, true, None)];
          RunsTold(codec, registry[1..], version, plan, now, done + [version]);
          OneMoreTold(RunFrom(codec, registry[1..], version, plan, now, done + [version]), codec, plan, now, version);
        }
      }
    }
  }

  lemma {:induction false} NothingTold(codec: Codec, plan: Plan, now: string, done: seq<int>)
    ensures RunTold(Run([], [], Applied(done)), codec, plan, now)
  {
  }

  lemma {:induction false} LastTold(codec: Codec, version: int, plan: Plan, now: string)
    requires Migrate(codec, version, FaultOf(plan, version), now).stop.Some?
    ensures var step := Migrate(codec, version, FaultOf(plan, version), now);
      RunTold(Run(step.logged, [version], step.stop.value), codec, plan, now)
  {
    var step := Migrate(codec, version, FaultOf(plan, version), now);
    assert step.logged[0..] == step.logged;
  }

  // ---------------------------------------------------------------- which registries and histories

  /** The registries the runner accepts: the versions from two on, in order, without a gap. */
  lemma {:induction false} RegistryExactly(registry: seq<int>)
    ensures ValidRegistry(registry) <==> forall i :: 0 <= i < |registry| ==> registry[i] == i + 2
  {
  }

  /** The contiguous histories: the successes follow one another without a gap, from one version or a later one on. */
  lemma {:induction false} ContiguousExactly(entries: seq<Entry>)
    ensures Contiguous(entries) <==>
      var ok := Successes(entries);
      (ok != [] ==> ok[0] >= 1) && forall i, j :: 0 <= i < j == i + 1 < |ok| ==> ok[j] == ok[i] + 1
  {
    hide Successes;
    var ok := Successes(entries);
    if ok != [] && forall i, j :: 0 <= i < j == i + 1 < |ok| ==> ok[j] == ok[i] + 1 { RunOn(ok, |ok|); }
  }

  lemma {:induction false} RunOn(ok: seq<int>, n: nat)
    requires ok != [] && n <= |ok| && forall i, j :: 0 <= i < j == i + 1 < |ok| ==> ok[j] == ok[i] + 1
    ensures forall i :: 0 <= i < n ==> ok[i] == ok[0] + i
  {
    if n > 1 {
      RunOn(ok, n - 1);
      assert ok[n - 1] == ok[n - 2] + 1;
    }
  }

  /** The log of a new host, one success of any version. */
  lemma {:induction false} NewHostIsContiguous(version: int, now: string)
    requires version >= 1
    ensures Contiguous([Entry(version, now, true, None)]) &&
      CurrentVersion([Entry(version, now, true, None)]) == version
  {
    var log := [Entry(version, now, true, None)];
    assert log[1..] == [] && Successes(log) == [version];
  }
}
