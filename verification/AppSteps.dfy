/** One event at a time: what it does to the row of its app, to the containers and to the threads, and that it does
    nothing else. */
module AppSteps {
  import opened Common
  import opened Apps
  import opened AppRecovery
  import opened AppLifecycle

  /** Of the containers exactly `which` are dead that were not, and none changes its domain. */
  ghost predicate OnlyDie(before: Containers, after: Containers, which: set<ContainerId>) {
    && after.Keys == before.Keys
    && forall c :: c in before ==> after[c] == Container(before[c].alive && c !in which, before[c].domain)
  }

  /** Of the rows only that of `a` may have changed, to `row`. */
  ghost predicate OnlyRow(before: Rows, after: Rows, a: Id, row: Row) {
    after.Keys == before.Keys && forall b :: b in before ==> after[b] == if b == a then row else before[b]
  }

  function Own(row: Row): set<ContainerId> { if row.container.Some? then {row.container.value} else {} }

  // ---------------------------------------------------------------- operators and the storage guard

  /** An app that is stopped, by its owner or for want of space, reloaded or renamed loses its container, which is
      stopped; only the new status and, for a reload or a rename, the thread tell these apart. */
  lemma {:induction false} StoppingTold(s: System, e: Event, a: Id)
    requires Enabled(s, e) && (e == Stops(a) || e == GuardStops(a) || e == Reloads(a) || e == RenameStarts(a))
    ensures var s', row := Step(s, e), s.rows[a];
      && s'.primary == s.primary && s'.archiveBusy == s.archiveBusy
      && OnlyDie(s.containers, s'.containers, Own(row))
      && OnlyRow(s.rows, s'.rows, a, row.(container := None,
           status := if e.GuardStops? then Failed else if e.Reloads? then Building else Stopped,
           note := if e.GuardStops? then Other else if e.Reloads? then NoNote else row.note))
      && s'.jobs == s.jobs +
           if e.Reloads? then [Job(a, Called(true), false)]
           else if e.RenameStarts? then [Job(a, Renaming(row.status, row.container), false)]
           else []
  {
  }

  /** A rename that could move the directories starts an app again that had been running or on its way; one that could
      not puts status and container back. */
  lemma {:induction false} RenameEndTold(s: System, i: nat, moved: bool)
    requires Enabled(s, RenameEnds(i, moved))
    ensures var s', job := Step(s, RenameEnds(i, moved)), s.jobs[i];
      var prior := job.stage.prior;
      && s'.primary == s.primary && s'.archiveBusy == s.archiveBusy && s'.containers == s.containers
      && (moved ==> s'.rows == s.rows)
      && (!moved && job.app in s.rows ==>
            OnlyRow(s.rows, s'.rows, job.app, s.rows[job.app].(status := prior, container := job.stage.container)))
      && s'.jobs ==
           if moved && (prior.Running? || prior.Starting? || prior.Building?)
           then s.jobs[i := Job(job.app, Called(true), job.byArchive)]
           else s.jobs[..i] + s.jobs[i + 1..]
  {
  }

  /** A removal marks the row; when it is through the row is gone and its container stopped, or the row has failed. */
  lemma {:induction false} RemovalTold(s: System, a: Id, gone: bool)
    requires a in s.rows
    ensures OnlyRow(s.rows, Step(s, RemoveStarts(a)).rows, a, s.rows[a].(status := Removing))
    ensures Step(s, RemoveStarts(a)) == s.(rows := Step(s, RemoveStarts(a)).rows)
    ensures s.rows[a].status.Removing? ==>
      var s' := Step(s, RemoveEnds(a, gone));
      && s'.jobs == s.jobs && s'.primary == s.primary && s'.archiveBusy == s.archiveBusy
      && (gone ==> s'.rows == s.rows - {a} && OnlyDie(s.containers, s'.containers, Own(s.rows[a])))
      && (!gone ==> OnlyRow(s.rows, s'.rows, a, s.rows[a].(status := Failed, note := Other))
                    && s'.containers == s.containers)
  {
  }

  // ---------------------------------------------------------------- a thread's turns

  /** The row of the app a thread works on becomes `row`, if the app is still there, and the rest of the system
      stays. */
  ghost predicate TurnGives(s: System, s': System, i: nat, row: Row, jobs: seq<Job>, containers: Containers)
    requires i < |s.jobs|
  {
    && s'.primary == s.primary && s'.archiveBusy == s.archiveBusy && s'.jobs == jobs && s'.containers == containers
    && OnlyRow(s.rows, s'.rows, s.jobs[i].app, row)
  }

  function Started(row: Row): Row {
    row.(status := Starting, note := if row.note == PromotionMarker then PromotionMarker else NoNote)
  }

  /** The turns on the way to a container. The mark shows the app as starting and clears what was reported of it, but
      not a promotion's marker; the launch uses the domain read before it. */
  ghost predicate Proceeded(s: System, s': System, i: nat, id: ContainerId)
    requires i < |s.jobs| && s.jobs[i].app in s.rows
  {
    var job, row := s.jobs[i], s.rows[s.jobs[i].app];
    match job.stage
    case Called(build) =>
      if build then TurnGives(s, s', i, Started(row), s.jobs[i := job.(stage := Marked)], s.containers)
      else TurnGives(s, s', i, row, s.jobs[i := job.(stage := HasDomain(s.primary))], s.containers)
    case Marked => TurnGives(s, s', i, row, s.jobs[i := job.(stage := HasDomain(s.primary))], s.containers)
    case HasDomain(domain) =>
      TurnGives(s, s', i, Started(row), s.jobs[i := job.(stage := Launching(domain))], s.containers)
    case Launching(domain) =>
      TurnGives(s, s', i, row.(container := Some(id)), s.jobs[i := job.(stage := Launched(id))],
                s.containers[id := Container(true, domain)])
    case _ => s' == s
  }

  lemma {:induction false} ProceedingTold(s: System, i: nat, id: ContainerId)
    requires Enabled(s, Turns(i, Proceeds(id))) && s.jobs[i].app in s.rows
    ensures Proceeded(s, Step(s, Turns(i, Proceeds(id))), i, id)
  {
  }

  /** How a launch ends: it answers and runs, with nothing reported; it does not, and has failed; or it raises, with
      what it raised reported and the container gone unless it could not be cleaned up. */
  lemma {:induction false} EndingTold(s: System, i: nat, report: Note, cleaned: bool)
    requires i < |s.jobs| && !s.jobs[i].stage.Renaming? && s.jobs[i].app in s.rows && report != PromotionMarker
    ensures var job, row, rest := s.jobs[i], s.rows[s.jobs[i].app], s.jobs[..i] + s.jobs[i + 1..];
      var raised := Step(s, Turns(i, Raises(report, cleaned)));
      && (job.stage.Launched? ==>
            && TurnGives(s, Step(s, Turns(i, Answers)), i, row.(status := Running, note := NoNote), rest, s.containers)
            && TurnGives(s, Step(s, Turns(i, Silent)), i, row.(status := Failed, note := Other), rest, s.containers))
      && (!job.stage.Launched? ==> Step(s, Turns(i, Answers)) == s && Step(s, Turns(i, Silent)) == s)
      && raised.primary == s.primary && raised.archiveBusy == s.archiveBusy && raised.jobs == rest
      && OnlyDie(s.containers, raised.containers, if job.stage.Launched? && cleaned then {job.stage.id} else {})
      && OnlyRow(s.rows, raised.rows, job.app, row.(status := Failed, note := report,
           container := if job.stage.Launched? then (if cleaned then None else Some(job.stage.id))
                        else if job.stage.Launching? then None else row.container))
  {
  }

  // ---------------------------------------------------------------- the machine

  /** Containers that stop are the ones that do; a crash ends every thread and whatever archive operation there is, and
      nothing else; an archive operation is one at a time, and the restarts in it are its own. */
  lemma {:induction false} MachineTold(s: System, which: set<ContainerId>, a: Id)
    ensures Step(s, ContainersStop(which)) == s.(containers := Step(s, ContainersStop(which)).containers)
    ensures OnlyDie(s.containers, Step(s, ContainersStop(which)).containers, which)
    ensures Step(s, Crashes) == s.(jobs := [], archiveBusy := false)
    ensures !s.archiveBusy ==> Step(s, ArchiveStarts) == s.(archiveBusy := true)
    ensures s.archiveBusy && a in s.rows ==>
      Step(s, ArchiveResumes(a)) == s.(jobs := s.jobs + [Job(a, Called(false), true)])
    ensures s.archiveBusy ==> (Enabled(s, ArchiveEnds) <==> forall i :: 0 <= i < |s.jobs| ==> !s.jobs[i].byArchive)
  {
  }

  /** Of what may happen only the acts of an operator on the app itself, and the end of its rename, touch it. */
  lemma {:induction false} TouchedOnlyBy(s: System, e: Event, a: Id)
    ensures !e.Stops? && !e.RenameStarts? && !e.RemoveStarts? && !e.RemoveEnds? && !e.RenameEnds? ==> !Touches(s, e, a)
    ensures (e.Stops? || e.RenameStarts? || e.RemoveStarts? || e.RemoveEnds?) && e.app != a ==> !Touches(s, e, a)
    ensures e.RenameEnds? && e.job < |s.jobs| && s.jobs[e.job].app != a ==> !Touches(s, e, a)
  {
  }

  // ---------------------------------------------------------------- a marked app's way to rest

  /** Coming to rest means a state on the way in which the app is running or has failed. */
  lemma {:induction false} RestMeans(s: System, events: seq<Event>, a: Id) returns (n: nat)
    requires Possible(s, events) && ComesToRest(s, events, a)
    ensures n <= |events| && Possible(s, events[..n])
    ensures var end := RunAll(s, events[..n]);
      a in end.rows && (end.rows[a].status.Running? || end.rows[a].status.Failed?)
    decreases |events|
  {
    hide Enabled, Step;
    if a in s.rows && (s.rows[a].status.Running? || s.rows[a].status.Failed?) {
      n := 0;
      assert events[..0] == [];
    } else {
      n := RestMeans(Step(s, events[0]), events[1..], a);
      FirstStep(s, events[0], events[1..][..n]);
      n := n + 1;
      assert events[..n] == [events[0]] + events[1..][..n - 1];
    }
  }

  /** A run in which the operator leaves the app alone. */
  predicate LeavesAlone(e: Event, a: Id) {
    !e.RenameEnds? && ((e.Stops? || e.RenameStarts? || e.RemoveStarts? || e.RemoveEnds?) ==> e.app != a)
  }

  lemma {:induction false} LeftAloneThroughout(s: System, events: seq<Event>, a: Id)
    requires Possible(s, events) && forall i :: 0 <= i < |events| ==> LeavesAlone(events[i], a)
    ensures NeverTouched(s, events, a)
    decreases |events|
  {
    hide Enabled, Step;
    if events != [] {
      TouchedOnlyBy(s, events[0], a);
      assert LeavesAlone(events[0], a);
      LeftAloneThroughout(Step(s, events[0]), events[1..], a);
    }
  }
}
