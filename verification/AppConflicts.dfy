/** Two things at work on one app: exactly when a reload, a restart after an archive operation or a rename may begin on
    top of what there already is. */
module AppConflicts {
  import opened Common
  import opened Apps
  import opened AppRecovery
  import opened AppLifecycle

  /** A disciplined run after which some app says running without an up-to-date container. */
  ghost predicate Breaks(s: System, events: seq<Event>) {
    Possible(s, events) && AllDisciplined(s, events) && !AllUpToDate(RunAll(s, events))
  }

  lemma {:induction false} BreaksAfter(s: System, e: Event, rest: seq<Event>)
    requires Enabled(s, e) && Disciplined(s, e) && Breaks(Step(s, e), rest)
    ensures Breaks(s, [e] + rest)
  {
    hide Enabled, Disciplined, Step, Possible, AllDisciplined, RunAll, AllUpToDate;
    FirstStep(s, e, rest);
    FirstStepDisciplined(s, e, rest);
  }

  lemma {:induction false} EndsRunning(s: System, i: nat) returns (events: seq<Event>)
    requires i < |s.jobs| && HoldsDomain(s, s.jobs[i]) && Outdated(s, s.jobs[i])
    ensures Breaks(s, events)
  {
    hide Possible, AllDisciplined, AllUpToDate, RunAll, HoldsDomain, Outdated;
    events := SaysRunning(s, i);
  }


  // ---------------------------------------------------------------- a thread takes its turns

  predicate Thread(job: Job) { !job.stage.Renaming? }

  /** The turns a thread takes until it waits for its container. */
  function Left(job: Job): nat {
    match job.stage
    case Called(build) => if build then 4 else 3
    case Marked => 3
    case HasDomain(_) => 2
    case Launching(_) => 1
    case _ => 0
  }

  lemma {:induction false} Fresh(s: System, other: Option<ContainerId>) returns (id: ContainerId)
    ensures id !in s.containers && other != Some(id)
  {
    var n := LongerThan(s.containers.Keys + if other.Some? then {other.value} else {});
    id := seq(n, k => 'x');
    assert |id| == n;
  }

  /** One turn on the way: the job comes nearer, and the rest of the system is as it was, up to the app's own row. */
  lemma {:induction false} Advances(s: System, i: nat, id: ContainerId)
    requires i < |s.jobs| && Thread(s.jobs[i]) && Left(s.jobs[i]) > 0 && id !in s.containers
    ensures var e := Turns(i, Proceeds(id));
      && Enabled(s, e) && Disciplined(s, e)
      && var s' := Step(s, e);
      && |s'.jobs| == |s.jobs| && s'.jobs == s.jobs[i := s'.jobs[i]] && s'.jobs[i].app == s.jobs[i].app
      && Thread(s'.jobs[i]) && Left(s'.jobs[i]) < Left(s.jobs[i])
      && s'.rows.Keys == s.rows.Keys
      && forall c :: !UsesPrimary(s, c) && c != Some(id) ==> !UsesPrimary(s', c)
  {
    hide MarkedStarting;
  }

  /** Where job `i` is once job `k` is gone. */
  function Shifted(i: nat, k: nat): nat
    requires i != k
  {
    if k < i then i - 1 else i
  }

  /** A thread that fails after its mark leaves the app without a container. */
  lemma {:induction false} Fails(s: System, k: nat)
    requires k < |s.jobs| && Thread(s.jobs[k]) && Left(s.jobs[k]) <= 1 && s.jobs[k].app in s.rows
    ensures var e := Turns(k, Raises(Other, true));
      && Enabled(s, e) && Disciplined(s, e)
      && var s' := Step(s, e);
      && s'.jobs == DropJob(s.jobs, k)
      && s.jobs[k].app in s'.rows && s'.rows[s.jobs[k].app].container == None && !UsesPrimary(s', None)
  {
  }

  /** Two threads: the one fails and empties the row, and the other then says running for it. */
  lemma {:induction false} TwoThreads(s: System, i: nat, k: nat) returns (events: seq<Event>)
    requires Meet(s, i, k) && Thread(s.jobs[i]) && Thread(s.jobs[k])
    ensures Breaks(s, events)
    decreases Left(s.jobs[i]) + Left(s.jobs[k])
  {
    hide Enabled, Disciplined, Step, Breaks, UsesPrimary;
    var e: Event;
    if Left(s.jobs[i]) > 0 {
      var id := Fresh(s, None);
      Advances(s, i, id);
      e := Turns(i, Proceeds(id));
      events := TwoThreads(Step(s, e), i, k);
    } else if Left(s.jobs[k]) > 1 {
      var id := Fresh(s, None);
      Advances(s, k, id);
      e := Turns(k, Proceeds(id));
      events := TwoThreads(Step(s, e), i, k);
    } else {
      Fails(s, k);
      e := Turns(k, Raises(Other, true));
      WaitsForNothing(s, Step(s, e), i, k);
      events := EndsRunning(Step(s, e), Shifted(i, k));
    }
    BreaksAfter(s, e, events);
    events := [e] + events;
  }

  /** The other job gone, a thread waits for a container that its row does not name, or names in vain. */
  lemma {:induction false} WaitsForNothing(s: System, s': System, i: nat, k: nat)
    requires Meet(s, i, k) && Thread(s.jobs[i]) && Left(s.jobs[i]) == 0 && s'.jobs == DropJob(s.jobs, k)
    requires s.jobs[k].app in s'.rows && !UsesPrimary(s', s'.rows[s.jobs[k].app].container)
    ensures var j := Shifted(i, k); j < |s'.jobs| && HoldsDomain(s', s'.jobs[j]) && Outdated(s', s'.jobs[j])
  {
    hide UsesPrimary;
  }

  lemma {:induction false} PutsBack(s: System, k: nat)
    requires k < |s.jobs| && !Thread(s.jobs[k]) && s.jobs[k].app in s.rows
    ensures var e := RenameEnds(k, false);
      && Enabled(s, e) && Disciplined(s, e)
      && var s' := Step(s, e);
      && s'.jobs == DropJob(s.jobs, k) && s'.containers == s.containers && s'.primary == s.primary
      && s.jobs[k].app in s'.rows && s'.rows[s.jobs[k].app].container == s.jobs[k].stage.container
  {
  }

  /** A thread, and a rename that puts back a container that is not up to date. */
  lemma {:induction false} ThreadAndRename(s: System, i: nat, k: nat) returns (events: seq<Event>)
    requires Meet(s, i, k) && Thread(s.jobs[i]) && !Thread(s.jobs[k]) && !UsesPrimary(s, s.jobs[k].stage.container)
    ensures Breaks(s, events)
    decreases Left(s.jobs[i])
  {
    hide Enabled, Disciplined, Step, Breaks;
    var e: Event;
    if Left(s.jobs[i]) > 0 {
      var id := Fresh(s, s.jobs[k].stage.container);
      Advances(s, i, id);
      e := Turns(i, Proceeds(id));
      events := ThreadAndRename(Step(s, e), i, k);
    } else {
      PutsBack(s, k);
      e := RenameEnds(k, false);
      WaitsForNothing(s, Step(s, e), i, k);
      events := EndsRunning(Step(s, e), Shifted(i, k));
    }
    BreaksAfter(s, e, events);
    events := [e] + events;
  }

  /** A rename of an app that was up becomes a thread. */
  lemma {:induction false} Moves(s: System, k: nat)
    requires k < |s.jobs| && !Thread(s.jobs[k]) && WasUp(s.jobs[k].stage.prior)
    ensures var e := RenameEnds(k, true);
      Enabled(s, e) && Disciplined(s, e) && Step(s, e) == s.(jobs := s.jobs[k := s.jobs[k].(stage := Called(true))])
  {
  }

  // ---------------------------------------------------------------- making room for a promotion

  /** A thread that has not read the primary domain yet, next to a harmless rename of the same app. */
  ghost predicate Poised(s: System, i: nat, k: nat) {
    && Meet(s, i, k) && Thread(s.jobs[i]) && !Bound(s.jobs[i]) && Harmless(s.jobs[k]) && !s.jobs[k].byArchive
    && !s.rows[s.jobs[i].app].status.Removing?
  }

  predicate Third(s: System, i: int, k: int, l: int) { 0 <= l < |s.jobs| && l != i && l != k }

  lemma {:induction false} OthersLeave(s: System, i: nat, k: nat, b: Id)
    requires Poised(s, i, k) && b in s.rows && b != s.jobs[i].app
    ensures var e, f := RemoveStarts(b), RemoveEnds(b, true);
      && Enabled(s, e) && Disciplined(s, e) && Enabled(Step(s, e), f) && Disciplined(Step(s, e), f)
      && var s' := Step(Step(s, e), f);
      Poised(s', i, k) && s'.rows.Keys == s.rows.Keys - {b}
  {
  }

  lemma {:induction false} ThreadLeaves(s: System, i: nat, k: nat, l: nat)
    requires Poised(s, i, k) && l < |s.jobs| && l != i && l != k && Thread(s.jobs[l])
    ensures var e := Turns(l, Raises(Other, false));
      && Enabled(s, e) && Disciplined(s, e)
      && var s' := Step(s, e);
      Poised(s', Shifted(i, l), Shifted(k, l)) && s'.rows.Keys == s.rows.Keys && |s'.jobs| < |s.jobs|
  {
    hide Failing;
    FailingStays(s, l, Other, false);
  }

  lemma {:induction false} RenameLeaves(s: System, i: nat, k: nat, l: nat)
    requires Poised(s, i, k) && l < |s.jobs| && l != i && l != k && !Thread(s.jobs[l])
    ensures var e := RenameEnds(l, true);
      && Enabled(s, e) && Disciplined(s, e)
      && var s' := Step(s, e);
      && s'.rows == s.rows
      && if WasUp(s.jobs[l].stage.prior) then Poised(s', i, k) && |s'.jobs| == |s.jobs| && Thread(s'.jobs[l])
         else Poised(s', Shifted(i, l), Shifted(k, l)) && |s'.jobs| < |s.jobs|
  {
  }

  /** Nobody else left: what still holds a promotion back. */
  ghost predicate Alone(s: System, i: nat, k: nat) {
    Poised(s, i, k) && s.rows.Keys == {s.jobs[i].app} && |s.jobs| == 2
  }

  lemma {:induction false} ArchiveLeaves(s: System, i: nat, k: nat)
    requires Alone(s, i, k) && s.archiveBusy
    ensures Enabled(s, ArchiveEnds) && Disciplined(s, ArchiveEnds) && Alone(Step(s, ArchiveEnds), i, k)
    ensures !Step(s, ArchiveEnds).archiveBusy
  {
  }

  lemma {:induction false} RowLeaves(s: System, i: nat, k: nat)
    requires Alone(s, i, k)
    ensures var e := Stops(s.jobs[i].app);
      && Enabled(s, e) && Disciplined(s, e)
      && var s' := Step(s, e);
      Alone(s', i, k) && !BusyForPromotion(s'.rows[s'.jobs[i].app]) && s'.archiveBusy == s.archiveBusy
  {
  }

  lemma {:induction false} PromotionComes(s: System, i: nat, k: nat)
    requires Alone(s, i, k) && !s.archiveBusy && !BusyForPromotion(s.rows[s.jobs[i].app])
    requires UsesPrimary(s, s.jobs[k].stage.container)
    ensures var e := Promotes(s.primary + "x");
      && Enabled(s, e) && Disciplined(s, e)
      && var s' := Step(s, e);
      Meet(s', i, k) && s'.jobs == s.jobs && !UsesPrimary(s', s.jobs[k].stage.container)
  {
    var to := s.primary + "x";
    assert |to| > |s.primary|;
    assert Accepts(s, to);
  }

  /** The other apps are removed, the other jobs end, the archive operation ends, the app is stopped: then a promotion
      is accepted, and what the rename puts back is out of date. */
  lemma {:induction false} ThroughPromotion(s: System, i: nat, k: nat) returns (events: seq<Event>)
    requires Poised(s, i, k)
    ensures Breaks(s, events)
    decreases |s.rows.Keys|, |s.jobs|, s.archiveBusy, BusyForPromotion(s.rows[s.jobs[i].app])
  {
    hide Enabled, Disciplined, Step, Breaks, UsesPrimary, Poised, BusyForPromotion;
    assert Meet(s, i, k) && Thread(s.jobs[i]) && !Thread(s.jobs[k]) by { hide *; PoisedJobs(s, i, k); }
    if !UsesPrimary(s, s.jobs[k].stage.container) {
      events := ThreadAndRename(s, i, k);
      return;
    }
    var e: Event;
    if b :| b in s.rows && b != s.jobs[i].app {
      OthersLeave(s, i, k, b);
      e := RemoveStarts(b);
      var f, mid := RemoveEnds(b, true), Step(s, e);
      ProperSubsetIsSmaller(s.rows.Keys - {b}, s.rows.Keys);
      events := ThroughPromotion(Step(mid, f), i, k);
      BreaksAfter(mid, f, events);
      events := [f] + events;
    } else if l :| Third(s, i, k, l) {
      if Thread(s.jobs[l]) {
        ThreadLeaves(s, i, k, l);
        e := Turns(l, Raises(Other, false));
        events := ThroughPromotion(Step(s, e), Shifted(i, l), Shifted(k, l));
      } else {
        RenameLeaves(s, i, k, l);
        e := RenameEnds(l, true);
        var mid := Step(s, e);
        if WasUp(s.jobs[l].stage.prior) {
          ThreadLeaves(mid, i, k, l);
          var f := Turns(l, Raises(Other, false));
          events := ThroughPromotion(Step(mid, f), Shifted(i, l), Shifted(k, l));
          BreaksAfter(mid, f, events);
          events := [f] + events;
        } else {
          events := ThroughPromotion(mid, Shifted(i, l), Shifted(k, l));
        }
      }
    } else {
      TwoOrMore(s, i, k);
      assert s.rows.Keys == {s.jobs[i].app};
      if s.archiveBusy {
        ArchiveLeaves(s, i, k);
        e := ArchiveEnds;
        events := ThroughPromotion(Step(s, e), i, k);
      } else if BusyForPromotion(s.rows[s.jobs[i].app]) {
        RowLeaves(s, i, k);
        e := Stops(s.jobs[i].app);
        events := ThroughPromotion(Step(s, e), i, k);
      } else {
        PromotionComes(s, i, k);
        e := Promotes(s.primary + "x");
        events := ThreadAndRename(Step(s, e), i, k);
      }
    }
    BreaksAfter(s, e, events);
    events := [e] + events;
  }

  lemma {:induction false} PoisedJobs(s: System, i: nat, k: nat)
    requires Poised(s, i, k)
    ensures Meet(s, i, k) && Thread(s.jobs[i]) && !Thread(s.jobs[k])
  {
  }

  lemma {:induction false} TwoOrMore(s: System, i: nat, k: nat)
    requires Meet(s, i, k)
    ensures |s.jobs| == 2 || exists l :: Third(s, i, k, l)
  {
    if |s.jobs| != 2 {
      var l := if i != 0 && k != 0 then 0 else if i != 1 && k != 1 then 1 else 2;
      assert Third(s, i, k, l);
    }
  }

  // ---------------------------------------------------------------- two jobs that do not go together

  /** Any two jobs of one app that are not compatible lead to an app that says running without an up-to-date
      container. */
  lemma {:induction false} Clash(s: System, i: nat, k: nat) returns (events: seq<Event>)
    requires Meet(s, i, k) && !Compatible(s, s.jobs[i], s.jobs[k])
    requires !Thread(s.jobs[i]) ==> !s.jobs[i].byArchive
    requires !Thread(s.jobs[k]) ==> !s.jobs[k].byArchive
    requires Bound(s.jobs[i]) || Bound(s.jobs[k]) || !s.rows[s.jobs[i].app].status.Removing?
    ensures Breaks(s, events)
    decreases if Thread(s.jobs[i]) then 0 else 1, if Thread(s.jobs[k]) then 0 else 1
  {
    hide Enabled, Disciplined, Step, Breaks, UsesPrimary;
    if Thread(s.jobs[i]) && Thread(s.jobs[k]) {
      events := TwoThreads(s, i, k);
    } else if Thread(s.jobs[i]) && Harmless(s.jobs[k]) {
      events := ThreadAndHarmless(s, i, k);
    } else if Thread(s.jobs[k]) && Harmless(s.jobs[i]) {
      events := ThreadAndHarmless(s, k, i);
    } else {
      var l := if !Thread(s.jobs[i]) && !Harmless(s.jobs[i]) then i else k;
      Moves(s, l);
      events := Clash(Step(s, RenameEnds(l, true)), i, k);
      BreaksAfter(s, RenameEnds(l, true), events);
      events := [RenameEnds(l, true)] + events;
    }
  }

  lemma {:induction false} ThreadAndHarmless(s: System, i: nat, k: nat) returns (events: seq<Event>)
    requires Meet(s, i, k) && Thread(s.jobs[i]) && Harmless(s.jobs[k]) && !s.jobs[k].byArchive
    requires !Yields(s, s.jobs[k], s.jobs[i])
    requires Bound(s.jobs[i]) || !s.rows[s.jobs[i].app].status.Removing?
    ensures Breaks(s, events)
  {
    hide Breaks, UsesPrimary;
    if UsesPrimary(s, s.jobs[k].stage.container) {
      events := ThroughPromotion(s, i, k);
    } else {
      events := ThreadAndRename(s, i, k);
    }
  }

  // ---------------------------------------------------------------- exactly when a job may begin

  lemma {:induction false} BreaksIsUnsafe(s: System, events: seq<Event>)
    requires Breaks(s, events)
    ensures !StaysUpToDate(s, events)
  {
  }

  /** A reload is safe, whatever follows, if and only if nothing is at work on the app: no thread, and no rename either,
      harmless as it may be. */
  lemma {:induction false} ReloadSafeExactly(s: System, a: Id)
    requires Inv(s) && Enabled(s, Reloads(a))
    ensures (forall events :: StaysUpToDate(Step(s, Reloads(a)), events)) <==> Idle(s, a)
  {
    hide StaysUpToDate, Together, Breaks, UsesPrimary;
    var s' := Step(s, Reloads(a));
    if Idle(s, a) {
      NewJobKeeps(s, Reloads(a), a);
      KeptStaysUpToDate(s');
    } else {
      var i :| 0 <= i < |s.jobs| && s.jobs[i].app == a;
      assert JobOk(s, s.jobs[i]);
      var events := Clash(s', i, |s.jobs|);
      BreaksIsUnsafe(s', events);
    }
  }

  /** The restart of an app after an archive operation is safe, whatever follows, if and only if nothing is at work on
      the app but renames of an app that was down and that would put back a container that is up to date: no promotion
      comes between, as the archive operation holds it back. */
  lemma {:induction false} ResumeSafeExactly(s: System, a: Id)
    requires Inv(s) && Enabled(s, ArchiveResumes(a))
    ensures (forall events :: StaysUpToDate(Step(s, ArchiveResumes(a)), events)) <==> MayResume(s, a)
  {
    hide StaysUpToDate, Together, Breaks, UsesPrimary;
    var s' := Step(s, ArchiveResumes(a));
    if MayResume(s, a) {
      NewJobKeeps(s, ArchiveResumes(a), a);
      KeptStaysUpToDate(s');
    } else {
      var i :| 0 <= i < |s.jobs| && s.jobs[i].app == a
        && !(Harmless(s.jobs[i]) && UsesPrimary(s, s.jobs[i].stage.container));
      assert JobOk(s, s.jobs[i]);
      SameUse(s, s', if s.jobs[i].stage.Renaming? then s.jobs[i].stage.container else None);
      var events := Clash(s', i, |s.jobs|);
      BreaksIsUnsafe(s', events);
    }
  }

  lemma {:induction false} SameUse(s: System, s': System, container: Option<ContainerId>)
    requires SameDomains(s, s') && s'.containers.Keys == s.containers.Keys
    ensures UsesPrimary(s', container) == UsesPrimary(s, container)
  {
  }

  /** A rename is safe, whatever follows, if and only if nothing is at work on the app, or the app is down and at work
      are only renames of it while it was down, and threads that stay with this primary domain and do not wait for a
      container yet, while the app's own container is up to date. */
  lemma {:induction false} RenameSafeExactly(s: System, a: Id)
    requires Inv(s) && Enabled(s, RenameStarts(a))
    ensures (forall events :: StaysUpToDate(Step(s, RenameStarts(a)), events)) <==> MayRename(s, a)
  {
    hide StaysUpToDate, Together, Breaks, UsesPrimary;
    var s' := Step(s, RenameStarts(a));
    if MayRename(s, a) {
      NewJobKeeps(s, RenameStarts(a), a);
      KeptStaysUpToDate(s');
    } else {
      var i :| 0 <= i < |s.jobs| && s.jobs[i].app == a
        && !(&& !WasUp(s.rows[a].status) && !s.jobs[i].stage.Launched?
             && (Harmless(s.jobs[i]) || (Bound(s.jobs[i]) && UsesPrimary(s, s.rows[a].container))));
      assert JobOk(s, s.jobs[i]);
      SameUse(s, s', s.rows[a].container);
      var events: seq<Event>;
      if s.jobs[i].stage.Launched? {
        assert !UsesPrimary(s', None) by { NoContainer(s'); }
        events := EndsRunning(s', i);
      } else {
        events := Clash(s', i, |s.jobs|);
      }
      BreaksIsUnsafe(s', events);
    }
  }

  lemma {:induction false} NoContainer(s: System)
    ensures !UsesPrimary(s, None)
  {
  }
}
