/** The archive over whole runs, and exactly when a finished migration loses data. */
module ArchiveRuns {
  import opened Common
  import opened ArchiveState
  import opened ArchiveSafety

  // ---------------------------------------------------------------- no archive loss over any run

  /** What may happen to an archive that has a volume: apps write; the operator configures, whatever becomes of it;
      the service boots and mounts; the machine loses power; the file system process is restarted, which re-reads the
      pointer; and apps come and go. */
  datatype Event =
    | Writes(keys: set<Key>)
    | Configures(request: Request, faults: Faults, gaps: Gaps)
    | Boots(mount: Fault)
    | PowerLoss
    | MountRestarts
    | AppsBecome(apps: map<string, App>)

  function Step(s: State, e: Event): State {
    match e
    case Writes(keys) => AppWrites(s, keys)
    case Configures(request, faults, gaps) => Configure(s, request, faults, gaps).s
    case Boots(f) => Mount(s, f).s
    case PowerLoss => s.(live := None, apps := map a | a in s.apps :: s.apps[a].(alive := false))
    case MountRestarts => if s.live.Some? && s.meta.Some? then s.(live := Some(s.meta.value.pointer)) else s
    case AppsBecome(apps) => s.(apps := apps)
  }

  function RunAll(s: State, events: seq<Event>): State
    decreases |events|
  {
    if events == [] then s else RunAll(Step(s, events[0]), events[1..])
  }

  /** Nobody writes between the copy of a configuration and the restart of its mount, and it starts with everything in
      the row's store or retries an unfinished migration towards its own destination. */
  ghost predicate Admissible(s: State, e: Event) {
    e.Configures? ==>
      && Calm(s, e.faults, e.gaps) && e.request.bucket.Bucket?
      && (Sound(s, None) || Sound(s, Some(e.request.bucket)))
  }

  ghost predicate AllAdmissible(s: State, events: seq<Event>)
    decreases |events|
  {
    events == [] || (Admissible(s, events[0]) && AllAdmissible(Step(s, events[0]), events[1..]))
  }

  ghost function PendingAfter(s: State, pending: Option<Location>, e: Event): Option<Location> {
    if e.Configures? then NextPending(Step(s, e), e.request) else pending
  }

  lemma StepIsSound(s: State, pending: Option<Location>, e: Event)
    requires Sound(s, pending) && Admissible(s, e)
    ensures Sound(Step(s, e), PendingAfter(s, pending, e)) && s.written <= Step(s, e).written
  {
    var from, volume := RowLocation(s.row), s.row.volume;
    var other := if pending.Some? then pending.value else from;
    match e
    case Configures(request, faults, gaps) =>
      ConfigureIsSound(s, if Sound(s, None) then None else Some(request.bucket), request, faults, gaps);
      hide Configure, Sound;
    case Writes(keys) =>
      WritesStayWithin(s, from, other, volume, keys);
      hide AppWrites, Within;
    case Boots(f) =>
      MountStaysWithin(s, from, other, volume, f);
      hide Mount, Within;
    case PowerLoss => assert Keys(Step(s, e), from) == Keys(s, from) && Keys(Step(s, e), other) == Keys(s, other);
    case MountRestarts => assert Keys(Step(s, e), from) == Keys(s, from) && Keys(Step(s, e), other) == Keys(s, other);
    case AppsBecome(_) => assert Keys(Step(s, e), from) == Keys(s, from) && Keys(Step(s, e), other) == Keys(s, other);
  }

  ghost function PendingAtEnd(s: State, pending: Option<Location>, events: seq<Event>): Option<Location>
    decreases |events|
  {
    if events == [] then pending else PendingAtEnd(Step(s, events[0]), PendingAfter(s, pending, events[0]), events[1..])
  }

  /** Over any run of failed, crashed and successful migrations, boots, power losses, mount restarts and app writes,
      every object ever written is in the row's store or in the destination of the unfinished migration. */
  lemma {:induction false} NoArchiveLoss(s: State, pending: Option<Location>, events: seq<Event>)
    requires Sound(s, pending) && AllAdmissible(s, events)
    ensures var end, at := RunAll(s, events), PendingAtEnd(s, pending, events);
      && Sound(end, at) && s.written <= end.written
      && end.written <= Keys(end, RowLocation(end.row)) + (if at.Some? then Keys(end, at.value) else {})
    decreases |events|
  {
    if events == [] {
      WithinOne(s, RowLocation(s.row), s.row.volume);
    } else {
      StepIsSound(s, pending, events[0]);
      NoArchiveLoss(Step(s, events[0]), PendingAfter(s, pending, events[0]), events[1..]);
      hide Sound, Step, Keys, Admissible, PendingAfter;
    }
  }

  /** And when the last event is a configuration that returns, all of them are in its destination, which row, volume
      and mount then name. */
  lemma {:induction false} FinishedMigrationHoldsAll(s: State, pending: Option<Location>, events: seq<Event>,
                                                     request: Request, faults: Faults, gaps: Gaps)
    requires Sound(s, pending) && AllAdmissible(s, events)
    requires var end := RunAll(s, events);
      Admissible(end, Configures(request, faults, gaps)) && Configure(end, request, faults, gaps).how == Done
    ensures var done := Configure(RunAll(s, events), request, faults, gaps).s;
      && s.written <= done.written <= Keys(done, request.bucket)
      && RowLocation(done.row) == request.bucket && done.live == Some(request.bucket)
      && done.meta.Some? && done.meta.value.pointer == request.bucket
  {
    NoArchiveLoss(s, pending, events);
    var end := RunAll(s, events);
    ConfigureIsSound(end, if Sound(end, None) then None else Some(request.bucket), request, faults, gaps);
    hide Configure, Sound, RunAll, PendingAtEnd, AllAdmissible, Calm;
  }

  /** A power loss takes the mount and every container, and nothing else; a file system process that is restarted reads
      from the store the metadata names. */
  lemma {:induction false} MachineTold(s: State)
    ensures var off := Step(s, PowerLoss);
      && off == s.(live := None, apps := off.apps) && off.apps.Keys == s.apps.Keys
      && forall a :: a in s.apps ==> off.apps[a] == s.apps[a].(alive := false)
    ensures Step(s, MountRestarts) ==
      if s.live.Some? && s.meta.Some? then s.(live := Some(s.meta.value.pointer)) else s
    ensures forall f :: Step(s, Boots(f)) == Mount(s, f).s
  {
  }

  // ---------------------------------------------------------------- when everything works

  const ALL_FINE :=
    Faults(Fine, Fine, false, Fine, Fine, {}, Fine, {}, Fine, Fine, Fine, Fine, Fine, Fine, Fine, Fine, {})

  const NO_GAP := Gap(map[], {})

  const NO_WRITES := Gaps(NO_GAP, NO_GAP, NO_GAP, NO_GAP, NO_GAP)

  /** A key of the volume that none of `keys` is. */
  lemma FreshKey(keys: set<Key>, volume: string) returns (key: Key)
    ensures InVolume(key, volume) && key !in keys
  {
    var longest := LongerThan(keys);
    key := volume + "/" + seq(longest, i => 'x');
    assert volume + "/" <= key;
  }

  /** With nothing failing, quiescing stops every row that says running. */
  lemma QuiesceSucceeds(s: State)
    ensures Quiesce(s, {}, Fine) == Ran(s.(apps := Stopped(s.apps, {})), Done)
  {
    var stopped := Stopped(s.apps, {});
    forall a | a in stopped ensures !(MustStop(stopped[a]) && stopped[a].alive) {
      if MustStop(stopped[a]) { assert MustStop(s.apps[a]); }
    }
  }

  /** What a migration on which nothing fails leaves before reclaiming, step by step. */
  function AfterSync(s: State, from: Location, to: Location, g: Gaps): State
    requires s.meta.Some?
  {
    var written := Pass(s.(live := Some(from)), g.beforeQuiesce);
    var quiet := written.(apps := Stopped(written.apps, {}));
    Sync(Pass(quiet, g.beforeSync), from, to, s.row.volume, Fine, {}).s
  }

  function AfterSwitch(s: State, to: Location, g: Gaps): State
    requires s.meta.Some?
  {
    var pointed := Pass(s, g.afterSync).(meta := Some(s.meta.value.(pointer := to)));
    Pass(Pass(pointed, g.afterRepoint).(live := Some(to)), g.afterRemount)
  }

  lemma PassKeepsTheRest(s: State, gap: Gap)
    ensures var s' := Pass(s, gap);
      s'.meta == s.meta && s'.live == s.live && s'.row == s.row && s'.apps == s.apps + gap.apps
  {
  }

  lemma FinePrepare(s: State, from: Location, to: Location, g: Gaps)
    requires s.meta.Some? && s.meta.value.volume == s.row.volume && s.meta.value.pointer == from
    requires s.live == None || s.live == Some(from)
    ensures Prepare(s, from, to, s.row.volume, ALL_FINE, g) == Ran(AfterSync(s, from, to, g), Done)
  {
    assert Mount(s, Fine) == Ran(s.(live := Some(from)), Done);
    var written := Pass(s.(live := Some(from)), g.beforeQuiesce);
    QuiesceSucceeds(written);
    hide Pass, Quiesce, Mount, Keys, VolumeKeys, Stopped;
  }

  lemma FineSwitch(s: State, from: Location, to: Location, g: Gaps)
    requires s.meta.Some? && s.live == Some(from)
    ensures Switch(s, to, ALL_FINE, g) == Ran(AfterSwitch(s, to, g), Done)
  {
    PassKeepsTheRest(s, g.afterSync);
    var pointed := Pass(s, g.afterSync).(meta := Some(s.meta.value.(pointer := to)));
    PassKeepsTheRest(pointed, g.afterRepoint);
    hide Pass;
  }

  lemma AfterSyncKeeps(s: State, from: Location, to: Location, g: Gaps)
    requires s.meta.Some?
    ensures var s' := AfterSync(s, from, to, g);
      && s'.meta == s.meta && s'.live == Some(from) && s'.row == s.row
      && s'.apps == Stopped(s.apps + g.beforeQuiesce.apps, {}) + g.beforeSync.apps
  {
    var mounted := s.(live := Some(from));
    PassKeepsTheRest(mounted, g.beforeQuiesce);
    var written := Pass(mounted, g.beforeQuiesce);
    PassKeepsTheRest(written.(apps := Stopped(written.apps, {})), g.beforeSync);
    hide Pass, Stopped;
  }

  /** The row's store is where the volume is, so a migration can start, and it is not a store of the same name. */
  ghost predicate Startable(s: State, request: Request) {
    var from := RowLocation(s.row);
    && s.meta.Some? && s.meta.value.volume == s.row.volume && s.meta.value.pointer == from
    && (s.live == None || s.live == Some(from))
    && !s.row.backend.Disabled? && (s.row.backend.S3? ==> s.row.backend.hasCredentials && from.Bucket?)
    && request.bucket.Bucket? && (from.Bucket? ==> from.name != request.bucket.name)
  }

  lemma FineConfigure(s: State, request: Request, g: Gaps)
    requires Startable(s, request) && ChosenVolume(s.row, request) == s.row.volume
    ensures var from, to := RowLocation(s.row), request.bucket;
      var switched := AfterSwitch(AfterSync(s, from, to, g), to, g);
      Configure(s, request, ALL_FINE, g)
        == Ran(Reclaim(switched.(row := Row(S3(to, true), s.row.volume)), s.row, request, s.row.volume, ALL_FINE), Done)
  {
    var from, to := RowLocation(s.row), request.bucket;
    FinePrepare(s, from, to, g);
    AfterSyncKeeps(s, from, to, g);
    FineSwitch(AfterSync(s, from, to, g), from, to, g);
    AttemptIsMigrateThenFlip(s, request, ALL_FINE, g);
    ConfigureUnfolds(s, request, ALL_FINE, g);
    hide AfterSync, AfterSwitch, Prepare, Switch, Attempt, Reclaim, RowLocation;
  }

  // ---------------------------------------------------------------- exactly when everything arrives

  ghost predicate AllArrive(s: State, request: Request, g: Gaps) {
    var r := Configure(s, request, ALL_FINE, g);
    r.how == Done && r.s.written <= Keys(r.s, request.bucket)
  }

  /** The same apps come and go, whatever they write. */
  predicate SameMoves(g: Gaps, h: Gaps) {
    && g.beforeQuiesce.apps == h.beforeQuiesce.apps && g.beforeSync.apps == h.beforeSync.apps
    && g.afterSync.apps == h.afterSync.apps && g.afterRepoint.apps == h.afterRepoint.apps
    && g.afterRemount.apps == h.afterRemount.apps
  }

  /** The gaps with nothing written but `keys` after the copy, or after the volume has been re-pointed. */
  function Writing(g: Gaps, afterSync: set<Key>, afterRepoint: set<Key>): Gaps {
    Gaps(Gap(g.beforeQuiesce.apps, {}), Gap(g.beforeSync.apps, {}), Gap(g.afterSync.apps, afterSync),
         Gap(g.afterRepoint.apps, afterRepoint), Gap(g.afterRemount.apps, {}))
  }

  /** However apps come and go during a configuration on which nothing fails: it is sure to leave every object written
      in the destination, whatever they write, if and only if no live container mounts the archive from the end of the
      copy to the restart of the mount. What is written then goes to the source, which is deleted. */
  lemma {:induction false} CalmExactly(s: State, request: Request, g: Gaps)
    requires Sound(s, None) && Startable(s, request)
    ensures (forall h: Gaps :: SameMoves(g, h) ==> AllArrive(s, request, h)) <==> Calm(s, ALL_FINE, g)
  {
    if Calm(s, ALL_FINE, g) {
      forall h: Gaps | SameMoves(g, h) ensures AllArrive(s, request, h) {
        assert Calm(s, ALL_FINE, h);
        FineConfigure(s, request, h);
        ConfigureIsSound(s, None, request, ALL_FINE, h);
        hide Configure, Reclaim, AfterSync, AfterSwitch, Sound, Calm;
      }
    } else {
      var h := WriterLosesObject(s, request, g);
      assert SameMoves(g, h) && !AllArrive(s, request, h);
    }
  }

  lemma WriterLosesObject(s: State, request: Request, g: Gaps) returns (h: Gaps)
    requires Sound(s, None) && Startable(s, request) && !Calm(s, ALL_FINE, g)
    ensures SameMoves(g, h) && !AllArrive(s, request, h)
  {
    hide AfterSync, AfterSwitch, Configure, Reclaim, Sound, Stopped, NoWriter, Pass, InVolume, Keys;
    var from, to := RowLocation(s.row), request.bucket;
    var copied := AfterSync(s, from, to, Writing(g, {}, {}));
    var lost := FreshKey(Keys(copied, to), s.row.volume);
    AfterSyncKeeps(s, from, to, Writing(g, {}, {}));
    h := if !NoWriter(AppsAfterCopy(s, ALL_FINE, g)) then Writing(g, {lost}, {}) else Writing(g, {}, {lost});
    AfterSyncAlike(s, from, to, Writing(g, {}, {}), h);
    LateWriteMissesDestination(copied, from, to, h, lost);
    Chosen(s, request);
    FineConfigure(s, request, h);
    var switched := AfterSwitch(copied, to, h);
    var flipped := switched.(row := Row(S3(to, true), s.row.volume));
    BucketOfRow(s.row);
    ReclaimSpares(flipped, s.row, request, ALL_FINE);
    SameStores(switched, flipped);
  }

  lemma AfterSyncAlike(s: State, from: Location, to: Location, g: Gaps, h: Gaps)
    requires s.meta.Some? && g.beforeQuiesce == h.beforeQuiesce && g.beforeSync == h.beforeSync
    ensures AfterSync(s, from, to, g) == AfterSync(s, from, to, h)
  {
    hide Pass, Sync, Stopped;
  }

  lemma Chosen(s: State, request: Request)
    requires Sound(s, None)
    ensures ChosenVolume(s.row, request) == s.row.volume
  {
    hide Within;
  }

  /** One gap, seen from the destination while the mount is still on the source. */
  lemma PassMisses(s: State, gap: Gap, from: Location, to: Location, lost: Key)
    requires s.meta.Some? && s.live == Some(from) && from != to && InVolume(lost, s.meta.value.volume)
    ensures var s' := Pass(s, gap);
      && Keys(s', to) == Keys(s, to) && s.written <= s'.written
      && (lost in gap.keys && !NoWriter(s.apps + gap.apps) ==> lost in s'.written)
  {
    var moved := s.(apps := s.apps + gap.apps);
    assert forall l :: Keys(moved, l) == Keys(s, l);
    assert !NoWriter(moved.apps) ==> AnyWriter(moved);
  }

  lemma LateWriteMissesDestination(s: State, from: Location, to: Location, g: Gaps, lost: Key)
    requires s.meta.Some? && s.live == Some(from) && from != to
    requires InVolume(lost, s.meta.value.volume) && lost !in Keys(s, to) && lost !in g.afterRemount.keys
    requires
      || (lost in g.afterSync.keys && !NoWriter(s.apps + g.afterSync.apps))
      || (lost in g.afterRepoint.keys && !NoWriter(s.apps + g.afterSync.apps + g.afterRepoint.apps))
    ensures var s' := AfterSwitch(s, to, g); lost in s'.written && lost !in Keys(s', to)
  {
    hide InVolume, NoWriter, Pass;
    PassMisses(s, g.afterSync, from, to, lost);
    PassKeepsTheRest(s, g.afterSync);
    var pointed := Pass(s, g.afterSync).(meta := Some(s.meta.value.(pointer := to)));
    assert Keys(pointed, to) == Keys(s, to);
    PassMisses(pointed, g.afterRepoint, from, to, lost);
    PassKeepsTheRest(pointed, g.afterRepoint);
    var remounted := Pass(pointed, g.afterRepoint).(live := Some(to));
    assert Keys(remounted, to) == Keys(s, to);
    LastPass(remounted, g.afterRemount, to);
  }

  lemma LastPass(s: State, gap: Gap, to: Location)
    requires s.live == Some(to)
    ensures var s' := Pass(s, gap); s.written <= s'.written && Keys(s', to) <= Keys(s, to) + gap.keys
  {
    var moved := s.(apps := s.apps + gap.apps);
    assert Keys(moved, to) == Keys(s, to);
  }

  /** A live container that mounts the archive belongs to an app whose row says running. */
  ghost predicate NoStragglers(s: State) {
    forall a :: a in s.apps && Writer(s.apps[a]) ==> s.apps[a].saysRunning
  }

  /** No archive app comes up while the configuration runs. */
  ghost predicate NobodyStarts(g: Gaps) {
    NoWriter(g.beforeQuiesce.apps) && NoWriter(g.beforeSync.apps) && NoWriter(g.afterSync.apps) &&
      NoWriter(g.afterRepoint.apps)
  }

  /** What quiescing is good for: as long as no archive app comes up during the configuration, everything is sure to
      arrive if and only if every live container that mounts the archive belongs to a row that says running, the only
      ones it looks at. */
  lemma {:induction false} QuiesceSufficesExactly(s: State, request: Request)
    requires Sound(s, None) && Startable(s, request)
    ensures (forall g: Gaps :: NobodyStarts(g) ==> AllArrive(s, request, g)) <==> NoStragglers(s)
  {
    if NoStragglers(s) {
      forall g: Gaps | NobodyStarts(g) ensures AllArrive(s, request, g) {
        StoppedForGood(s, g);
        CalmExactly(s, request, g);
        assert SameMoves(g, g);
        hide AllArrive, Calm;
      }
    } else {
      assert !Calm(s, ALL_FINE, NO_WRITES) by {
        var a :| a in s.apps && Writer(s.apps[a]) && !s.apps[a].saysRunning;
        var after := AppsAfterCopy(s, ALL_FINE, NO_WRITES);
        assert s.apps + map[] == s.apps;
        assert a in after && Writer(after[a]);
      }
      var h := WriterLosesObject(s, request, NO_WRITES);
      assert NobodyStarts(h) && !AllArrive(s, request, h);
    }
  }

  lemma StoppedForGood(s: State, g: Gaps)
    requires NoStragglers(s) && NobodyStarts(g)
    ensures Calm(s, ALL_FINE, g)
  {
    var before := s.apps + g.beforeQuiesce.apps;
    var stopped := Stopped(before, {});
    assert NoWriter(stopped) by {
      forall a | a in stopped ensures !Writer(stopped[a]) {
        if a in g.beforeQuiesce.apps { assert !Writer(g.beforeQuiesce.apps[a]); }
      }
    }
    hide Stopped;
  }

  /** And nothing in the code keeps an app from coming up: an archive app whose row says building or starting is passed
      over by quiescing, and launches while the mount is up. Whatever the rows say at the start, one such launch after
      the copy loses an object. */
  lemma {:induction false} LaunchDuringMigrationLoses(s: State, request: Request, a: string) returns (g: Gaps)
    requires Sound(s, None) && Startable(s, request)
    ensures g.beforeQuiesce.apps == g.beforeSync.apps == g.afterRepoint.apps == g.afterRemount.apps == map[]
    ensures g.afterSync.apps == map[a := App(false, true, true)] && !AllArrive(s, request, g)
  {
    var moves := Gaps(NO_GAP, NO_GAP, Gap(map[a := App(false, true, true)], {}), NO_GAP, NO_GAP);
    assert !Calm(s, ALL_FINE, moves) by {
      var after := AppsAfterCopy(s, ALL_FINE, moves);
      assert a in after && Writer(after[a]);
    }
    g := WriterLosesObject(s, request, moves);
  }

  // ---------------------------------------------------------------- the legacy volume name

  /** An old zone: the local volume still carries the shared default name, and so do the keys of all its objects. */
  ghost predicate LegacyLocal(s: State) {
    && s.row == Row(Local, DEFAULT_VOLUME)
    && s.meta == Some(Meta(DEFAULT_VOLUME, LocalDisk))
    && (s.live == None || s.live == Some(LocalDisk))
    && s.written <= Keys(s, LocalDisk)
    && forall k :: k in s.written ==> InVolume(k, DEFAULT_VOLUME)
  }

  ghost predicate SameKeys(s: State, s': State) {
    s.written == s'.written && s.meta == s'.meta && s.row == s'.row && forall l :: Keys(s, l) == Keys(s', l)
  }

  lemma NoGapChangesNothing(s: State)
    ensures var s' := Pass(s, NO_GAP); SameKeys(s, s') && s'.live == s.live && s'.apps == s.apps
  {
    assert s.apps + map[] == s.apps;
  }

  /** The copy finds what there is under `volume`, whatever the volume is really called and wherever it is mounted
      from. */
  lemma FineCopy(s: State, from: Location, to: Location, volume: string)
    requires s.meta.Some? && to != from
    ensures var r := Prepare(s, from, to, volume, ALL_FINE, NO_WRITES);
      && r.how == Done && r.s.meta == s.meta && r.s.live.Some? && r.s.row == s.row
      && r.s.written == s.written && Keys(r.s, from) == Keys(s, from)
      && Keys(r.s, to) == Keys(s, to) + VolumeKeys(s, from, volume)
  {
    hide AppWrites, Pass, Quiesce, Stopped, Keys, VolumeKeys;
    var mounted := Mount(s, Fine).s;
    var before := Pass(mounted, NO_GAP);
    NoGapChangesNothing(mounted);
    QuiesceSucceeds(before);
    var quiet := before.(apps := Stopped(before.apps, {}));
    NoGapChangesNothing(quiet);
    var ready := Pass(quiet, NO_GAP);
    SameStores(s, mounted);
    SameStores(before, quiet);
    SameVolume(s, ready, from, volume);
    SyncAdds(ready, from, to, volume);
  }

  lemma SameStores(s: State, s': State)
    requires s'.stores == s.stores
    ensures forall l :: Keys(s', l) == Keys(s, l)
  {
  }

  lemma SameVolume(s: State, s': State, at: Location, volume: string)
    requires Keys(s, at) == Keys(s', at)
    ensures VolumeKeys(s, at, volume) == VolumeKeys(s', at, volume)
  {
  }

  lemma SyncAdds(s: State, from: Location, to: Location, volume: string)
    requires from != to
    ensures var r := Sync(s, from, to, volume, Fine, {});
      && r.how == Done && r.s == s.(stores := r.s.stores) && Keys(r.s, from) == Keys(s, from)
      && Keys(r.s, to) == Keys(s, to) + VolumeKeys(s, from, volume)
  {
    hide VolumeKeys;
  }

  lemma FineMove(s: State, to: Location)
    requires s.meta.Some? && s.live.Some?
    ensures var r := Switch(s, to, ALL_FINE, NO_WRITES);
      && r.how == Done && r.s.meta == Some(s.meta.value.(pointer := to)) && r.s.live == Some(to) && r.s.row == s.row
      && r.s.written == s.written && forall l :: Keys(r.s, l) == Keys(s, l)
  {
    hide Pass, Keys, AppWrites;
    var first := Pass(s, NO_GAP);
    NoGapChangesNothing(s);
    var pointed := first.(meta := Some(s.meta.value.(pointer := to)));
    SameStores(first, pointed);
    NoGapChangesNothing(pointed);
    var second := Pass(pointed, NO_GAP);
    var mounted := second.(live := Some(to));
    SameStores(second, mounted);
    NoGapChangesNothing(mounted);
  }

  /** A configuration on which nothing fails and during which nothing else happens. */
  lemma FineQuietConfigure(s: State, request: Request)
    requires s.meta.Some? && !s.row.backend.Disabled? && (s.row.backend.S3? ==> s.row.backend.hasCredentials)
    requires RowLocation(s.row) != request.bucket
    ensures var from, to, volume := RowLocation(s.row), request.bucket, ChosenVolume(s.row, request);
      var moved := Switch(Prepare(s, from, to, volume, ALL_FINE, NO_WRITES).s, to, ALL_FINE, NO_WRITES);
      Configure(s, request, ALL_FINE, NO_WRITES)
        == Ran(Reclaim(moved.s.(row := Row(S3(to, true), volume)), s.row, request, volume, ALL_FINE), Done)
  {
    hide Prepare, Switch, Reclaim, ChosenVolume, Keys, VolumeKeys, RowLocation;
    var from, to, volume := RowLocation(s.row), request.bucket, ChosenVolume(s.row, request);
    FineCopy(s, from, to, volume);
    FineMove(Prepare(s, from, to, volume, ALL_FINE, NO_WRITES).s, to);
  }

  /** A legacy volume migrated under a new name: the copy reads `<new name>/`, where there is nothing, and the local
      store is then deleted. With nothing failing and nobody writing, the configuration returns; the destination holds
      every object written exactly when the old name was asked for, or it held them already. */
  lemma {:induction false} LegacyRename(s: State, request: Request)
    requires LegacyLocal(s) && request.bucket.Bucket? && '/' !in ChosenVolume(s.row, request)
    ensures var r := Configure(s, request, ALL_FINE, NO_WRITES);
      && r.how == Done && r.s.written == s.written && Keys(r.s, LocalDisk) == {}
      && r.s.row == Row(S3(request.bucket, true), ChosenVolume(s.row, request))
      && r.s.meta == Some(Meta(DEFAULT_VOLUME, request.bucket))
      && (s.written <= Keys(r.s, request.bucket) <==>
            ChosenVolume(s.row, request) == DEFAULT_VOLUME || s.written <= Keys(s, request.bucket))
  {
    hide Prepare, Switch, Configure, Keys, InVolume, AppWrites;
    var to, volume := request.bucket, ChosenVolume(s.row, request);
    FineQuietConfigure(s, request);
    FineCopy(s, LocalDisk, to, volume);
    var copied := Prepare(s, LocalDisk, to, volume, ALL_FINE, NO_WRITES).s;
    FineMove(copied, to);
    var moved := Switch(copied, to, ALL_FINE, NO_WRITES).s;
    var flipped := moved.(row := Row(S3(to, true), volume));
    SameStores(moved, flipped);
    hide ChosenVolume;
    forall k | k in s.written ensures k in VolumeKeys(s, LocalDisk, volume) <==> volume == DEFAULT_VOLUME {
      if InVolume(k, volume) { PrefixesApart(k, volume, DEFAULT_VOLUME); }
    }
    LocalReclaimed(flipped, request, volume);
  }

  lemma LocalReclaimed(s: State, request: Request, volume: string)
    requires request.bucket.Bucket?
    ensures var s' := Reclaim(s, Row(Local, DEFAULT_VOLUME), request, volume, ALL_FINE);
      && Keys(s', LocalDisk) == {} && Keys(s', request.bucket) == Keys(s, request.bucket)
      && s'.row == s.row && s'.meta == s.meta && s'.written == s.written
  {
  }

  // ---------------------------------------------------------------- a retry towards another destination

  /** After an unfinished migration the row's store need not hold everything, apps may have written to the destination
      meanwhile. A configuration towards a third store reads the row's store and deletes it: with nothing failing and
      nobody writing, it leaves everything in its destination exactly when everything was in one of those two. */
  lemma {:induction false} RetryElsewhereExactly(s: State, request: Request)
    requires s.meta.Some? && !s.row.backend.Disabled? && (s.row.backend.S3? ==> s.row.backend.hasCredentials)
    requires request.bucket.Bucket? && ChosenVolume(s.row, request) == s.row.volume
    requires var from := RowLocation(s.row); from != request.bucket && (s.row.backend.S3? ==> from.Bucket?)
    requires forall k :: k in s.written ==> InVolume(k, s.row.volume)
    ensures var r := Configure(s, request, ALL_FINE, NO_WRITES);
      && r.how == Done && r.s.written == s.written
      && (r.s.written <= Keys(r.s, request.bucket) <==>
            s.written <= Keys(s, RowLocation(s.row)) + Keys(s, request.bucket))
  {
    var from, to, volume := RowLocation(s.row), request.bucket, s.row.volume;
    assert forall k :: k in s.written && k in Keys(s, from) ==> k in VolumeKeys(s, from, volume);
    assert VolumeKeys(s, from, volume) <= Keys(s, from);
    hide Prepare, Switch, Configure, Reclaim, Keys, VolumeKeys, InVolume, RowLocation, ChosenVolume;
    FineQuietConfigure(s, request);
    FineCopy(s, from, to, volume);
    var copied := Prepare(s, from, to, volume, ALL_FINE, NO_WRITES).s;
    FineMove(copied, to);
    var moved := Switch(copied, to, ALL_FINE, NO_WRITES).s;
    var flipped := moved.(row := Row(S3(to, true), volume));
    SameStores(moved, flipped);
    BucketOfRow(s.row);
    ReclaimSpares(flipped, s.row, request, ALL_FINE);
  }

  lemma BucketOfRow(row: Row)
    ensures row.backend.S3? && RowLocation(row).Bucket? ==> row.backend.bucket.Bucket?
  {
  }

  // ---------------------------------------------------------------- a zone without an archive

  /** An old zone that has no archive yet. With nothing failing it gets an empty volume in the bucket, under the name
      asked for or the zone's own, and nothing but its mark is put there; a configuration that raises leaves the row
      disabled and takes nothing away, and the mount is gone if it could be stopped. Nobody is stopped for it. */
  lemma {:induction false} DisabledZone(s: State, request: Request, f: Faults, g: Gaps)
    requires s.row.backend.Disabled? && s.meta == None && s.live == None
    ensures var r := Configure(s, request, f, g);
      var name := if request.name.Some? then request.name.value else request.zoneDefault;
      && r.s.apps == s.apps && r.s.written == s.written
      && (r.s.stores == s.stores || r.s.stores == Marked(s, request.bucket, name))
      && (f == ALL_FINE ==> r.how == Done)
      && (r.how == Done ==>
            && r.s.row == Row(S3(request.bucket, true), name) && r.s.meta == Some(Meta(name, request.bucket))
            && r.s.live == Some(request.bucket) && r.s.stores == Marked(s, request.bucket, name))
      && (r.how == Raised ==> r.s.row == s.row && (f.undoStop.Fine? ==> r.s.live == None))
  {
    hide Keys, Prepare, Switch, Marked, FormatFresh, Reclaim;
    var name := if request.name.Some? then request.name.value else request.zoneDefault;
    FreshFormat(s, request.bucket, name, f);
    NothingToReclaim(s, request, name, f);
  }

  lemma {:induction false} NothingToReclaim(s: State, request: Request, volume: string, f: Faults)
    requires s.row.backend.Disabled?
    ensures forall s' :: Reclaim(s', s.row, request, volume, f) == s'
  {
  }

  /** The stores with the mark of a volume. */
  function Marked(s: State, at: Location, name: string): map<Location, set<Key>> {
    s.stores[at := Keys(s, at) + {name + "/juicefs_uuid"}]
  }

  /** A format that fails may have marked the store, and has no metadata; one that has its effect has both; a volume
      that is there is not formatted again. */
  lemma {:induction false} FormatTold(s: State, at: Location, volume: string, f: Fault, marked: bool)
    ensures var r := FormatS3(s, at, volume, f, marked);
      if s.meta.Some? then r == Ran(s, Done)
      else
        && r.how == HowOf(f) && r.s == s.(stores := r.s.stores, meta := r.s.meta)
        && r.s.meta == (if TakesEffect(f) then Some(Meta(volume, at)) else None)
        && r.s.stores == (if TakesEffect(f) || marked then Marked(s, at, volume) else s.stores)
  {
  }

  lemma {:induction false} FreshFormat(s: State, at: Location, name: string, f: Faults)
    requires s.meta == None && s.live == None
    ensures var r := FormatFresh(s, at, name, f);
      && r.s.apps == s.apps && r.s.written == s.written && r.s.row == s.row
      && (r.s.stores == s.stores || r.s.stores == Marked(s, at, name))
      && (f.format.Fine? && f.mount.Fine? ==> r.how == Done)
      && (r.how == Done ==>
            r.s.meta == Some(Meta(name, at)) && r.s.live == Some(at) && r.s.stores == Marked(s, at, name))
  {
    hide Keys;
  }

  // ---------------------------------------------------------------- how it ends

  predicate Deadly(f: Fault) { f == Dies || f == DiesLate }

  /** The process dies only in a command it dies in; otherwise a configuration returns or raises. */
  lemma {:induction false} DiesOnlyWhereItDies(s: State, request: Request, f: Faults, g: Gaps)
    requires !Deadly(f.install) && !Deadly(f.format) && !Deadly(f.mount) && !Deadly(f.quiesce) && !Deadly(f.sync)
    requires !Deadly(f.repoint) && !Deadly(f.stop) && !Deadly(f.start) && !Deadly(f.flip)
    requires !Deadly(f.undoRepoint) && !Deadly(f.undoStop) && !Deadly(f.undoStart) && !Deadly(f.reclaim)
    ensures Configure(s, request, f, g).how != Died
  {
    hide Prepare, Switch, FormatFresh, Undo, Reclaim, ChosenVolume, RowLocation;
    var from, to, volume := RowLocation(s.row), request.bucket, ChosenVolume(s.row, request);
    PrepareLives(s, from, to, volume, f, g);
    SwitchLives(Prepare(s, from, to, volume, f, g).s, to, f, g);
    FreshLives(s, to, volume, f);
    UndoLives(Attempt(s, request, f, g).s, f);
  }

  lemma {:induction false} PrepareLives(s: State, from: Location, to: Location, volume: string, f: Faults, g: Gaps)
    requires !Deadly(f.format) && !Deadly(f.mount) && !Deadly(f.quiesce) && !Deadly(f.sync)
    ensures Prepare(s, from, to, volume, f, g).how != Died
  {
    hide Pass, Stopped, StillRunning, VolumeKeys, Keys;
  }

  lemma {:induction false} SwitchLives(s: State, to: Location, f: Faults, g: Gaps)
    requires !Deadly(f.repoint) && !Deadly(f.stop) && !Deadly(f.start)
    ensures Switch(s, to, f, g).how != Died
  {
    hide Pass;
  }

  lemma {:induction false} FreshLives(s: State, to: Location, volume: string, f: Faults)
    requires !Deadly(f.format) && !Deadly(f.mount)
    ensures FormatFresh(s, to, volume, f).how != Died
  {
    hide Put;
  }

  lemma {:induction false} UndoLives(s: State, f: Faults)
    requires !Deadly(f.undoRepoint) && !Deadly(f.undoStop) && !Deadly(f.undoStart)
    ensures Undo(s, f).how != Died
  {
  }

  /** And in whichever command it dies, the configuration has died: the state is what that command left. */
  lemma {:induction false} DiesAtOnce(s: State, request: Request, f: Faults, g: Gaps)
    requires s.row.backend.S3? ==> s.row.backend.hasCredentials
    ensures Attempt(s, request, f, g).how == Died ==>
      Configure(s, request, f, g) == Attempt(s, request, f, g)
    ensures Deadly(f.install) ==> Configure(s, request, f, g) == Ran(s, Died)
    ensures Attempt(s, request, f, g).how == Done && Deadly(f.reclaim) ==> Configure(s, request, f, g).how == Died
    ensures Attempt(s, request, f, g).how == Raised ==>
      (Configure(s, request, f, g).how == Died <==> Undo(Attempt(s, request, f, g).s, f).how == Died)
  {
    hide Migrate, FormatFresh, Undo, Reclaim;
  }

  /** What a command may do: it has its effect or not, and returns, raises or is where the process dies. */
  lemma {:induction false} EveryFault(effect: bool, how: How) returns (f: Fault)
    requires how == Done ==> effect
    ensures TakesEffect(f) == effect && HowOf(f) == how
  {
    f := if how == Done then Fine
         else if how == Raised then (if effect then FailsLate else Fails)
         else (if effect then DiesLate else Dies);
  }

  /** A process that dies while it stops the apps has stopped none of them, or all that can be. */
  lemma {:induction false} DiesQuiescing(s: State, f: Faults)
    requires Deadly(f.quiesce)
    ensures var r := Quiesce(s, f.resists, f.quiesce);
      && r.how == Died && r.s.stores == s.stores
      && (f.quiesce == Dies ==> r.s == s)
      && (f.quiesce == DiesLate ==>
            forall a :: a in s.apps && s.apps[a].saysRunning && s.apps[a].usesArchive && a !in f.resists ==>
              a in r.s.apps && !r.s.apps[a].alive)
  {
  }
}
