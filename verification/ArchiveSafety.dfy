/** What reconfiguring the archive keeps, in one call and over whole runs with failures, crashes, boots and writes. */
module ArchiveSafety {
  import opened Common
  import opened ArchiveState

  // ---------------------------------------------------------------- invariants

  /** The volume reads from, and its mount uses, one of two stores, and every object written is in one of the two. */
  ghost predicate Within(s: State, a: Location, b: Location, volume: string) {
    && s.meta.Some? && s.meta.value.volume == volume
    && (s.meta.value.pointer == a || s.meta.value.pointer == b)
    && (s.live == None || s.live == Some(a) || s.live == Some(b))
    && s.written <= Keys(s, a) + Keys(s, b)
    && forall k :: k in s.written ==> InVolume(k, volume)
  }

  ghost predicate NoWriter(apps: map<string, App>) { forall a :: a in apps ==> !Writer(apps[a]) }

  /** The apps when the copy is complete, and when the volume has been re-pointed, as the gaps have them come and go. */
  function AppsAfterCopy(s: State, f: Faults, g: Gaps): map<string, App> {
    Stopped(s.apps + g.beforeQuiesce.apps, f.resists) + g.beforeSync.apps + g.afterSync.apps
  }

  function AppsAfterRepoint(s: State, f: Faults, g: Gaps): map<string, App> {
    AppsAfterCopy(s, f, g) + g.afterRepoint.apps
  }

  /** No live container mounts the archive from the end of the copy to the restart of the mount. Quiescing is there for
      this, but nothing in the code sees to it: see `CalmExactly`. */
  ghost predicate Calm(s: State, f: Faults, g: Gaps) {
    NoWriter(AppsAfterCopy(s, f, g)) && NoWriter(AppsAfterRepoint(s, f, g))
  }

  /** And none up to the commit either. */
  ghost predicate CalmToTheEnd(s: State, f: Faults, g: Gaps) {
    Calm(s, f, g) && NoWriter(AppsAfterRepoint(s, f, g) + g.afterRemount.apps)
  }

  /** Nothing is ever taken out of a store on the way from `s` to `s'`. */
  ghost predicate Grows(s: State, s': State) {
    s.written <= s'.written && forall l :: Keys(s, l) <= Keys(s', l)
  }

  ghost predicate SameObjects(s: State, s': State) {
    s.written == s'.written && s.stores == s'.stores && s.row == s'.row
  }

  /** The archive between two attempts: `pending` is the destination of an unfinished migration, if there is one.
      A volume whose row still carries the shared legacy name on local disk is not covered: see `LegacyRename`. */
  ghost predicate Sound(s: State, pending: Option<Location>) {
    var from := RowLocation(s.row);
    && !s.row.backend.Disabled?
    && (s.row.backend.Local? ==> s.row.volume != DEFAULT_VOLUME)
    && (s.row.backend.S3? ==> from.Bucket?)
    && (pending.Some? ==> pending.value.Bucket? && pending.value != from)
    && Within(s, from, if pending.Some? then pending.value else from, s.row.volume)
  }

  // ---------------------------------------------------------------- the stages of one configuration

  lemma WritesStayWithin(s: State, a: Location, b: Location, volume: string, keys: set<Key>)
    requires Within(s, a, b, volume)
    ensures var s' := AppWrites(s, keys);
      && Within(s', a, b, volume) && Grows(s, s')
      && s'.meta == s.meta && s'.live == s.live && s'.row == s.row && s'.apps == s.apps
  {
  }

  lemma PassStaysWithin(s: State, a: Location, b: Location, volume: string, gap: Gap)
    requires Within(s, a, b, volume)
    ensures var s' := Pass(s, gap);
      && Within(s', a, b, volume) && Grows(s, s')
      && s'.meta == s.meta && s'.live == s.live && s'.row == s.row && s'.apps == s.apps + gap.apps
  {
    var moved := s.(apps := s.apps + gap.apps);
    assert forall l :: Keys(moved, l) == Keys(s, l);
    WritesStayWithin(moved, a, b, volume, gap.keys);
    hide AppWrites, InVolume;
  }

  /** Nothing is written while nobody can. */
  lemma QuietPass(s: State, gap: Gap)
    requires NoWriter(s.apps + gap.apps)
    ensures Pass(s, gap) == s.(apps := s.apps + gap.apps)
  {
  }

  /** What a gap writes goes to the store of the live mount. */
  lemma LivePass(s: State, gap: Gap, at: Location)
    requires s.live == Some(at)
    ensures var s' := Pass(s, gap);
      && s.written <= s'.written && s'.written - s.written <= Keys(s', at) && Keys(s, at) <= Keys(s', at)
      && forall l :: l != at ==> Keys(s', l) == Keys(s, l)
  {
    var moved := s.(apps := s.apps + gap.apps);
    assert forall l :: Keys(moved, l) == Keys(s, l);
  }

  lemma Widen(s: State, from: Location, other: Location, to: Location, volume: string)
    requires Within(s, from, other, volume) && (other == from || other == to)
    ensures Within(s, from, to, volume)
  {
  }

  lemma MountStaysWithin(s: State, a: Location, b: Location, volume: string, f: Fault)
    requires Within(s, a, b, volume)
    ensures var r := Mount(s, f);
      && Within(r.s, a, b, volume) && SameObjects(s, r.s) && r.s.meta == s.meta && r.s.apps == s.apps
      && (r.how == Done && s.live == None ==> r.s.live == Some(s.meta.value.pointer))
  {
    hide InVolume;
  }

  lemma UmountStaysWithin(s: State, a: Location, b: Location, volume: string, f: Fault)
    requires Within(s, a, b, volume)
    ensures var r := Umount(s, f);
      && Within(r.s, a, b, volume) && SameObjects(s, r.s) && r.s.meta == s.meta && r.s.apps == s.apps
      && (r.how == Done ==> r.s.live == None)
  {
    hide InVolume;
  }

  lemma RemountStaysWithin(s: State, a: Location, b: Location, volume: string, stop: Fault, start: Fault)
    requires Within(s, a, b, volume)
    ensures var r := Remount(s, stop, start);
      && Within(r.s, a, b, volume) && SameObjects(s, r.s) && r.s.meta == s.meta && r.s.apps == s.apps
      && (r.how == Done ==> r.s.live == Some(s.meta.value.pointer))
  {
    UmountStaysWithin(s, a, b, volume, stop);
    var stopped := Umount(s, stop);
    MountStaysWithin(stopped.s, a, b, volume, start);
    hide Within, Mount, Umount, Keys;
  }

  lemma RepointStaysWithin(s: State, a: Location, b: Location, to: Location, volume: string, f: Fault)
    requires Within(s, a, b, volume) && (to == a || to == b)
    ensures var r := Repoint(s, to, f);
      && Within(r.s, a, b, volume) && SameObjects(s, r.s) && r.s.live == s.live && r.s.apps == s.apps
      && r.s.meta.Some? && (r.s.meta == s.meta || r.s.meta == Some(Meta(volume, to)))
      && (r.how == Done ==> r.s.meta == Some(Meta(volume, to)))
  {
    hide InVolume;
  }

  lemma SyncStaysWithin(s: State, from: Location, other: Location, to: Location, volume: string, f: Fault,
      some: set<Key>)
    requires Within(s, from, other, volume) && (other == from || other == to)
    ensures var r := Sync(s, from, to, volume, f, some);
      && Within(r.s, from, other, volume) && Grows(s, r.s) && r.s.written == s.written
      && r.s.meta == s.meta && r.s.row == s.row && r.s.apps == s.apps
      && (r.how == Done ==> r.s.written <= Keys(r.s, to) && VolumeKeys(r.s, from, volume) <= Keys(r.s, to))
  {
    var r := Sync(s, from, to, volume, f, some);
    if r.how == Done {
      forall k | k in s.written ensures k in Keys(r.s, to) {
        if k in Keys(s, from) { assert k in VolumeKeys(s, from, volume); }
      }
      forall k | k in VolumeKeys(r.s, from, volume) ensures k in Keys(r.s, to) {
        if k in Keys(s, from) { assert k in VolumeKeys(s, from, volume); }
      }
    }
  }

  lemma GrowsFurther(a: State, b: State, c: State)
    requires (Grows(a, b) || SameObjects(a, b)) && (Grows(b, c) || SameObjects(b, c))
    ensures Grows(a, c)
  {
    forall l ensures Keys(a, l) <= Keys(c, l) {
      assert Keys(a, l) <= Keys(b, l) <= Keys(c, l);
    }
  }

  /** The part of `Prepare` before the copy. */
  function Quieted(s: State, f: Faults, g: Gaps): Ran {
    var mounted := Mount(s, f.mount);
    if mounted.how != Done then mounted else
    var quiet := Quiesce(Pass(mounted.s, g.beforeQuiesce), f.resists, f.quiesce);
    if quiet.how != Done then quiet else Ran(Pass(quiet.s, g.beforeSync), Done)
  }

  lemma QuiesceChangesOnlyApps(s: State, resists: set<string>, f: Fault)
    ensures var r := Quiesce(s, resists, f);
      r.s == s.(apps := r.s.apps) && (r.how == Done ==> r.s.apps == Stopped(s.apps, resists))
  {
    hide Stopped, StillRunning;
  }

  lemma QuietedIsSafe(s: State, a: Location, b: Location, volume: string, f: Faults, g: Gaps)
    requires Within(s, a, b, volume)
    ensures var r := Quieted(s, f, g);
      && Within(r.s, a, b, volume) && Grows(s, r.s) && r.s.meta == s.meta && r.s.row == s.row
      && (r.how == Done ==> r.s.apps == Stopped(s.apps + g.beforeQuiesce.apps, f.resists) + g.beforeSync.apps)
  {
    hide Within, Mount, Pass, Quiesce, Keys, Stopped;
    var mounted := Mount(s, f.mount);
    MountStaysWithin(s, a, b, volume, f.mount);
    GrowsFurther(s, s, mounted.s);
    if mounted.how == Done {
      PassStaysWithin(mounted.s, a, b, volume, g.beforeQuiesce);
      var before := Pass(mounted.s, g.beforeQuiesce);
      QuiesceChangesOnlyApps(before, f.resists, f.quiesce);
      var quiet := Quiesce(before, f.resists, f.quiesce);
      QuietStaysWithin(before, a, b, volume, quiet.s);
      GrowsFurther(s, mounted.s, before);
      GrowsFurther(s, before, quiet.s);
      if quiet.how == Done {
        PassStaysWithin(quiet.s, a, b, volume, g.beforeSync);
        GrowsFurther(s, quiet.s, Pass(quiet.s, g.beforeSync));
      }
    }
  }

  lemma QuietStaysWithin(s: State, a: Location, b: Location, volume: string, s': State)
    requires Within(s, a, b, volume) && SameObjects(s, s') && s'.meta == s.meta && s'.live == s.live
    ensures Within(s', a, b, volume)
  {
    assert Keys(s, a) == Keys(s', a) && Keys(s, b) == Keys(s', b);
  }

  /** Up to the copy nothing is removed and nothing re-pointed; once it is complete the destination holds every object
      written so far. */
  lemma PrepareIsSafe(s: State, from: Location, other: Location, to: Location, volume: string, f: Faults, g: Gaps)
    requires Within(s, from, other, volume) && (other == from || other == to)
    ensures var r := Prepare(s, from, to, volume, f, g);
      && Within(r.s, from, other, volume) && Grows(s, r.s) && r.s.meta == s.meta && r.s.row == s.row
      && (r.how == Done ==>
            && r.s.apps == Stopped(s.apps + g.beforeQuiesce.apps, f.resists) + g.beforeSync.apps
            && r.s.written <= Keys(r.s, to) && VolumeKeys(r.s, from, volume) <= Keys(r.s, to))
  {
    hide Quieted, Prepare, Sync;
    var quiet := Quieted(s, f, g);
    QuietedIsSafe(s, from, other, volume, f, g);
    PrepareInTwo(s, from, to, volume, f, g);
    if quiet.how == Done {
      SyncStaysWithin(quiet.s, from, other, to, volume, f.sync, f.copied);
      hide Within, Keys, VolumeKeys;
      GrowsFurther(s, quiet.s, Sync(quiet.s, from, to, volume, f.sync, f.copied).s);
    }
  }

  lemma PrepareInTwo(s: State, from: Location, to: Location, volume: string, f: Faults, g: Gaps)
    requires s.meta.Some?
    ensures var quiet := Quieted(s, f, g);
      Prepare(s, from, to, volume, f, g)
        == if quiet.how != Done then quiet else Sync(quiet.s, from, to, volume, f.sync, f.copied)
  {
    hide Mount, Pass, Quiesce, Sync;
  }

  /** The switch up to the restart of the mount. */
  function Moved(s: State, to: Location, f: Faults, g: Gaps): Ran {
    var pointed := Repoint(Pass(s, g.afterSync), to, f.repoint);
    if pointed.how != Done then pointed else Remount(Pass(pointed.s, g.afterRepoint), f.stop, f.start)
  }

  /** With nobody writing the move touches no object; when it returns the volume and its mount are on the
      destination. */
  lemma MoveIsSafe(s: State, from: Location, other: Location, to: Location, volume: string, f: Faults, g: Gaps)
    requires Within(s, from, other, volume) && (other == from || other == to)
    requires NoWriter(s.apps + g.afterSync.apps) && NoWriter(s.apps + g.afterSync.apps + g.afterRepoint.apps)
    ensures var r := Moved(s, to, f, g);
      && Within(r.s, from, to, volume) && SameObjects(s, r.s)
      && (r.how == Done ==>
            && r.s.meta == Some(Meta(volume, to)) && r.s.live == Some(to)
            && r.s.apps == s.apps + g.afterSync.apps + g.afterRepoint.apps)
  {
    hide Within, Repoint, Remount, Pass, Keys, NoWriter;
    QuietPass(s, g.afterSync);
    var before := Pass(s, g.afterSync);
    QuietStaysWithin(s, from, other, volume, before);
    Widen(before, from, other, to, volume);
    RepointStaysWithin(before, from, to, to, volume, f.repoint);
    var pointed := Repoint(before, to, f.repoint);
    if pointed.how == Done {
      QuietPass(pointed.s, g.afterRepoint);
      var next := Pass(pointed.s, g.afterRepoint);
      QuietStaysWithin(pointed.s, from, to, volume, next);
      RemountStaysWithin(next, from, to, volume, f.stop, f.start);
    }
  }

  /** The whole switch: what is written after the restart of the mount is in the destination. */
  lemma SwitchIsSafe(s: State, from: Location, other: Location, to: Location, volume: string, f: Faults, g: Gaps)
    requires Within(s, from, other, volume) && (other == from || other == to)
    requires NoWriter(s.apps + g.afterSync.apps) && NoWriter(s.apps + g.afterSync.apps + g.afterRepoint.apps)
    requires s.written <= Keys(s, to)
    ensures var r := Switch(s, to, f, g);
      && Within(r.s, from, to, volume) && Grows(s, r.s) && r.s.row == s.row
      && r.s.written <= Keys(r.s, to) && (forall l :: l != to ==> Keys(r.s, l) == Keys(s, l))
      && (r.how == Done ==> r.s.meta == Some(Meta(volume, to)) && r.s.live == Some(to))
      && (r.how != Done || NoWriter(s.apps + g.afterSync.apps + g.afterRepoint.apps + g.afterRemount.apps) ==>
            SameObjects(s, r.s))
  {
    hide Within, Moved, NoWriter;
    MoveIsSafe(s, from, other, to, volume, f, g);
    var moved := Moved(s, to, f, g);
    assert forall l :: Keys(moved.s, l) == Keys(s, l);
    SwitchInTwo(s, to, f, g);
    if moved.how == Done {
      PassStaysWithin(moved.s, from, to, volume, g.afterRemount);
      LivePass(moved.s, g.afterRemount, to);
      if NoWriter(moved.s.apps + g.afterRemount.apps) { QuietPass(moved.s, g.afterRemount); }
    }
    hide Switch, Pass, Keys;
  }

  lemma SwitchInTwo(s: State, to: Location, f: Faults, g: Gaps)
    ensures var moved := Moved(s, to, f, g);
      Switch(s, to, f, g) == if moved.how != Done then moved else Ran(Pass(moved.s, g.afterRemount), Done)
  {
    hide Repoint, Remount, Pass;
  }

  lemma UndoIsSafe(s: State, other: Location, f: Faults)
    requires !s.row.backend.Disabled? && Within(s, RowLocation(s.row), other, s.row.volume)
    ensures var r, from := Undo(s, f), RowLocation(s.row);
      && Within(r.s, from, other, s.row.volume) && SameObjects(s, r.s) && r.s.meta.Some?
      && (r.how == Done ==> r.s.meta == Some(Meta(s.row.volume, from)) && r.s.live == Some(from))
      && (r.s.meta == s.meta || r.s.meta == Some(Meta(s.row.volume, from)))
  {
    var from := RowLocation(s.row);
    RepointStaysWithin(s, from, other, from, s.row.volume, f.undoRepoint);
    var pointed := Repoint(s, from, f.undoRepoint);
    RemountStaysWithin(pointed.s, from, other, s.row.volume, f.undoStop, f.undoStart);
    hide Within, Repoint, Remount, Keys;
  }

  /** What the copy and the switch leave, finished or not. */
  ghost predicate Migrated(s: State, s': State, to: Location, how: How) {
    var from, volume := RowLocation(s.row), s.row.volume;
    && Grows(s, s') && Within(s', from, to, volume) && s'.row == s.row
    && (s'.meta != s.meta || how == Done ==> s'.written <= Keys(s', to))
    && (how == Done ==>
          && s'.meta == Some(Meta(volume, to)) && s'.live == Some(to)
          && VolumeKeys(s', from, volume) <= Keys(s', to))
  }

  lemma MigrateIsSafe(s: State, other: Location, to: Location, f: Faults, g: Gaps)
    requires !s.row.backend.Disabled? && Calm(s, f, g)
    requires Within(s, RowLocation(s.row), other, s.row.volume) && (other == RowLocation(s.row) || other == to)
    ensures var r := Migrate(s, RowLocation(s.row), to, s.row.volume, f, g);
      && Migrated(s, r.s, to, r.how)
      && (other == RowLocation(s.row) && CalmToTheEnd(s, f, g) ==> r.s.written <= Keys(r.s, RowLocation(s.row)))
  {
    hide Within, Prepare, Switch, NoWriter;
    var from, volume := RowLocation(s.row), s.row.volume;
    PrepareIsSafe(s, from, other, to, volume, f, g);
    var prepared := Prepare(s, from, to, volume, f, g);
    Widen(prepared.s, from, other, to, volume);
    WithinOne(prepared.s, from, volume);
    if prepared.how == Done {
      SwitchIsSafe(prepared.s, from, other, to, volume, f, g);
      var switched := Switch(prepared.s, to, f, g);
      GrowsFurther(s, prepared.s, switched.s);
      assert SameObjects(prepared.s, switched.s) ==> Keys(switched.s, from) == Keys(prepared.s, from);
      VolumeStaysInside(prepared.s, switched.s, from, to, volume);
    }
  }

  lemma VolumeStaysInside(s: State, s': State, from: Location, to: Location, volume: string)
    requires VolumeKeys(s, from, volume) <= Keys(s, to) && Keys(s, to) <= Keys(s', to)
    requires forall l :: l != to ==> Keys(s', l) == Keys(s, l)
    ensures VolumeKeys(s', from, volume) <= Keys(s', to)
  {
    if from != to { assert VolumeKeys(s', from, volume) == VolumeKeys(s, from, volume); }
  }

  lemma WithinOne(s: State, a: Location, volume: string)
    ensures Within(s, a, a, volume) ==> s.written <= Keys(s, a)
  {
  }

  lemma AttemptIsMigrateThenFlip(s: State, request: Request, f: Faults, g: Gaps)
    requires !s.row.backend.Disabled? && ChosenVolume(s.row, request) == s.row.volume
    ensures var migrated := Migrate(s, RowLocation(s.row), request.bucket, s.row.volume, f, g);
      Attempt(s, request, f, g) ==
        if HowOf(f.install) != Done then Ran(s, HowOf(f.install))
        else if migrated.how != Done then migrated
        else Flip(migrated.s, request.bucket, s.row.volume, f.flip)
  {
    hide Migrate, RowLocation, FormatFresh;
  }

  /** What the `try` block leaves: the row is flipped only after a finished migration. */
  ghost predicate Attempted(s: State, s': State, to: Location, how: How) {
    var flipped := s.(row := Row(S3(to, true), s.row.volume));
    || (s'.row == s.row && how != Done && (s' == s || exists h :: Migrated(s, s', to, h)))
    || (how != Raised && s'.row == flipped.row && Migrated(s, s'.(row := s.row), to, Done))
  }

  lemma AttemptIsSafe(s: State, pending: Option<Location>, request: Request, f: Faults, g: Gaps)
    requires Sound(s, pending) && Calm(s, f, g) && request.bucket.Bucket?
    requires pending == None || pending == Some(request.bucket)
    ensures var r := Attempt(s, request, f, g);
      && Attempted(s, r.s, request.bucket, r.how)
      && (pending == None && CalmToTheEnd(s, f, g) ==> r.s.written <= Keys(r.s, RowLocation(s.row)))
  {
    hide Migrate, Within, Attempt, Calm, CalmToTheEnd;
    var from, to := RowLocation(s.row), request.bucket;
    MigrateIsSafe(s, if pending.Some? then to else from, to, f, g);
    AttemptIsMigrateThenFlip(s, request, f, g);
    WithinOne(s, from, s.row.volume);
    var migrated := Migrate(s, from, to, s.row.volume, f, g);
    assert migrated.s.row == s.row;
    hide Migrated;
    if HowOf(f.install) == Done && migrated.how == Done {
      var r := Flip(migrated.s, to, s.row.volume, f.flip);
      assert r.s.(row := s.row) == migrated.s;
    }
  }

  // ---------------------------------------------------------------- one configuration

  ghost function NextPending(s: State, request: Request): Option<Location> {
    if request.bucket == RowLocation(s.row) then None else Some(request.bucket)
  }

  /** Reclaiming takes nothing from the destination. */
  lemma ReclaimSpares(s: State, source: Row, request: Request, f: Faults)
    requires request.bucket.Bucket? && (source.backend.S3? ==> source.backend.bucket.Bucket?)
    ensures var s' := Reclaim(s, source, request, source.volume, f);
      && Keys(s', request.bucket) == Keys(s, request.bucket)
      && s'.meta == s.meta && s'.live == s.live && s'.row == s.row && s'.written == s.written && s'.apps == s.apps
      && forall l :: l != RowLocation(source) ==> Keys(s', l) == Keys(s, l)
  {
  }

  lemma FlippedIsSound(s: State, s': State, to: Location)
    requires !s.row.backend.Disabled? && to.Bucket?
    requires Migrated(s, s'.(row := s.row), to, Done) && s'.row == Row(S3(to, true), s.row.volume)
    ensures Sound(s', None) && s.written <= s'.written <= Keys(s', to)
    ensures s'.meta == Some(Meta(s.row.volume, to)) && s'.live == Some(to)
  {
    var mid := s'.(row := s.row);
    assert Keys(mid, to) == Keys(s', to);
    hide InVolume;
  }

  lemma UnflippedIsSound(s: State, pending: Option<Location>, s': State, request: Request, how: How)
    requires Sound(s, pending) && request.bucket.Bucket? && (pending == None || pending == Some(request.bucket))
    requires s' == s || Migrated(s, s', request.bucket, how)
    ensures Sound(s', NextPending(s', request))
    ensures s.written <= s'.written
  {
    hide InVolume;
  }

  lemma UndoneIsSound(s: State, request: Request, f: Faults)
    requires Sound(s, NextPending(s, request)) && request.bucket.Bucket?
    ensures var s' := Undo(s, f).s;
      Sound(s', NextPending(s', request)) && SameObjects(s, s')
  {
    UndoIsSafe(s, request.bucket, f);
    Widen(s, RowLocation(s.row), if NextPending(s, request).Some? then request.bucket else RowLocation(s.row),
          request.bucket, s.row.volume);
    UndoIsSafe(s, request.bucket, f);
    hide Undo, InVolume;
  }

  lemma ReclaimedIsSound(s: State, source: Row, request: Request, f: Faults)
    requires Sound(s, None) && RowLocation(s.row) == request.bucket && request.bucket.Bucket?
    requires source.backend.S3? ==> source.backend.bucket.Bucket?
    ensures Sound(Reclaim(s, source, request, source.volume, f), None)
  {
    ReclaimSpares(s, source, request, f);
    hide Reclaim, InVolume;
  }

  lemma ConfigureUnfolds(s: State, request: Request, f: Faults, g: Gaps)
    requires !s.row.backend.Disabled? && ChosenVolume(s.row, request) == s.row.volume
    requires s.row.backend.S3? ==> s.row.backend.hasCredentials
    ensures var tried, r := Attempt(s, request, f, g), Configure(s, request, f, g);
      && (tried.how == Died ==> r == tried)
      && (tried.how == Raised ==> r.s == Undo(tried.s, f).s && r.how != Done)
      && (tried.how == Done ==>
            r.s == Reclaim(tried.s, s.row, request, s.row.volume, f) && r.how != Raised)
  {
    hide Attempt, Undo, Reclaim;
  }

  /** One configuration keeps the archive sound however it ends, the process's death included, and forgets nothing;
      when it returns, row, volume and mount are all on the destination, which holds every object written. */
  lemma {:induction false} ConfigureIsSound(s: State, pending: Option<Location>, request: Request, f: Faults, g: Gaps)
    requires Sound(s, pending) && Calm(s, f, g) && request.bucket.Bucket?
    requires pending == None || pending == Some(request.bucket)
    ensures var r := Configure(s, request, f, g);
      && s.written <= r.s.written
      && Sound(r.s, NextPending(r.s, request))
      && (r.how == Done ==>
            && r.s.row == Row(S3(request.bucket, true), s.row.volume)
            && r.s.meta == Some(Meta(s.row.volume, request.bucket)) && r.s.live == Some(request.bucket)
            && r.s.written <= Keys(r.s, request.bucket))
  {
    if s.row.backend.S3? && !s.row.backend.hasCredentials {
      UnflippedIsSound(s, pending, s, request, Raised);
    } else {
      AttemptIsSafe(s, pending, request, f, g);
      ConfigureUnfolds(s, request, f, g);
      ConfigureEnds(s, pending, Attempt(s, request, f, g), request, f);
      hide Attempt, Configure, Sound, Calm, Undo, Reclaim;
    }
  }

  /** From what the `try` block left to the end of the call. */
  lemma ConfigureEnds(s: State, pending: Option<Location>, tried: Ran, request: Request, f: Faults)
    requires Sound(s, pending) && request.bucket.Bucket? && (pending == None || pending == Some(request.bucket))
    requires Attempted(s, tried.s, request.bucket, tried.how)
    ensures tried.how == Died ==> Sound(tried.s, NextPending(tried.s, request)) && s.written <= tried.s.written
    ensures tried.how == Raised ==>
      var s' := Undo(tried.s, f).s;
      Sound(s', NextPending(s', request)) && s.written <= s'.written
    ensures tried.how == Done ==>
      var s' := Reclaim(tried.s, s.row, request, s.row.volume, f);
      && Sound(s', NextPending(s', request)) && s.written <= s'.written
      && s'.row == Row(S3(request.bucket, true), s.row.volume)
      && s'.meta == Some(Meta(s.row.volume, request.bucket)) && s'.live == Some(request.bucket)
      && s'.written <= Keys(s', request.bucket)
  {
    if tried.s.row == s.row && tried.how != Done {
      if tried.s == s {
        UnflippedIsSound(s, pending, s, request, Raised);
      } else if exists h :: Migrated(s, tried.s, request.bucket, h) {
        var h :| Migrated(s, tried.s, request.bucket, h);
        UnflippedIsSound(s, pending, tried.s, request, h);
      } else {
        FlippedIsSound(s, tried.s, request.bucket);
      }
      if tried.how == Raised { UndoneIsSound(tried.s, request, f); }
    } else {
      FlippedIsSound(s, tried.s, request.bucket);
      if tried.how == Done {
        ReclaimedIsSound(tried.s, s.row, request, f);
        ReclaimSpares(tried.s, s.row, request, f);
      }
    }
  }

  /** What an attempt that raises leaves to undo, from a state where everything is in the row's store. */
  lemma RaisedAttempt(s: State, s': State, to: Location)
    requires Sound(s, None) && to.Bucket? && Attempted(s, s', to, Raised)
    ensures var from, volume := RowLocation(s.row), s.row.volume;
      && s'.row == s.row && Grows(s, s') && Within(s', from, to, volume)
      && (s'.meta.value.pointer == from || s'.written <= Keys(s', s'.meta.value.pointer))
  {
    hide InVolume;
    var from, volume := RowLocation(s.row), s.row.volume;
    Widen(s, from, from, to, volume);
  }

  lemma UndoneHoldsAll(s: State, to: Location, f: Faults)
    requires !s.row.backend.Disabled? && Within(s, RowLocation(s.row), to, s.row.volume)
    requires s.written <= Keys(s, RowLocation(s.row))
    requires s.meta.value.pointer == RowLocation(s.row) || s.written <= Keys(s, s.meta.value.pointer)
    ensures var s', from := Undo(s, f).s, RowLocation(s.row);
      && SameObjects(s, s') && s'.meta.Some?
      && s'.written <= Keys(s', s'.meta.value.pointer) && s'.written <= Keys(s', from)
      && (s'.meta.value.pointer == from || s'.meta.value.pointer == to)
      && (f.undoRepoint.Fine? && f.undoStop.Fine? && f.undoStart.Fine? ==>
            s'.meta.value.pointer == from && s'.live == Some(from))
  {
    UndoIsSafe(s, to, f);
    UndoSucceeds(s, to, f);
    hide Undo, InVolume;
    assert forall l :: Keys(Undo(s, f).s, l) == Keys(s, l);
  }

  lemma UndoSucceeds(s: State, to: Location, f: Faults)
    requires !s.row.backend.Disabled? && Within(s, RowLocation(s.row), to, s.row.volume)
    ensures f.undoRepoint.Fine? && f.undoStop.Fine? && f.undoStart.Fine? ==> Undo(s, f).how == Done
  {
    hide InVolume, Keys;
  }

  /** Fail-open. From a state where the volume points where the row says, and with nobody writing from the copy to the
      commit, a configuration that raises leaves the row as it was and every source object in place; the store the
      volume points at holds everything written; and when the restore commands work, that store is the source,
      mounted. */
  lemma {:induction false} FailsOpen(s: State, request: Request, f: Faults, g: Gaps)
    requires Sound(s, None) && CalmToTheEnd(s, f, g) && request.bucket.Bucket?
    requires Configure(s, request, f, g).how == Raised
    ensures var s' := Configure(s, request, f, g).s;
      var from := RowLocation(s.row);
      && s'.row == s.row && Grows(s, s')
      && s'.meta.Some? && s'.written <= Keys(s', s'.meta.value.pointer) && s'.written <= Keys(s', from)
      && (s'.meta.value.pointer == from || s'.meta.value.pointer == request.bucket)
      && (f.undoRepoint.Fine? && f.undoStop.Fine? && f.undoStart.Fine? && s != s' ==>
            s'.meta.value.pointer == from && s'.live == Some(from))
  {
    WithinOne(s, RowLocation(s.row), s.row.volume);
    if s.row.backend.S3? && !s.row.backend.hasCredentials { return; }
    hide Attempt, Undo, Reclaim, Attempted, Within, CalmToTheEnd, Keys;
    var tried := Attempt(s, request, f, g);
    CalmAlso(s, f, g);
    AttemptIsSafe(s, None, request, f, g);
    ConfigureUnfolds(s, request, f, g);
    RaisedAttempt(s, tried.s, request.bucket);
    UndoneHoldsAll(tried.s, request.bucket, f);
    GrowsFurther(s, tried.s, Undo(tried.s, f).s);
  }

  lemma CalmAlso(s: State, f: Faults, g: Gaps)
    requires CalmToTheEnd(s, f, g)
    ensures Calm(s, f, g)
  {
  }

  /** Nothing is deleted unless it is safe: an object a configuration removes from any store is in the destination
      when the configuration ends, the row has been committed to the destination, and a rotation within a bucket of
      the same name removes nothing. */
  lemma {:induction false} OnlyCopiedObjectsAreDeleted(s: State, pending: Option<Location>, request: Request, f: Faults,
                                                       g: Gaps, at: Location, key: Key)
    requires Sound(s, pending) && Calm(s, f, g) && request.bucket.Bucket?
    requires pending == None || pending == Some(request.bucket)
    requires var r := Configure(s, request, f, g); key in Keys(s, at) && key !in Keys(r.s, at)
    ensures var r := Configure(s, request, f, g);
      && r.s.row == Row(S3(request.bucket, true), s.row.volume)
      && at == RowLocation(s.row) && at != request.bucket
      && (InVolume(key, s.row.volume) ==> key in Keys(r.s, request.bucket))
      && (at.Bucket? ==> at.name != request.bucket.name && InVolume(key, s.row.volume))
  {
    AttemptIsSafe(s, pending, request, f, g);
    var tried := Attempt(s, request, f, g);
    if tried.how == Raised { UndoIsSafe(tried.s, request.bucket, f); }
    if tried.how == Done { ReclaimSpares(tried.s, s.row, request, f); }
  }

  /** Where a run may begin: a volume that points where its row says, under a name of its own, and holds what was
      written. */
  lemma {:induction false} RestIsSound(s: State)
    requires s.meta == Some(Meta(s.row.volume, RowLocation(s.row))) && !s.row.backend.Disabled?
    requires s.row.backend.S3? ==> s.row.backend.bucket.Bucket?
    requires s.row.backend.Local? ==> s.row.volume != DEFAULT_VOLUME
    requires (s.live == None || s.live == Some(RowLocation(s.row))) && s.written <= Keys(s, RowLocation(s.row))
    requires forall k :: k in s.written ==> InVolume(k, s.row.volume)
    ensures Sound(s, None)
  {
  }

  // ---------------------------------------------------------------- an app that cannot be stopped

  /** A container of a running archive app that survives being stopped. */
  ghost predicate Survivor(s: State, f: Faults, g: Gaps, a: string) {
    var up := s.apps + g.beforeQuiesce.apps;
    a in up && up[a].saysRunning && up[a].usesArchive && up[a].alive && a in f.resists
  }

  lemma {:induction false} PassAddsOnly(s: State, gap: Gap)
    ensures var s' := Pass(s, gap);
      Grows(s, s') && s'.row == s.row && s'.apps == s.apps + gap.apps
  {
    var moved := s.(apps := s.apps + gap.apps);
    assert forall l :: Keys(moved, l) == Keys(s, l);
  }

  lemma {:induction false} QuiesceRaises(s: State, f: Faults, a: string)
    requires a in s.apps && s.apps[a].saysRunning && s.apps[a].usesArchive && s.apps[a].alive && a in f.resists
    ensures var r := Quiesce(s, f.resists, f.quiesce);
      r.how != Done && r.s.row == s.row && r.s.stores == s.stores && r.s.written == s.written
  {
    var stopped := Stopped(s.apps, f.resists);
    assert a in stopped && MustStop(stopped[a]) && stopped[a].alive;
  }

  lemma {:induction false} SurvivorStopsPrepare(s: State, from: Location, to: Location, volume: string, f: Faults,
                                                g: Gaps, a: string)
    requires Survivor(s, f, g, a)
    ensures var r := Prepare(s, from, to, volume, f, g);
      r.how != Done && Grows(s, r.s) && r.s.row == s.row
  {
    hide Quiesce, Pass, Sync, Stopped, MustStop;
    var formatted := if from == LocalDisk then FormatLocal(s, volume, f.format) else Ran(s, Done);
    assert formatted.s.stores == s.stores && formatted.s.apps == s.apps && formatted.s.row == s.row;
    var mounted := Mount(formatted.s, f.mount);
    assert mounted.s.stores == s.stores && mounted.s.apps == s.apps && mounted.s.row == s.row;
    if formatted.how == Done && mounted.how == Done {
      var ready := Pass(mounted.s, g.beforeQuiesce);
      PassAddsOnly(mounted.s, g.beforeQuiesce);
      QuiesceRaises(ready, f, a);
      assert mounted.s.written == s.written && forall l :: Keys(mounted.s, l) == Keys(s, l);
      assert forall l :: Keys(Quiesce(ready, f.resists, f.quiesce).s, l) == Keys(ready, l);
    }
  }

  lemma {:induction false} UndoAddsOnly(s: State, f: Faults)
    ensures var r := Undo(s, f); r.s.row == s.row && r.s.stores == s.stores && r.s.written == s.written
  {
  }

  /** A migration never goes on over an app that could not be stopped: it fails, the row stays, and no object of any
      store is gone. */
  lemma {:induction false} SurvivorStopsMigration(s: State, request: Request, f: Faults, g: Gaps)
    requires !s.row.backend.Disabled?
    ensures var r := Configure(s, request, f, g);
      (exists a :: Survivor(s, f, g, a)) ==>
        r.how != Done && r.s.row == s.row && forall l :: Keys(s, l) <= Keys(r.s, l)
  {
    hide Prepare, Switch, Undo, Reclaim, Flip, ChosenVolume, RowLocation, Survivor;
    if a :| Survivor(s, f, g, a) {
      SurvivorStopsPrepare(s, RowLocation(s.row), request.bucket, ChosenVolume(s.row, request), f, g, a);
      UndoAddsOnly(Attempt(s, request, f, g).s, f);
    }
  }
}
