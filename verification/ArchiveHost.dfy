/** Reconfiguring the archive as it changes the machine in place, and the two loops it relies on: stopping the apps
    that write, and deleting a volume's objects in batches. */
module ArchiveHost {
  import opened Common
  import opened ArchiveState
  import opened ArchiveSafety
  import Journal

  // ---------------------------------------------------------------- batches

  const BATCH := 1000

  function StripSlashes(s: string): string {
    if s != "" && s[0] == '/' then StripSlashes(s[1..])
    else if s != "" && s[|s| - 1] == '/' then StripSlashes(s[..|s| - 1])
    else s
  }

  function Prefix(volume: string): string { Journal.Strip(StripSlashes(Journal.Strip(volume))) }

  /** The listed keys that really are under the prefix, in order. */
  function Under(keys: seq<Key>, prefix: string): seq<Key> {
    if keys == [] then [] else
      var last := keys[|keys| - 1];
      Under(keys[..|keys| - 1], prefix) + if prefix + "/" <= last then [last] else []
  }

  lemma UnderAppends(keys: seq<Key>, key: Key, prefix: string)
    ensures Under(keys + [key], prefix) == Under(keys, prefix) + if prefix + "/" <= key then [key] else []
  {
    assert (keys + [key])[..|keys|] == keys;
  }

  lemma {:induction false} UnderIs(keys: seq<Key>, prefix: string, key: Key)
    ensures key in Under(keys, prefix) <==> key in keys && prefix + "/" <= key
  {
    if keys != [] {
      UnderIs(keys[..|keys| - 1], prefix, key);
      assert keys == keys[..|keys| - 1] + [keys[|keys| - 1]];
    }
  }

  predicate SizesFit(batches: seq<seq<Key>>) {
    forall i :: 0 <= i < |batches| ==> 1 <= |batches[i]| <= BATCH && (i < |batches| - 1 ==> |batches[i]| == BATCH)
  }

  lemma {:induction false} SizesExactly()
    ensures forall batches :: SizesFit(batches) ==>
      forall i :: 0 <= i < |batches| ==> 1 <= |batches[i]| <= 1000 && (i < |batches| - 1 ==> |batches[i]| == 1000)
  {
  }

  /** Slashes go from both ends, as many as there are, and nothing else. */
  lemma {:induction false} SlashesExactly(s: string) returns (lead: string, trail: string)
    ensures s == lead + StripSlashes(s) + trail && forall c :: c in lead + trail ==> c == '/'
    ensures var r := StripSlashes(s); r != "" ==> r[0] != '/' && r[|r| - 1] != '/'
    decreases |s|
  {
    lead, trail := "", "";
    if s != "" && s[0] == '/' {
      var more;
      more, trail := SlashesExactly(s[1..]);
      lead := "/" + more;
      assert s == "/" + s[1..];
      assert forall c :: c in lead + trail ==> c == '/' || c in more + trail;
    } else if s != "" && s[|s| - 1] == '/' {
      var more;
      lead, more := SlashesExactly(s[..|s| - 1]);
      trail := more + "/";
      assert s == s[..|s| - 1] + "/";
      assert forall c :: c in lead + trail ==> c == '/' || c in lead + more;
    }
  }

  class Host {
    var stores: map<Location, set<Key>>
    var meta: Option<Meta>
    var live: Option<Location>
    var row: Row
    var adopt: bool
    var apps: map<string, App>
    var written: set<Key>

    function View(): State
      reads this
    {
      State(stores, meta, live, row, adopt, apps, written)
    }

    // -------------------------------------------------------------- commands

    method DoMount(f: Fault) returns (how: How)
      modifies this`live
      ensures View() == Mount(old(View()), f).s && how == Mount(old(View()), f).how
    {
      if live.Some? { return Done; }
      how := HowOf(f);
      if meta == None { return if how == Died then Died else Raised; }
      if TakesEffect(f) { live := Some(meta.value.pointer); }
    }

    method DoUmount(f: Fault) returns (how: How)
      modifies this`live
      ensures View() == Umount(old(View()), f).s && how == Umount(old(View()), f).how
    {
      if live == None { return Done; }
      if TakesEffect(f) { live := None; }
      how := HowOf(f);
    }

    method DoRemount(stop: Fault, start: Fault) returns (how: How)
      modifies this`live
      ensures View() == Remount(old(View()), stop, start).s && how == Remount(old(View()), stop, start).how
    {
      hide Mount, Umount;
      how := DoUmount(stop);
      if how == Done { how := DoMount(start); }
    }

    method Reconfigure(to: Location, f: Fault) returns (how: How)
      modifies this`meta
      ensures View() == Repoint(old(View()), to, f).s && how == Repoint(old(View()), to, f).how
    {
      how := HowOf(f);
      if meta == None { return if how == Died then Died else Raised; }
      if TakesEffect(f) { meta := Some(meta.value.(pointer := to)); }
    }

    method EnsureLocalFormatted(volume: string, f: Fault) returns (how: How)
      modifies this`meta
      ensures View() == FormatLocal(old(View()), volume, f).s && how == FormatLocal(old(View()), volume, f).how
    {
      if meta.Some? { return Done; }
      if TakesEffect(f) { meta := Some(Meta(volume, LocalDisk)); }
      how := HowOf(f);
    }

    method FormatBucket(at: Location, volume: string, f: Fault, marked: bool) returns (how: How)
      modifies this`stores, this`meta
      ensures View() == FormatS3(old(View()), at, volume, f, marked).s
      ensures how == FormatS3(old(View()), at, volume, f, marked).how
    {
      if meta.Some? { return Done; }
      if TakesEffect(f) || marked { stores := stores[at := Keys(View(), at) + {Marker(volume)}]; }
      if TakesEffect(f) { meta := Some(Meta(volume, at)); }
      how := HowOf(f);
    }

    method CopyObjects(from: Location, to: Location, volume: string, f: Fault, some: set<Key>) returns (how: How)
      modifies this`stores
      ensures View() == Sync(old(View()), from, to, volume, f, some).s
      ensures how == Sync(old(View()), from, to, volume, f, some).how
    {
      var all := VolumeKeys(View(), from, volume);
      stores := stores[to := Keys(View(), to) + if TakesEffect(f) then all else all * some];
      how := HowOf(f);
    }

    /** What goes on beside the configuration between two of its steps. */
    method AppsGoOn(gap: Gap)
      modifies this`stores, this`written, this`apps
      ensures View() == Pass(old(View()), gap)
    {
      apps := apps + gap.apps;
      if live.Some? && meta.Some? && AnyWriter(View()) {
        var volume := meta.value.volume;
        var added := set k | k in gap.keys && InVolume(k, volume);
        stores := stores[live.value := Keys(View(), live.value) + added];
        written := written + added;
      }
    }

    // -------------------------------------------------------------- stopping the apps

    /** `stop_running_archive_apps`: one row at a time, in the order the rows come; `resists` are the containers that
        survive being stopped. Every app that had to be stopped is recorded, also when it raises. */
    method StopArchiveApps(rows: seq<string>, resists: set<string>) returns (how: How, recorded: seq<string>)
      requires forall a :: a in rows <==> a in apps
      requires forall i, j :: 0 <= i < j < |rows| ==> rows[i] != rows[j]
      modifies this`apps
      ensures apps == Stopped(old(apps), resists)
      ensures apps.Keys == old(apps).Keys && forall a :: a in apps ==>
        apps[a] == old(apps)[a].(alive := old(apps)[a].alive &&
          !(old(apps)[a].saysRunning && old(apps)[a].usesArchive && a !in resists))
      ensures how == if exists a :: a in apps && apps[a].saysRunning && apps[a].usesArchive && apps[a].alive
        then Raised else Done
      ensures recorded == MustBeStopped(old(apps), rows)
    {
      hide *;
      StoppedExactly(apps, resists);
      recorded := [];
      var stillRunning := [];
      ghost var was := apps;
      var i := 0;
      NoneStopped(was, resists);
      while i < |rows|
        invariant i <= |rows|
        invariant apps == Halfway(was, resists, rows[..i])
        invariant recorded == MustBeStopped(was, rows[..i])
        invariant forall a :: a in stillRunning <==> a in rows[..i] && Survives(was, resists, a)
      {
        var a := rows[i];
        assert rows[..i + 1] == rows[..i] + [a];
        OneMoreStopped(was, resists, rows[..i], a);
        if MustStop(apps[a]) {
          if a !in resists { apps := apps[a := apps[a].(alive := false)]; }
          recorded := recorded + [a];
          if apps[a].alive { stillRunning := stillRunning + [a]; }
        }
        i := i + 1;
      }
      assert rows[..|rows|] == rows;
      AllStopped(was, resists, rows);
      how := if stillRunning != [] then Raised else Done;
      assert stillRunning != [] ==> stillRunning[0] in stillRunning;
    }

    // -------------------------------------------------------------- deleting a volume's objects

    method DeleteObjects(at: Location, batch: seq<Key>, f: Fault, some: set<Key>)
        returns (how: How, ghost gone: set<Key>)
      modifies this`stores
      ensures View() == Remove(old(View()), at, gone) && how == HowOf(f)
      ensures gone <= Elements(batch) && (how == Done ==> gone == Elements(batch))
    {
      var keys := if TakesEffect(f) then Elements(batch) else Elements(batch) * some;
      if keys != {} { stores := stores[at := Keys(View(), at) - keys]; }
      gone := keys;
      how := HowOf(f);
    }

    /** `_remove_s3_object_prefix`, whose call number `failAt` turns out as `f`: exactly the listed keys under the
        volume's prefix are deleted, each in one batch, in order, a thousand at a time; a blank name deletes nothing. */
    method RemoveObjectPrefix(at: Location, volume: string, pages: seq<seq<Key>>, failAt: nat, f: Fault, some: set<Key>)
      returns (how: How, batches: seq<seq<Key>>, ghost gone: set<Key>)
      modifies this`stores
      ensures View() == Remove(old(View()), at, gone)
      ensures Prefix(volume) == "" ==> how == Done && batches == [] && gone == {}
      ensures Prefix(volume) != "" ==>
        SizesFit(batches) && Reclaimed(Under(Flat(pages), Prefix(volume)), batches, gone, how)
      ensures forall i :: 0 <= i < |batches| ==>
        1 <= |batches[i]| <= 1000 && (i < |batches| - 1 ==> |batches[i]| == 1000)
    {
      hide *;
      SizesExactly();
      how, batches, gone := Done, [], {};
      RemoveNothing(View(), at);
      var prefix := Prefix(volume);
      if prefix == "" { return; }
      var toDelete: seq<Key> := [];
      NothingUnder(prefix);
      for i := 0 to |pages|
        invariant Pending(Under(Flat(pages[..i]), prefix), batches, toDelete, gone)
        invariant how == Done && View() == Remove(old(View()), at, gone)
      {
        var page := pages[i];
        assert pages[..i + 1] == pages[..i] + [page];
        FlatAppends(pages[..i], page);
        assert Flat(pages[..i]) + page[..0] == Flat(pages[..i]);
        for j := 0 to |page|
          invariant Pending(Under(Flat(pages[..i]) + page[..j], prefix), batches, toDelete, gone)
          invariant how == Done && View() == Remove(old(View()), at, gone)
        {
          var key := page[j];
          assert Flat(pages[..i]) + page[..j + 1] == Flat(pages[..i]) + page[..j] + [key];
          UnderAppends(Flat(pages[..i]) + page[..j], key, prefix);
          if prefix + "/" <= key {
            Collects(Under(Flat(pages[..i]) + page[..j], prefix), batches, toDelete, gone, key);
            toDelete := toDelete + [key];
            if |toDelete| == BATCH {
              ghost var more;
              how, more := DeleteObjects(at, toDelete, if |batches| == failAt then f else Fine, some);
              RemoveTwice(old(View()), at, gone, more);
              Deletes(Under(Flat(pages[..i]) + page[..j + 1], prefix), batches, toDelete, gone, more, how);
              gone := gone + more;
              batches := batches + [toDelete];
              if how != Done {
                StopsShort(pages, i, j + 1, prefix, batches, gone, how);
                return;
              }
              toDelete := [];
            }
          } else {
            SkipsOne(Under(Flat(pages[..i]) + page[..j], prefix));
          }
        }
        assert page[..|page|] == page;
      }
      assert pages[..|pages|] == pages;
      if toDelete != [] {
        ghost var more;
        Rest(Under(Flat(pages), prefix), batches, toDelete, gone);
        how, more := DeleteObjects(at, toDelete, if |batches| == failAt then f else Fine, some);
        RemoveTwice(old(View()), at, gone, more);
        Deletes(Under(Flat(pages), prefix), batches, toDelete, gone, more, how);
        gone := gone + more;
        batches := batches + [toDelete];
      } else {
        NothingLeft(Under(Flat(pages), prefix), batches, gone);
      }
    }

    // -------------------------------------------------------------- configure_backend

    method Quiet(f: Faults, rows: seq<string>) returns (how: How, recorded: seq<string>)
      requires forall a :: a in rows <==> a in apps
      requires forall i, j :: 0 <= i < j < |rows| ==> rows[i] != rows[j]
      modifies this`apps
      ensures View() == Quiesce(old(View()), f.resists, f.quiesce).s &&
        how == Quiesce(old(View()), f.resists, f.quiesce).how
      ensures forall a :: a in recorded ==> a in old(apps) && MustStop(old(apps)[a])
    {
      recorded := [];
      if HowOf(f.quiesce) == Died {
        // Death among the stops: the containers not reached are among those that resist.
        if TakesEffect(f.quiesce) { apps := Stopped(apps, f.resists); }
        return Died, [];
      }
      how, recorded := StopArchiveApps(rows, f.resists);
    }

    method CopyAll(from: Location, to: Location, volume: string, f: Faults, g: Gaps, rows: seq<string>)
      returns (how: How, recorded: seq<string>)
      requires forall a :: a in rows <==> a in apps || a in g.beforeQuiesce.apps
      requires forall i, j :: 0 <= i < j < |rows| ==> rows[i] != rows[j]
      modifies this
      ensures View() == Prepare(old(View()), from, to, volume, f, g).s
      ensures how == Prepare(old(View()), from, to, volume, f, g).how
      ensures MustHaveBeenStopped(recorded, old(apps) + g.beforeQuiesce.apps)
    {
      hide Mount, FormatLocal, Quiesce, AppWrites, Sync, Stopped, Keys, MustStop;
      how, recorded := Done, [];
      if from == LocalDisk { how := EnsureLocalFormatted(volume, f.format); }
      if how != Done { return; }
      how := DoMount(f.mount);
      if how != Done { return; }
      WritesSpareApps(View().(apps := apps + g.beforeQuiesce.apps), g.beforeQuiesce.keys);
      AppsGoOn(g.beforeQuiesce);
      how, recorded := Quiet(f, rows);
      if how != Done { return; }
      AppsGoOn(g.beforeSync);
      how := CopyObjects(from, to, volume, f.sync, f.copied);
    }

    method SwitchOver(to: Location, f: Faults, g: Gaps) returns (how: How)
      modifies this
      ensures View() == Switch(old(View()), to, f, g).s && how == Switch(old(View()), to, f, g).how
    {
      hide Repoint, Remount, Pass;
      AppsGoOn(g.afterSync);
      how := Reconfigure(to, f.repoint);
      if how != Done { return; }
      AppsGoOn(g.afterRepoint);
      how := DoRemount(f.stop, f.start);
      if how != Done { return; }
      AppsGoOn(g.afterRemount);
    }

    /** The `try` block. */
    method TryConfigure(request: Request, f: Faults, g: Gaps, rows: seq<string>)
        returns (how: How, recorded: seq<string>)
      requires forall a :: a in rows <==> a in apps || a in g.beforeQuiesce.apps
      requires forall i, j :: 0 <= i < j < |rows| ==> rows[i] != rows[j]
      modifies this
      ensures View() == Attempt(old(View()), request, f, g).s && how == Attempt(old(View()), request, f, g).how
      ensures MustHaveBeenStopped(recorded, old(apps) + g.beforeQuiesce.apps)
    {
      hide Prepare, Switch, FormatS3, Mount, ChosenVolume, RowLocation, MustStop;
      recorded := [];
      var volume := ChosenVolume(row, request);
      how := HowOf(f.install);
      if how != Done { return; }
      if row.backend.Disabled? {
        how := FormatBucket(request.bucket, volume, f.format, f.marked);
        if how == Done { how := DoMount(f.mount); }
      } else {
        how, recorded := CopyAll(RowLocation(row), request.bucket, volume, f, g, rows);
        if how == Done { how := SwitchOver(request.bucket, f, g); }
      }
      if how != Done { return; }
      if f.flip.Fine? || f.flip.DiesLate? { row := Row(S3(request.bucket, true), volume); }
      how := HowOf(f.flip);
    }

    /** The `except` block. */
    method PointBack(f: Faults) returns (how: How)
      modifies this
      ensures View() == Undo(old(View()), f).s && how == Undo(old(View()), f).how
    {
      hide Repoint, Remount, Umount, RowLocation;
      if row.backend.Disabled? {
        how := DoUmount(f.undoStop);
      } else {
        how := Reconfigure(RowLocation(row), f.undoRepoint);
        if how == Done { how := DoRemount(f.undoStop, f.undoStart); }
      }
    }

    /** After the commit, with the row as it was in `source`; errors are only logged. `did` is how reclaiming turned
        out. */
    method ReclaimSource(source: Row, request: Request, volume: string, f: Faults, pages: seq<seq<Key>>, failAt: nat)
      returns (how: How, ghost did: Faults)
      requires source.backend.S3? ==>
        Prefix(volume) == volume && Elements(Flat(pages)) <= Keys(View(), source.backend.bucket)
      modifies this`stores
      ensures did == f.(reclaim := did.reclaim, reclaimed := did.reclaimed)
      ensures View() == Reclaim(old(View()), source, request, volume, did)
      ensures how == if HowOf(did.reclaim) == Died then Died else Done
    {
      hide Keys, VolumeKeys, Elements, Prefix, Under, Reclaimed, Flat;
      did := f;
      if source.backend.Local? {
        var all := Keys(View(), LocalDisk);
        var gone := if TakesEffect(f.reclaim) then all else all * f.reclaimed;
        if gone != {} { stores := stores[LocalDisk := Keys(View(), LocalDisk) - gone]; }
        how := HowOf(f.reclaim);
      } else if source.backend.S3? {
        var bucket := source.backend.bucket;
        var sameLocation := bucket.Bucket? && request.bucket.Bucket? && bucket.name == request.bucket.name
                            && source.volume == volume;
        how := HowOf(f.reclaim);
        if !sameLocation {
          ghost var was := View();
          var batches;
          ghost var gone;
          how, batches, gone := RemoveObjectPrefix(bucket, volume, pages, failAt, f.reclaim, f.reclaimed);
          GoneFromVolume(was, bucket, volume, pages, batches, gone, how);
          did := f.(reclaim := if how == Died then Dies else Fails, reclaimed := gone);
        }
      } else {
        how := HowOf(f.reclaim);
      }
      if how != Died { how := Done; }
    }

    /** `configure_backend`. The listing the reclaiming reads shows objects of the old bucket. `recorded` are the apps
        the caller has to start again. */
    method ConfigureBackend(request: Request, f: Faults, g: Gaps, rows: seq<string>, pages: seq<seq<Key>>, failAt: nat)
      returns (how: How, recorded: seq<string>, ghost did: Faults)
      requires forall a :: a in rows <==> a in apps || a in g.beforeQuiesce.apps
      requires forall i, j :: 0 <= i < j < |rows| ==> rows[i] != rows[j]
      requires row.backend.S3? ==>
        Prefix(row.volume) == row.volume &&
          Elements(Flat(pages)) <= Keys(Attempt(View(), request, f, g).s, row.backend.bucket)
      modifies this
      ensures did == f.(reclaim := did.reclaim, reclaimed := did.reclaimed)
      ensures View() == Configure(old(View()), request, did, g).s && how == Configure(old(View()), request, did, g).how
      ensures MustHaveBeenStopped(recorded, old(apps) + g.beforeQuiesce.apps)
      ensures !old(row).backend.Disabled? && (exists a :: Survivor(old(View()), f, g, a)) ==>
        how != Done && row == old(row) && forall l :: Keys(old(View()), l) <= Keys(View(), l)
    {
      hide Attempt, Undo, Reclaim, Prefix, Flat, Elements, Keys, MustStop, Survivor;
      if !row.backend.Disabled? && exists a :: Survivor(View(), f, g, a) { SurvivorsStop(View(), request, f, g); }
      recorded, did := [], f;
      if row.backend.S3? && !row.backend.hasCredentials { return Raised, [], f; }
      ghost var was := View();
      var source, volume := row, ChosenVolume(row, request);
      how, recorded := TryConfigure(request, f, g, rows);
      if how == Died { return; }
      if how == Raised {
        how := PointBack(f);
        if how != Died { how := Raised; }
        return;
      }
      how, did := ReclaimSource(source, request, volume, f, pages, failAt);
      AttemptIgnoresReclaim(was, request, f, did, g);
    }
  }

  lemma {:induction false} SurvivorsStop(s: State, request: Request, f: Faults, g: Gaps)
    requires !s.row.backend.Disabled? && exists a :: Survivor(s, f, g, a)
    ensures forall did: Faults :: did == f.(reclaim := did.reclaim, reclaimed := did.reclaimed) ==>
      var r := Configure(s, request, did, g);
      r.how != Done && r.s.row == s.row && forall l :: Keys(s, l) <= Keys(r.s, l)
  {
    hide Configure, Keys;
    var a :| Survivor(s, f, g, a);
    forall did: Faults | did == f.(reclaim := did.reclaim, reclaimed := did.reclaimed)
      ensures var r := Configure(s, request, did, g);
        r.how != Done && r.s.row == s.row && forall l :: Keys(s, l) <= Keys(r.s, l)
    {
      assert Survivor(s, did, g, a);
      SurvivorStopsMigration(s, request, did, g);
    }
  }

  lemma {:induction false} StoppedExactly(apps: map<string, App>, resists: set<string>)
    ensures var after := Stopped(apps, resists);
      && after.Keys == apps.Keys
      && (forall a :: a in after ==> after[a] == apps[a].(alive := apps[a].alive &&
            !(apps[a].saysRunning && apps[a].usesArchive && a !in resists)))
      && (StillRunning(after) <==>
           exists a :: a in after && after[a].saysRunning && after[a].usesArchive && after[a].alive)
  {
  }

  /** Every app recorded was running and using the archive. */
  ghost predicate MustHaveBeenStopped(recorded: seq<string>, apps: map<string, App>) {
    forall a :: a in recorded ==> a in apps && MustStop(apps[a])
  }

  lemma WritesSpareApps(s: State, keys: set<Key>)
    ensures AppWrites(s, keys).apps == s.apps
  {
  }

  lemma AttemptIgnoresReclaim(s: State, request: Request, f: Faults, did: Faults, g: Gaps)
    requires did == f.(reclaim := did.reclaim, reclaimed := did.reclaimed)
    ensures Attempt(s, request, did, g) == Attempt(s, request, f, g)
  {
    hide Mount, FormatLocal, Quiesce, Pass, Sync, Repoint, Remount, FormatS3, ChosenVolume, RowLocation;
  }

  lemma GoneFromVolume(s: State, at: Location, volume: string, pages: seq<seq<Key>>, batches: seq<seq<Key>>,
                       gone: set<Key>, how: How)
    requires Prefix(volume) == volume && Elements(Flat(pages)) <= Keys(s, at)
    requires volume != "" ==> Reclaimed(Under(Flat(pages), volume), batches, gone, how)
    requires volume == "" ==> gone == {}
    ensures gone <= VolumeKeys(s, at, volume) && VolumeKeys(s, at, volume) * gone == gone
  {
    forall k | k in gone ensures k in VolumeKeys(s, at, volume) {
      UnderIs(Flat(pages), volume, k);
      assert k in Elements(Flat(pages));
    }
  }

  // ---------------------------------------------------------------- the loop over the listing

  function Elements(s: seq<Key>): set<Key> { set k | k in s }

  lemma RemoveNothing(s: State, at: Location)
    ensures Remove(s, at, {}) == s
  {
  }

  lemma RemoveTwice(s: State, at: Location, a: set<Key>, b: set<Key>)
    ensures Remove(Remove(s, at, a), at, b) == Remove(s, at, a + b)
  {
    if a != {} && b != {} { assert Keys(s, at) - a - b == Keys(s, at) - (a + b); }
    if a == {} { assert a + b == b; }
    if b == {} { assert a + b == a; }
  }

  /** What the deletions have come to: the batches are the wanted keys in order, all of them when nothing failed. */
  ghost predicate Reclaimed(wanted: seq<Key>, batches: seq<seq<Key>>, gone: set<Key>, how: How) {
    && Flat(batches) <= wanted && gone <= Elements(wanted)
    && (how == Done ==> Flat(batches) == wanted && gone == Elements(wanted))
  }

  /** Between two keys: full batches deleted, and fewer than a batch collected. */
  ghost predicate Pending(wanted: seq<Key>, batches: seq<seq<Key>>, toDelete: seq<Key>, gone: set<Key>) {
    && wanted == Flat(batches) + toDelete && |toDelete| < BATCH && gone == Elements(Flat(batches))
    && forall i :: 0 <= i < |batches| ==> |batches[i]| == BATCH
  }

  lemma NothingUnder(prefix: string)
    ensures Pending(Under(Flat([]), prefix), [], [], {})
  {
  }

  lemma Collects(wanted: seq<Key>, batches: seq<seq<Key>>, toDelete: seq<Key>, gone: set<Key>, key: Key)
    requires Pending(wanted, batches, toDelete, gone)
    ensures wanted + [key] == Flat(batches) + (toDelete + [key]) && |toDelete + [key]| <= BATCH
    ensures |toDelete + [key]| < BATCH ==> Pending(wanted + [key], batches, toDelete + [key], gone)
    ensures gone == Elements(Flat(batches)) && forall i :: 0 <= i < |batches| ==> |batches[i]| == BATCH
  {
  }

  /** One delete call, for a full batch or for the rest. */
  lemma Deletes(wanted: seq<Key>, batches: seq<seq<Key>>, toDelete: seq<Key>, gone: set<Key>, more: set<Key>, how: How)
    requires wanted == Flat(batches) + toDelete && 1 <= |toDelete| <= BATCH
    requires gone == Elements(Flat(batches)) && forall i :: 0 <= i < |batches| ==> |batches[i]| == BATCH
    requires more <= Elements(toDelete) && (how == Done ==> more == Elements(toDelete))
    ensures SizesFit(batches + [toDelete]) && Reclaimed(wanted, batches + [toDelete], gone + more, how)
    ensures how == Done && |toDelete| == BATCH ==> Pending(wanted, batches + [toDelete], [], gone + more)
  {
    FlatAppends(batches, toDelete);
    assert Elements(wanted) == Elements(Flat(batches)) + Elements(toDelete);
    hide Flat;
  }

  lemma SkipsOne(wanted: seq<Key>)
    ensures wanted + [] == wanted
  {
  }

  lemma Rest(wanted: seq<Key>, batches: seq<seq<Key>>, toDelete: seq<Key>, gone: set<Key>)
    requires Pending(wanted, batches, toDelete, gone)
    ensures wanted == Flat(batches) + toDelete && |toDelete| < BATCH && gone == Elements(Flat(batches))
    ensures forall i :: 0 <= i < |batches| ==> |batches[i]| == BATCH
  {
  }

  lemma NothingLeft(wanted: seq<Key>, batches: seq<seq<Key>>, gone: set<Key>)
    requires Pending(wanted, batches, [], gone)
    ensures SizesFit(batches) && Reclaimed(wanted, batches, gone, Done)
  {
  }

  /** A failure part of the way deletes nothing that a complete run would not. */
  lemma StopsShort(pages: seq<seq<Key>>, i: nat, j: nat, prefix: string, batches: seq<seq<Key>>, gone: set<Key>,
      how: How)
    requires i < |pages| && j <= |pages[i]| && how != Done
    requires Reclaimed(Under(Flat(pages[..i]) + pages[i][..j], prefix), batches, gone, how)
    ensures Reclaimed(Under(Flat(pages), prefix), batches, gone, how)
  {
    var seen := Flat(pages[..i]) + pages[i][..j];
    FlatSplits(pages, i);
    assert Flat(pages) == seen + (pages[i][j..] + Flat(pages[i + 1..]));
    UnderSplits(seen, pages[i][j..] + Flat(pages[i + 1..]), prefix);
    hide Flat, Under;
  }

  lemma {:induction false} FlatSplits(pages: seq<seq<Key>>, i: nat)
    requires i < |pages|
    ensures Flat(pages) == Flat(pages[..i]) + pages[i] + Flat(pages[i + 1..])
  {
    if i > 0 {
      assert pages[..i][1..] == pages[1..][..i - 1] && pages[i + 1..] == pages[1..][i..];
      FlatSplits(pages[1..], i - 1);
    }
  }

  lemma {:induction false} UnderSplits(a: seq<Key>, b: seq<Key>, prefix: string)
    ensures Under(a + b, prefix) == Under(a, prefix) + Under(b, prefix)
  {
    if b == [] {
      assert a + b == a;
    } else {
      assert (a + b)[..|a + b| - 1] == a + b[..|b| - 1];
      UnderSplits(a, b[..|b| - 1], prefix);
    }
  }

  // ---------------------------------------------------------------- the loop over the rows

  function MustBeStopped(apps: map<string, App>, rows: seq<string>): (r: seq<string>)
    ensures forall a :: a in r <==> a in rows && a in apps && MustStop(apps[a])
  {
    if rows == [] then [] else
      var a := rows[|rows| - 1];
      assert rows == rows[..|rows| - 1] + [a];
      MustBeStopped(apps, rows[..|rows| - 1]) + if a in apps && MustStop(apps[a]) then [a] else []
  }

  /** The apps when the rows in `seen` have been dealt with. */
  ghost function Halfway(apps: map<string, App>, resists: set<string>, seen: seq<string>): map<string, App> {
    map a | a in apps :: if a in seen && MustStop(apps[a]) && a !in resists then apps[a].(alive := false) else apps[a]
  }

  ghost predicate Survives(apps: map<string, App>, resists: set<string>, a: string) {
    a in apps && MustStop(apps[a]) && apps[a].alive && a in resists
  }

  lemma NoneStopped(apps: map<string, App>, resists: set<string>)
    ensures Halfway(apps, resists, []) == apps && MustBeStopped(apps, []) == []
  {
  }

  lemma OneMoreStopped(apps: map<string, App>, resists: set<string>, seen: seq<string>, a: string)
    requires a in apps && a !in seen
    ensures var before, after := Halfway(apps, resists, seen), Halfway(apps, resists, seen + [a]);
      && a in before && before[a] == apps[a]
      && after == (if MustStop(apps[a]) && a !in resists then before[a := before[a].(alive := false)] else before)
      && (Survives(apps, resists, a) <==> MustStop(apps[a]) && after[a].alive)
      && MustBeStopped(apps, seen + [a]) == MustBeStopped(apps, seen) + if MustStop(apps[a]) then [a] else []
  {
    assert (seen + [a])[..|seen|] == seen;
  }

  lemma AllStopped(apps: map<string, App>, resists: set<string>, rows: seq<string>)
    requires forall a :: a in rows <==> a in apps
    ensures Halfway(apps, resists, rows) == Stopped(apps, resists)
    ensures StillRunning(Stopped(apps, resists)) <==> exists a :: a in rows && Survives(apps, resists, a)
  {
    var stopped := Stopped(apps, resists);
    if a :| a in rows && Survives(apps, resists, a) { assert a in stopped && MustStop(stopped[a]); }
  }
}
