/** The boot of the archive as it changes the instance in place: each method does to the fields what the function of
    `ArchiveBringUp` says, and so promises what is proved of it there. */
module ArchiveBoot {
  import opened Common
  import opened ArchiveState
  import opened ArchiveBringUp

  class Host {
    var objects: map<Place, Object>
    var row: Row
    var adopt: bool
    var meta: MetaFile
    var scratch: MetaFile
    var live: Option<Location>
    var message: bool

    function View(): Instance
      reads this
    {
      Instance(objects, row, adopt, meta, scratch, live, message)
    }

    /** `_delete_prefix`: one delete call for each page that lists anything. */
    method DeletePrefix(pages: seq<Page>, ends: Fault) returns (how: How)
      modifies this`objects
      ensures objects == Without(old(objects), RowLocation(row), Cleared(pages))
      ensures how == ClearEnds(pages, ends)
    {
      hide RowLocation;
      var at := RowLocation(row);
      var i := 0;
      NothingWithout(objects, at);
      while i < |pages|
        invariant i <= |pages|
        invariant Without(objects, at, Cleared(pages[i..])) == Without(old(objects), at, Cleared(pages))
        invariant ClearEnds(pages[i..], ends) == ClearEnds(pages, ends)
      {
        var page := pages[i];
        assert pages[i..][1..] == pages[i + 1..];
        WithoutTwice(objects, at, Removed(page), Cleared(pages[i + 1..]));
        WithoutTwice(objects, at, Removed(page), {});
        if page.listed != [] {
          objects := Without(objects, at, Removed(page));
          NothingWithout(objects, at);
          if HowOf(page.call) != Done { return HowOf(page.call); }
          if !(Listed(page) <= page.gone) { return Raised; }
        } else {
          assert Removed(page) == {};
          NothingWithout(objects, at);
        }
        i := i + 1;
      }
      NothingWithout(objects, at);
      how := HowOf(ends);
    }

    method Format(at: Location, f: Fault, marked: bool) returns (how: How)
      modifies this`objects, this`meta
      ensures View() == FormatVolume(old(View()), at, f, marked).z &&
        how == FormatVolume(old(View()), at, f, marked).how
      ensures how == Done || meta != old(meta) ==>
        meta == Whole(Meta(row.volume, at)) && (at, Marker(row.volume)) in objects
    {
      how := HowOf(f);
      if TakesEffect(f) || marked { objects := objects[(at, Marker(row.volume)) := Data]; }
      if TakesEffect(f) { meta := Whole(Meta(row.volume, at)); }
    }

    method Mount(f: Fault) returns (how: How)
      modifies this`live
      ensures View() == MountVolume(old(View()), f).z && how == MountVolume(old(View()), f).how
      ensures how == Done ==> live.Some?
    {
      if live.Some? { return Done; }
      how := HowOf(f);
      if !Formatted(meta) { return if how == Died then Died else Raised; }
      if TakesEffect(f) { live := Some(meta.meta.pointer); }
    }

    method LoadScratch(key: Key, f: Fault, half: bool) returns (how: How)
      modifies this`scratch
      ensures View() == Load(old(View()), key, f, half).z && how == Load(old(View()), key, f, half).how
      ensures how == Done ==>
        (RowLocation(row), key) in objects && objects[(RowLocation(row), key)].Backup?
        && scratch == Whole(objects[(RowLocation(row), key)].of)
    {
      how := HowOf(f);
      var place := (RowLocation(row), key);
      if place !in objects || objects[place].Data? {
        if half { scratch := Blank; }
        return if how == Died then Died else Raised;
      }
      if TakesEffect(f) {
        scratch := Whole(objects[place].of);
      } else if half {
        scratch := HalfLoaded(objects[place].of);
      }
    }

    method PlaceBackup(key: Key, plan: Plan) returns (how: How)
      modifies this`scratch, this`meta
      ensures View() == LoadAndPlace(old(View()), key, plan).z && how == LoadAndPlace(old(View()), key, plan).how
      ensures how == Done || meta != old(meta) ==>
        var place := (RowLocation(row), key);
        && place in objects && objects[place].Backup? && objects[place].of.volume == row.volume
        && meta == Whole(objects[place].of) && scratch == Absent
    {
      if HowOf(plan.download) != Done { return HowOf(plan.download); }
      how := LoadScratch(key, plan.load, plan.half);
      if how != Done { return; }
      if HowOf(plan.keys) != Done { return HowOf(plan.keys); }
      if !Formatted(scratch) || scratch.meta.volume != row.volume { return Raised; }
      if TakesEffect(plan.replace) { meta, scratch := scratch, Absent; }
      how := HowOf(plan.replace);
    }

    /** `_restore_volume_from_dump`: the metadata is as it was, or the whole of a backup of the row's own volume, and
        that is what a restore that succeeds leaves; whatever happens in the body, short of the process's death, the
        scratch files go. */
    method RestoreFrom(key: Key, plan: Plan) returns (how: How)
      modifies this`scratch, this`meta
      ensures View() == Restore(old(View()), key, plan).z && how == Restore(old(View()), key, plan).how
      ensures how == Done || meta != old(meta) ==>
        var place := (RowLocation(row), key);
        && place in objects && objects[place].Backup? && objects[place].of.volume == row.volume
        && meta == Whole(objects[place].of)
      ensures how != Died || meta != old(meta) ==> scratch == Absent
      ensures old(Complete(View())) ==> Complete(View())
    {
      hide LoadAndPlace;
      scratch := Absent;
      how := PlaceBackup(key, plan);
      if how == Died { return; }
      scratch := Absent;
    }

    method MakeRoomFor(plan: Plan) returns (how: How)
      modifies this`objects, this`row
      ensures View() == MakeRoom(old(View()), plan).z && how == MakeRoom(old(View()), plan).how
      ensures old(Honest(View(), plan) && !Formatted(meta) && !HasBackup(View(), RowLocation(row), row.volume)) ==>
        Respects(old(View()), View()) && objects.Keys <= old(objects.Keys)
      ensures old(Honest(View(), plan)) && how == Done ==>
        (KeysAt(View(), RowLocation(row), row.volume + "/") == {} ||
          NamedAfter(old(row.volume), plan.token, row.volume))
    {
      RoomIsMade(View(), plan);
      if HowOf(plan.probe) != Done { return HowOf(plan.probe); }
      if KeysAt(View(), RowLocation(row), row.volume + "/") == {} { return Done; }
      if adopt {
        how := DeletePrefix(plan.clear, plan.clearEnds);
      } else {
        if Commits(plan.rename) { row := row.(volume := FreshVolume(row.volume, plan.token)); }
        how := HowOf(plan.rename);
      }
    }

    /** `_bring_up_seeded_s3_volume`: metadata that is all there, and nothing lost but by an adopted volume without a
        backup. */
    method BringUpSeeded(plan: Plan) returns (how: How)
      modifies this
      ensures View() == BringUp(old(View()), plan).z && how == BringUp(old(View()), plan).how
      ensures old(Complete(View()) && !Formatted(meta) && Honest(View(), plan)) ==>
        Complete(View()) && Respects(old(View()), View()) && (how == Done ==> Formatted(meta))
    {
      BroughtUpKeeps(View(), plan);
      hide Newest, Flat, MakeRoom, Restore, FormatVolume;
      if HowOf(plan.list) != Done { return HowOf(plan.list); }
      var newest := NewestBackup(plan.backups);
      if newest.Some? {
        how := RestoreFrom(newest.value, plan);
        return;
      }
      var at := RowLocation(row);
      how := MakeRoomFor(plan);
      if how != Done { return; }
      how := Format(at, plan.format, plan.marked);
    }

    method EnsureVolume(plan: Plan) returns (how: How)
      modifies this
      ensures View() == HaveVolume(old(View()), plan).z && how == HaveVolume(old(View()), plan).how
      ensures old(Complete(View()) && Honest(View(), plan)) ==> Complete(View()) && Respects(old(View()), View())
      ensures how == Done && old(Complete(View()) && Honest(View(), plan)) && !row.backend.Disabled? ==> Formatted(meta)
    {
      VolumeKept(View(), plan);
      hide BringUp, FormatVolume;
      if row.backend.Local? {
        if !Formatted(meta) && row.volume == DEFAULT_VOLUME {
          if Commits(plan.naming) { row := row.(volume := plan.zoneDefault); }
          if HowOf(plan.naming) != Done { return HowOf(plan.naming); }
        }
        how := Done;
        if !Formatted(meta) { how := Format(LocalDisk, plan.format, plan.marked); }
      } else if row.backend.S3? {
        if !row.backend.hasCredentials { return Raised; }
        how := Done;
        if !Formatted(meta) { how := BringUpSeeded(plan); }
      } else {
        how := Done;
      }
    }

    /** `attach_on_startup`: a boot never fails because of the archive, an error becomes a message, and without one the
        archive is mounted. Wherever the boot stops the metadata is absent or complete, and only an adopted volume with
        neither metadata nor a backup may have lost objects; one that meets no fault comes up exactly when the newest
        backup, if there is any, is one of the volume the row names. */
    method AttachOnStartup(plan: Plan) returns (how: How)
      modifies this
      ensures View() == Attach(old(View()), plan).z && how == Attach(old(View()), plan).how
      ensures how != Raised
      ensures how == Done && !message && !row.backend.Disabled? ==> live.Some?
      ensures old(Complete(View()) && Honest(View(), plan)) ==> Complete(View()) && Respects(old(View()), View())
      ensures old(Seeded(View()) && AllFine(plan) && Honest(View(), plan)) ==>
        (live.Some? && !message && meta.Whole? <==> old(Restorable(View(), plan)))
      ensures old(Seeded(View()) && AllFine(plan) && Honest(View(), plan) && Foreign(View())) ==>
        SetAside(old(View()), View(), RowLocation(row), plan.token)
    {
      BootKept(View(), plan);
      hide HaveVolume, MountVolume;
      if row.backend.Disabled? { return Done; }
      how := HowOf(plan.install);
      if how == Done { how := EnsureVolume(plan); }
      if how == Done { how := Mount(plan.mount); }
      if how == Died { return; }
      message := how == Raised;
      how := Done;
    }
  }

  // ---------------------------------------------------------------- what the methods promise

  lemma {:induction false} RoomIsMade(z: Instance, plan: Plan)
    ensures var r := MakeRoom(z, plan);
      && (Honest(z, plan) && !Formatted(z.meta) && !HasBackup(z, RowLocation(z.row), z.row.volume) ==>
            Respects(z, r.z) && r.z.objects.Keys <= z.objects.Keys)
      && (Honest(z, plan) && r.how == Done ==>
            (KeysAt(r.z, RowLocation(r.z.row), r.z.row.volume + "/") == {}
             || NamedAfter(z.row.volume, plan.token, r.z.row.volume)))
  {
    hide FreshVolume, HasBackup, Respects, NamedAfter;
    FreshName(z.row.volume, plan.token);
    if Honest(z, plan) && !Formatted(z.meta) && !HasBackup(z, RowLocation(z.row), z.row.volume) {
      MakeRoomRespects(z, plan);
    }
    OnlyListedAreCleared(plan.clear, plan.clearEnds);
  }

  lemma {:induction false} BroughtUpKeeps(z: Instance, plan: Plan)
    ensures Complete(z) && !Formatted(z.meta) && Honest(z, plan) ==>
      var r := BringUp(z, plan);
      Complete(r.z) && Respects(z, r.z) && (r.how == Done ==> Formatted(r.z.meta))
  {
    hide *;
    if Complete(z) && !Formatted(z.meta) && Honest(z, plan) { BringUpKeeps(z, plan); }
  }

  lemma {:induction false} VolumeKept(z: Instance, plan: Plan)
    ensures Complete(z) && Honest(z, plan) ==>
      var r := HaveVolume(z, plan);
      && Complete(r.z) && Respects(z, r.z)
      && (r.how == Done && !r.z.row.backend.Disabled? ==> Formatted(r.z.meta))
  {
    hide BringUp, Honest, Complete, Respects, Commits;
    if Complete(z) && Honest(z, plan) {
      HaveVolumeKeeps(z, plan);
      if z.row.backend.S3? && !Formatted(z.meta) { BringUpKeeps(z, plan); }
    }
  }

  lemma {:induction false} BootKept(z: Instance, plan: Plan)
    ensures Complete(z) && Honest(z, plan) ==> Complete(Attach(z, plan).z) && Respects(z, Attach(z, plan).z)
    ensures Seeded(z) && AllFine(plan) && Honest(z, plan) ==>
      var r := Attach(z, plan).z;
      && (r.live.Some? && !r.message && r.meta.Whole? <==> Restorable(z, plan))
      && (Foreign(z) ==> SetAside(z, r, RowLocation(r.row), plan.token))
  {
    hide Attach, Honest, Respects, AllFine, Restorable, Foreign, SetAside;
    if Complete(z) && Honest(z, plan) { AttachKeeps(z, plan); }
    if Seeded(z) && AllFine(plan) && Honest(z, plan) {
      FirstBoot(z, plan);
      ForeignIs(z, plan);
    }
  }

  /** Objects under the volume's name that are not this instance's to adopt, and no metadata backup among them. */
  ghost predicate Foreign(z: Instance) {
    var at := RowLocation(z.row);
    !z.adopt && KeysAt(z, at, z.row.volume + "/") != {} && !HasBackup(z, at, z.row.volume)
  }

  lemma {:induction false} ForeignIs(z: Instance, plan: Plan)
    requires Honest(z, plan)
    ensures Foreign(z) ==>
      Newest(Flat(plan.backups)) == None && !z.adopt && KeysAt(z, RowLocation(z.row), z.row.volume + "/") != {}
    ensures forall r: Instance, token: string ::
      SetAside(z, r, RowLocation(z.row), token) ==> RowLocation(r.row) == RowLocation(z.row)
  {
    hide Honest, HasBackup, KeysAt, Newest;
    NoBackupListed(z, plan);
  }

  lemma NothingWithout(objects: map<Place, Object>, at: Location)
    ensures Without(objects, at, {}) == objects
  {
  }

  lemma WithoutTwice(objects: map<Place, Object>, at: Location, a: set<Key>, b: set<Key>)
    ensures Without(Without(objects, at, a), at, b) == Without(objects, at, a + b)
  {
  }
}
