/** Bringing the archive up, told from what the commands do and what is in the bucket. */
module ArchiveOutcomes {
  import opened Common
  import opened ArchiveState
  import opened ArchiveBringUp

  // ---------------------------------------------------------------- names in a bucket

  lemma {:induction false} BaseNameExactly(key: Key) returns (directory: string)
    ensures key == directory + BaseName(key) && '/' !in BaseName(key)
    ensures directory == "" || directory[|directory| - 1] == '/'
  {
    if key == "" || key[|key| - 1] == '/' {
      directory := key;
      assert key + "" == key;
    } else {
      var init, last := key[..|key| - 1], [key[|key| - 1]];
      directory := BaseNameExactly(init);
      assert key == init + last == directory + (BaseName(init) + last);
    }
  }

  lemma {:induction false} BaseNameOf(directory: string, name: string)
    requires (directory == "" || directory[|directory| - 1] == '/') && '/' !in name
    ensures BaseName(directory + name) == name
  {
    if name == "" {
      assert directory + name == directory;
    } else {
      var init := name[..|name| - 1];
      BaseNameOf(directory, init);
      assert (directory + name)[..|directory + name| - 1] == directory + init;
      assert name == init + [name[|name| - 1]];
      assert name[|name| - 1] in name;
    }
  }

  ghost predicate BackupKey(key: Key, directory: string, stamp: string) {
    && key == directory + ("dump-" + stamp + ".json.gz")
    && (directory == "" || directory[|directory| - 1] == '/') && '/' !in stamp
  }

  /** The keys taken for metadata backups: `dump-`, anything without a slash, `.json.gz`, in whatever directory. */
  lemma {:induction false} BackupNameExactly(key: Key)
    ensures NamedAsBackup(key) <==> exists directory, stamp :: BackupKey(key, directory, stamp)
  {
    hide BaseName;
    var directory := BaseNameExactly(key);
    var base := BaseName(key);
    if NamedAsBackup(key) {
      var stamp := StampOf(base);
      assert '/' !in stamp by { assert forall c :: c in stamp ==> c in base; }
      assert BackupKey(key, directory, stamp);
    }
    if d, stamp :| BackupKey(key, d, stamp) {
      BaseNameOf(d, "dump-" + stamp + ".json.gz");
      StampNamed(stamp);
    }
  }

  lemma {:induction false} StampOf(base: string) returns (stamp: string)
    requires "dump-" <= base && Suffixed(base, ".json.gz")
    ensures base == "dump-" + stamp + ".json.gz"
  {
    var n := |base| - 8;
    assert base[n..] == ".json.gz" && base[..5] == "dump-";
    NoOverlap(base, n);
    stamp := base[5..n];
    assert base == base[..5] + base[5..n] + base[n..];
  }

  lemma {:induction false} NoOverlap(base: string, n: int)
    requires 0 <= n <= |base| && |base| >= 5 && base[..5] == "dump-" && base[n..] == ".json.gz"
    ensures n >= 5
  {
    assert base[n] == base[n..][0] == '.';
    assert base[0] == base[..5][0] == 'd' && base[1] == base[..5][1] == 'u' && base[2] == base[..5][2] == 'm';
    assert base[3] == base[..5][3] == 'p' && base[4] == base[..5][4] == '-';
  }

  lemma {:induction false} StampNamed(stamp: string)
    ensures var base := "dump-" + stamp + ".json.gz"; "dump-" <= base && Suffixed(base, ".json.gz")
  {
    var base := "dump-" + stamp + ".json.gz";
    assert base == "dump-" + (stamp + ".json.gz");
    assert base[|base| - 8..] == ".json.gz";
  }

  lemma {:induction false} KeysAtExactly(z: Instance, at: Location, prefix: string, k: Key)
    ensures k in KeysAt(z, at, prefix) <==> (at, k) in z.objects && |k| >= |prefix| && k[..|prefix|] == prefix
  {
  }

  // ---------------------------------------------------------------- restoring, exactly

  /** The key is a backup of the row's own volume. */
  ghost predicate OwnBackup(z: Instance, key: Key) {
    var place := (RowLocation(z.row), key);
    place in z.objects && z.objects[place].Backup? && z.objects[place].of.volume == z.row.volume
  }

  /** A restore succeeds exactly when every one of its commands does and the backup is one of the row's own volume. The
      metadata is replaced, by the whole of the backup, exactly when all before the last command has worked and that one
      has its effect; otherwise it is as it was. It dies exactly where a command it gets to dies. */
  lemma {:induction false} RestoreExactly(z: Instance, key: Key, plan: Plan)
    ensures var r, place := Restore(z, key, plan), (RowLocation(z.row), key);
      var ready := HowOf(plan.download) == Done && HowOf(plan.load) == Done && HowOf(plan.keys) == Done &&
        OwnBackup(z, key);
      && (r.how == Done <==> ready && HowOf(plan.replace) == Done)
      && r.z == z.(meta := r.z.meta, scratch := r.z.scratch)
      && r.z.meta == (if ready && TakesEffect(plan.replace) then Whole(z.objects[place].of) else z.meta)
      && (r.how != Died || (ready && TakesEffect(plan.replace)) ==> r.z.scratch == Absent)
      && (HowOf(plan.download) == Died ==> r.how == Died && r.z.scratch == Absent)
      && (HowOf(plan.download) == Done && HowOf(plan.load) == Died ==> r.how == Died)
      && (ready && HowOf(plan.replace) == Died ==> r.how == Died)
      && (r.how == Died ==> Died in {HowOf(plan.download), HowOf(plan.load), HowOf(plan.keys), HowOf(plan.replace)})
  {
  }

  /** What a load that was cut short leaves behind when the process dies with it: a scratch file that looks formatted,
      or a blank one, and never the metadata itself. */
  lemma {:induction false} DiesLoading(z: Instance, key: Key, plan: Plan)
    requires HowOf(plan.download) == Done && HowOf(plan.load) == Died
    ensures var r, place := Restore(z, key, plan).z, (RowLocation(z.row), key);
      && r.meta == z.meta
      && r.scratch ==
           if place in z.objects && z.objects[place].Backup? then
             (if plan.load == DiesLate then Whole(z.objects[place].of)
              else if plan.half then HalfLoaded(z.objects[place].of) else Absent)
           else if plan.half then Blank else Absent
  {
  }

  // ---------------------------------------------------------------- room, and a volume of its own

  /** Nothing is looked for twice: with the volume's prefix empty nothing happens; an adopted volume is cleared as far
      as the calls go; any other is renamed if the commit goes through, which it has not if it raised. */
  lemma {:induction false} RoomExactly(z: Instance, plan: Plan)
    requires HowOf(plan.probe) == Done
    ensures var r, at := MakeRoom(z, plan), RowLocation(z.row);
      if forall k :: (at, k) in z.objects ==> !InVolume(k, z.row.volume) then r.z == z && r.how == Done
      else if z.adopt then
        r.z.row == z.row && forall p :: p in r.z.objects ==> p in z.objects && r.z.objects[p] == z.objects[p]
      else
        && r.z == z.(row := r.z.row) && r.how == HowOf(plan.rename)
        && (plan.rename.Fine? || plan.rename.DiesLate? ==> NamedAfter(z.row.volume, plan.token, r.z.row.volume))
        && (!plan.rename.Fine? && !plan.rename.DiesLate? ==> r.z == z)
  {
    hide FreshVolume, NamedAfter, Cleared, ClearEnds;
    FreshName(z.row.volume, plan.token);
    var at := RowLocation(z.row);
    if k :| (at, k) in z.objects && InVolume(k, z.row.volume) { assert k in KeysAt(z, at, z.row.volume + "/"); }
  }

  /** Formatting marks the store and writes the metadata, in that order. */
  lemma {:induction false} FormatExactly(z: Instance, at: Location, f: Fault, marked: bool)
    ensures var r, mark := FormatVolume(z, at, f, marked), (at, z.row.volume + "/juicefs_uuid");
      && r.how == HowOf(f)
      && r.z == z.(meta := r.z.meta, objects := r.z.objects)
      && r.z.meta == (if TakesEffect(f) then Whole(Meta(z.row.volume, at)) else z.meta)
      && r.z.objects == (if TakesEffect(f) || marked then z.objects[mark := Data] else z.objects)
  {
  }

  /** A mount that is there stays; otherwise the volume is mounted from the store its metadata names. */
  lemma {:induction false} MountExactly(z: Instance, f: Fault)
    ensures var r := MountVolume(z, f);
      && r.z == z.(live := r.z.live)
      && (z.live.Some? ==> r.how == Done && r.z.live == z.live)
      && (z.live == None && (z.meta.Absent? || z.meta.Blank?) ==> r.how != Done && r.z.live == None)
      && (z.live == None && (z.meta.HalfLoaded? || z.meta.Whole?) ==>
            r.how == HowOf(f) && r.z.live == if TakesEffect(f) then Some(z.meta.meta.pointer) else None)
      && (HowOf(f) != Died ==> r.how != Died)
  {
  }

  // ---------------------------------------------------------------- a whole boot

  /** A zone on its own disk, with nothing failing: a volume that is there is mounted as it is; one that is not gets the
      zone's own name in place of the shared default, keeping any other, and is formatted on the disk. */
  lemma {:induction false} LocalBoot(z: Instance, plan: Plan)
    requires z.row.backend.Local? && AllFine(plan)
    ensures var r := Attach(z, plan);
      r.how == Done && r.z ==
        if z.meta.HalfLoaded? || z.meta.Whole?
        then z.(live := if z.live.Some? then z.live else Some(z.meta.meta.pointer), message := false)
        else
          var name := if z.row.volume == "openhost" then plan.zoneDefault else z.row.volume;
          z.(row := z.row.(volume := name), meta := Whole(Meta(name, LocalDisk)),
             objects := z.objects[(LocalDisk, name + "/juicefs_uuid") := Data],
             live := if z.live.Some? then z.live else Some(LocalDisk), message := false)
  {
    hide BringUp;
  }

  /** A local zone whose new name is not committed, or whose volume is not formatted, keeps what it had, and says so. */
  lemma {:induction false} LocalBootFails(z: Instance, plan: Plan)
    requires z.row.backend.Local? && (z.meta.Absent? || z.meta.Blank?) && plan.install.Fine?
    ensures var r := Attach(z, plan);
      && (z.row.volume == "openhost" && (plan.naming.Fails? || plan.naming.FailsLate?) ==>
            r.how == Done && r.z == z.(message := true))
      && (z.row.volume == "openhost" && plan.naming.DiesLate? ==>
            r.how == Died && r.z == z.(row := z.row.(volume := plan.zoneDefault)))
      && (z.row.volume != "openhost" && plan.format.Fails? ==>
            r.how == Done && r.z.meta == z.meta && r.z.row == z.row && r.z.live == z.live && r.z.message)
      && (z.row.volume != "openhost" && plan.format.Fine? && plan.mount.Fails? && z.live == None ==>
            r.how == Done && r.z.meta == Whole(Meta(z.row.volume, LocalDisk)) && r.z.live == None && r.z.message)
  {
    hide BringUp;
  }

  /** An S3 zone whose credentials are gone, and one that is formatted: nothing is brought up anew. */
  lemma {:induction false} S3Boot(z: Instance, plan: Plan)
    requires z.row.backend.S3? && plan.install.Fine?
    ensures var r := Attach(z, plan);
      && (!z.row.backend.hasCredentials ==> r.how == Done && r.z == z.(message := true))
      && (z.row.backend.hasCredentials && (z.meta.HalfLoaded? || z.meta.Whole?) && plan.mount.Fine? ==>
            r.how == Done &&
            r.z == z.(live := if z.live.Some? then z.live else Some(z.meta.meta.pointer), message := false))
  {
    hide BringUp;
  }

  /** A volume in a bucket that is still to be brought up. */
  predicate Unformatted(z: Instance) {
    z.row.backend.S3? && z.row.backend.hasCredentials && (z.meta.Absent? || z.meta.Blank?)
  }

  /** An install that does not work, or a listing that raises, leaves everything for the next boot. */
  lemma {:induction false} TriedAgain(z: Instance, plan: Plan)
    requires !z.row.backend.Disabled?
    ensures var r := Attach(z, plan);
      && (HowOf(plan.install) == Raised ==> r.how == Done && r.z == z.(message := true))
      && (HowOf(plan.install) == Died ==> r.how == Died && r.z == z)
      && (plan.install.Fine? && Unformatted(z) && HowOf(plan.list) == Raised ==>
            r.how == Done && r.z == z.(message := true))
      && (r.how == Died ==> r.z.message == z.message)
  {
    hide Restore, MakeRoom, Newest, FormatVolume;
    BringUpKeepsMessage(z, plan);
  }

  lemma {:induction false} BringUpKeepsMessage(z: Instance, plan: Plan)
    ensures HaveVolume(z, plan).z.message == z.message
  {
    hide Newest, Load, Cleared, ClearEnds, FreshVolume, KeysAt, Without;
    var newest := Newest(Flat(plan.backups));
    if newest.Some? { RestoreExactly(z, newest.value, plan); }
    hide Restore;
  }

  /** A zone without an archive is left alone. */
  lemma {:induction false} DisabledBoot(z: Instance, plan: Plan)
    requires z.row.backend.Disabled?
    ensures Attach(z, plan) == Outcome(z, Done)
  {
  }

  // ---------------------------------------------------------------- seeding

  /** What may be a volume's name: a letter or digit, one to sixty-one of them or hyphens, and a letter or digit. */
  lemma {:induction false} VolumeNameExactly(name: string)
    ensures ValidVolume(name) <==> exists a, middle, b :: VolumeName(name, a, middle, b)
  {
    if ValidVolume(name) {
      var middle := name[1..|name| - 1];
      assert name == [name[0]] + middle + [name[|name| - 1]];
      assert name[0] in name && name[|name| - 1] in name && forall c :: c in middle ==> c in name;
      assert VolumeName(name, name[0], middle, name[|name| - 1]);
    }
    if a, middle, b :| VolumeName(name, a, middle, b) {
      assert forall c :: c in name ==> c == a || c in middle || c == b;
    }
  }

  ghost predicate VolumeName(name: string, a: char, middle: string, b: char) {
    && name == [a] + middle + [b] && 1 <= |middle| <= 61
    && Plain(a) && Plain(b) && forall c :: c in middle ==> Plain(c) || c == '-'
  }

  predicate Plain(c: char) { 'a' <= c <= 'z' || '0' <= c <= '9' }

  /** Seeding points the row at the bucket, under the name given or the zone's own, and says whether the volume is to be
      adopted; it does so only while there is no metadata file, and never for a name that is none. The flag comes first:
      a row that is seeded has the right flag, wherever the process stopped. Nothing else is touched. */
  lemma {:induction false} SeedExactly(z: Instance, bucket: Location, name: Option<string>, zoneDefault: string,
                                       first: Fault, second: Fault)
    ensures var r := Seed(z, bucket, name, zoneDefault, first, second);
      var seeded := Row(S3(bucket, true), if name.Some? then name.value else zoneDefault);
      && r == z.(row := r.row, adopt := r.adopt)
      && (z.meta != Absent || (name.Some? && !ValidVolume(name.value)) ==> r == z)
      && (z.meta == Absent && (name.Some? ==> ValidVolume(name.value)) && first.Fine? && second.Fine? ==>
            r.row == seeded && r.adopt == name.Some?)
      && (r.row != z.row ==> r.row == seeded && r.adopt == name.Some?)
      && (second.Fails? || second.FailsLate? || second.Dies? ==> r.row == z.row)
      && (first.Fails? || first.FailsLate? || first.Dies? ==> r == z)
  {
    hide ValidVolume;
  }

  // ---------------------------------------------------------------- the rest of the machine

  /** What the mounted volume writes goes under its own name to the store it is mounted from; a unit that starts too
      early leaves a blank file only where there was none; a power loss takes the mount and nothing else. */
  lemma {:induction false} MachineSteps(z: Instance, written: map<Key, Object>, k: Key)
    ensures z.live.Some? && z.meta.Whole? && k in written && InVolume(k, z.meta.meta.volume) ==>
      (z.live.value, k) in Step(z, Writes(written)).objects
      && Step(z, Writes(written)).objects[(z.live.value, k)] == written[k]
    ensures z.live == None ==> Step(z, Writes(written)) == z
    ensures Step(z, UnitStarts) == if z.meta.Absent? then z.(meta := Blank) else z
    ensures Step(z, PowerLoss) == z.(live := None)
  {
    if z.live.Some? && z.meta.Whole? {
      var added := Stored(z.live.value, z.meta.meta.volume, written);
      assert k in written && InVolume(k, z.meta.meta.volume) ==> (z.live.value, k) in added;
    }
  }

  // ---------------------------------------------------------------- such boots there are

  /** Of all that may happen only a boot and a seeding have anything asked of them. */
  lemma {:induction false} OthersAdmitted(z: Instance, e: Event)
    requires !e.Boots? && !e.Seeds?
    ensures Admissible(z, e) && AllAdmissible(z, [e])
  {
    assert [e][1..] == [];
    assert AllAdmissible(Step(z, e), []);
    hide Step;
  }

  lemma {:induction false} Listing(keys: set<Key>) returns (page: seq<Key>)
    ensures forall k :: k in page <==> k in keys
    decreases keys
  {
    if keys == {} {
      page := [];
    } else {
      var k :| k in keys;
      page := Listing(keys - {k});
      page := page + [k];
    }
  }

  /** For every instance there is a boot on which nothing fails and whose listings are true. */
  lemma {:induction false} FineBootExists(z: Instance, zoneDefault: string, token: Token) returns (plan: Plan)
    ensures AllFine(plan) && Honest(z, plan) && plan.zoneDefault == zoneDefault && plan.token == token
    ensures '/' !in zoneDefault ==> AllAdmissible(z, [Boots(plan)])
  {
    hide KeysAt;
    var at := RowLocation(z.row);
    var backups := Listing(KeysAt(z, at, BackupDirectory(z.row.volume)));
    var held := Listing(KeysAt(z, at, z.row.volume + "/"));
    var page := Page(held, KeysAt(z, at, z.row.volume + "/"), Fine);
    plan := Plan(Fine, Fine, Fine, [backups], Fine, Fine, false, Fine, Fine, Fine, [page], Fine, Fine,
                 Fine, false, Fine, token, zoneDefault);
    assert Flat([backups]) == backups + Flat([]) == backups;
    assert AllListed([page]) == Listed(page) + AllListed([]) == Listed(page);
    assert FinePage(page);
    var after := Step(z, Boots(plan));
    assert [Boots(plan)][1..] == [];
    assert AllAdmissible(after, []);
  }
}
