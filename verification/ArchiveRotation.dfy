/** Restoring an instance from a bucket the archive was moved to: which store the restored volume reads from. */
module ArchiveRotation {
  import opened Common
  import opened ArchiveState
  import opened ArchiveRuns
  import BringUp = ArchiveBringUp

  // ---------------------------------------------------------------- backups among the objects

  /** A metadata backup of the volume, as bring-up looks for it. */
  predicate IsBackup(key: Key, volume: string) { BringUp.BackupDirectory(volume) <= key && BringUp.NamedAsBackup(key) }

  function Backups(s: State, at: Location, volume: string): set<Key> {
    set k | k in Keys(s, at) && IsBackup(k, volume)
  }

  /** Nothing fails in moving the volume from one bucket to another, and the destination has no backups of its own. */
  ghost predicate Rotates(s: State, request: Request) {
    && s.meta.Some? && s.row.backend.S3? && s.row.backend.hasCredentials
    && s.row.backend.bucket.Bucket? && request.bucket.Bucket? && s.row.backend.bucket.name != request.bucket.name
    && Backups(s, request.bucket, s.row.volume) <= Backups(s, RowLocation(s.row), s.row.volume)
  }

  /** The objects as another instance finds them: those the rotation left, and the backups `later` the mounted volume
      has made since. A backup names the store the volume read from when it was made. */
  ghost predicate FoundLater(s: State, request: Request, z: BringUp.Instance, later: set<Key>) {
    var left, from, to := Configure(s, request, ALL_FINE, NO_WRITES).s, RowLocation(s.row), request.bucket;
    var volume := s.row.volume;
    && (forall k :: k in later ==> IsBackup(k, volume) && k !in Keys(left, to))
    && (forall k :: (to, k) in z.objects <==> k in Keys(left, to) + later)
    && (forall k :: (from, k) in z.objects <==> k in Keys(left, from))
    && (forall k :: k in Backups(s, from, volume) ==>
          (to, k) in z.objects && z.objects[(to, k)] == BringUp.Backup(Meta(volume, from)))
    && (forall k :: k in later ==> z.objects[(to, k)] == BringUp.Backup(Meta(volume, to)))
  }

  lemma {:induction false} BackupsAreTheVolumes(key: Key, volume: string)
    requires IsBackup(key, volume)
    ensures InVolume(key, volume)
  {
    assert volume + "/" <= volume + "/meta/" <= key;
  }

  /** What the rotation leaves: every object of the volume in the destination and none in the source. */
  lemma {:induction false} Rotated(s: State, request: Request)
    requires Rotates(s, request)
    ensures var left, from, to := Configure(s, request, ALL_FINE, NO_WRITES).s, RowLocation(s.row), request.bucket;
      && (forall k :: k in Keys(left, from) ==> !InVolume(k, s.row.volume))
      && Keys(left, to) == Keys(s, to) + VolumeKeys(s, from, s.row.volume)
  {
    hide Prepare, Switch, Configure, Keys, VolumeKeys, Backups;
    var from, to, volume := RowLocation(s.row), request.bucket, s.row.volume;
    FineQuietConfigure(s, request);
    FineCopy(s, from, to, volume);
    var copied := Prepare(s, from, to, volume, ALL_FINE, NO_WRITES).s;
    FineMove(copied, to);
    var moved := Switch(copied, to, ALL_FINE, NO_WRITES).s;
    var flipped := moved.(row := Row(S3(to, true), volume));
    SameStores(moved, flipped);
    VolumeGone(flipped, from, volume);
  }

  lemma {:induction false} VolumeGone(s: State, at: Location, volume: string)
    ensures forall k :: k in Keys(Remove(s, at, VolumeKeys(s, at, volume)), at) ==> !InVolume(k, volume)
  {
  }

  /** The backups an instance on the destination sees are those copied and those made later. */
  lemma {:induction false} SeesBackups(s: State, request: Request, z: BringUp.Instance, later: set<Key>, k: Key)
    requires Rotates(s, request) && FoundLater(s, request, z, later)
    ensures (request.bucket, k) in z.objects && IsBackup(k, s.row.volume) <==>
      k in Backups(s, RowLocation(s.row), s.row.volume) || k in later
  {
    hide Configure, Keys, IsBackup;
    Rotated(s, request);
    var from, to, volume := RowLocation(s.row), request.bucket, s.row.volume;
    if IsBackup(k, volume) { BackupsAreTheVolumes(k, volume); }
    if k in Keys(s, to) && IsBackup(k, volume) { assert k in Backups(s, to, volume); }
  }

  lemma {:induction false} NewestSeen(s: State, request: Request, z: BringUp.Instance, later: set<Key>,
      plan: BringUp.Plan)
    requires Rotates(s, request) && FoundLater(s, request, z, later) &&
      Backups(s, RowLocation(s.row), s.row.volume) != {}
    requires z.row == Row(S3(request.bucket, true), s.row.volume) && BringUp.Honest(z, plan)
    ensures var newest, all := BringUp.Newest(Flat(plan.backups)), Backups(s, RowLocation(s.row), s.row.volume) + later;
      newest.Some? && newest.value in all && forall k :: k in all ==> !BringUp.Precedes(newest.value, k)
  {
    hide FoundLater, Rotates, BringUp.Newest, BringUp.Precedes, BringUp.NamedAsBackup, Backups;
    var all := Backups(s, RowLocation(s.row), s.row.volume) + later;
    var directory := BringUp.KeysAt(z, request.bucket, BringUp.BackupDirectory(s.row.volume));
    forall k ensures k in all <==> k in Flat(plan.backups) && BringUp.NamedAsBackup(k) {
      SeesBackups(s, request, z, later, k);
      assert k in Flat(plan.backups) <==> k in directory;
    }
    var some :| some in Backups(s, RowLocation(s.row), s.row.volume);
    assert some in all;
  }

  /** A new instance seeded with the bucket the volume was moved to, on which nothing fails, comes up reading from that
      bucket if and only if some backup later than every copied one has been made since; until then it comes up, without
      a message, on the old bucket, where no object of the volume is left. */
  lemma {:induction false} RestoredAfterRotation(s: State, request: Request, z: BringUp.Instance, later: set<Key>,
                                                 plan: BringUp.Plan)
    requires Rotates(s, request) && FoundLater(s, request, z, later) &&
      Backups(s, RowLocation(s.row), s.row.volume) != {}
    requires z.row == Row(S3(request.bucket, true), s.row.volume) && z.live == None && !BringUp.Formatted(z.meta)
    requires BringUp.AllFine(plan) && BringUp.Honest(z, plan)
    ensures var r, from, to := BringUp.Attach(z, plan).z, RowLocation(s.row), request.bucket;
      && r.objects == z.objects && r.row == z.row && !r.message && (r.live == Some(to) || r.live == Some(from))
      && (r.live == Some(to) <==> exists k :: k in later && AfterAll(k, Backups(s, from, s.row.volume)))
      && (forall k :: (from, k) in r.objects ==> !InVolume(k, s.row.volume))
  {
    hide Configure, Backups, BringUp.Newest, BringUp.Attach, BringUp.Precedes, BringUp.AllFine, Keys;
    var from, to, volume := RowLocation(s.row), request.bucket, s.row.volume;
    NewestSeen(s, request, z, later, plan);
    var newest := BringUp.Newest(Flat(plan.backups)).value;
    Rotated(s, request);
    BringUp.FineRestore(z, plan);
    if newest in later {
      forall k | k in Backups(s, from, volume) ensures BringUp.Precedes(k, newest) {
        BringUp.PrecedesIsTotal(k, newest);
        SeesBackups(s, request, z, later, k);
      }
      assert AfterAll(newest, Backups(s, from, volume));
    } else {
      assert newest in Backups(s, from, volume);
      forall k | k in later ensures !AfterAll(k, Backups(s, from, volume)) {
        assert !BringUp.Precedes(newest, k);
      }
      assert z.objects[(to, newest)] == BringUp.Backup(Meta(volume, from));
    }
  }

  predicate AfterAll(key: Key, keys: set<Key>) { forall k :: k in keys ==> BringUp.Precedes(k, key) }
}
