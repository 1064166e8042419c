/** Bringing the archive up at boot: formatting a local volume, and restoring, adopting, setting aside or formatting a
    volume in a bucket that was there before the instance. Every command may fail or be where the process dies. */
module ArchiveBringUp {
  import opened Common
  import opened ArchiveState

  // ---------------------------------------------------------------- the instance

  /** An object, as far as bring-up can tell: a metadata backup, which says whose it is, or anything else. */
  datatype Object = Data | Backup(of: Meta)

  /** The metadata database at a path. A blank file is not formatted; a half-loaded one looks as if it were. */
  datatype MetaFile = Absent | Blank | HalfLoaded(meta: Meta) | Whole(meta: Meta)

  type Place = (Location, Key)

  datatype Instance = Instance(
    objects: map<Place, Object>, row: Row, adopt: bool, meta: MetaFile, scratch: MetaFile,
    live: Option<Location>, message: bool)

  datatype Outcome = Outcome(z: Instance, how: How)

  predicate Formatted(meta: MetaFile) { meta.HalfLoaded? || meta.Whole? }

  function KeysAt(z: Instance, at: Location, prefix: string): set<Key> {
    set p | p in z.objects && p.0 == at && prefix <= p.1 :: p.1
  }

  predicate Suffixed(s: string, suffix: string) { |s| >= |suffix| && s[|s| - |suffix|..] == suffix }

  /** What follows the last slash. */
  function BaseName(key: Key): string {
    if key == "" || key[|key| - 1] == '/' then "" else BaseName(key[..|key| - 1]) + [key[|key| - 1]]
  }

  predicate NamedAsBackup(key: Key) { "dump-" <= BaseName(key) && Suffixed(BaseName(key), ".json.gz") }

  function BackupDirectory(volume: string): string { volume + "/meta/" }

  /** A volume has a backup: there is a key in its backup directory that is named as one. */
  predicate HasBackup(z: Instance, at: Location, volume: string) {
    exists k :: k in KeysAt(z, at, BackupDirectory(volume)) && NamedAsBackup(k)
  }

  // ---------------------------------------------------------------- the newest backup

  /** The order of strings. */
  predicate Precedes(a: string, b: string) {
    b != "" && (a == "" || a[0] < b[0] || (a[0] == b[0] && Precedes(a[1..], b[1..])))
  }

  lemma {:induction false} PrecedesTransitive(a: string, b: string, c: string)
    requires Precedes(a, b) && Precedes(b, c)
    ensures Precedes(a, c)
  {
    if a != "" && a[0] == b[0] == c[0] { PrecedesTransitive(a[1..], b[1..], c[1..]); }
  }

  lemma {:induction false} PrecedesIsTotal(a: string, b: string)
    ensures Precedes(a, b) || Precedes(b, a) || a == b
    ensures !(Precedes(a, b) && Precedes(b, a)) && !Precedes(a, a)
  {
    if a != "" { PrecedesIsTotal(a[1..], a[1..]); }
    if a != "" && b != "" && a[0] == b[0] {
      PrecedesIsTotal(a[1..], b[1..]);
      assert a[1..] == b[1..] ==> a == [a[0]] + a[1..] == b;
    }
  }

  /** The scan's result over the keys seen so far. */
  function Newest(keys: seq<Key>): (newest: Option<Key>)
    ensures newest == None <==> forall k :: k in keys ==> !NamedAsBackup(k)
    ensures newest.Some? ==> newest.value in keys && NamedAsBackup(newest.value)
    ensures newest.Some? ==> forall k :: k in keys && NamedAsBackup(k) ==> !Precedes(newest.value, k)
  {
    if keys == [] then None else
      var before, key := Newest(keys[..|keys| - 1]), keys[|keys| - 1];
      assert keys == keys[..|keys| - 1] + [key];
      if NamedAsBackup(key) && (before == None || Precedes(before.value, key)) then
        Later(before, key, keys);
        Some(key)
      else before
  }

  lemma Later(before: Option<Key>, key: Key, keys: seq<Key>)
    requires before.Some? ==> Precedes(before.value, key)
    requires before.Some? ==> forall k :: k in keys && k != key && NamedAsBackup(k) ==> !Precedes(before.value, k)
    requires before == None ==> forall k :: k in keys && k != key ==> !NamedAsBackup(k)
    ensures forall k :: k in keys && NamedAsBackup(k) ==> !Precedes(key, k)
  {
    forall k | k in keys && NamedAsBackup(k) ensures !Precedes(key, k) {
      PrecedesIsTotal(key, key);
      if k != key && Precedes(key, k) { PrecedesTransitive(before.value, key, k); }
    }
  }

  /** `_newest_meta_dump_key`: over pages in any order, the last backup in the order of names. */
  method NewestBackup(pages: seq<seq<Key>>) returns (newest: Option<Key>)
    ensures newest == Newest(Flat(pages))
  {
    hide Newest, Flat, NamedAsBackup, Precedes;
    newest := None;
    EmptyScan();
    for i := 0 to |pages|
      invariant newest == Newest(Flat(pages[..i]))
    {
      var page := pages[i];
      assert pages[..i + 1] == pages[..i] + [page];
      FlatAppends(pages[..i], page);
      assert Flat(pages[..i]) + page[..0] == Flat(pages[..i]);
      for j := 0 to |page|
        invariant newest == Newest(Flat(pages[..i]) + page[..j])
      {
        NewestAppends(Flat(pages[..i]) + page[..j], page[j]);
        assert Flat(pages[..i]) + page[..j + 1] == Flat(pages[..i]) + page[..j] + [page[j]];
        if NamedAsBackup(page[j]) && (newest == None || Precedes(newest.value, page[j])) {
          newest := Some(page[j]);
        }
      }
      assert page[..|page|] == page;
    }
    assert pages[..|pages|] == pages;
  }

  lemma EmptyScan()
    ensures Newest(Flat([])) == None
  {
  }

  lemma NewestAppends(keys: seq<Key>, key: Key)
    ensures Newest(keys + [key]) ==
      if NamedAsBackup(key) && (Newest(keys) == None || Precedes(Newest(keys).value, key)) then Some(key)
      else Newest(keys)
  {
    assert (keys + [key])[..|keys|] == keys;
    hide NamedAsBackup, Precedes;
  }

  /** The names sort by time: of two backups of a volume whose stamps have the same width, the later stamp's key is
      the later key. */
  lemma {:induction false} NamesSortByTime(directory: string, a: string, b: string)
    requires |a| == |b|
    ensures Precedes(directory + "dump-" + a + ".json.gz", directory + "dump-" + b + ".json.gz") <==> Precedes(a, b)
  {
    var before, after := directory + "dump-", ".json.gz";
    assert directory + "dump-" + a + after == before + (a + after);
    assert directory + "dump-" + b + after == before + (b + after);
    CommonPrefix(before, a + after, b + after);
    CommonSuffix(a, b, after);
  }

  lemma {:induction false} CommonPrefix(p: string, a: string, b: string)
    ensures Precedes(p + a, p + b) <==> Precedes(a, b)
  {
    if p == "" {
      assert p + a == a && p + b == b;
    } else {
      assert (p + a)[1..] == p[1..] + a && (p + b)[1..] == p[1..] + b;
      CommonPrefix(p[1..], a, b);
    }
  }

  lemma {:induction false} CommonSuffix(a: string, b: string, s: string)
    requires |a| == |b|
    ensures Precedes(a + s, b + s) <==> Precedes(a, b)
  {
    if a == "" {
      assert a + s == s && b + s == s;
      PrecedesIsTotal(s, s);
    } else {
      assert (a + s)[1..] == a[1..] + s && (b + s)[1..] == b[1..] + s;
      CommonSuffix(a[1..], b[1..], s);
    }
  }

  // ---------------------------------------------------------------- commands

  /** One page of a clearing: the keys listed, those its delete call removes, and how the call turns out. A key listed
      and left behind is an error in the call's answer. */
  datatype Page = Page(listed: seq<Key>, gone: set<Key>, call: Fault)

  type Token = s: string | |s| == 8 && forall c :: c in s ==> '0' <= c <= '9' || 'a' <= c <= 'f' witness "00000000"

  /** How each command of one boot turns out, and what the bucket's listings show. */
  datatype Plan = Plan(
    install: Fault, naming: Fault, list: Fault, backups: seq<seq<Key>>,
    download: Fault, load: Fault, half: bool, keys: Fault, replace: Fault,
    probe: Fault, clear: seq<Page>, clearEnds: Fault, rename: Fault,
    format: Fault, marked: bool, mount: Fault, token: Token, zoneDefault: string)

  predicate Commits(f: Fault) { f.Fine? || f.DiesLate? }

  function Listed(page: Page): set<Key> { set k | k in page.listed }

  function Removed(page: Page): set<Key> { Listed(page) * page.gone }

  function PageEnds(page: Page): How {
    if page.listed == [] then Done
    else if HowOf(page.call) != Done then HowOf(page.call)
    else if Listed(page) <= page.gone then Done
    else Raised
  }

  /** What clearing page by page removes: it stops at the first page that fails. */
  function Cleared(pages: seq<Page>): set<Key> {
    if pages == [] then {} else
      Removed(pages[0]) + if PageEnds(pages[0]) == Done then Cleared(pages[1..]) else {}
  }

  function ClearEnds(pages: seq<Page>, ends: Fault): How {
    if pages == [] then HowOf(ends)
    else if PageEnds(pages[0]) != Done then PageEnds(pages[0])
    else ClearEnds(pages[1..], ends)
  }

  function AllListed(pages: seq<Page>): set<Key> {
    if pages == [] then {} else Listed(pages[0]) + AllListed(pages[1..])
  }

  function Without(objects: map<Place, Object>, at: Location, keys: set<Key>): map<Place, Object> {
    map p | p in objects && !(p.0 == at && p.1 in keys) :: objects[p]
  }

  function RStripDashes(s: string): string {
    if s != "" && s[|s| - 1] == '-' then RStripDashes(s[..|s| - 1]) else s
  }

  const VOLUME_NAME_MAX := 63

  function FreshVolume(volume: string, token: Token): string {
    var room := VOLUME_NAME_MAX - |token| - 1;
    RStripDashes(if |volume| < room then volume else volume[..room]) + "-" + token
  }

  function FormatVolume(z: Instance, at: Location, f: Fault, marked: bool): Outcome {
    var withMark := z.(objects := z.objects[(at, Marker(z.row.volume)) := Data]);
    if TakesEffect(f) then Outcome(withMark.(meta := Whole(Meta(z.row.volume, at))), HowOf(f))
    else Outcome(if marked then withMark else z, HowOf(f))
  }

  function MountVolume(z: Instance, f: Fault): Outcome {
    if z.live.Some? then Outcome(z, Done)
    else if !Formatted(z.meta) then Outcome(z, if HowOf(f) == Died then Died else Raised)
    else Outcome(if TakesEffect(f) then z.(live := Some(z.meta.meta.pointer)) else z, HowOf(f))
  }

  // ---------------------------------------------------------------- restoring

  /** `juicefs load` into the scratch database; stopped early it may leave it half loaded. */
  function Load(z: Instance, key: Key, f: Fault, half: bool): Outcome {
    var place := (RowLocation(z.row), key);
    if place !in z.objects || z.objects[place].Data? then
      Outcome(if half then z.(scratch := Blank) else z, if HowOf(f) == Died then Died else Raised)
    else
      var of := z.objects[place].of;
      if TakesEffect(f) then Outcome(z.(scratch := Whole(of)), HowOf(f))
      else Outcome(if half then z.(scratch := HalfLoaded(of)) else z, HowOf(f))
  }

  /** The body of the `try`. */
  function LoadAndPlace(z: Instance, key: Key, plan: Plan): Outcome {
    if HowOf(plan.download) != Done then Outcome(z, HowOf(plan.download)) else
      var loaded := Load(z, key, plan.load, plan.half);
      if loaded.how != Done then loaded
      else if HowOf(plan.keys) != Done then Outcome(loaded.z, HowOf(plan.keys))
      else if !Formatted(loaded.z.scratch) || loaded.z.scratch.meta.volume != z.row.volume
        then Outcome(loaded.z, Raised)
      else
        var placed := loaded.z.(meta := loaded.z.scratch, scratch := Absent);
        Outcome(if TakesEffect(plan.replace) then placed else loaded.z, HowOf(plan.replace))
  }

  function Restore(z: Instance, key: Key, plan: Plan): Outcome {
    var tried := LoadAndPlace(z.(scratch := Absent), key, plan);
    if tried.how == Died then tried else Outcome(tried.z.(scratch := Absent), tried.how)
  }

  // ---------------------------------------------------------------- bring-up

  /** Room for a volume that has no backup: nothing there, or cleared, or left alone under another name. */
  function MakeRoom(z: Instance, plan: Plan): Outcome {
    var at := RowLocation(z.row);
    if HowOf(plan.probe) != Done then Outcome(z, HowOf(plan.probe))
    else if KeysAt(z, at, z.row.volume + "/") == {} then Outcome(z, Done)
    else if z.adopt then
      Outcome(z.(objects := Without(z.objects, at, Cleared(plan.clear))), ClearEnds(plan.clear, plan.clearEnds))
    else
      Outcome(if Commits(plan.rename) then z.(row := z.row.(volume := FreshVolume(z.row.volume, plan.token))) else z,
              HowOf(plan.rename))
  }

  function BringUp(z: Instance, plan: Plan): Outcome {
    if HowOf(plan.list) != Done then Outcome(z, HowOf(plan.list)) else
      match Newest(Flat(plan.backups))
      case Some(key) => Restore(z, key, plan)
      case None =>
        var room := MakeRoom(z, plan);
        if room.how != Done then room else FormatVolume(room.z, RowLocation(z.row), plan.format, plan.marked)
  }

  /** A local volume not formatted yet takes the zone's own name in place of the shared default. */
  function NameLocal(z: Instance, plan: Plan): Outcome {
    if Formatted(z.meta) || z.row.volume != DEFAULT_VOLUME then Outcome(z, Done) else
      Outcome(if Commits(plan.naming) then z.(row := z.row.(volume := plan.zoneDefault)) else z, HowOf(plan.naming))
  }

  function HaveVolume(z: Instance, plan: Plan): Outcome {
    match z.row.backend
    case Local =>
      var named := NameLocal(z, plan);
      if named.how != Done || Formatted(z.meta) then named
      else FormatVolume(named.z, LocalDisk, plan.format, plan.marked)
    case S3(_, hasCredentials) =>
      if !hasCredentials then Outcome(z, Raised)
      else if Formatted(z.meta) then Outcome(z, Done)
      else BringUp(z, plan)
    case Disabled => Outcome(z, Done)
  }

  /** The `try` block. */
  function BroughtUp(z: Instance, plan: Plan): Outcome {
    if HowOf(plan.install) != Done then Outcome(z, HowOf(plan.install)) else
      var ready := HaveVolume(z, plan);
      if ready.how != Done then ready else MountVolume(ready.z, plan.mount)
  }

  /** A boot never fails because of the archive: an error becomes a message. */
  function Attach(z: Instance, plan: Plan): Outcome {
    if z.row.backend.Disabled? then Outcome(z, Done) else
      var tried := BroughtUp(z, plan);
      if tried.how == Died then tried else Outcome(tried.z.(message := tried.how == Raised), Done)
  }

  /** The listings show what is in the bucket. */
  predicate Honest(z: Instance, plan: Plan) {
    var at := RowLocation(z.row);
    && (set k | k in Flat(plan.backups)) == KeysAt(z, at, BackupDirectory(z.row.volume))
    && AllListed(plan.clear) <= KeysAt(z, at, z.row.volume + "/")
    && (HowOf(plan.clearEnds) == Done ==> AllListed(plan.clear) == KeysAt(z, at, z.row.volume + "/"))
  }

  // ---------------------------------------------------------------- what one boot keeps

  /** At every point where a boot can stop: no metadata, or all of it, for the volume the row names. */
  predicate Complete(z: Instance) {
    !z.meta.HalfLoaded? && (z.meta.Whole? ==> z.meta.meta.volume == z.row.volume)
  }

  lemma LoadTouchesOnlyScratch(z: Instance, key: Key, f: Fault, half: bool)
    ensures var r := Load(z, key, f, half);
      r.z == z.(scratch := r.z.scratch) && (r.how == Done ==> r.z.scratch.Whole?)
  {
  }

  lemma RestoreIsComplete(z: Instance, key: Key, plan: Plan)
    requires Complete(z) && !Formatted(z.meta)
    ensures var r := Restore(z, key, plan);
      && Complete(r.z) && r.z.objects == z.objects && r.z.row == z.row && r.z.adopt == z.adopt
      && (r.how == Done ==> Formatted(r.z.meta))
  {
    LoadTouchesOnlyScratch(z.(scratch := Absent), key, plan.load, plan.half);
    hide Load;
  }

  /** Only an adopted volume without a backup is ever cleared, and only while there is no metadata; every other object
      stays as it was, except the mark of the volume formatted. */
  ghost predicate Respects(z: Instance, z': Instance) {
    && (forall p :: p in z.objects && p !in z'.objects ==>
          && z.adopt && !Formatted(z.meta) && p.0 == RowLocation(z.row) && InVolume(p.1, z.row.volume)
          && !HasBackup(z, RowLocation(z.row), z.row.volume))
    && (forall p :: p in z.objects && p in z'.objects && z'.objects[p] != z.objects[p] ==> p.1 == Marker(z'.row.volume))
    && (forall p :: p in z'.objects && p !in z.objects ==> p.1 == Marker(z'.row.volume))
  }

  lemma {:induction false} OnlyListedAreCleared(pages: seq<Page>, ends: Fault)
    ensures Cleared(pages) <= AllListed(pages)
    ensures ClearEnds(pages, ends) == Done ==> Cleared(pages) == AllListed(pages) && HowOf(ends) == Done
  {
    if pages != [] { OnlyListedAreCleared(pages[1..], ends); }
  }

  lemma NoBackupListed(z: Instance, plan: Plan)
    requires Honest(z, plan)
    ensures Newest(Flat(plan.backups)) == None <==> !HasBackup(z, RowLocation(z.row), z.row.volume)
  {
    var directory := KeysAt(z, RowLocation(z.row), BackupDirectory(z.row.volume));
    assert forall k :: k in Flat(plan.backups) <==> k in directory;
  }

  lemma MakeRoomRespects(z: Instance, plan: Plan)
    requires Honest(z, plan) && !Formatted(z.meta) && !HasBackup(z, RowLocation(z.row), z.row.volume)
    ensures var r := MakeRoom(z, plan);
      && Respects(z, r.z) && r.z.meta == z.meta && r.z.adopt == z.adopt && r.z.row.backend == z.row.backend
      && (forall p :: p in r.z.objects ==> p in z.objects && r.z.objects[p] == z.objects[p])
  {
    OnlyListedAreCleared(plan.clear, plan.clearEnds);
  }

  lemma FormatRespects(z: Instance, mid: Instance, at: Location, f: Fault, marked: bool)
    requires Respects(z, mid) && (forall p :: p in mid.objects ==> p in z.objects && mid.objects[p] == z.objects[p])
    ensures Respects(z, FormatVolume(mid, at, f, marked).z)
  {
  }

  lemma UntouchedRespects(z: Instance, z': Instance)
    requires z'.objects == z.objects
    ensures Respects(z, z')
  {
  }

  lemma BringUpKeeps(z: Instance, plan: Plan)
    requires Complete(z) && !Formatted(z.meta) && Honest(z, plan)
    ensures var r := BringUp(z, plan);
      Complete(r.z) && Respects(z, r.z) && (r.how == Done ==> Formatted(r.z.meta))
  {
    NoBackupListed(z, plan);
    UntouchedRespects(z, z);
    match Newest(Flat(plan.backups))
    case Some(key) =>
      RestoreIsComplete(z, key, plan);
      UntouchedRespects(z, Restore(z, key, plan).z);
      hide Restore, Respects, Newest, Honest, Complete, HasBackup;
    case None =>
      MakeRoomRespects(z, plan);
      var room := MakeRoom(z, plan);
      FormatRespects(z, room.z, RowLocation(z.row), plan.format, plan.marked);
      hide MakeRoom, Respects, HasBackup, Honest, Newest, Marker;
  }

  lemma LocalKeeps(z: Instance, plan: Plan)
    requires Complete(z) && z.row.backend.Local?
    ensures var r := HaveVolume(z, plan); Complete(r.z) && Respects(z, r.z)
  {
    FormatRespects(z, NameLocal(z, plan).z, LocalDisk, plan.format, plan.marked);
    hide HasBackup, Marker, InVolume, TakesEffect, HowOf;
  }

  lemma HaveVolumeKeeps(z: Instance, plan: Plan)
    requires Complete(z) && Honest(z, plan)
    ensures var r := HaveVolume(z, plan); Complete(r.z) && Respects(z, r.z)
  {
    if z.row.backend.Local? {
      LocalKeeps(z, plan);
    } else if z.row.backend.S3? && !Formatted(z.meta) {
      BringUpKeeps(z, plan);
      hide BringUp, Honest, Complete, Respects;
    }
  }

  /** The mount and the message are no part of what is kept. */
  lemma KeptAlike(z: Instance, a: Instance, b: Instance)
    requires a.objects == b.objects && a.row == b.row && a.meta == b.meta
    ensures Complete(a) == Complete(b) && Respects(z, a) == Respects(z, b)
  {
  }

  lemma AttachLikeHaveVolume(z: Instance, plan: Plan)
    ensures var r, ready := Attach(z, plan), HaveVolume(z, plan);
      && r.how != Raised
      && (r.z == z || (r.z.objects == ready.z.objects && r.z.row == ready.z.row && r.z.meta == ready.z.meta)
          || (r.z.objects == z.objects && r.z.row == z.row && r.z.meta == z.meta))
  {
    hide HaveVolume, HowOf;
  }

  /** One boot, wherever it stops: the metadata is absent or complete for the row's volume, and only an adopted volume
      with no backup and no metadata may have lost objects. */
  lemma {:induction false} AttachKeeps(z: Instance, plan: Plan)
    requires Honest(z, plan) && !z.meta.HalfLoaded? && (z.meta.Whole? ==> z.meta.meta.volume == z.row.volume)
    ensures var r := Attach(z, plan);
      && Complete(r.z) && Respects(z, r.z) && r.how != Raised
      && !r.z.meta.HalfLoaded? && (r.z.meta.Whole? ==> r.z.meta.meta.volume == r.z.row.volume)
  {
    var r, ready := Attach(z, plan), HaveVolume(z, plan);
    HaveVolumeKeeps(z, plan);
    AttachLikeHaveVolume(z, plan);
    assert Respects(z, z);
    if r.z.objects == ready.z.objects && r.z.row == ready.z.row && r.z.meta == ready.z.meta {
      KeptAlike(z, ready.z, r.z);
    } else {
      KeptAlike(z, z, r.z);
    }
    hide *;
  }

  // ---------------------------------------------------------------- no backed-up volume is lost over any run

  /** What may happen to the instance and its buckets: it boots; the provisioner seeds it, in two commits; the mounted
      file system writes objects and backups under its volume; others write to the buckets; the mount unit starts before
      anything is formatted and leaves a blank file; the machine loses power. */
  datatype Event =
    | Boots(plan: Plan)
    | Seeds(bucket: Location, name: Option<string>, zoneDefault: string, first: Fault, second: Fault)
    | Writes(written: map<Key, Object>)
    | Others(places: map<Place, Object>)
    | UnitStarts
    | PowerLoss

  predicate ValidVolume(name: string) {
    && 3 <= |name| <= VOLUME_NAME_MAX && name[0] != '-' && name[|name| - 1] != '-'
    && forall c :: c in name ==> 'a' <= c <= 'z' || '0' <= c <= '9' || c == '-'
  }

  /** `seed_preconfigured_s3`: only while there is no metadata file, and the flag is committed before the row. */
  function Seed(z: Instance, bucket: Location, name: Option<string>, zoneDefault: string, first: Fault,
      second: Fault): Instance {
    if z.meta != Absent || (name.Some? && !ValidVolume(name.value)) then z else
      var flagged := if Commits(first) then z.(adopt := name.Some?) else z;
      if HowOf(first) != Done || !Commits(second) then flagged
      else flagged.(row := Row(S3(bucket, true), if name.Some? then name.value else zoneDefault))
  }

  /** The objects of the volume among what is written, where the mount puts them. */
  function Stored(at: Location, volume: string, written: map<Key, Object>): map<Place, Object> {
    map k | k in written && InVolume(k, volume) :: (at, k) := written[k]
  }

  function Step(z: Instance, e: Event): Instance {
    match e
    case Boots(plan) => Attach(z, plan).z
    case Seeds(bucket, name, zoneDefault, first, second) => Seed(z, bucket, name, zoneDefault, first, second)
    case Writes(written) =>
      if z.live.Some? && Formatted(z.meta) then
        z.(objects := z.objects + Stored(z.live.value, z.meta.meta.volume, written))
      else z
    case Others(places) => z.(objects := z.objects + places)
    case UnitStarts => if z.meta.Absent? then z.(meta := Blank) else z
    case PowerLoss => z.(live := None)
  }

  function RunAll(z: Instance, events: seq<Event>): Instance
    decreases |events|
  {
    if events == [] then z else RunAll(Step(z, events[0]), events[1..])
  }

  /** Listings are honest, and a zone's default volume name has no slash in it. */
  predicate Admissible(z: Instance, e: Event) {
    match e
    case Boots(plan) => Honest(z, plan) && '/' !in plan.zoneDefault
    case Seeds(_, _, zoneDefault, _, _) => '/' !in zoneDefault
    case _ => true
  }

  predicate AllAdmissible(z: Instance, events: seq<Event>)
    decreases |events|
  {
    events == [] || (Admissible(z, events[0]) && AllAdmissible(Step(z, events[0]), events[1..]))
  }

  lemma {:induction false} StrippedHasNoSlash(s: string)
    requires '/' !in s
    ensures '/' !in RStripDashes(s)
  {
    if s != "" && s[|s| - 1] == '-' { StrippedHasNoSlash(s[..|s| - 1]); }
  }

  lemma VolumeStaysPlain(z: Instance, e: Event)
    requires Admissible(z, e) && '/' !in z.row.volume
    ensures '/' !in Step(z, e).row.volume
  {
    if e.Boots? {
      var room := VOLUME_NAME_MAX - |e.plan.token| - 1;
      StrippedHasNoSlash(if |z.row.volume| < room then z.row.volume else z.row.volume[..room]);
      AttachNames(z, e.plan);
      hide Attach, Honest;
    }
  }

  lemma BringUpNames(z: Instance, plan: Plan)
    ensures BringUp(z, plan).z.row.volume in {z.row.volume, FreshVolume(z.row.volume, plan.token)}
  {
    hide Newest, Flat, FreshVolume, HowOf, KeysAt, Without, ClearEnds, Cleared, Restore, RowLocation, TakesEffect;
    var newest := Newest(Flat(plan.backups));
    if newest.Some? { RestoreNames(z, newest.value, plan); }
  }

  lemma {:induction false} RestoreNames(z: Instance, key: Key, plan: Plan)
    ensures Restore(z, key, plan).z.row == z.row
  {
    hide Load, HowOf, Formatted;
    LoadTouchesOnlyScratch(z.(scratch := Absent), key, plan.load, plan.half);
  }

  lemma AttachNames(z: Instance, plan: Plan)
    ensures Attach(z, plan).z.row.volume in {z.row.volume, plan.zoneDefault, FreshVolume(z.row.volume, plan.token)}
  {
    AttachLikeHaveVolume(z, plan);
    BringUpNames(z, plan);
    hide Attach, BringUp, FreshVolume, HowOf;
  }

  lemma StepIsComplete(z: Instance, e: Event)
    requires Admissible(z, e) && Complete(z)
    ensures Complete(Step(z, e))
  {
    if e.Boots? {
      AttachKeeps(z, e.plan);
      hide Attach, Honest, Complete;
    }
  }

  /** A volume that has a backup keeps the backup and every one of its objects through any step. */
  lemma StepKeepsBackedUp(z: Instance, e: Event, at: Location, volume: string, key: Key)
    requires Admissible(z, e) && Complete(z) && '/' !in volume && '/' !in z.row.volume
    requires HasBackup(z, at, volume) && (at, key) in z.objects && InVolume(key, volume)
    ensures (at, key) in Step(z, e).objects
  {
    if e.Boots? {
      AttachKeeps(z, e.plan);
      if (at, key) !in Step(z, e).objects { PrefixesApart(key, volume, z.row.volume); }
      hide Attach, Honest, HasBackup, Complete;
    }
  }

  lemma BackupsStay(z: Instance, e: Event, at: Location, volume: string)
    requires Admissible(z, e) && Complete(z) && '/' !in volume && '/' !in z.row.volume && HasBackup(z, at, volume)
    ensures HasBackup(Step(z, e), at, volume)
  {
    var k :| k in KeysAt(z, at, BackupDirectory(volume)) && NamedAsBackup(k);
    assert volume + "/" <= volume + "/meta/" <= k;
    StepKeepsBackedUp(z, e, at, volume, k);
    hide Step, Honest, NamedAsBackup;
  }

  /** Over any run of boots that fail or die anywhere, seedings, writes by the volume and by others, and power losses:
      the metadata is always absent or complete for the row's volume, and an object of a volume that has a metadata
      backup is still there at the end. */
  lemma {:induction false} BackedUpVolumesSurvive(z: Instance, events: seq<Event>, at: Location, volume: string,
      key: Key)
    requires AllAdmissible(z, events) && '/' !in volume && '/' !in z.row.volume
    requires !z.meta.HalfLoaded? && (z.meta.Whole? ==> z.meta.meta.volume == z.row.volume)
    requires HasBackup(z, at, volume) && (at, key) in z.objects && InVolume(key, volume)
    ensures (at, key) in RunAll(z, events).objects && HasBackup(RunAll(z, events), at, volume)
    ensures var end := RunAll(z, events);
      !end.meta.HalfLoaded? && (end.meta.Whole? ==> end.meta.meta.volume == end.row.volume)
    decreases |events|
  {
    if events != [] {
      StepIsComplete(z, events[0]);
      VolumeStaysPlain(z, events[0]);
      StepKeepsBackedUp(z, events[0], at, volume, key);
      BackupsStay(z, events[0], at, volume);
      BackedUpVolumesSurvive(Step(z, events[0]), events[1..], at, volume, key);
      hide Step, Complete, HasBackup, Admissible, InVolume;
    }
  }

  // ---------------------------------------------------------------- a boot on which nothing fails

  predicate FinePage(page: Page) { page.call.Fine? && Listed(page) <= page.gone }

  predicate AllFine(plan: Plan) {
    && plan.install.Fine? && plan.naming.Fine? && plan.list.Fine? && plan.download.Fine? && plan.load.Fine?
    && plan.keys.Fine? && plan.replace.Fine? && plan.probe.Fine? && plan.clearEnds.Fine? && plan.rename.Fine?
    && plan.format.Fine? && plan.mount.Fine? && forall i :: 0 <= i < |plan.clear| ==> FinePage(plan.clear[i])
  }

  /** The newest key named as a backup is one, and of the volume the row names. */
  predicate Restorable(z: Instance, plan: Plan) {
    var newest := Newest(Flat(plan.backups));
    newest.Some? ==>
      var place := (RowLocation(z.row), newest.value);
      place in z.objects && z.objects[place].Backup? && z.objects[place].of.volume == z.row.volume
  }

  lemma {:induction false} FineClearing(pages: seq<Page>)
    requires forall i :: 0 <= i < |pages| ==> FinePage(pages[i])
    ensures Cleared(pages) == AllListed(pages) && ClearEnds(pages, Fine) == Done
  {
    if pages != [] {
      assert FinePage(pages[0]);
      FineClearing(pages[1..]);
    }
  }

  /** The row of a seeded bucket, nothing mounted, no metadata yet. */
  predicate Seeded(z: Instance) {
    z.row.backend.S3? && z.row.backend.hasCredentials && !Formatted(z.meta) && z.live == None
  }

  lemma FineRestore(z: Instance, plan: Plan)
    requires Seeded(z) && AllFine(plan) && Newest(Flat(plan.backups)).Some?
    ensures var r, place := Attach(z, plan).z, (RowLocation(z.row), Newest(Flat(plan.backups)).value);
      if Restorable(z, plan)
        then r == z.(meta := Whole(z.objects[place].of), live := Some(z.objects[place].of.pointer),
                     scratch := Absent, message := false)
        else r == z.(scratch := Absent, message := true)
  {
    hide Newest;
  }

  lemma FineFormat(z: Instance, plan: Plan)
    requires Seeded(z) && AllFine(plan) && Newest(Flat(plan.backups)) == None
    ensures var room, at := MakeRoom(z, plan).z, RowLocation(z.row);
      MakeRoom(z, plan).how == Done &&
      Attach(z, plan).z == room.(objects := room.objects[(at, Marker(room.row.volume)) := Data],
                                 meta := Whole(Meta(room.row.volume, at)), live := Some(at), message := false)
  {
    FineClearing(plan.clear);
    hide Newest, KeysAt, Marker, FreshVolume, Cleared, Without;
  }

  // ---------------------------------------------------------------- a volume set aside

  /** A name for a volume next to one called `was`: as much of that as there is room for, without dashes at its end, and
      eight hex digits after a dash. */
  ghost predicate NamedAfter(was: string, token: string, name: string) {
    exists k :: 0 <= k <= |was| && k <= 54 && name == was[..k] + "-" + token && (k > 0 ==> was[k - 1] != '-')
                && forall j :: k <= j < |was| && j < 54 ==> was[j] == '-'
  }

  /** The volume found stays exactly as it was, and the new one gets another name. */
  ghost predicate SetAside(z: Instance, r: Instance, at: Location, token: string) {
    var was, name := z.row.volume, r.row.volume;
    && NamedAfter(was, token, name) && r.row == z.row.(volume := name)
    && (ValidVolume(was) ==> ValidVolume(name))
    && (|was| <= |token| || was[|was| - |token| - 1..] != "-" + token ==> name != was)
    && (name != was && '/' !in was ==> KeysAt(r, at, was + "/") == KeysAt(z, at, was + "/"))
    && z.objects.Keys <= r.objects.Keys
  }

  lemma {:induction false} StripsDashes(s: string)
    ensures var r := RStripDashes(s);
      && r <= s && (r != "" ==> r[|r| - 1] != '-') && forall j :: |r| <= j < |s| ==> s[j] == '-'
  {
    if s != "" && s[|s| - 1] == '-' { StripsDashes(s[..|s| - 1]); }
  }

  lemma {:induction false} FreshName(was: string, token: Token)
    ensures var name := FreshVolume(was, token);
      && NamedAfter(was, token, name) && (ValidVolume(was) ==> ValidVolume(name))
      && name[|name| - |token| - 1..] == "-" + token
  {
    var cut := if |was| < 54 then was else was[..54];
    var base := RStripDashes(cut);
    StripsDashes(cut);
    var name := FreshVolume(was, token);
    assert VOLUME_NAME_MAX - |token| - 1 == 54;
    assert name == was[..|base|] + "-" + token;
    assert name[|base|..] == "-" + token;
    if ValidVolume(was) {
      assert cut[0] == was[0] != '-';
      assert forall c :: c in name ==> c in was || c == '-' || c in token;
    }
  }

  /** Two instances that set aside the same volume take two names. */
  lemma {:induction false} NamesDiffer(was: string, a: string, b: string, x: string, y: string)
    requires NamedAfter(was, a, x) && NamedAfter(was, b, y) && |a| == |b| && a != b
    ensures x != y
  {
    assert x[|x| - |a|..] == a && y[|y| - |b|..] == b;
  }

  lemma {:induction false} LeftAlone(z: Instance, r: Instance, at: Location, token: Token)
    requires r.row == z.row.(volume := FreshVolume(z.row.volume, token))
    requires r.objects == z.objects[(at, Marker(r.row.volume)) := Data]
    ensures SetAside(z, r, at, token)
  {
    hide FreshVolume, ValidVolume;
    var was, name := z.row.volume, r.row.volume;
    FreshName(was, token);
    if '/' !in was && name != was {
      assert '/' !in name by { hide *; NoSlashInName(was, token, name); }
      if InVolume(Marker(name), was) { PrefixesApart(Marker(name), was, name); }
      forall k ensures k in KeysAt(r, at, was + "/") <==> k in KeysAt(z, at, was + "/") {
        assert (at, k) in r.objects <==> (at, k) in z.objects || k == Marker(name);
      }
    }
  }

  lemma {:induction false} NoSlashInName(was: string, token: Token, name: string)
    requires '/' !in was && NamedAfter(was, token, name)
    ensures '/' !in name
  {
    var k :| 0 <= k <= |was| && name == was[..k] + "-" + token;
    assert '/' !in token;
  }

  /** What a first boot makes of a bucket that is already there. It comes up exactly when the volume has no backup or
      its newest backup names it; with a backup, as that backup left it, reading from the store the backup names, which
      need not be the row's; without one, empty, under its own name if it was adopted or held nothing and under a fresh
      name otherwise; and only in the adopted case is anything deleted: exactly the volume's own objects. */
  lemma {:induction false} FirstBoot(z: Instance, plan: Plan)
    requires z.row.backend.S3? && z.row.backend.hasCredentials && (z.meta.Absent? || z.meta.Blank?) && z.live == None
    requires AllFine(plan) && Honest(z, plan)
    ensures var r, at, newest := Attach(z, plan).z, RowLocation(z.row), Newest(Flat(plan.backups));
      var held := KeysAt(z, at, z.row.volume + "/");
      && (r.live.Some? && !r.message && r.meta.Whole? <==> Restorable(z, plan))
      && (newest.Some? ==> r.objects == z.objects && r.row == z.row)
      && (newest.Some? && Restorable(z, plan) ==>
            && r.meta == Whole(z.objects[(at, newest.value)].of)
            && (r.live == Some(at) <==> z.objects[(at, newest.value)].of.pointer == at))
      && (newest == None ==> r.meta == Whole(Meta(r.row.volume, at)) && r.live == Some(at) && at == RowLocation(r.row))
      && (newest == None && (held == {} || z.adopt) ==>
            r.row == z.row && KeysAt(r, at, z.row.volume + "/") == {Marker(z.row.volume)})
      && (newest == None && held != {} && !z.adopt ==> SetAside(z, r, at, plan.token))
  {
    FreshName(z.row.volume, plan.token);
    if Newest(Flat(plan.backups)).Some? {
      FineRestore(z, plan);
      hide Attach, Newest, KeysAt, Marker, FreshVolume;
    } else {
      FineFormat(z, plan);
      FineClearing(plan.clear);
      if KeysAt(z, RowLocation(z.row), z.row.volume + "/") == {} || z.adopt {
        MarkerOnly(z, plan, Attach(z, plan).z);
      } else {
        LeftAlone(z, Attach(z, plan).z, RowLocation(z.row), plan.token);
      }
      hide SetAside, Attach, Newest, Marker, FreshVolume, KeysAt, Cleared, Without;
    }
  }

  lemma MarkerOnly(z: Instance, plan: Plan, r: Instance)
    requires Honest(z, plan) && plan.clearEnds.Fine? && forall i :: 0 <= i < |plan.clear| ==> FinePage(plan.clear[i])
    requires var at := RowLocation(z.row);
      var room := if KeysAt(z, at, z.row.volume + "/") == {} then z.objects
        else Without(z.objects, at, Cleared(plan.clear));
      r.objects == room[(at, Marker(z.row.volume)) := Data]
    ensures KeysAt(r, RowLocation(z.row), z.row.volume + "/") == {Marker(z.row.volume)}
  {
    FineClearing(plan.clear);
  }
}
