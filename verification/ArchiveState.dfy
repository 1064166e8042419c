/** The archive tier's moving parts, each able to fail or to be the last thing the process does:
    the object stores, the volume's metadata, the live mount, the row in the database, and the apps that write. */
module ArchiveState {
  import opened Common

  /** An object key, "<volume>/<rest>". */
  type Key = string

  /** A store is where its objects are, whatever endpoint URL names it. */
  datatype Location = LocalDisk | Bucket(name: string, provider: string)

  datatype Backend = Disabled | Local | S3(bucket: Location, hasCredentials: bool)

  /** The archive_backend row. */
  datatype Row = Row(backend: Backend, volume: string)

  /** The volume's metadata database: its name, which prefixes its objects, and the store it reads from. */
  datatype Meta = Meta(volume: string, pointer: Location)

  /** An app as quiescing sees it: does its row say running, does it mount the archive, is its container alive. */
  datatype App = App(saysRunning: bool, usesArchive: bool, alive: bool)

  /** `live` is the store the mounted file system process uses; `written` is every object an app ever wrote. */
  datatype State = State(
    stores: map<Location, set<Key>>,
    meta: Option<Meta>,
    live: Option<Location>,
    row: Row,
    adopt: bool,
    apps: map<string, App>,
    written: set<Key>)

  const DEFAULT_VOLUME := "openhost"

  predicate InVolume(key: Key, volume: string) { volume + "/" <= key }

  /** A volume name without a slash is what a key has before its first slash. */
  lemma VolumeOfKey(key: Key, volume: string)
    requires InVolume(key, volume) && '/' !in volume
    ensures |volume| < |key| && key[|volume|] == '/' && key[..|volume|] == volume
    ensures forall i :: 0 <= i < |volume| ==> key[i] != '/'
  {
    var prefix := volume + "/";
    assert key[|volume|] == prefix[|volume|] == '/';
    assert forall i :: 0 <= i < |volume| ==> key[i] == prefix[i] == volume[i];
  }

  lemma PrefixesApart(key: Key, a: string, b: string)
    requires InVolume(key, a) && InVolume(key, b) && '/' !in a && '/' !in b
    ensures a == b
  {
    VolumeOfKey(key, a);
    VolumeOfKey(key, b);
    hide InVolume;
  }

  function Keys(s: State, at: Location): set<Key> { if at in s.stores then s.stores[at] else {} }

  function VolumeKeys(s: State, at: Location, volume: string): set<Key> {
    set k | k in Keys(s, at) && InVolume(k, volume)
  }

  function Put(s: State, at: Location, keys: set<Key>): (s': State)
    ensures Keys(s', at) == Keys(s, at) + keys
    ensures forall l :: l != at ==> Keys(s', l) == Keys(s, l)
  {
    s.(stores := s.stores[at := Keys(s, at) + keys])
  }

  function Remove(s: State, at: Location, keys: set<Key>): (s': State)
    ensures Keys(s', at) == Keys(s, at) - keys
    ensures forall l :: l != at ==> Keys(s', l) == Keys(s, l)
  {
    if keys == {} then s else s.(stores := s.stores[at := Keys(s, at) - keys])
  }

  // ---------------------------------------------------------------- primitives that may fail

  /** A primitive works, raises or ends with the process, before or after its effect. */
  datatype Fault = Fine | Fails | FailsLate | Dies | DiesLate

  datatype How = Done | Raised | Died

  datatype Ran = Ran(s: State, how: How)

  predicate TakesEffect(f: Fault) { f.Fine? || f.FailsLate? || f.DiesLate? }

  function HowOf(f: Fault): How {
    match f
    case Fine => Done
    case Fails => Raised
    case FailsLate => Raised
    case Dies => Died
    case DiesLate => Died
  }

  function Primitive(s: State, s': State, f: Fault): Ran { Ran(if TakesEffect(f) then s' else s, HowOf(f)) }

  /** A step that must fail: it raises, or the process dies trying. */
  function Refusal(s: State, f: Fault): Ran { Ran(s, if HowOf(f) == Died then Died else Raised) }

  /** `mount` does nothing when something is mounted, whatever store that mount uses. */
  function Mount(s: State, f: Fault): Ran {
    if s.live.Some? then Ran(s, Done)
    else if s.meta == None then Refusal(s, f)
    else Primitive(s, s.(live := Some(s.meta.value.pointer)), f)
  }

  function Umount(s: State, f: Fault): Ran {
    if s.live == None then Ran(s, Done) else Primitive(s, s.(live := None), f)
  }

  function Remount(s: State, stop: Fault, start: Fault): Ran {
    var stopped := Umount(s, stop);
    if stopped.how != Done then stopped else Mount(stopped.s, start)
  }

  /** `juicefs config --storage --bucket`. */
  function Repoint(s: State, to: Location, f: Fault): Ran {
    if s.meta == None then Refusal(s, f)
    else Primitive(s, s.(meta := Some(s.meta.value.(pointer := to))), f)
  }

  function FormatLocal(s: State, volume: string, f: Fault): Ran {
    if s.meta.Some? then Ran(s, Done) else Primitive(s, s.(meta := Some(Meta(volume, LocalDisk))), f)
  }

  function Marker(volume: string): Key { volume + "/juicefs_uuid" }

  /** `juicefs format --storage s3` marks the bucket and creates the metadata; stopped early it may leave the mark. */
  function FormatS3(s: State, at: Location, volume: string, f: Fault, marked: bool): Ran {
    if s.meta.Some? then Ran(s, Done) else
      var withMark := Put(s, at, {Marker(volume)});
      if TakesEffect(f) then Ran(withMark.(meta := Some(Meta(volume, at))), HowOf(f))
      else Ran(if marked then withMark else s, HowOf(f))
  }

  /** `juicefs sync`: every object under the volume's prefix, or some of them when it does not finish. */
  function Sync(s: State, from: Location, to: Location, volume: string, f: Fault, some: set<Key>): Ran {
    var all := VolumeKeys(s, from, volume);
    Ran(Put(s, to, if TakesEffect(f) then all else all * some), HowOf(f))
  }

  // ---------------------------------------------------------------- apps

  predicate Writer(app: App) { app.usesArchive && app.alive }

  predicate AnyWriter(s: State) { exists a :: a in s.apps && Writer(s.apps[a]) }

  /** Objects the live writers add; they go to the store of the live mount. */
  function AppWrites(s: State, keys: set<Key>): State {
    if s.live.Some? && s.meta.Some? && AnyWriter(s) then
      var added := set k | k in keys && InVolume(k, s.meta.value.volume);
      Put(s, s.live.value, added).(written := s.written + added)
    else s
  }

  predicate MustStop(app: App) { app.saysRunning && app.usesArchive }

  /** What stopping leaves: only rows that say running are looked at, and `resists` are the containers that survive. */
  function Stopped(apps: map<string, App>, resists: set<string>): map<string, App> {
    map a | a in apps :: if MustStop(apps[a]) && a !in resists then apps[a].(alive := false) else apps[a]
  }

  predicate StillRunning(apps: map<string, App>) { exists a :: a in apps && MustStop(apps[a]) && apps[a].alive }

  function Quiesce(s: State, resists: set<string>, f: Fault): Ran {
    var s' := s.(apps := Stopped(s.apps, resists));
    if HowOf(f) == Died then Ran(if TakesEffect(f) then s' else s, Died)
    else Ran(s', if StillRunning(s'.apps) then Raised else Done)
  }

  // ---------------------------------------------------------------- configure_backend

  /** How each primitive of one configuration turns out. */
  datatype Faults = Faults(
    install: Fault, format: Fault, marked: bool, mount: Fault, quiesce: Fault, resists: set<string>,
    sync: Fault, copied: set<Key>, repoint: Fault, stop: Fault, start: Fault, flip: Fault,
    undoRepoint: Fault, undoStop: Fault, undoStart: Fault, reclaim: Fault, reclaimed: set<Key>)

  /** What happens beside the configuration between two of its steps: apps are installed, launched, stopped and come up,
      nothing keeps them from it, and those that can write. */
  datatype Gap = Gap(apps: map<string, App>, keys: set<Key>)

  datatype Gaps = Gaps(beforeQuiesce: Gap, beforeSync: Gap, afterSync: Gap, afterRepoint: Gap, afterRemount: Gap)

  function Pass(s: State, gap: Gap): State { AppWrites(s.(apps := s.apps + gap.apps), gap.keys) }

  /** The operator's request: the new bucket, a volume name or prefix if one was given, and the zone's own default. */
  datatype Request = Request(bucket: Location, name: Option<string>, zoneDefault: string)

  function RowLocation(row: Row): Location {
    match row.backend
    case S3(bucket, _) => bucket
    case _ => LocalDisk
  }

  function ChosenVolume(row: Row, request: Request): string {
    var named := if request.name.Some? then request.name.value else request.zoneDefault;
    match row.backend
    case S3(_, _) => row.volume
    case Local => if row.volume == DEFAULT_VOLUME then named else row.volume
    case Disabled => named
  }

  /** Up to and including the copy. */
  function Prepare(s: State, from: Location, to: Location, volume: string, f: Faults, g: Gaps): Ran {
    var formatted := if from == LocalDisk then FormatLocal(s, volume, f.format) else Ran(s, Done);
    if formatted.how != Done then formatted else
    var mounted := Mount(formatted.s, f.mount);
    if mounted.how != Done then mounted else
    var quiet := Quiesce(Pass(mounted.s, g.beforeQuiesce), f.resists, f.quiesce);
    if quiet.how != Done then quiet else
    Sync(Pass(quiet.s, g.beforeSync), from, to, volume, f.sync, f.copied)
  }

  /** Re-point the volume and restart the mount on it. */
  function Switch(s: State, to: Location, f: Faults, g: Gaps): Ran {
    var pointed := Repoint(Pass(s, g.afterSync), to, f.repoint);
    if pointed.how != Done then pointed else
    var mounted := Remount(Pass(pointed.s, g.afterRepoint), f.stop, f.start);
    if mounted.how != Done then mounted else
    Ran(Pass(mounted.s, g.afterRemount), Done)
  }

  /** Copy, then switch. */
  function Migrate(s: State, from: Location, to: Location, volume: string, f: Faults, g: Gaps): Ran {
    var prepared := Prepare(s, from, to, volume, f, g);
    if prepared.how != Done then prepared else Switch(prepared.s, to, f, g)
  }

  /** A legacy zone without a volume: nothing to copy. */
  function FormatFresh(s: State, to: Location, volume: string, f: Faults): Ran {
    var formatted := FormatS3(s, to, volume, f.format, f.marked);
    if formatted.how != Done then formatted else Mount(formatted.s, f.mount)
  }

  /** The UPDATE and its commit: it happens or it raises, not both. */
  function Flip(s: State, to: Location, volume: string, f: Fault): Ran {
    Ran(if f.Fine? || f.DiesLate? then s.(row := Row(S3(to, true), volume)) else s, HowOf(f))
  }

  /** The `try` block. */
  function Attempt(s: State, request: Request, f: Faults, g: Gaps): Ran {
    var volume := ChosenVolume(s.row, request);
    var installed := Primitive(s, s, f.install);
    if installed.how != Done then installed else
    var switched :=
      if s.row.backend.Disabled? then FormatFresh(s, request.bucket, volume, f)
      else Migrate(s, RowLocation(s.row), request.bucket, volume, f, g);
    if switched.how != Done then switched else Flip(switched.s, request.bucket, volume, f.flip)
  }

  /** The `except` block: point back at the source and remount it, as far as that works. */
  function Undo(s: State, f: Faults): Ran {
    if s.row.backend.Disabled? then Umount(s, f.undoStop) else
      var pointed := Repoint(s, RowLocation(s.row), f.undoRepoint);
      if pointed.how != Done then pointed else Remount(pointed.s, f.undoStop, f.undoStart)
  }

  /** What is deleted from the source once the switch is committed; an error leaves some of it behind and is only
      logged. */
  function Reclaim(s: State, from: Row, request: Request, volume: string, f: Faults): State {
    match from.backend
    case Disabled => s
    case Local =>
      Remove(s, LocalDisk, if TakesEffect(f.reclaim) then Keys(s, LocalDisk) else Keys(s, LocalDisk) * f.reclaimed)
    case S3(bucket, _) =>
      if bucket.Bucket? && request.bucket.Bucket? && bucket.name == request.bucket.name && from.volume == volume then s
      else
        var all := VolumeKeys(s, bucket, volume);
        Remove(s, bucket, if TakesEffect(f.reclaim) then all else all * f.reclaimed)
  }

  function Configure(s: State, request: Request, f: Faults, g: Gaps): Ran {
    if s.row.backend.S3? && !s.row.backend.hasCredentials then Ran(s, Raised) else
    var tried := Attempt(s, request, f, g);
    match tried.how
    case Died => tried
    case Raised =>
      var undone := Undo(tried.s, f);
      Ran(undone.s, if undone.how == Died then Died else Raised)
    case Done =>
      Ran(Reclaim(tried.s, s.row, request, ChosenVolume(s.row, request), f),
          if HowOf(f.reclaim) == Died then Died else Done)
  }
}
