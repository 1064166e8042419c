/** Recovery at boot: the check that sorts the rows, and the sweep that brings the queued apps back one at a time. */
module AppRecovery {
  import opened Common
  import opened Apps

  type Queue = seq<(Id, bool)>
  type Rows = map<Id, Row>
  type Containers = map<ContainerId, Container>

  predicate Distinct(ids: seq<Id>) { forall i, j :: 0 <= i < j < |ids| ==> ids[i] != ids[j] }

  /** The rows in the order the queries return them. */
  ghost predicate Lists(ids: seq<Id>, rows: Rows) { Distinct(ids) && forall a :: a in ids <==> a in rows }

  // ---------------------------------------------------------------- the check

  /** The apps among `ids` that the first pass queues, promoted or not, in order. */
  function QueueOf(rows: Rows, containers: Containers, start: int, ids: seq<Id>, promoted: bool): Queue
    requires forall a :: a in ids ==> a in rows
  {
    if ids == [] then [] else
      var a := ids[|ids| - 1];
      var before := QueueOf(rows, containers, start, ids[..|ids| - 1], promoted);
      if Active(rows[a]) && Promoted(rows[a]) == promoted && Check(rows[a], Alive(containers, rows[a]), start).Queued?
      then before + [(a, NeedsBuild(rows[a]))] else before
  }

  function CorruptOf(rows: Rows, ids: seq<Id>): Queue
    requires forall a :: a in ids ==> a in rows
  {
    if ids == [] then [] else
      var a := ids[|ids| - 1];
      var before := CorruptOf(rows, ids[..|ids| - 1]);
      if Corrupted(rows[a]) then before + [(a, true)] else before
  }

  function AllChecked(rows: Rows, containers: Containers, start: int): Rows {
    map a | a in rows :: Checked(rows[a], Alive(containers, rows[a]), start)
  }

  function AllUncorrupted(rows: Rows): Rows { map a | a in rows :: Uncorrupted(rows[a]) }

  /** The rows when the ones in `seen` have been dealt with. */
  ghost function CheckedSoFar(rows: Rows, containers: Containers, start: int, seen: seq<Id>): Rows {
    map a | a in rows :: if a in seen then Checked(rows[a], Alive(containers, rows[a]), start) else rows[a]
  }

  ghost function UncorruptedSoFar(rows: Rows, seen: seq<Id>): Rows {
    map a | a in rows :: if a in seen then Uncorrupted(rows[a]) else rows[a]
  }

  // ---------------------------------------------------------------- the sweep

  /** How a start or restart turns out: an error before the launch (a full disk, a manifest that does not parse, a
      build), the launch refused, no container, a container and then an error, one that does not answer, or one that
      does. An error's text is what the row then reports. */
  datatype Outcome =
    | Early(report: Note)
    | Refused
    | NotRun
    | Broken(id: ContainerId, cleaned: bool)
    | Unready(id: ContainerId)
    | Serving(id: ContainerId)

  function IdOf(outcome: Outcome): Option<ContainerId> {
    match outcome
    case Broken(id, _) => Some(id)
    case Unready(id) => Some(id)
    case Serving(id) => Some(id)
    case _ => None
  }

  datatype World = World(rows: Rows, containers: Containers)

  function Recovered(w: World, primary: string, a: Id, outcome: Outcome): World {
    if a !in w.rows then w else
      var failed := w.rows[a].(status := Failed, note := Other);
      match outcome
      case Early(report) => w.(rows := w.rows[a := failed.(note := report)])
      case Refused => w.(rows := w.rows[a := failed])
      case NotRun => w.(rows := w.rows[a := failed.(container := None)])
      case Broken(id, cleaned) =>
        World(w.rows[a := failed.(container := if cleaned then None else Some(id))],
              w.containers[id := Container(!cleaned, primary)])
      case Unready(id) =>
        World(w.rows[a := failed.(container := Some(id))], w.containers[id := Container(true, primary)])
      case Serving(id) =>
        World(w.rows[a := w.rows[a].(status := Running, note := NoNote, container := Some(id))],
              w.containers[id := Container(true, primary)])
  }

  function Swept(w: World, primary: string, queue: Queue, outcomes: seq<Outcome>): World
    requires |outcomes| == |queue|
  {
    if queue == [] then w else
      var n := |queue| - 1;
      Recovered(Swept(w, primary, queue[..n], outcomes[..n]), primary, queue[n].0, outcomes[n])
  }

  class AppTable {
    var rows: Rows
    var containers: Containers
    var primary: string

    /** The first pass of `check_app_status`. */
    method CheckRows(ids: seq<Id>, start: int) returns (promoted: Queue, ordinary: Queue)
      requires Lists(ids, rows)
      modifies this`rows
      ensures rows == AllChecked(old(rows), containers, start)
      ensures promoted == QueueOf(old(rows), containers, start, ids, true)
      ensures ordinary == QueueOf(old(rows), containers, start, ids, false)
    {
      hide QueueOf, AllChecked, CheckedSoFar, Check, Checked, Alive;
      ghost var was := rows;
      promoted, ordinary := [], [];
      var i := 0;
      NothingChecked(was, containers, start);
      while i < |ids|
        invariant i <= |ids|
        invariant rows == CheckedSoFar(was, containers, start, ids[..i])
        invariant promoted == QueueOf(was, containers, start, ids[..i], true)
        invariant ordinary == QueueOf(was, containers, start, ids[..i], false)
      {
        var a := ids[i];
        assert ids[..i + 1] == ids[..i] + [a];
        OneMoreChecked(was, containers, start, ids[..i], a);
        var row := rows[a];
        if Active(row) {
          var alive := Alive(containers, row);
          match Check(row, alive, start)
          case Owned =>
            if !row.status.Starting? { rows := rows[a := row.(status := Starting)]; }
          case Up =>
            if row.status.Building? { rows := rows[a := row.(status := Running)]; }
          case Lost =>
            rows := rows[a := row.(status := Failed, note := Other)];
          case Queued(build) =>
            rows := rows[a := row.(status := Starting)];
            if Promoted(row) { promoted := promoted + [(a, build)]; } else { ordinary := ordinary + [(a, build)]; }
        }
        i := i + 1;
      }
      assert ids[..|ids|] == ids;
      AllAreChecked(was, containers, start, ids);
    }

    /** `_recover_cache_corrupt_apps`, with the build cache dropped as best it can be. */
    method RecoverCacheCorrupt(ids: seq<Id>) returns (corrupt: Queue)
      requires Lists(ids, rows)
      modifies this`rows
      ensures rows == AllUncorrupted(old(rows)) && corrupt == CorruptOf(old(rows), ids)
    {
      hide CorruptOf, AllUncorrupted, UncorruptedSoFar, Corrupted, Uncorrupted;
      ghost var was := rows;
      corrupt := [];
      var i := 0;
      NothingUncorrupted(was);
      while i < |ids|
        invariant i <= |ids|
        invariant rows == UncorruptedSoFar(was, ids[..i]) && corrupt == CorruptOf(was, ids[..i])
      {
        var a := ids[i];
        assert ids[..i + 1] == ids[..i] + [a];
        OneMoreUncorrupted(was, ids[..i], a);
        if Corrupted(rows[a]) {
          corrupt := corrupt + [(a, true)];
          rows := rows[a := rows[a].(status := Starting, note := NoNote)];
        }
        i := i + 1;
      }
      assert ids[..|ids|] == ids;
      AllAreUncorrupted(was, ids);
    }

    /** `check_app_status` up to its commit: the promoted apps to recover before the server starts, and the others. */
    method CheckAppStatus(ids: seq<Id>, start: int) returns (promoted: Queue, ordinary: Queue)
      requires Lists(ids, rows)
      modifies this`rows
      ensures rows == AllBooted(old(rows), containers, start)
      ensures promoted == QueueOf(old(rows), containers, start, ids, true)
      ensures ordinary == QueueOf(old(rows), containers, start, ids, false)
                          + CorruptOf(AllChecked(old(rows), containers, start), ids)
      ensures promoted + ordinary == BootQueue(old(rows), containers, start, ids)
    {
      hide QueueOf, CorruptOf, AllUncorrupted;
      promoted, ordinary := CheckRows(ids, start);
      var corrupt := RecoverCacheCorrupt(ids);
      ordinary := ordinary + corrupt;
      TwoPasses(old(rows), containers, start);
    }

    /** A whole boot: the promoted apps first, then the others in their own thread. */
    method Boot(ids: seq<Id>, start: int, outcomes: seq<Outcome>)
      requires Lists(ids, rows) && |outcomes| == |BootQueue(rows, containers, start, ids)|
      modifies this`rows, this`containers
      ensures World(rows, containers) ==
        Swept(World(AllBooted(old(rows), old(containers), start), old(containers)), primary,
              BootQueue(old(rows), old(containers), start, ids), outcomes)
    {
      hide BootQueue, Swept, AllBooted, QueueOf;
      ghost var booted := World(AllBooted(rows, containers, start), containers);
      var promoted, ordinary := CheckAppStatus(ids, start);
      RestartAppsSequential(promoted, outcomes[..|promoted|]);
      RestartAppsSequential(ordinary, outcomes[|promoted|..]);
      SweptTogether(booted, primary, promoted, ordinary, outcomes[..|promoted|], outcomes[|promoted|..]);
      assert outcomes[..|promoted|] + outcomes[|promoted|..] == outcomes;
    }

    /** `run_app_image`: every way out leaves the row running or failed, or raises with the row failed. */
    method RunAppImage(a: Id, outcome: Outcome) returns (ok: bool)
      requires !outcome.Early?
      modifies this`rows, this`containers
      ensures World(rows, containers) == Recovered(World(old(rows), old(containers)), primary, a, outcome)
      ensures ok ==> a in rows && (outcome.Serving? || outcome.Unready?)
    {
      if a !in rows { return false; }
      ghost var was := rows;
      assert rows == was[a := rows[a]];
      if outcome.Refused? {
        SetRow(was, a, rows[a].(status := Failed, note := Other));
        return false;
      }
      SetRow(was, a, MarkedStarting(rows[a]));
      if outcome.NotRun? {
        SetRow(was, a, rows[a].(status := Failed, note := Other, container := None));
        return false;
      }
      var id := IdOf(outcome).value;
      Launch(was, a, id);
      if outcome.Serving? {
        SetRow(was, a, rows[a].(status := Running, note := NoNote));
        return true;
      }
      if outcome.Unready? {
        SetRow(was, a, rows[a].(status := Failed, note := Other));
        return true;
      }
      if outcome.cleaned { StopContainer(old(containers), id); }
      var left := if outcome.cleaned then None else Some(id);
      SetRow(was, a, rows[a].(status := Failed, note := Other, container := left));
      ok := false;
    }

    /** An UPDATE of one row. */
    method SetRow(ghost was: Rows, a: Id, row: Row)
      requires a in rows && rows == was[a := rows[a]]
      modifies this`rows
      ensures rows == was[a := row]
    {
      rows := rows[a := row];
    }

    method Launch(ghost was: Rows, a: Id, id: ContainerId)
      requires a in rows && rows == was[a := rows[a]]
      modifies this`rows, this`containers
      ensures rows == was[a := old(rows)[a].(container := Some(id))]
      ensures containers == old(containers)[id := Container(true, primary)]
    {
      containers := containers[id := Container(true, primary)];
      rows := rows[a := rows[a].(container := Some(id))];
    }

    method StopContainer(ghost was: Containers, id: ContainerId)
      requires containers == was[id := Container(true, primary)]
      modifies this`containers
      ensures containers == was[id := Container(false, primary)]
    {
      containers := containers[id := Container(false, primary)];
    }

    /** `_restart_apps_sequential`: one app at a time, an error of one not stopping the next. */
    method RestartAppsSequential(queue: Queue, outcomes: seq<Outcome>)
      requires |outcomes| == |queue|
      modifies this`rows, this`containers
      ensures World(rows, containers) == Swept(World(old(rows), old(containers)), primary, queue, outcomes)
    {
      hide Recovered;
      var i := 0;
      while i < |queue|
        invariant i <= |queue|
        invariant World(rows, containers) ==
          Swept(World(old(rows), old(containers)), primary, queue[..i], outcomes[..i])
      {
        var a := queue[i].0;
        assert queue[..i + 1][..i] == queue[..i] && outcomes[..i + 1][..i] == outcomes[..i];
        RecoversAtOnce(World(rows, containers), primary, a, outcomes[i]);
        if outcomes[i].Early? {
          if a in rows { rows := rows[a := rows[a].(status := Failed, note := outcomes[i].report)]; }
        } else {
          var ok := RunAppImage(a, outcomes[i]);
        }
        i := i + 1;
      }
      assert queue[..|queue|] == queue && outcomes[..|outcomes|] == outcomes;
    }
  }

  lemma {:induction false} SweptTogether(w: World, primary: string, a: Queue, b: Queue, x: seq<Outcome>,
      y: seq<Outcome>)
    requires |x| == |a| && |y| == |b|
    ensures Swept(Swept(w, primary, a, x), primary, b, y) == Swept(w, primary, a + b, x + y)
  {
    if b == [] {
      assert a + b == a && x + y == x;
    } else {
      var n := |b| - 1;
      assert (a + b)[..|a + b| - 1] == a + b[..n] && (x + y)[..|x + y| - 1] == x + y[..n];
      SweptTogether(w, primary, a, b[..n], x, y[..n]);
    }
  }

  lemma RecoversAtOnce(w: World, primary: string, a: Id, outcome: Outcome)
    ensures outcome.Early? ==>
      Recovered(w, primary, a, outcome) ==
        if a in w.rows then w.(rows := w.rows[a := w.rows[a].(status := Failed, note := outcome.report)]) else w
  {
  }

  // ---------------------------------------------------------------- the loops

  lemma NothingChecked(rows: Rows, containers: Containers, start: int)
    ensures CheckedSoFar(rows, containers, start, []) == rows
    ensures forall p :: QueueOf(rows, containers, start, [], p) == []
  {
  }

  lemma OneMoreChecked(rows: Rows, containers: Containers, start: int, seen: seq<Id>, a: Id)
    requires a in rows && a !in seen && forall b :: b in seen ==> b in rows
    ensures var before, row := CheckedSoFar(rows, containers, start, seen), rows[a];
      var check := Check(row, Alive(containers, row), start);
      && a in before && before[a] == row
      && CheckedSoFar(rows, containers, start, seen + [a])
           == (if !Active(row) || (check.Owned? && row.status.Starting?) || (check.Up? && !row.status.Building?)
             then before
               else before[a := Checked(row, Alive(containers, row), start)])
      && (check.Queued? ==> check.build == NeedsBuild(row))
      && forall p :: QueueOf(rows, containers, start, seen + [a], p) == QueueOf(rows, containers, start, seen, p)
           + if Active(row) && Promoted(row) == p && check.Queued? then [(a, NeedsBuild(row))] else []
    ensures var row := rows[a];
      Active(row) ==>
        Checked(row, Alive(containers, row), start) ==
          match Check(row, Alive(containers, row), start)
          case Owned => row.(status := Starting)
          case Up => row.(status := Running)
          case Lost => row.(status := Failed, note := Other)
          case Queued(_) => row.(status := Starting)
  {
    assert (seen + [a])[..|seen|] == seen;
  }

  lemma AllAreChecked(rows: Rows, containers: Containers, start: int, ids: seq<Id>)
    requires Lists(ids, rows)
    ensures CheckedSoFar(rows, containers, start, ids) == AllChecked(rows, containers, start)
  {
  }

  lemma NothingUncorrupted(rows: Rows)
    ensures UncorruptedSoFar(rows, []) == rows && CorruptOf(rows, []) == []
  {
  }

  lemma OneMoreUncorrupted(rows: Rows, seen: seq<Id>, a: Id)
    requires a in rows && a !in seen && forall b :: b in seen ==> b in rows
    ensures var before := UncorruptedSoFar(rows, seen);
      && a in before && before[a] == rows[a]
      && UncorruptedSoFar(rows, seen + [a])
           == (if Corrupted(rows[a]) then before[a := rows[a].(status := Starting, note := NoNote)] else before)
      && CorruptOf(rows, seen + [a]) == CorruptOf(rows, seen) + if Corrupted(rows[a]) then [(a, true)] else []
  {
    assert (seen + [a])[..|seen|] == seen;
  }

  lemma AllAreUncorrupted(rows: Rows, ids: seq<Id>)
    requires Lists(ids, rows)
    ensures UncorruptedSoFar(rows, ids) == AllUncorrupted(rows)
  {
  }

  // ---------------------------------------------------------------- nobody is stranded

  function Ids(queue: Queue): (ids: seq<Id>)
    ensures |ids| == |queue| && forall i :: 0 <= i < |queue| ==> ids[i] == queue[i].0
  {
    seq(|queue|, i requires 0 <= i < |queue| => queue[i].0)
  }

  lemma {:induction false} QueueHolds(rows: Rows, containers: Containers, start: int, ids: seq<Id>, promoted: bool)
    requires Distinct(ids) && forall a :: a in ids ==> a in rows
    ensures var queue := Ids(QueueOf(rows, containers, start, ids, promoted));
      && Distinct(queue)
      && forall a :: a in queue <==>
           a in ids && Active(rows[a]) && Promoted(rows[a]) == promoted
           && Check(rows[a], Alive(containers, rows[a]), start).Queued?
  {
    hide Check, Alive;
    if ids != [] {
      var init, a := ids[..|ids| - 1], ids[|ids| - 1];
      assert ids == init + [a];
      QueueHolds(rows, containers, start, init, promoted);
      var before := QueueOf(rows, containers, start, init, promoted);
      assert Ids(before + [(a, NeedsBuild(rows[a]))]) == Ids(before) + [a];
    }
  }

  lemma {:induction false} CorruptHolds(rows: Rows, ids: seq<Id>)
    requires Distinct(ids) && forall a :: a in ids ==> a in rows
    ensures var queue := Ids(CorruptOf(rows, ids));
      Distinct(queue) && forall a :: a in queue <==> a in ids && Corrupted(rows[a])
  {
    hide Corrupted;
    if ids != [] {
      var init, a := ids[..|ids| - 1], ids[|ids| - 1];
      assert ids == init + [a];
      CorruptHolds(rows, init);
      assert Ids(CorruptOf(rows, init) + [(a, true)]) == Ids(CorruptOf(rows, init)) + [a];
    }
  }

  /** A row the check takes for a deployment of this very process, and leaves to its thread. */
  predicate LeftToItsThread(row: Row, alive: bool, start: int) {
    row.created >= start && !Promoted(row)
    && (row.status.Starting? || (!alive && row.container == None && Recoverable(row)))
  }

  lemma CheckCases(row: Row, alive: bool, start: int)
    requires Active(row) && (alive ==> row.container.Some?)
    ensures var r, check := Booted(row, alive, start), Check(row, alive, start);
      && (check.Owned? <==> LeftToItsThread(row, alive, start))
      && (check.Up? ==> alive && r.status.Running?) && (check.Lost? ==> r.status.Failed?)
      && (check.Queued? || check.Owned? ==> r.status.Starting?)
      && (check.Queued? && check.build ==> row.hasRepo)
      && (check.Lost? <==>
           !LeftToItsThread(row, alive, start) && !(alive && !row.status.Starting?) && !Recoverable(row))
      && !Corrupted(Checked(row, alive, start))
      && r.note == (if check.Lost? then Other else row.note) && r.created == row.created && r.container == row.container
  {
  }

  function BootQueue(rows: Rows, containers: Containers, start: int, ids: seq<Id>): Queue
    requires forall a :: a in ids ==> a in rows
  {
    QueueOf(rows, containers, start, ids, true)
      + (QueueOf(rows, containers, start, ids, false) + CorruptOf(AllChecked(rows, containers, start), ids))
  }

  lemma PartsOfQueue(rows: Rows, containers: Containers, start: int, ids: seq<Id>)
    requires Lists(ids, rows)
    ensures var p := Ids(QueueOf(rows, containers, start, ids, true));
      var o := Ids(QueueOf(rows, containers, start, ids, false));
      var c := Ids(CorruptOf(AllChecked(rows, containers, start), ids));
      && Ids(BootQueue(rows, containers, start, ids)) == p + (o + c)
      && Distinct(p) && Distinct(o) && Distinct(c)
  {
    var checked := AllChecked(rows, containers, start);
    var p, o := QueueOf(rows, containers, start, ids, true), QueueOf(rows, containers, start, ids, false);
    var c := CorruptOf(checked, ids);
    QueueHolds(rows, containers, start, ids, true);
    QueueHolds(rows, containers, start, ids, false);
    CorruptHolds(checked, ids);
    hide QueueOf, CorruptOf, Check, Corrupted, AllChecked, Active;
    assert Ids(p + (o + c)) == Ids(p) + (Ids(o) + Ids(c));
  }

  lemma PartMembers(rows: Rows, containers: Containers, start: int, ids: seq<Id>, a: Id)
    requires Lists(ids, rows)
    ensures var queued := a in rows && Active(rows[a]) && Check(rows[a], Alive(containers, rows[a]), start).Queued?;
      && (a in Ids(QueueOf(rows, containers, start, ids, true)) <==> queued && Promoted(rows[a]))
      && (a in Ids(QueueOf(rows, containers, start, ids, false)) <==> queued && !Promoted(rows[a]))
      && (a in Ids(CorruptOf(AllChecked(rows, containers, start), ids)) <==>
            a in rows && !Active(rows[a]) && Corrupted(rows[a]))
  {
    QueueHolds(rows, containers, start, ids, true);
    QueueHolds(rows, containers, start, ids, false);
    CorruptHolds(AllChecked(rows, containers, start), ids);
    if a in rows && Active(rows[a]) { CheckCases(rows[a], Alive(containers, rows[a]), start); }
    hide QueueOf, CorruptOf, Ids, Alive, Check, Corrupted, Promoted;
  }

  /** The corrupt builds are disjoint from what the first pass queues, and no app is queued twice. */
  lemma {:induction false} QueueIs(rows: Rows, containers: Containers, start: int, ids: seq<Id>)
    requires Lists(ids, rows)
    ensures var queue := Ids(BootQueue(rows, containers, start, ids));
      && Distinct(queue)
      && forall a :: a in queue <==> a in rows && Recovery(rows[a], Alive(containers, rows[a]), start).Some?
  {
    PartsOfQueue(rows, containers, start, ids);
    var p, o := Ids(QueueOf(rows, containers, start, ids, true)), Ids(QueueOf(rows, containers, start, ids, false));
    var c := Ids(CorruptOf(AllChecked(rows, containers, start), ids));
    var queue := p + (o + c);
    forall a
      ensures a in queue <==> a in rows && Recovery(rows[a], Alive(containers, rows[a]), start).Some?
      ensures !(a in p && a in o + c) && !(a in o && a in c)
    {
      PartMembers(rows, containers, start, ids, a);
      hide QueueOf, CorruptOf, Ids, Alive, Check, Corrupted, Promoted, Active;
    }
    hide *;
    DistinctTogether(o, c);
    DistinctTogether(p, o + c);
  }

  lemma DistinctTogether(a: seq<Id>, b: seq<Id>)
    requires Distinct(a) && Distinct(b) && forall x :: x in a ==> x !in b
    ensures Distinct(a + b)
  {
    forall i, j | 0 <= i < j < |a + b| ensures (a + b)[i] != (a + b)[j] {
      if i < |a| <= j { assert a[i] in a; }
    }
  }

  /** After the check every app is exactly one of up, failed, queued, left to its own thread, or no concern of it; and
      a promoted app is queued among the promoted unless it can no longer be recovered. */
  lemma {:induction false} EveryoneIsSorted(rows: Rows, containers: Containers, start: int, ids: seq<Id>, a: Id)
    requires Lists(ids, rows) && a in rows
    ensures var row, alive, booted := rows[a], Alive(containers, rows[a]), AllBooted(rows, containers, start)[a];
      var queued := a in Ids(BootQueue(rows, containers, start, ids));
      && (queued <==>
            || Corrupted(row)
            || (Active(row) && Recoverable(row) && !LeftToItsThread(row, alive, start) &&
                 !(alive && !row.status.Starting?)))
      && (queued ==> booted.status.Starting? && (Active(row) || (Corrupted(row) && booted.note.NoNote?)))
      && (!queued && Active(row) ==>
            || (booted.status.Running? && alive)
            || (booted.status.Failed? && !Recoverable(row))
            || (booted.status.Starting? && LeftToItsThread(row, alive, start)))
      && (!queued && !Active(row) ==> booted == row)
      && (Promoted(row) ==>
            if Recoverable(row) then Promoted(booted) && a in Ids(QueueOf(rows, containers, start, ids, true))
            else booted.status.Failed?)
  {
    QueueIs(rows, containers, start, ids);
    QueueHolds(rows, containers, start, ids, true);
    if Active(rows[a]) { CheckCases(rows[a], Alive(containers, rows[a]), start); }
    hide BootQueue, QueueOf, Ids, Alive;
  }

  lemma {:induction false} QueueFlags(rows: Rows, containers: Containers, start: int, ids: seq<Id>, promoted: bool,
      i: nat)
    requires (forall a :: a in ids ==> a in rows) && i < |QueueOf(rows, containers, start, ids, promoted)|
    ensures var (a, build) := QueueOf(rows, containers, start, ids, promoted)[i];
      a in rows && Active(rows[a]) && build == NeedsBuild(rows[a]) && (build ==> rows[a].hasRepo)
  {
    hide Alive;
    var init := ids[..|ids| - 1];
    if i < |QueueOf(rows, containers, start, init, promoted)| {
      QueueFlags(rows, containers, start, init, promoted, i);
    }
  }

  lemma {:induction false} CorruptFlags(rows: Rows, ids: seq<Id>, i: nat)
    requires (forall a :: a in ids ==> a in rows) && i < |CorruptOf(rows, ids)|
    ensures var (a, build) := CorruptOf(rows, ids)[i]; a in rows && Corrupted(rows[a]) && build
  {
    var init := ids[..|ids| - 1];
    if i < |CorruptOf(rows, init)| { CorruptFlags(rows, init, i); }
  }

  /** A queued app is rebuilt exactly when it was building, has no image or was hit by the corrupt cache, and then its
      checkout is there; otherwise its image is run again. */
  lemma {:induction false} RebuiltExactly(rows: Rows, containers: Containers, start: int, ids: seq<Id>, i: nat)
    requires Lists(ids, rows) && i < |BootQueue(rows, containers, start, ids)|
    ensures var (a, build) := BootQueue(rows, containers, start, ids)[i];
      && a in rows && (build <==> rows[a].status.Building? || !rows[a].hasImage || Corrupted(rows[a]))
      && (build ==> rows[a].hasRepo)
  {
    var checked := AllChecked(rows, containers, start);
    var p, o := QueueOf(rows, containers, start, ids, true), QueueOf(rows, containers, start, ids, false);
    var c := CorruptOf(checked, ids);
    hide QueueOf, CorruptOf, AllChecked, Check, Alive;
    if i < |p| {
      QueueFlags(rows, containers, start, ids, true, i);
    } else if i < |p| + |o| {
      QueueFlags(rows, containers, start, ids, false, i - |p|);
    } else {
      CorruptFlags(checked, ids, i - |p| - |o|);
      PartMembers(rows, containers, start, ids, c[i - |p| - |o|].0);
      assert Ids(c)[i - |p| - |o|] == c[i - |p| - |o|].0;
    }
  }

  function AllBooted(rows: Rows, containers: Containers, start: int): Rows {
    map a | a in rows :: Booted(rows[a], Alive(containers, rows[a]), start)
  }

  lemma TwoPasses(rows: Rows, containers: Containers, start: int)
    ensures AllUncorrupted(AllChecked(rows, containers, start)) == AllBooted(rows, containers, start)
  {
  }

  // ---------------------------------------------------------------- the sweep ends

  /** Containers never get an identifier that was given before. */
  predicate FreshIds(containers: Containers, outcomes: seq<Outcome>) {
    && (forall i :: 0 <= i < |outcomes| && IdOf(outcomes[i]).Some? ==> IdOf(outcomes[i]).value !in containers)
    && forall i, j :: 0 <= i < j < |outcomes| && IdOf(outcomes[i]).Some? ==> IdOf(outcomes[i]) != IdOf(outcomes[j])
  }

  /** Running in a live container launched with the primary domain, or failed with a report. */
  predicate Settled(row: Row, containers: Containers, primary: string) {
    || (row.status.Failed? && row.note != PromotionMarker)
    || (row.status.Running? && row.container.Some? && row.container.value in containers
        && containers[row.container.value] == Container(true, primary))
  }

  predicate SaneReports(outcomes: seq<Outcome>) {
    forall i :: 0 <= i < |outcomes| && outcomes[i].Early? ==> outcomes[i].report != PromotionMarker
  }

  /** After a sweep each queued app is settled, every other row is as it was, and no other container was touched. */
  lemma {:induction false} SweepSettles(w: World, primary: string, queue: Queue, outcomes: seq<Outcome>)
    requires |outcomes| == |queue| && Distinct(Ids(queue)) && FreshIds(w.containers, outcomes) && SaneReports(outcomes)
    ensures var end := Swept(w, primary, queue, outcomes);
      && end.rows.Keys == w.rows.Keys
      && (forall a :: a in w.rows && a in Ids(queue) ==> Settled(end.rows[a], end.containers, primary))
      && (forall a :: a in w.rows && a !in Ids(queue) ==> end.rows[a] == w.rows[a])
      && (forall c :: c in w.containers ==> c in end.containers && end.containers[c] == w.containers[c])
      && (forall c :: c in end.containers ==>
           c in w.containers || exists i :: 0 <= i < |outcomes| && IdOf(outcomes[i]) == Some(c))
  {
    if queue != [] {
      var n := |queue| - 1;
      var mid := Swept(w, primary, queue[..n], outcomes[..n]);
      assert Ids(queue) == Ids(queue[..n]) + [queue[n].0];
      SweepSettles(w, primary, queue[..n], outcomes[..n]);
      OneMoreSettles(w, mid, primary, Ids(queue[..n]), queue[n].0, outcomes[..n], outcomes[n]);
      assert outcomes == outcomes[..n] + [outcomes[n]];
      hide Settled, Recovered, IdOf;
    }
  }

  lemma OneMoreSettles(w: World, mid: World, primary: string, swept: seq<Id>, a: Id, before: seq<Outcome>,
      outcome: Outcome)
    requires a !in swept && mid.rows.Keys == w.rows.Keys && FreshIds(w.containers, before + [outcome])
    requires outcome.Early? ==> outcome.report != PromotionMarker
    requires forall b :: b in w.rows && b in swept ==> Settled(mid.rows[b], mid.containers, primary)
    requires forall b :: b in w.rows && b !in swept ==> mid.rows[b] == w.rows[b]
    requires forall c :: c in w.containers ==> c in mid.containers && mid.containers[c] == w.containers[c]
    requires forall c :: c in mid.containers ==>
      c in w.containers || exists i :: 0 <= i < |before| && IdOf(before[i]) == Some(c)
    ensures var end, all := Recovered(mid, primary, a, outcome), before + [outcome];
      && end.rows.Keys == w.rows.Keys
      && (a in w.rows ==> Settled(end.rows[a], end.containers, primary))
      && (forall b :: b in w.rows && b in swept ==> Settled(end.rows[b], end.containers, primary))
      && (forall b :: b in w.rows && b !in swept && b != a ==> end.rows[b] == w.rows[b])
      && (forall c :: c in w.containers ==> c in end.containers && end.containers[c] == w.containers[c])
      && (forall c :: c in end.containers ==>
           c in w.containers || exists i :: 0 <= i < |all| && IdOf(all[i]) == Some(c))
  {
    var all, end := before + [outcome], Recovered(mid, primary, a, outcome);
    OneRecovered(mid, primary, a, outcome);
    IdIsNew(w, mid, before, outcome);
    hide *;
    forall b | b in w.rows && b in swept ensures Settled(end.rows[b], end.containers, primary) {
      StaysSettled(mid.rows[b], mid.containers, end.containers, primary);
    }
    forall c | c in end.containers
      ensures c in w.containers || exists i :: 0 <= i < |all| && IdOf(all[i]) == Some(c)
    {
      if c in mid.containers {
        if c !in w.containers {
          var i :| 0 <= i < |before| && IdOf(before[i]) == Some(c);
          assert all[i] == before[i];
        }
      } else {
        assert all[|before|] == outcome;
      }
    }
  }

  lemma IdIsNew(w: World, mid: World, before: seq<Outcome>, outcome: Outcome)
    requires FreshIds(w.containers, before + [outcome])
    requires forall c :: c in mid.containers ==>
      c in w.containers || exists i :: 0 <= i < |before| && IdOf(before[i]) == Some(c)
    ensures IdOf(outcome).Some? ==> IdOf(outcome).value !in mid.containers
  {
    var all := before + [outcome];
    assert all[|before|] == outcome && forall i :: 0 <= i < |before| ==> all[i] == before[i];
    hide IdOf;
  }

  lemma StaysSettled(row: Row, containers: Containers, more: Containers, primary: string)
    requires Settled(row, containers, primary)
    requires forall c :: c in containers ==> c in more && more[c] == containers[c]
    ensures Settled(row, more, primary)
  {
  }

  /** One recovery changes its own row and at most adds its own container. */
  lemma OneRecovered(w: World, primary: string, a: Id, outcome: Outcome)
    requires outcome.Early? ==> outcome.report != PromotionMarker
    ensures var end := Recovered(w, primary, a, outcome);
      && end.rows.Keys == w.rows.Keys
      && (a in w.rows ==> Settled(end.rows[a], end.containers, primary))
      && (forall b :: b in w.rows && b != a ==> end.rows[b] == w.rows[b])
      && (forall c :: c in end.containers ==> c in w.containers || Some(c) == IdOf(outcome))
      && (forall c :: c in w.containers && Some(c) != IdOf(outcome) ==>
            c in end.containers && end.containers[c] == w.containers[c])
  {
  }

  /** One boot and its sweeps, whatever the launches come to: every app that was up, coming up or hit by the corrupt
      cache is settled, running in a live container launched with the primary domain or failed with a report, if and
      only if none of them was taken for a deployment of this process. The rest is untouched. */
  lemma {:induction false} NobodyIsStranded(rows: Rows, containers: Containers, primary: string, start: int,
      ids: seq<Id>, outcomes: seq<Outcome>)
    requires Lists(ids, rows) && |outcomes| == |BootQueue(rows, containers, start, ids)|
    requires FreshIds(containers, outcomes) && SaneReports(outcomes)
    requires forall a ::
      a in rows && Alive(containers, rows[a]) && (rows[a].status.Running? || rows[a].status.Building?) ==>
               containers[rows[a].container.value].domain == primary
    ensures var booted := World(AllBooted(rows, containers, start), containers);
      var end := Swept(booted, primary, BootQueue(rows, containers, start, ids), outcomes);
      && end.rows.Keys == rows.Keys
      && forall a :: a in rows ==>
           if Active(rows[a]) || Corrupted(rows[a]) then
             && (Settled(end.rows[a], end.containers, primary) <==>
                   !(Active(rows[a]) && LeftToItsThread(rows[a], Alive(containers, rows[a]), start)))
             && (!Settled(end.rows[a], end.containers, primary) ==>
                  end.rows[a].status.Starting? && end.rows[a].created >= start)
           else end.rows[a] == rows[a]
  {
    var booted := World(AllBooted(rows, containers, start), containers);
    var queue := BootQueue(rows, containers, start, ids);
    QueueIs(rows, containers, start, ids);
    SweepSettles(booted, primary, queue, outcomes);
    var end := Swept(booted, primary, queue, outcomes);
    forall a | a in rows
      ensures if Active(rows[a]) || Corrupted(rows[a]) then
             && (Settled(end.rows[a], end.containers, primary) <==>
                   !(Active(rows[a]) && LeftToItsThread(rows[a], Alive(containers, rows[a]), start)))
             && (!Settled(end.rows[a], end.containers, primary) ==>
                  end.rows[a].status.Starting? && end.rows[a].created >= start)
           else end.rows[a] == rows[a]
    {
      hide BootQueue, Ids, Swept, FreshIds, SaneReports, Lists;
      if Active(rows[a]) { CheckCases(rows[a], Alive(containers, rows[a]), start); }
    }
  }

  // ---------------------------------------------------------------- told from the fields alone

  /** One row at a boot, `alive` saying whether its container is. Only what is up, coming up, or failed for a corrupt
      cache with its checkout there is looked at; a live container is adopted; a row that a thread of this very process
      may still be at work on is left to it, unless a promotion marked it; and of the rest, what has its checkout, or a
      stored manifest and an image it was not about to rebuild, is queued, and everything else has failed. */
  lemma {:induction false} BootedExactly(row: Row, alive: bool, start: int)
    ensures var after, queued := Booted(row, alive, start), Recovery(row, alive, start);
      var up := row.status.Running? || row.status.Building?;
      var marked := row.status.Starting? && row.note.PromotionMarker?;
      var young := row.created >= start && !marked;
      var saved := row.hasRepo || (row.hasManifest && row.hasImage && !row.status.Building?);
      if row.status.Failed? && row.note.CacheCorrupt? && row.hasRepo then
        queued == Some(true) && after == row.(status := Starting, note := NoNote)
      else if !up && !row.status.Starting? then
        queued == None && after == row
      else if row.status.Starting? && young then
        queued == None && after == row
      else if up && alive then
        queued == None && after == row.(status := Running)
      else if !saved then
        queued == None && after == row.(status := Failed, note := Other)
      else if row.container == None && young then
        queued == None && after == row.(status := Starting)
      else
        queued == Some(row.status.Building? || !row.hasImage) && after == row.(status := Starting)
  {
  }

  /** The row a launch leaves, and its container. */
  ghost predicate LaunchTold(before: Row, after: Row, containers: Containers, primary: string, outcome: Outcome) {
    match outcome
    case Early(report) => after == before.(status := Failed, note := report)
    case Refused => after == before.(status := Failed, note := Other)
    case NotRun => after == before.(status := Failed, note := Other, container := None)
    case Broken(id, cleaned) =>
      && after == before.(status := Failed, note := Other, container := if cleaned then None else Some(id))
      && id in containers && containers[id] == Container(!cleaned, primary)
    case Unready(id) =>
      && after == before.(status := Failed, note := Other, container := Some(id))
      && id in containers && containers[id] == Container(true, primary)
    case Serving(id) =>
      && after == before.(status := Running, note := NoNote, container := Some(id))
      && id in containers && containers[id] == Container(true, primary)
  }

  lemma {:induction false} RecoveredTold(w: World, primary: string, a: Id, outcome: Outcome)
    requires a in w.rows
    ensures var end := Recovered(w, primary, a, outcome);
      a in end.rows && LaunchTold(w.rows[a], end.rows[a], end.containers, primary, outcome)
  {
  }

  lemma {:induction false} StaysTold(before: Row, after: Row, containers: Containers, more: Containers, primary: string,
                                     outcome: Outcome)
    requires LaunchTold(before, after, containers, primary, outcome)
    requires forall c :: c in containers ==> c in more && more[c] == containers[c]
    ensures LaunchTold(before, after, more, primary, outcome)
  {
  }

  /** After the sweep every queued app is what its own launch made of it. */
  lemma {:induction false} SweepTold(w: World, primary: string, queue: Queue, outcomes: seq<Outcome>, i: nat)
    requires |outcomes| == |queue| && Distinct(Ids(queue)) && FreshIds(w.containers, outcomes) && SaneReports(outcomes)
    requires i < |queue| && queue[i].0 in w.rows
    ensures var end, a := Swept(w, primary, queue, outcomes), queue[i].0;
      a in end.rows && LaunchTold(w.rows[a], end.rows[a], end.containers, primary, outcomes[i])
  {
    hide Recovered, LaunchTold, Settled, IdOf;
    var n := |queue| - 1;
    var mid := Swept(w, primary, queue[..n], outcomes[..n]);
    assert Ids(queue) == Ids(queue[..n]) + [queue[n].0];
    assert outcomes == outcomes[..n] + [outcomes[n]];
    SweepSettles(w, primary, queue[..n], outcomes[..n]);
    IdIsNew(w, mid, outcomes[..n], outcomes[n]);
    OneRecovered(mid, primary, queue[n].0, outcomes[n]);
    if i == n {
      RecoveredTold(mid, primary, queue[n].0, outcomes[n]);
    } else {
      SweepTold(w, primary, queue[..n], outcomes[..n], i);
      var end, a := Recovered(mid, primary, queue[n].0, outcomes[n]), queue[i].0;
      assert Ids(queue)[i] != Ids(queue)[n];
      StaysTold(w.rows[a], mid.rows[a], mid.containers, end.containers, primary, outcomes[i]);
    }
  }

  /** There is an order for the rows of every table. */
  lemma {:induction false} ListingExists(rows: Rows) returns (ids: seq<Id>)
    ensures Lists(ids, rows)
    decreases |rows.Keys|
  {
    if rows.Keys == {} {
      ids := [];
    } else {
      var a :| a in rows.Keys;
      ProperSubsetIsSmaller((rows - {a}).Keys, rows.Keys);
      ids := ListingExists(rows - {a});
      ids := ids + [a];
    }
  }

  /** An app that says running or building and whose container is up is adopted as it is, and nothing is queued for it;
      when the container is gone, or there is none, it is queued, failed, or left to its thread. */
  lemma {:induction false} UpExactly(rows: Rows, containers: Containers, start: int, ids: seq<Id>, a: Id)
    requires Lists(ids, rows) && a in rows && (rows[a].status.Running? || rows[a].status.Building?)
    ensures var row, booted := rows[a], AllBooted(rows, containers, start)[a];
      if row.container.Some? && row.container.value in containers && containers[row.container.value].alive
      then a !in Ids(BootQueue(rows, containers, start, ids)) && booted == row.(status := Running)
      else booted.status.Failed? || booted.status.Starting?
  {
    hide BootQueue, QueueOf, Ids;
    QueueIs(rows, containers, start, ids);
    BootedExactly(rows[a], Alive(containers, rows[a]), start);
  }
}
