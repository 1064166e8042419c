/** The domains an instance answers on: which one a host belongs to, which app it names, and the one that is primary. */
module Domains {
  import opened Common
  import AppId
  import Apps

  // ---------------------------------------------------------------- names

  function LowerChar(c: char): char { if 'A' <= c <= 'Z' then c + 32 as char else c }

  /** Lower case; letters outside ASCII are not part of this model. */
  function Lower(s: string): (r: string)
    ensures |r| == |s| && forall i :: 0 <= i < |s| ==> r[i] == LowerChar(s[i])
  {
    seq(|s|, i requires 0 <= i < |s| => LowerChar(s[i]))
  }

  const CAPITALS := "ABCDEFGHIJKLMNOPQRSTUVWXYZ"
  const SMALL := "abcdefghijklmnopqrstuvwxyz"

  lemma {:induction false} LowerExactly(c: char)
    ensures forall i :: 0 <= i < 26 && c == CAPITALS[i] ==> LowerChar(c) == SMALL[i]
    ensures c !in CAPITALS ==> LowerChar(c) == c
  {
    assert forall i :: 0 <= i < 26 ==> CAPITALS[i] as int == 'A' as int + i && SMALL[i] as int == 'a' as int + i;
    if 'A' <= c <= 'Z' { assert c == CAPITALS[c as int - 'A' as int]; }
  }

  function NoPort(s: string): (r: string)
    ensures r <= s && ':' !in r && (r == s || s[|r|] == ':')
  {
    if s == "" || s[0] == ':' then "" else [s[0]] + NoPort(s[1..])
  }

  /** A configured domain; its name, in lower case, may have a port. */
  datatype Domain = Domain(name: string, tls: bool)
  {
    function Host(): string { NoPort(name) }
  }

  predicate EndsWith(s: string, suffix: string) { |s| >= |suffix| && s[|s| - |suffix|..] == suffix }

  predicate OwnsHost(d: Domain, h: string) { d.Host() != "" && (h == d.Host() || EndsWith(h, "." + d.Host())) }

  /** The host is the domain or something under it, ports and case aside. */
  predicate Owns(d: Domain, host: string) { OwnsHost(d, Lower(NoPort(host))) }

  // ---------------------------------------------------------------- the most specific owner

  /** The owner the scan has found so far: a later one only replaces it if its name is longer. */
  function Best(domains: seq<Domain>, host: string): Option<Domain> {
    if domains == [] then None else
      var before, d := Best(domains[..|domains| - 1], host), domains[|domains| - 1];
      if Owns(d, host) && (before == None || |d.Host()| > |before.value.Host()|) then Some(d) else before
  }

  /** `Domain.match`. */
  method Match(domains: seq<Domain>, host: string) returns (best: Option<Domain>)
    ensures best == Best(domains, host)
  {
    hide Owns;
    best := None;
    for i := 0 to |domains|
      invariant best == Best(domains[..i], host)
    {
      var d := domains[i];
      assert domains[..i + 1][..i] == domains[..i];
      if Owns(d, host) && (best == None || |d.Host()| > |best.value.Host()|) { best := Some(d); }
    }
    assert domains[..|domains|] == domains;
  }

  lemma {:induction false} BestIsLongest(domains: seq<Domain>, host: string)
    ensures var best := Best(domains, host);
      && (best == None <==> forall d :: d in domains ==> !Owns(d, host))
      && (best.Some? ==>
            && best.value in domains && Owns(best.value, host)
            && forall d :: d in domains && Owns(d, host) ==> |d.Host()| <= |best.value.Host()|)
  {
    hide Owns;
    if domains != [] {
      var init, d := domains[..|domains| - 1], domains[|domains| - 1];
      assert domains == init + [d];
      BestIsLongest(init, host);
    }
  }

  /** Of several longest owners it is the first. */
  lemma {:induction false} BestIsFirst(domains: seq<Domain>, host: string)
    ensures Best(domains, host).Some? ==>
      exists i :: 0 <= i < |domains| && domains[i] == Best(domains, host).value
                  && forall j :: 0 <= j < i && Owns(domains[j], host) ==> |domains[j].Host()| < |domains[i].Host()|
  {
    hide Owns;
    if domains != [] {
      var init, d := domains[..|domains| - 1], domains[|domains| - 1];
      assert domains == init + [d];
      BestIsFirst(init, host);
      BestIsLongest(init, host);
      var before, best := Best(init, host), Best(domains, host);
      if best.Some? && best != before {
        assert domains[|init|] == d == best.value;
        assert forall j :: 0 <= j < |init| ==> domains[j] in init;
      } else if best.Some? {
        var i :| 0 <= i < |init| && init[i] == before.value
                 && forall j :: 0 <= j < i && Owns(init[j], host) ==> |init[j].Host()| < |init[i].Host()|;
        assert domains[i] == init[i];
      }
    }
  }

  /** Owners of one host with names of the same length are the same but for the port. */
  lemma {:induction false} OwnersNest(d: Domain, e: Domain, h: string)
    requires OwnsHost(d, h) && OwnsHost(e, h) && |d.Host()| == |e.Host()|
    ensures d.Host() == e.Host()
  {
    TailOf(d, h);
    TailOf(e, h);
  }

  lemma {:induction false} TailOf(d: Domain, h: string)
    requires OwnsHost(d, h)
    ensures var n := d.Host();
      |h| >= |n| && h[|h| - |n|..] == n && (|h| > |n| ==> h[|h| - |n| - 1] == '.')
  {
    var n := d.Host();
    if h != n {
      var tail := h[|h| - |n| - 1..];
      assert tail == "." + n;
      assert h[|h| - |n| - 1] == tail[0] && h[|h| - |n|..] == tail[1..];
    }
  }

  /** No two domains with the same host. */
  ghost predicate HostsApart(domains: seq<Domain>) {
    forall d, e :: d in domains && e in domains && d.Host() == e.Host() ==> d == e
  }

  /** The match is the longest owner whatever order the rows come in: the same host always, and the same row when no two
      rows share a host. */
  lemma {:induction false} MatchIgnoresOrder(domains: seq<Domain>, others: seq<Domain>, host: string)
    requires forall d :: d in domains <==> d in others
    ensures Best(domains, host).Some? <==> Best(others, host).Some?
    ensures Best(domains, host).Some? ==> Best(domains, host).value.Host() == Best(others, host).value.Host()
    ensures HostsApart(domains) ==> Best(domains, host) == Best(others, host)
  {
    BestIsLongest(domains, host);
    BestIsLongest(others, host);
    hide OwnsHost, Best;
    if Best(domains, host).Some? {
      OwnersNest(Best(domains, host).value, Best(others, host).value, Lower(NoPort(host)));
    }
  }

  // ---------------------------------------------------------------- the app a host names

  function AppNameFromHostname(d: Domain, host: string): Option<string> {
    var h := Lower(NoPort(host));
    if !OwnsHost(d, h) || h == d.Host() || |h| <= |d.Host()| then None else
      var app := h[..|h| - |d.Host()| - 1];
      if AppId.IsValidAppName(app) then Some(app) else None
  }

  function AppOf(domains: seq<Domain>, host: string): Option<string> {
    match Best(domains, host)
    case None => None
    case Some(d) => AppNameFromHostname(d, host)
  }

  lemma {:induction false} LabelIsPlain(app: string)
    requires AppId.IsLabel(app)
    ensures '.' !in app && ':' !in app && Lower(app) == app && AppId.IsValidAppName(app)
  {
    AppId.ValidNameExactly(app);
  }

  /** An owner of `app.n` longer than `n` is `app.n` itself. */
  lemma {:induction false} NothingBetween(e: Domain, app: string, n: string)
    requires '.' !in app && OwnsHost(e, app + "." + n) && |e.Host()| > |n|
    ensures e.Host() == app + "." + n
  {
    var h := app + "." + n;
    TailOf(e, h);
    NoDotBefore(app, n, |h| - |e.Host()| - 1);
    assert h[0..] == h;
  }

  lemma {:induction false} NoDotBefore(app: string, n: string, i: int)
    requires '.' !in app
    ensures 0 <= i < |app| ==> (app + "." + n)[i] != '.'
  {
    if 0 <= i < |app| { assert (app + "." + n)[i] == app[i]; }
  }

  lemma {:induction false} OwnsItsApps(d: Domain, app: string)
    requires d.Host() != ""
    ensures OwnsHost(d, app + "." + d.Host())
  {
    var h := app + "." + d.Host();
    assert h[|app|..] == "." + d.Host();
  }

  /** Routing inverts naming: the host `<app>.<domain>`, with any port and in any case, is routed back to the app, if
      and only if no domain is configured under that very name. */
  lemma {:induction false} RoutesBackExactly(domains: seq<Domain>, d: Domain, app: string, host: string)
    requires d in domains && d.Host() != "" && AppId.IsLabel(app)
    requires Lower(NoPort(host)) == app + "." + d.Host()
    ensures AppOf(domains, host) == Some(app) <==> forall e :: e in domains ==> e.Host() != app + "." + d.Host()
  {
    hide Best, OwnsHost, AppNameFromHostname, AppId.IsLabel;
    var h := app + "." + d.Host();
    OwnsItsApps(d, app);
    BestIsLongest(domains, host);
    var best := Best(domains, host).value;
    if e :| e in domains && e.Host() == h {
      OwnsItself(e);
      LongestIsItself(best, h);
      ItselfNamesNoApp(best, host);
    } else {
      LabelIsPlain(app);
      if |best.Host()| > |d.Host()| { NothingBetween(best, app, d.Host()); }
      OwnersNest(best, d, h);
      NamesTheApp(best, host, app);
    }
  }

  /** The app a host names, for every host: `app` and the longest name among the domains that the host is, or is
      under. */
  lemma {:induction false} AppOfExactly(domains: seq<Domain>, host: string, app: string)
    ensures AppOf(domains, host) == Some(app) <==>
      && (AppId.IsLabel(app) || (app != "" && app[|app| - 1] == '\n' && AppId.IsLabel(app[..|app| - 1])))
      && exists d :: d in domains && d.Host() != "" && Lower(NoPort(host)) == app + ("." + d.Host())
           && forall e :: e in domains && Owns(e, host) ==> |e.Host()| <= |d.Host()|
  {
    hide Best, AppId.IsLabel, AppId.IsValidAppName, Owns, OwnsHost;
    var best := Best(domains, host);
    AppId.ValidNameExactly(app);
    BestIsLongest(domains, host);
    if AppOf(domains, host) == Some(app) {
      NamedByOwner(best.value, host, app);
    }
    if d :| d in domains && d.Host() != "" && Lower(NoPort(host)) == app + ("." + d.Host())
            && forall e :: e in domains && Owns(e, host) ==> |e.Host()| <= |d.Host()| {
      OwnerNames(d, host, app);
      SameOwner(best.value, d, host);
      OwnerNames(best.value, host, app);
    }
  }

  lemma {:induction false} NamedByOwner(d: Domain, host: string, app: string)
    requires AppNameFromHostname(d, host) == Some(app)
    ensures d.Host() != "" && Lower(NoPort(host)) == app + ("." + d.Host()) && AppId.IsValidAppName(app)
  {
    hide AppId.IsValidAppName;
    var h := Lower(NoPort(host));
    TailOf(d, h);
    assert h == h[..|h| - |d.Host()| - 1] + ([h[|h| - |d.Host()| - 1]] + h[|h| - |d.Host()|..]);
  }

  lemma {:induction false} OwnerNames(d: Domain, host: string, app: string)
    requires d.Host() != "" && Lower(NoPort(host)) == app + ("." + d.Host())
    ensures Owns(d, host)
    ensures AppNameFromHostname(d, host) == if AppId.IsValidAppName(app) then Some(app) else None
  {
    hide AppId.IsValidAppName;
    var h := Lower(NoPort(host));
    assert h[|app|..] == "." + d.Host() && h[..|app|] == app;
    assert |h| == |app| + 1 + |d.Host()|;
  }

  lemma {:induction false} SameOwner(a: Domain, b: Domain, host: string)
    requires Owns(a, host) && Owns(b, host) && |a.Host()| == |b.Host()|
    ensures a.Host() == b.Host()
  {
    OwnersNest(a, b, Lower(NoPort(host)));
  }

  lemma {:induction false} OwnsItself(e: Domain)
    requires e.Host() != ""
    ensures OwnsHost(e, e.Host())
  {
  }

  lemma {:induction false} LongestIsItself(e: Domain, h: string)
    requires OwnsHost(e, h) && |e.Host()| >= |h|
    ensures e.Host() == h
  {
    TailOf(e, h);
    assert h[0..] == h;
  }

  lemma {:induction false} ItselfNamesNoApp(d: Domain, host: string)
    requires Lower(NoPort(host)) == d.Host()
    ensures AppNameFromHostname(d, host) == None
  {
  }

  lemma {:induction false} NamesTheApp(d: Domain, host: string, app: string)
    requires Lower(NoPort(host)) == app + "." + d.Host() && d.Host() != "" && AppId.IsValidAppName(app)
    ensures AppNameFromHostname(d, host) == Some(app)
  {
    hide AppId.IsValidAppName;
    OwnsItsApps(d, app);
    assert (app + "." + d.Host())[..|app|] == app;
  }

  // ---------------------------------------------------------------- the table

  /** A row but for its name, the key. `status` and `error` are the certificate's. */
  datatype Row = Row(tls: bool, status: int, error: Option<string>, primary: bool)

  type Rows = map<string, Row>

  /** What `set_primary_domain` comes to. */
  datatype Promotion = Changed | Unchanged | NotFound | NoPrimary | AppsBusy | DatabaseError

  lemma {:induction false} AppsHandedOver(apps: map<Apps.Id, Apps.Row>)
    ensures forall a :: a in apps ==>
      Apps.HandedOver(apps[a]) ==
        if apps[a].status.Running? || (apps[a].status.Failed? && apps[a].container.Some?)
        then apps[a].(status := Apps.Starting, note := Apps.PromotionMarker)
        else apps[a]
    ensures forall a :: a in apps ==>
      (Apps.BusyForPromotion(apps[a]) <==>
         apps[a].status.Building? || apps[a].status.Starting? || apps[a].status.Removing?)
  {
  }

  ghost predicate IsPrimary(rows: Rows, name: string) { name in rows && rows[name].primary }

  ghost predicate OnePrimary(rows: Rows) {
    exists p :: IsPrimary(rows, p) && forall q :: IsPrimary(rows, q) ==> q == p
  }

  /** No two rows with the same host, case aside. */
  ghost predicate HostsDiffer(rows: Rows) {
    forall a, b :: a in rows && b in rows && Lower(NoPort(a)) == Lower(NoPort(b)) ==> a == b
  }

  function Hosts(rows: Rows): set<string> { set a | a in rows :: NoPort(a) }

  class DomainTable {
    var rows: Rows
    var apps: map<Apps.Id, Apps.Row>

    /** The row of a host, in the order the rows come. */
    method GetRecord(order: seq<string>, name: string) returns (found: Option<string>)
      requires forall a :: a in order <==> a in rows
      ensures found.Some? ==> found.value in rows && Lower(NoPort(found.value)) == Lower(NoPort(name))
      ensures found == None ==> forall a :: a in rows ==> Lower(NoPort(a)) != Lower(NoPort(name))
    {
      for i := 0 to |order|
        invariant forall k :: 0 <= k < i ==> Lower(NoPort(order[k])) != Lower(NoPort(name))
      {
        if Lower(NoPort(order[i])) == Lower(NoPort(name)) { return Some(order[i]); }
      }
      found := None;
    }

    /** `upsert_record`: an existing row keeps its primary flag, so a single primary stays single unless a new row says
        it is primary. */
    method Upsert(name: string, row: Row)
      modifies this`rows
      ensures old(OnePrimary(rows)) ==> (OnePrimary(rows) <==> Lower(name) in old(rows) || !row.primary)
      ensures rows == old(rows)[Lower(name) := row.(primary :=
        if Lower(name) in old(rows) then old(rows)[Lower(name)].primary else row.primary)]
      ensures Lower(name) in old(rows) ==> Acts(old(rows), Update(Lower(name), row), rows)
      ensures Lower(name) == name && !row.primary &&
        (forall a :: a in old(rows) ==> Lower(NoPort(a)) != Lower(NoPort(name)))
        ==> Acts(old(rows), Add(name, row), rows)
    {
      if OnePrimary(rows) { UpsertKeepsExactly(rows, name, row); }
      var key := Lower(name);
      rows := rows[key := if key in rows then row.(primary := rows[key].primary) else row];
    }

    /** `remove_non_primary_record`: a single primary stays single. */
    method RemoveNonPrimary(name: string) returns (removed: bool)
      modifies this`rows
      ensures old(OnePrimary(rows)) ==> OnePrimary(rows) && forall a :: IsPrimary(rows, a) <==> old(IsPrimary(rows, a))
      ensures removed <==> Lower(name) in old(rows) && !old(rows)[Lower(name)].primary
      ensures rows == if removed then old(rows) - {Lower(name)} else old(rows)
      ensures Acts(old(rows), Remove(Lower(name)), rows)
    {
      removed := Lower(name) in rows && !rows[Lower(name)].primary;
      if removed { rows := rows - {Lower(name)}; }
      assert forall a :: IsPrimary(rows, a) <==> old(IsPrimary(rows, a));
    }

    /** `set_primary_domain`, the database failing before statement `failAt` of the transaction. Whatever goes wrong
        after the first write is rolled back: unless it reports the change, no row and no app is different. */
    method SetPrimary(order: seq<string>, name: string, failAt: nat) returns (r: Promotion)
      requires forall a :: a in order <==> a in rows
      modifies this
      ensures r.Changed? ==>
        && (exists old', target :: Promoted(old(rows), old', target, rows) &&
             Lower(NoPort(target)) == Lower(NoPort(name)))
        && (forall a :: a in old(apps) ==>
              !(old(apps)[a].status.Building? || old(apps)[a].status.Starting? || old(apps)[a].status.Removing?))
        && apps.Keys == old(apps).Keys && forall a :: a in apps ==>
             apps[a] ==
               if old(apps)[a].status.Running? || (old(apps)[a].status.Failed? && old(apps)[a].container.Some?)
               then old(apps)[a].(status := Apps.Starting, note := Apps.PromotionMarker)
               else old(apps)[a]
      ensures !r.Changed? ==> rows == old(rows) && apps == old(apps)
      ensures r.AppsBusy? ==>
        exists a :: a in apps && (apps[a].status.Building? || apps[a].status.Starting? || apps[a].status.Removing?)
      ensures r.NotFound? ==> forall a :: a in rows ==> Lower(NoPort(a)) != Lower(NoPort(name))
      ensures r.NoPrimary? ==> forall a :: !IsPrimary(rows, a)
      ensures r.Unchanged? ==> exists a :: IsPrimary(rows, a) && Lower(NoPort(a)) == Lower(NoPort(name))
      ensures r.DatabaseError? && OnePrimary(rows) ==> failAt <= 3
      ensures Acts(old(rows), Promote(name), rows)
    {
      hide Lower, NoPort, LowerChar, Apps.HandedOver, Apps.BusyForPromotion;
      AppsHandedOver(apps);
      var savedRows, savedApps := rows, apps;
      var target := GetRecord(order, name);
      if target == None { return NotFound; }
      var current: string;
      if p :| p in rows && rows[p].primary { current := p; } else { return NoPrimary; }
      assert IsPrimary(rows, current);
      if target.value == current { return Unchanged; }
      assert OnePrimary(rows) ==> !IsPrimary(rows, target.value);
      if a :| a in apps && Apps.BusyForPromotion(apps[a]) { return AppsBusy; }
      if failAt == 0 { return DatabaseError; }
      rows := rows[current := rows[current].(primary := false)];
      if failAt == 1 || rows[target.value].primary {
        rows, apps := savedRows, savedApps;
        return DatabaseError;
      }
      rows := rows[target.value := rows[target.value].(primary := true)];
      if failAt == 2 {
        rows, apps := savedRows, savedApps;
        return DatabaseError;
      }
      apps := map a | a in apps :: Apps.HandedOver(apps[a]);
      if failAt == 3 {
        rows, apps := savedRows, savedApps;
        return DatabaseError;
      }
      assert Promoted(old(rows), current, target.value, rows);
      r := Changed;
    }

    /** `seed_domains`: once, into an empty table; an extra whose host was seen is left out. */
    method Seed(name: string, tls: bool, extras: seq<(string, Row)>) returns (seeded: bool)
      requires forall i :: 0 <= i < |extras| ==> !extras[i].1.primary && Lower(extras[i].0) == extras[i].0
      requires Lower(name) == name
      modifies this`rows
      ensures seeded <==> old(rows) == map[]
      ensures !seeded ==> rows == old(rows)
      ensures seeded ==>
        && name in rows && rows[name] == Row(tls, 0, None, true)
        && (forall q :: IsPrimary(rows, q) ==> q == name) && HostsDiffer(rows) && OnePrimary(rows)
        && (forall a :: a in rows ==> a == name || exists i :: 0 <= i < |extras| && extras[i] == (a, rows[a]))
        && (forall i :: 0 <= i < |extras| ==> NoPort(extras[i].0) in Hosts(rows))
    {
      hide *;
      if rows != map[] { return false; }
      var seen := {NoPort(name)};
      var seeding: Rows := map[name := Row(tls, 0, None, true)];
      StartSeeding(name, Row(tls, 0, None, true), extras);
      for i := 0 to |extras|
        invariant SeededSoFar(name, Row(tls, 0, None, true), extras, i, seeding, seen)
      {
        var extra := extras[i];
        NextSeed(name, Row(tls, 0, None, true), extras, i, seeding, seen);
        if NoPort(extra.0) !in seen {
          seen := seen + {NoPort(extra.0)};
          seeding := seeding[extra.0 := extra.1];
        }
      }
      AllSeeded(name, Row(tls, 0, None, true), extras, seeding, seen);
      rows := seeding;
      seeded := true;
    }
  }

  /** The rows to insert when the first `i` extras have been looked at. */
  ghost predicate SeededSoFar(name: string, primary: Row, extras: seq<(string, Row)>, i: nat, rows: Rows,
      seen: set<string>)
    requires i <= |extras|
  {
    && name in rows && rows[name] == primary && primary.primary && (forall q :: IsPrimary(rows, q) ==> q == name)
    && HostsDiffer(rows) && (forall a :: a in rows ==> Lower(a) == a) && seen == Hosts(rows)
    && (forall a :: a in rows ==> a == name || exists k :: 0 <= k < i && extras[k] == (a, rows[a]))
    && (forall k :: 0 <= k < i ==> NoPort(extras[k].0) in seen)
  }

  lemma {:induction false} StartSeeding(name: string, row: Row, extras: seq<(string, Row)>)
    requires Lower(name) == name && row.primary
    ensures SeededSoFar(name, row, extras, 0, map[name := row], {NoPort(name)})
  {
    hide Lower, NoPort;
  }

  lemma {:induction false} NextSeed(name: string, primary: Row, extras: seq<(string, Row)>, i: nat, rows: Rows,
                                    seen: set<string>)
    requires i < |extras| && SeededSoFar(name, primary, extras, i, rows, seen)
    requires !extras[i].1.primary && Lower(extras[i].0) == extras[i].0
    ensures var (key, row) := extras[i];
      if NoPort(key) in seen then SeededSoFar(name, primary, extras, i + 1, rows, seen)
      else SeededSoFar(name, primary, extras, i + 1, rows[key := row], seen + {NoPort(key)})
  {
    hide Lower, NoPort, HostsDiffer;
    var (key, row) := extras[i];
    if NoPort(key) !in seen {
      OneMoreHost(rows, key, row);
      var rows' := rows[key := row];
      assert key !in rows;
      assert forall q :: IsPrimary(rows', q) ==> IsPrimary(rows, q);
    }
  }

  lemma {:induction false} AllSeeded(name: string, primary: Row, extras: seq<(string, Row)>, rows: Rows,
      seen: set<string>)
    requires SeededSoFar(name, primary, extras, |extras|, rows, seen)
    ensures name in rows && rows[name] == primary && (forall q :: IsPrimary(rows, q) ==> q == name) && HostsDiffer(rows)
    ensures forall a :: a in rows ==> a == name || exists i :: 0 <= i < |extras| && extras[i] == (a, rows[a])
    ensures forall i :: 0 <= i < |extras| ==> NoPort(extras[i].0) in Hosts(rows)
    ensures OnePrimary(rows)
  {
    hide Lower, NoPort, HostsDiffer;
    assert IsPrimary(rows, name);
  }

  /** The old primary is demoted and the target promoted; nothing else changes. */
  ghost predicate Promoted(rows: Rows, current: string, target: string, rows': Rows) {
    && IsPrimary(rows, current) && target in rows && target != current && !rows[target].primary
    && rows' == rows[current := rows[current].(primary := false)][target := rows[target].(primary := true)]
  }

  lemma {:induction false} LowerHost(name: string)
    requires Lower(name) == name
    ensures Lower(NoPort(name)) == NoPort(name)
  {
    var h := NoPort(name);
    assert forall i :: 0 <= i < |h| ==> h[i] == name[i] == Lower(name)[i] == LowerChar(name[i]);
    assert Lower(h) == h;
  }

  lemma {:induction false} OneMoreHost(rows: Rows, name: string, row: Row)
    requires HostsDiffer(rows) && (forall a :: a in rows ==> Lower(a) == a) && Lower(name) == name
    requires forall a :: a in rows ==> NoPort(a) != NoPort(name)
    ensures HostsDiffer(rows[name := row])
  {
    LowerHost(name);
    forall a | a in rows ensures Lower(NoPort(a)) == NoPort(a) { LowerHost(a); }
  }

  // ---------------------------------------------------------------- exactly one primary, over any run

  /** What the callers do once the table is seeded: add a domain that no configured host has, update one, remove one
      that is not primary, promote one, or fail to. */
  datatype Action =
    | Add(name: string, row: Row)
    | Update(name: string, row: Row)
    | Remove(name: string)
    | Promote(name: string)

  ghost predicate Acts(rows: Rows, action: Action, rows': Rows) {
    match action
    case Add(name, row) =>
      !row.primary && Lower(name) == name && (forall a :: a in rows ==> Lower(NoPort(a)) != Lower(NoPort(name)))
      && rows' == rows[name := row]
    case Update(name, row) => name in rows && rows' == rows[name := row.(primary := rows[name].primary)]
    case Remove(name) => rows' == if name in rows && !rows[name].primary then rows - {name} else rows
    case Promote(name) => rows' == rows || exists current, target :: Promoted(rows, current, target, rows')
  }

  lemma {:induction false} ActionKeeps(rows: Rows, action: Action, rows': Rows)
    requires OnePrimary(rows) && HostsDiffer(rows) && Acts(rows, action, rows')
    ensures OnePrimary(rows') && HostsDiffer(rows')
  {
    hide Lower, NoPort;
    var p :| IsPrimary(rows, p) && forall q :: IsPrimary(rows, q) ==> q == p;
    if action.Promote? && rows' != rows {
      var current, target :| Promoted(rows, current, target, rows');
      assert current == p && IsPrimary(rows', target);
      assert forall q :: IsPrimary(rows', q) && q != target ==> q != current && IsPrimary(rows, q);
    } else {
      assert IsPrimary(rows', p);
      assert forall q :: IsPrimary(rows', q) ==> IsPrimary(rows, q);
    }
  }

  lemma {:induction false} RowsMean(rows: Rows)
    ensures OnePrimary(rows) <==>
      exists p :: p in rows && rows[p].primary && forall q :: q in rows && rows[q].primary ==> q == p
  {
    if OnePrimary(rows) {
      var p :| IsPrimary(rows, p) && forall q :: IsPrimary(rows, q) ==> q == p;
      assert forall q :: q in rows && rows[q].primary ==> IsPrimary(rows, q);
    }
    if p :| p in rows && rows[p].primary && forall q :: q in rows && rows[q].primary ==> q == p {
      assert IsPrimary(rows, p);
    }
  }

  lemma {:induction false} HostsMean(rows: Rows)
    requires HostsDiffer(rows)
    ensures forall a, b :: a in rows && b in rows && a != b ==> Lower(NoPort(a)) != Lower(NoPort(b))
  {
    hide Lower, NoPort;
  }

  /** From a seeded table, whatever is added, updated, removed and promoted, and however often it fails, there is
      exactly one primary domain, and no two rows share a host. */
  lemma {:induction false} AlwaysOnePrimary(tables: seq<Rows>, actions: seq<Action>)
    requires |tables| == |actions| + 1 && OnePrimary(tables[0]) && HostsDiffer(tables[0])
    requires forall i :: 0 <= i < |actions| ==> Acts(tables[i], actions[i], tables[i + 1])
    ensures OnePrimary(tables[|actions|]) && HostsDiffer(tables[|actions|])
    ensures var rows := tables[|actions|];
      && (exists p :: p in rows && rows[p].primary && forall q :: q in rows && rows[q].primary ==> q == p)
      && forall a, b :: a in rows && b in rows && a != b ==> Lower(NoPort(a)) != Lower(NoPort(b))
  {
    if HostsDiffer(tables[|actions|]) { HostsMean(tables[|actions|]); }
    RowsMean(tables[|actions|]);
    hide OnePrimary, HostsDiffer, Acts;
    if actions != [] {
      var n := |actions| - 1;
      AlwaysOnePrimary(tables[..n + 1], actions[..n]);
      assert Acts(tables[n], actions[n], tables[n + 1]);
      ActionKeeps(tables[n], actions[n], tables[n + 1]);
    }
  }

  /** An upsert takes a new row's primary flag as given: it keeps the primary unique exactly when it does not bring in a
      new row that says it is primary. */
  lemma {:induction false} UpsertKeepsExactly(rows: Rows, name: string, row: Row)
    requires OnePrimary(rows)
    ensures var key := Lower(name);
      var rows' := rows[key := row.(primary := if key in rows then rows[key].primary else row.primary)];
      OnePrimary(rows') <==> key in rows || !row.primary
  {
    var key := Lower(name);
    hide Lower;
    var rows' := rows[key := row.(primary := if key in rows then rows[key].primary else row.primary)];
    var p :| IsPrimary(rows, p) && forall q :: IsPrimary(rows, q) ==> q == p;
    assert IsPrimary(rows', p);
    if key !in rows && row.primary {
      assert IsPrimary(rows', key) && key != p;
    } else {
      assert forall q :: IsPrimary(rows', q) ==> IsPrimary(rows, q);
    }
  }
}
