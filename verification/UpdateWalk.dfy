/** The update walk over a git repository: which ref a host checks out next, where the walk ends,
    and why the "is there an update" check agrees with it. */
module UpdateWalk {
  import opened Common
  import opened Versions

  type Commit = nat

  /** The `openhost.prereleases` setting, as git config reads it. */
  datatype Setting = Unset | Set(on: bool) | Unreadable

  /** What one fetch leaves behind. `ancestors[c]` holds `c` and every commit in its history;
      `listing` is the order in which git names the tags; `remote` holds the branches origin/<name>
      and `other` whatever else a name may resolve to (local branches, commit shas). */
  datatype Repo = Repo(
    ancestors: map<Commit, set<Commit>>,
    tags: map<string, Commit>,
    listing: seq<string>,
    remote: map<string, Commit>,
    other: map<string, Commit>,
    target: Option<string>,
    prereleases: Setting)
  {
    ghost predicate Valid() {
      && (forall c :: c in ancestors ==> c in ancestors[c] && ancestors[c] <= ancestors.Keys)
      && (forall c, d :: c in ancestors && d in ancestors[c] ==> ancestors[d] <= ancestors[c])
      && (forall t :: t in listing <==> t in tags)
      && tags.Values <= ancestors.Keys
      && remote.Values <= ancestors.Keys
      && other.Values <= ancestors.Keys
    }

    /** No branch origin/<tag> hides a version tag: `_resolve_ref_sha` looks at origin/ first. */
    ghost predicate TagsUnshadowed() {
      forall t :: t in tags && IsVersionTag(t) && t in remote ==> remote[t] == tags[t]
    }

    /** A commit carries at most one version tag. */
    ghost predicate OneTagPerCommit() {
      forall t, u :: t in tags && u in tags && IsVersionTag(t) && IsVersionTag(u) && tags[t] == tags[u] ==> t == u
    }
  }

  datatype Problem = UnresolvablePin | UnreadableSetting

  function Resolve(repo: Repo, ref: string): Option<Commit> {
    if ref in repo.remote then Some(repo.remote[ref])
    else if ref in repo.tags then Some(repo.tags[ref])
    else if ref in repo.other then Some(repo.other[ref])
    else None
  }

  // ---------------------------------------------------------------- choosing tags by key

  /** max(names, key=version_key, default=None): the first of the largest. */
  function Newest(names: seq<string>): (r: Option<string>)
    requires forall t :: t in names ==> IsVersionTag(t)
    ensures r == None <==> names == []
    ensures r.Some? ==> r.value in names
    ensures r.Some? ==> forall t :: t in names ==> !Less(VersionKey(r.value), VersionKey(t))
  {
    if names == [] then None else
      var init, last := names[..|names| - 1], names[|names| - 1];
      assert names == init + [last];
      assert last in names;
      var best := Newest(init);
      if best.Some? then
        KeyOrder(VersionKey(best.value), VersionKey(last), VersionKey(last));
        assert forall t :: t in names ==> t in init || t == last;
        if Less(VersionKey(best.value), VersionKey(last)) then
          OrderedBelow(init, best.value, last);
          Some(last)
        else best
      else
        KeyOrder(VersionKey(last), VersionKey(last), VersionKey(last));
        Some(last)
  }

  lemma OrderedBelow(names: seq<string>, best: string, higher: string)
    requires forall t :: t in names ==> IsVersionTag(t)
    requires IsVersionTag(best) && IsVersionTag(higher) && Less(VersionKey(best), VersionKey(higher))
    requires forall t :: t in names ==> !Less(VersionKey(best), VersionKey(t))
    ensures forall t :: t in names ==> !Less(VersionKey(higher), VersionKey(t))
    ensures !Less(VersionKey(higher), VersionKey(higher))
  {
    forall t | t in names ensures !Less(VersionKey(higher), VersionKey(t)) {
      KeyOrder(VersionKey(best), VersionKey(higher), VersionKey(t));
    }
    KeyOrder(VersionKey(higher), VersionKey(higher), VersionKey(higher));
  }

  ghost predicate Ascending(names: seq<string>) {
    && (forall t :: t in names ==> IsVersionTag(t))
    && forall i, j :: 0 <= i < j < |names| ==> !Less(VersionKey(names[j]), VersionKey(names[i]))
  }

  /** Stable insertion: `t` goes after every name whose key is not larger. */
  function Insert(t: string, sorted: seq<string>): (r: seq<string>)
    requires IsVersionTag(t) && forall u :: u in sorted ==> IsVersionTag(u)
    ensures forall u :: u in r <==> u == t || u in sorted
    ensures |r| == |sorted| + 1
  {
    if sorted == [] then [t]
    else if Less(VersionKey(t), VersionKey(sorted[0])) then [t] + sorted
    else [sorted[0]] + Insert(t, sorted[1..])
  }

  lemma FirstIsLowest(names: seq<string>)
    requires Ascending(names) && names != []
    ensures forall u :: u in names[1..] ==> !Less(VersionKey(u), VersionKey(names[0]))
  {
    hide VersionKey, Less, IsVersionTag;
    forall u | u in names[1..] ensures !Less(VersionKey(u), VersionKey(names[0])) {
      var i :| 0 <= i < |names[1..]| && names[1..][i] == u;
      assert names[i + 1] == u;
    }
  }

  lemma PrependAscends(first: string, rest: seq<string>)
    requires IsVersionTag(first) && Ascending(rest)
    requires forall u :: u in rest ==> !Less(VersionKey(u), VersionKey(first))
    ensures Ascending([first] + rest)
  {
    hide VersionKey, Less, IsVersionTag;
    var names := [first] + rest;
    forall i, j | 0 <= i < j < |names| ensures !Less(VersionKey(names[j]), VersionKey(names[i])) {
      assert names[j] == rest[j - 1];
      if i > 0 { assert names[i] == rest[i - 1]; }
    }
  }

  lemma {:induction false} InsertKeepsOrder(t: string, sorted: seq<string>)
    requires IsVersionTag(t) && Ascending(sorted)
    ensures Ascending(Insert(t, sorted))
  {
    hide VersionKey, Less, IsVersionTag;
    if sorted == [] {
      PrependAscends(t, []);
    } else {
      var first := sorted[0];
      FirstIsLowest(sorted);
      if Less(VersionKey(t), VersionKey(first)) {
        forall u | u in sorted ensures !Less(VersionKey(u), VersionKey(t)) {
          KeyOrder(VersionKey(u), VersionKey(t), VersionKey(first));
          KeyOrder(VersionKey(first), VersionKey(first), VersionKey(first));
          assert u == first || u in sorted[1..];
        }
        PrependAscends(t, sorted);
      } else {
        assert Ascending(sorted[1..]);
        InsertKeepsOrder(t, sorted[1..]);
        PrependAscends(first, Insert(t, sorted[1..]));
      }
    }
  }

  /** sorted(names, key=version_key). */
  function Sorted(names: seq<string>): (r: seq<string>)
    requires forall t :: t in names ==> IsVersionTag(t)
    ensures forall t :: t in r <==> t in names
  {
    if names == [] then [] else
      assert names == names[..|names| - 1] + [names[|names| - 1]];
      Insert(names[|names| - 1], Sorted(names[..|names| - 1]))
  }

  lemma {:induction false} SortedAscends(names: seq<string>)
    requires forall t :: t in names ==> IsVersionTag(t)
    ensures Ascending(Sorted(names))
  {
    if names != [] {
      SortedAscends(names[..|names| - 1]);
      InsertKeepsOrder(names[|names| - 1], Sorted(names[..|names| - 1]));
    }
  }

  // ---------------------------------------------------------------- where the host stands

  function Releases(repo: Repo): seq<string> { Filter(repo.listing, IsRelease) }

  function NewestCandidate(repo: Repo): Option<string> { Newest(Filter(repo.listing, IsCandidate)) }

  function CurrentTag(repo: Repo, head: Commit): Option<string> {
    Newest(Filter(repo.listing, t => IsVersionTag(t) && t in repo.tags && repo.tags[t] == head))
  }

  function LatestAncestorTag(repo: Repo, head: Commit): Option<string> {
    Newest(Filter(repo.listing, t =>
      IsVersionTag(t) && t in repo.tags && head in repo.ancestors && repo.tags[t] in repo.ancestors[head]))
  }

  /** `_current_tag(...) or _latest_ancestor_tag(...)`. */
  function Base(repo: Repo, head: Commit): (r: Option<string>)
    ensures r.Some? ==> IsVersionTag(r.value) && r.value in repo.listing
  {
    var current := CurrentTag(repo, head);
    if current.Some? then current else LatestAncestorTag(repo, head)
  }

  predicate Above(base: Option<string>, t: string)
    requires base.Some? ==> IsVersionTag(base.value)
    requires IsVersionTag(t)
  {
    base == None || Less(VersionKey(base.value), VersionKey(t))
  }

  predicate Contains(repo: Repo, sha: Commit, t: string) {
    sha in repo.ancestors && t in repo.tags && repo.tags[t] in repo.ancestors[sha]
  }

  function Prereleases(repo: Repo): Result<bool, Problem> {
    match repo.prereleases
    case Unset => Ok(false)
    case Set(on) => Ok(on)
    case Unreadable => Err(UnreadableSetting)
  }

  // ---------------------------------------------------------------- one step, and the check

  /** The releases still ahead of `head`, lowest first; only those the pinned commit contains. */
  function Later(repo: Repo, head: Commit, pin: Option<Commit>): seq<string> {
    var base := Base(repo, head);
    Filter(Sorted(Releases(repo)), t => IsRelease(t) && Above(base, t) && (pin == None || Contains(repo, pin.value, t)))
  }

  function NextStep(repo: Repo, head: Commit): Result<Option<string>, Problem> {
    match repo.target
    case Some(target) =>
      (match Resolve(repo, target)
       case None => Err(UnresolvablePin)
       case Some(sha) =>
         if head == sha then Ok(None) else
         var later := Later(repo, head, Some(sha));
         if later != [] then Ok(Some(later[0])) else Ok(Some(target)))
    case None =>
      (match Prereleases(repo)
       case Err(problem) => Err(problem)
       case Ok(optedIn) =>
         var later := Later(repo, head, None);
         if later != [] then Ok(Some(later[0])) else
         var candidate := if optedIn then NewestCandidate(repo) else None;
         if candidate.Some? && Above(Base(repo, head), candidate.value) then Ok(candidate) else Ok(None))
  }

  function TagsDestination(repo: Repo): Result<Option<string>, Problem> {
    var tags := Sorted(Releases(repo));
    var latest := if tags == [] then None else Some(tags[|tags| - 1]);
    match Prereleases(repo)
    case Err(problem) => Err(problem)
    case Ok(optedIn) =>
      var candidate := if optedIn then NewestCandidate(repo) else None;
      if candidate.Some? && Above(latest, candidate.value) then Ok(candidate) else Ok(latest)
  }

  datatype FetchState = Dirty | BehindRemote | UpToDate

  function FetchUpdates(repo: Repo, head: Commit, dirty: bool): Result<FetchState, Problem> {
    if dirty then Ok(Dirty) else
    match repo.target
    case Some(target) =>
      (match Resolve(repo, target)
       case None => Err(UnresolvablePin)
       case Some(sha) => Ok(if head != sha then BehindRemote else UpToDate))
    case None =>
      (match TagsDestination(repo)
       case Err(problem) => Err(problem)
       case Ok(None) => Ok(UpToDate)
       case Ok(Some(latest)) =>
         var current := Base(repo, head);
         Ok(if current == None || Less(VersionKey(current.value), VersionKey(latest)) then BehindRemote else UpToDate))
  }

  /** The preflight of `apply_update`: refuse a remote with nothing tagged and no pin. */
  predicate NothingTagged(repo: Repo) {
    Sorted(Releases(repo)) == [] && NewestCandidate(repo) == None && repo.target == None
  }

  /** The check and the walk agree for every pin, opt-in and tag set: an update is announced exactly when
      the walk would take a step, the two fail together and for the same reason, and an announced update
      always passes the preflight. */
  lemma {:induction false} CheckAgreesWithWalk(repo: Repo, head: Commit)
    ensures var check, step := FetchUpdates(repo, head, false), NextStep(repo, head);
      && (check.Err? <==> step.Err?)
      && (check.Err? ==> check.error == step.error)
      && (check.Ok? ==> (check.value == BehindRemote <==> step.value.Some?))
      && (check.Ok? ==> check.value != Dirty)
      && (check == Ok(BehindRemote) ==> !NothingTagged(repo))
  {
    if repo.target == None && Prereleases(repo).Ok? {
      LaterExists(repo, head);
      TagsAgree(repo, head, Prereleases(repo).value);
    }
  }

  lemma LaterExists(repo: Repo, head: Commit)
    ensures var tags := Sorted(Releases(repo));
      Later(repo, head, None) != [] <==> tags != [] && Above(Base(repo, head), tags[|tags| - 1])
  {
    var base := Base(repo, head);
    var tags := Sorted(Releases(repo));
    SortedAscends(Releases(repo));
    var later := Later(repo, head, None);
    if tags != [] {
      assert tags[|tags| - 1] in tags;
      HighestDecides(tags, base);
      if later != [] { assert later[0] in later; }
      if Above(base, tags[|tags| - 1]) { assert tags[|tags| - 1] in later; }
    }
  }

  /** The tags channel: something lies above the base exactly when the destination does. */
  lemma TagsAgree(repo: Repo, head: Commit, optedIn: bool)
    requires Prereleases(repo) == Ok(optedIn)
    ensures var base, dest := Base(repo, head), TagsDestination(repo).value;
      var candidate := if optedIn then NewestCandidate(repo) else None;
      && (dest.Some? ==> IsVersionTag(dest.value))
      && ((dest.Some? && Above(base, dest.value)) <==>
         (Later(repo, head, None) != [] || (candidate.Some? && Above(base, candidate.value))))
  {
    LaterExists(repo, head);
    DestinationIsHighest(Base(repo, head), Sorted(Releases(repo)), if optedIn then NewestCandidate(repo) else None);
  }

  lemma DestinationIsHighest(base: Option<string>, tags: seq<string>, candidate: Option<string>)
    requires base.Some? ==> IsVersionTag(base.value)
    requires forall t :: t in tags ==> IsVersionTag(t)
    requires candidate.Some? ==> IsVersionTag(candidate.value)
    ensures var latest := if tags == [] then None else Some(tags[|tags| - 1]);
      var dest := if candidate.Some? && (latest.Some? ==> latest.value in tags) && Above(latest, candidate.value)
                  then candidate else latest;
      && (dest.Some? ==> IsVersionTag(dest.value))
      && ((dest.Some? && Above(base, dest.value)) <==>
         ((latest.Some? && Above(base, latest.value)) || (candidate.Some? && Above(base, candidate.value))))
  {
    if tags != [] {
      var latest := tags[|tags| - 1];
      assert latest in tags;
      if candidate.Some? && base.Some? {
        KeyOrder(VersionKey(base.value), VersionKey(latest), VersionKey(candidate.value));
        KeyOrder(VersionKey(base.value), VersionKey(candidate.value), VersionKey(latest));
        KeyOrder(VersionKey(latest), VersionKey(candidate.value), VersionKey(base.value));
      }
    }
  }

  lemma HighestDecides(tags: seq<string>, base: Option<string>)
    requires tags != [] && Ascending(tags) && (base.Some? ==> IsVersionTag(base.value))
    ensures (exists t :: t in tags && Above(base, t)) <==> Above(base, tags[|tags| - 1])
  {
    var last := tags[|tags| - 1];
    assert last in tags;
    forall t | t in tags && Above(base, t) ensures Above(base, last) {
      var i :| 0 <= i < |tags| && tags[i] == t;
      if base.Some? && i < |tags| - 1 {
        assert !Less(VersionKey(last), VersionKey(t));
        KeyOrder(VersionKey(base.value), VersionKey(t), VersionKey(last));
        KeyOrder(VersionKey(t), VersionKey(last), VersionKey(last));
      }
    }
  }

  // ---------------------------------------------------------------- a single hop makes progress

  /** The ref a hop lands on resolves to its own commit. */
  lemma StepResolves(repo: Repo, head: Commit)
    requires repo.Valid() && NextStep(repo, head).Ok? && NextStep(repo, head).value.Some?
    ensures Resolve(repo, NextStep(repo, head).value.value).Some?
  {
    var step := NextStep(repo, head).value.value;
    var pin := if repo.target == None then None else Resolve(repo, repo.target.value);
    var later := Later(repo, head, pin);
    if later != [] { assert later[0] in later; }
  }

  function Land(repo: Repo, head: Commit): (c: Commit)
    requires repo.Valid() && NextStep(repo, head).Ok? && NextStep(repo, head).value.Some?
  {
    StepResolves(repo, head);
    Resolve(repo, NextStep(repo, head).value.value).value
  }

  /** A checked-out version tag is a lower bound for the base at its commit, whatever else the commit carries. */
  lemma BaseAtTag(repo: Repo, t: string)
    requires repo.Valid() && t in repo.tags && IsVersionTag(t)
    ensures Base(repo, repo.tags[t]).Some?
    ensures CurrentTag(repo, repo.tags[t]) == Base(repo, repo.tags[t])
    ensures !Less(VersionKey(Base(repo, repo.tags[t]).value), VersionKey(t))
    ensures Base(repo, repo.tags[t]).value in repo.tags
    ensures repo.tags[Base(repo, repo.tags[t]).value] == repo.tags[t]
  {
    var here := Filter(repo.listing, u => IsVersionTag(u) && u in repo.tags && repo.tags[u] == repo.tags[t]);
    assert t in here;
  }

  /** Every version tag whose key exceeds the base: what an unfinished walk has left. */
  ghost function TagsAbove(repo: Repo, head: Commit): set<string> {
    set t | t in repo.tags && IsVersionTag(t) && Above(Base(repo, head), t)
  }

  ghost predicate AtPin(repo: Repo, head: Commit) {
    repo.target.Some? && Resolve(repo, repo.target.value) == Some(head)
  }

  ghost function Pin(repo: Repo): Option<Commit> {
    if repo.target == None then None else Resolve(repo, repo.target.value)
  }

  /** The walk's measure: it is 0 exactly on a pinned destination. */
  ghost function Remaining(repo: Repo, head: Commit): nat {
    if AtPin(repo, head) then 0 else 1 + |TagsAbove(repo, head)|
  }

  lemma TagHopShrinks(repo: Repo, head: Commit, t: string)
    requires repo.Valid() && t in repo.tags && IsVersionTag(t) && Above(Base(repo, head), t)
    ensures TagsAbove(repo, repo.tags[t]) < TagsAbove(repo, head)
    ensures Above(Base(repo, head), Base(repo, repo.tags[t]).value)
  {
    var landed := repo.tags[t];
    BaseAtTag(repo, t);
    var base, base' := Base(repo, head), Base(repo, landed);
    forall u | u in repo.tags && IsVersionTag(u) && Above(base', u) ensures Above(base, u) {
      if base.Some? {
        KeyOrder(VersionKey(base.value), VersionKey(t), VersionKey(base'.value));
        KeyOrder(VersionKey(base.value), VersionKey(base'.value), VersionKey(u));
        KeyOrder(VersionKey(t), VersionKey(base'.value), VersionKey(u));
      }
    }
    if base.Some? {
      KeyOrder(VersionKey(base.value), VersionKey(t), VersionKey(base'.value));
      KeyOrder(VersionKey(t), VersionKey(base'.value), VersionKey(t));
    }
    assert t in TagsAbove(repo, head) && t !in TagsAbove(repo, landed);
  }

  /** A hop either goes to a version tag above the base, one the pin contains, or it is the final hop to the pin. */
  lemma HopKind(repo: Repo, head: Commit)
    requires repo.Valid() && repo.TagsUnshadowed()
    requires NextStep(repo, head).Ok? && NextStep(repo, head).value.Some?
    ensures var step := NextStep(repo, head).value.value;
      || (&& step in repo.tags && IsVersionTag(step) && Above(Base(repo, head), step)
          && Land(repo, head) == repo.tags[step]
          && (repo.target.Some? ==> IsRelease(step) && Contains(repo, Resolve(repo, repo.target.value).value, step)))
      || (repo.target == Some(step) && AtPin(repo, Land(repo, head)))
  {
    var pin := if repo.target == None then None else Resolve(repo, repo.target.value);
    var later := Later(repo, head, pin);
    if later != [] { assert later[0] in later; }
  }

  /** Whether a step can be computed does not depend on where the host stands. */
  lemma StepsEverywhere(repo: Repo, head: Commit, other: Commit)
    ensures NextStep(repo, head).Ok? <==> NextStep(repo, other).Ok?
  {
  }

  /** No oscillation, in one step: each hop strictly lowers the measure, so no ref is checked out twice. */
  lemma {:induction false} HopMakesProgress(repo: Repo, head: Commit)
    requires repo.Valid() && repo.TagsUnshadowed()
    requires NextStep(repo, head).Ok? && NextStep(repo, head).value.Some?
    ensures Remaining(repo, Land(repo, head)) < Remaining(repo, head)
    ensures NextStep(repo, Land(repo, head)).Ok?
  {
    HopKind(repo, head);
    StepsEverywhere(repo, head, Land(repo, head));
    assert !AtPin(repo, head);
    MeasureFalls(repo, head, Land(repo, head), NextStep(repo, head).value.value);
  }

  lemma MeasureFalls(repo: Repo, head: Commit, landed: Commit, step: string)
    requires repo.Valid() && !AtPin(repo, head)
    requires
      || (step in repo.tags && IsVersionTag(step) && Above(Base(repo, head), step) && landed == repo.tags[step])
      || AtPin(repo, landed)
    ensures Remaining(repo, landed) < Remaining(repo, head)
  {
    if !AtPin(repo, landed) {
      TagHopShrinks(repo, head, step);
      ProperSubsetIsSmaller(TagsAbove(repo, landed), TagsAbove(repo, head));
    }
  }

  // ---------------------------------------------------------------- the whole walk

  /** The hypotheses of every claim below: a well-formed repository, no shadowed tag, a pin that resolves. */
  ghost predicate Walks(repo: Repo, head: Commit) {
    repo.Valid() && repo.TagsUnshadowed() && NextStep(repo, head).Ok?
  }

  /** The commits one apply checks out, the starting one first. The recursion is the walk's termination proof. */
  ghost function Trail(repo: Repo, head: Commit): (trail: seq<Commit>)
    requires Walks(repo, head)
    ensures trail != [] && trail[0] == head
    decreases Remaining(repo, head)
  {
    if NextStep(repo, head).value == None then [head] else
      HopMakesProgress(repo, head);
      [head] + Trail(repo, Land(repo, head))
  }

  ghost function End(repo: Repo, head: Commit): Commit
    requires Walks(repo, head)
  {
    var trail := Trail(repo, head);
    trail[|trail| - 1]
  }

  /** The walk follows `NextStep` from commit to commit and ends where there is no next step. */
  lemma {:induction false} TrailFollowsSteps(repo: Repo, head: Commit)
    requires Walks(repo, head)
    ensures var trail := Trail(repo, head);
      && (forall i :: 0 <= i < |trail| ==> Walks(repo, trail[i]))
      && (forall i :: 0 <= i < |trail| - 1 ==>
            NextStep(repo, trail[i]).value.Some? && trail[i + 1] == Land(repo, trail[i]))
      && NextStep(repo, End(repo, head)) == Ok(None)
    decreases Remaining(repo, head)
  {
    if NextStep(repo, head).value.Some? {
      HopMakesProgress(repo, head);
      TrailFollowsSteps(repo, Land(repo, head));
      assert Trail(repo, head)[1..] == Trail(repo, Land(repo, head));
    }
  }

  lemma {:induction false} MeasureFallsAlongTrail(repo: Repo, head: Commit, i: nat, j: nat)
    requires Walks(repo, head) && i < j < |Trail(repo, head)|
    ensures Remaining(repo, Trail(repo, head)[j]) < Remaining(repo, Trail(repo, head)[i])
    decreases j
  {
    TrailFollowsSteps(repo, head);
    HopMakesProgress(repo, Trail(repo, head)[j - 1]);
    if i < j - 1 { MeasureFallsAlongTrail(repo, head, i, j - 1); }
  }

  /** No commit is checked out twice, for any HEAD, tag set, history, pin and opt-in. */
  lemma {:induction false} NoCommitTwice(repo: Repo, head: Commit)
    requires Walks(repo, head)
    ensures var trail := Trail(repo, head);
      forall i, j :: 0 <= i < j < |trail| ==> trail[i] != trail[j]
  {
    var trail := Trail(repo, head);
    forall i, j | 0 <= i < j < |trail| ensures trail[i] != trail[j] {
      MeasureFallsAlongTrail(repo, head, i, j);
    }
  }

  /** After a finished walk the check reports nothing to do. */
  lemma {:induction false} WalkSatisfiesCheck(repo: Repo, head: Commit)
    requires Walks(repo, head)
    ensures FetchUpdates(repo, End(repo, head), false) == Ok(UpToDate)
  {
    TrailFollowsSteps(repo, head);
    CheckAgreesWithWalk(repo, End(repo, head));
  }

  /** Moving from one commit to the other strictly raises the base. */
  ghost predicate Climbs(repo: Repo, from: Commit, to: Commit) {
    Base(repo, to).Some? && Above(Base(repo, from), Base(repo, to).value)
  }

  /** The step from `from` is the version tag `step`, above the base there, and `to` is that tag's commit. */
  ghost predicate TagHop(repo: Repo, from: Commit, to: Commit, step: string) {
    NextStep(repo, from) == Ok(Some(step)) && step in repo.tags && IsVersionTag(step) && to == repo.tags[step] &&
    Above(Base(repo, from), step) &&
    (repo.target.Some? ==> Pin(repo).Some? && IsRelease(step) && Contains(repo, Pin(repo).value, step))
  }

  lemma HopIsTagHop(repo: Repo, head: Commit)
    requires Walks(repo, head) && NextStep(repo, head).value.Some? && !AtPin(repo, Land(repo, head))
    ensures TagHop(repo, head, Land(repo, head), NextStep(repo, head).value.value)
    ensures Climbs(repo, head, Land(repo, head))
  {
    HopKind(repo, head);
    TagHopShrinks(repo, head, NextStep(repo, head).value.value);
    BaseAtTag(repo, NextStep(repo, head).value.value);
  }

  /** On the tags channel every hop strictly raises the base, so the walk never goes backwards; where it stops,
      no release lies above the base, and no candidate either when the owner opted in. */
  lemma {:induction false} TagsWalkClimbs(repo: Repo, head: Commit)
    requires Walks(repo, head) && repo.target == None
    ensures var trail := Trail(repo, head);
      forall i, j :: 0 <= i < j == i + 1 < |trail| ==> Climbs(repo, trail[i], trail[j])
    ensures forall t :: t in repo.tags && IsRelease(t) ==> !Above(Base(repo, End(repo, head)), t)
    ensures Prereleases(repo) == Ok(true) ==>
      forall t :: t in repo.tags && IsCandidate(t) ==> !Above(Base(repo, End(repo, head)), t)
  {
    forall i, j | 0 <= i < j == i + 1 < |Trail(repo, head)|
      ensures Climbs(repo, Trail(repo, head)[i], Trail(repo, head)[j])
    {
      TagsHopClimbs(repo, head, i);
    }
    TrailFollowsSteps(repo, head);
    NothingLeftAbove(repo, End(repo, head));
  }

  lemma TagsHopClimbs(repo: Repo, head: Commit, i: nat)
    requires Walks(repo, head) && repo.target == None && i + 1 < |Trail(repo, head)|
    ensures Climbs(repo, Trail(repo, head)[i], Trail(repo, head)[i + 1])
  {
    TrailFollowsSteps(repo, head);
    HopIsTagHop(repo, Trail(repo, head)[i]);
  }

  lemma NothingLeftAbove(repo: Repo, head: Commit)
    requires repo.Valid() && repo.target == None && NextStep(repo, head) == Ok(None)
    ensures forall t :: t in repo.tags && IsRelease(t) ==> !Above(Base(repo, head), t)
    ensures Prereleases(repo) == Ok(true) ==>
              forall t :: t in repo.tags && IsCandidate(t) ==> !Above(Base(repo, head), t)
  {
    var base := Base(repo, head);
    forall t | t in repo.tags && IsRelease(t) ensures !Above(base, t) {
      assert t in Releases(repo);
      assert t in Sorted(Releases(repo));
      assert Above(base, t) ==> t in Later(repo, head, None);
    }
    if Prereleases(repo) == Ok(true) {
      forall t | t in repo.tags && IsCandidate(t) ensures !Above(base, t) {
        assert t in Filter(repo.listing, IsCandidate);
        var newest := NewestCandidate(repo).value;
        assert Later(repo, head, None) == [];
        assert base.Some?;
        KeyOrder(VersionKey(base.value), VersionKey(t), VersionKey(newest));
        KeyOrder(VersionKey(t), VersionKey(newest), VersionKey(newest));
      }
    }
  }

  /** A pinned walk stops exactly on the pinned commit; every checkout before the last is a release the pinned
      commit contains, and those climb. */
  lemma {:induction false} PinnedWalkArrives(repo: Repo, head: Commit)
    requires Walks(repo, head) && repo.target.Some?
    ensures Pin(repo) == Some(End(repo, head))
    ensures var trail := Trail(repo, head);
      forall i, j :: 0 <= i < j == i + 1 < |trail| - 1 ==>
        Climbs(repo, trail[i], trail[j]) && exists step :: TagHop(repo, trail[i], trail[j], step)
  {
    var trail := Trail(repo, head);
    TrailFollowsSteps(repo, head);
    PinnedStop(repo, End(repo, head));
    forall i, j | 0 <= i < j == i + 1 < |trail| - 1
      ensures Climbs(repo, trail[i], trail[j]) && exists step :: TagHop(repo, trail[i], trail[j], step)
    {
      MeasureFallsAlongTrail(repo, head, j, |trail| - 1);
      assert NextStep(repo, trail[i]).value.Some? && trail[i + 1] == Land(repo, trail[i]);
      PinnedHop(repo, trail[i], trail[j]);
    }
  }

  lemma PinnedStop(repo: Repo, head: Commit)
    requires repo.target.Some? && NextStep(repo, head) == Ok(None)
    ensures Pin(repo) == Some(head)
  {
  }

  lemma PinnedHop(repo: Repo, from: Commit, to: Commit)
    requires Walks(repo, from) && NextStep(repo, from).value.Some? && to == Land(repo, from) && Pin(repo) != Some(to)
    ensures Climbs(repo, from, to) && exists step :: TagHop(repo, from, to, step)
  {
    HopIsTagHop(repo, from);
  }

  // ---------------------------------------------------------------- no stone is skipped

  /** A release the walk still owes a visit from `head`. */
  ghost predicate Owed(repo: Repo, head: Commit, t: string) {
    t in repo.tags && IsRelease(t) && Above(Base(repo, head), t) && !AtPin(repo, head) &&
    (Pin(repo) == None || Contains(repo, Pin(repo).value, t))
  }

  lemma {:induction false} FilterAscends(names: seq<string>, p: string -> bool)
    requires Ascending(names)
    ensures Ascending(Filter(names, p))
  {
    hide VersionKey, Less, IsVersionTag;
    if names != [] {
      FilterAscends(names[1..], p);
      FirstIsLowest(names);
      if p(names[0]) { PrependAscends(names[0], Filter(names[1..], p)); }
    }
  }

  /** The next step is the lowest release owed. */
  lemma LowestFirst(repo: Repo, head: Commit, t: string)
    requires Walks(repo, head) && Owed(repo, head, t)
    ensures NextStep(repo, head).value.Some? && Owed(repo, head, NextStep(repo, head).value.value)
    ensures !Less(VersionKey(t), VersionKey(NextStep(repo, head).value.value))
  {
    var later := Later(repo, head, Pin(repo));
    assert t in Sorted(Releases(repo));
    assert t in later;
    assert later[0] in later;
    SortedAscends(Releases(repo));
    var base := Base(repo, head);
    var pin := Pin(repo);
    FilterAscends(Sorted(Releases(repo)),
      t => IsRelease(t) && Above(base, t) && (pin == None || Contains(repo, pin.value, t)));
    var i :| 0 <= i < |later| && later[i] == t;
    KeyOrder(VersionKey(t), VersionKey(later[0]), VersionKey(later[0]));
  }

  /** The hop from `from` to `to` deals with `t`: it checks out a release no higher than `t`, on a commit whose base
      is no lower than `t` or which is the pinned destination itself. */
  ghost predicate DealsWith(repo: Repo, from: Commit, to: Commit, t: string)
    requires IsVersionTag(t)
  {
    exists step :: TagHop(repo, from, to, step) && IsRelease(step) && !Less(VersionKey(t), VersionKey(step)) &&
      (AtPin(repo, to) || !Above(Base(repo, to), t))
  }

  lemma OwedStepLands(repo: Repo, head: Commit, t: string)
    requires Walks(repo, head) && Owed(repo, head, t)
    ensures NextStep(repo, head).value.Some? && TagHop(repo, head, Land(repo, head), NextStep(repo, head).value.value)
    ensures IsRelease(NextStep(repo, head).value.value)
    ensures !Less(VersionKey(t), VersionKey(NextStep(repo, head).value.value))
  {
    LowestFirst(repo, head, t);
  }

  lemma StepDeals(repo: Repo, head: Commit, t: string)
    requires Walks(repo, head) && Owed(repo, head, t)
    ensures repo.Valid() && NextStep(repo, head).Ok? && NextStep(repo, head).value.Some? &&
      Walks(repo, Land(repo, head))
    ensures DealsWith(repo, head, Land(repo, head), t) || Owed(repo, Land(repo, head), t)
  {
    OwedStepLands(repo, head, t);
    StepsEverywhere(repo, head, Land(repo, head));
    var step := NextStep(repo, head).value.value;
    assert TagHop(repo, head, Land(repo, head), step);
  }

  lemma TrailUnfolds(repo: Repo, head: Commit)
    requires Walks(repo, head) && NextStep(repo, head).value.Some? && Walks(repo, Land(repo, head))
    ensures Trail(repo, head) == [head] + Trail(repo, Land(repo, head))
    ensures Remaining(repo, Land(repo, head)) < Remaining(repo, head)
  {
    HopMakesProgress(repo, head);
  }

  /** No stone is skipped: every release owed at the start is visited, or passed over only because a lower
      stone's commit itself carries a version tag at least as high, or is already the pinned destination. */
  lemma {:induction false} EveryReleaseDealtWith(repo: Repo, head: Commit, t: string) returns (i: nat)
    requires IsVersionTag(t) && Walks(repo, head) && Owed(repo, head, t)
    ensures i + 1 < |Trail(repo, head)| && DealsWith(repo, Trail(repo, head)[i], Trail(repo, head)[i + 1], t)
    decreases Remaining(repo, head)
  {
    hide *;
    StepDeals(repo, head, t);
    TrailUnfolds(repo, head);
    if DealsWith(repo, head, Land(repo, head), t) {
      i := 0;
    } else {
      i := EveryReleaseDealtWith(repo, Land(repo, head), t);
      i := i + 1;
    }
  }

  /** With one version tag per commit the tags channel checks out every owed release key, lowest first: the stones
      are taken in ascending order with none left out. */
  lemma {:induction false} EveryStoneVisited(repo: Repo, head: Commit, t: string) returns (i: nat, step: string)
    requires Walks(repo, head) && repo.target == None && repo.OneTagPerCommit() && Owed(repo, head, t)
    ensures i + 1 < |Trail(repo, head)| && TagHop(repo, Trail(repo, head)[i], Trail(repo, head)[i + 1], step)
    ensures VersionKey(step) == VersionKey(t)
  {
    i := EveryReleaseDealtWith(repo, head, t);
    var from, to := Trail(repo, head)[i], Trail(repo, head)[i + 1];
    step :| TagHop(repo, from, to, step) && IsRelease(step) && !Less(VersionKey(t), VersionKey(step)) &&
      (AtPin(repo, to) || !Above(Base(repo, to), t));
    BaseAtTag(repo, step);
    assert Base(repo, to).value == step;
    KeyOrder(VersionKey(step), VersionKey(t), VersionKey(step));
  }

  lemma {:induction false} ClimbsOn(repo: Repo, a: Commit, b: Commit, c: Commit)
    requires Climbs(repo, a, b) && Climbs(repo, b, c)
    ensures Climbs(repo, a, c)
  {
    hide Base, IsRelease, IsCandidate, VersionKey, Less;
    var x, y, z := Base(repo, a), Base(repo, b), Base(repo, c);
    if x.Some? { KeyOrder(VersionKey(x.value), VersionKey(y.value), VersionKey(z.value)); }
  }

  /** Along the trail of the tags channel the base only rises. */
  lemma {:induction false} BaseRises(repo: Repo, head: Commit, i: nat, j: nat)
    requires Walks(repo, head) && repo.target == None && i < j < |Trail(repo, head)|
    ensures Climbs(repo, Trail(repo, head)[i], Trail(repo, head)[j])
    decreases j
  {
    hide *;
    TagsHopClimbs(repo, head, j - 1);
    if i < j - 1 {
      BaseRises(repo, head, i, j - 1);
      ClimbsOn(repo, Trail(repo, head)[i], Trail(repo, head)[j - 1], Trail(repo, head)[j]);
    }
  }

  /** The hop at `i` checks out a tag with the key of `t`. */
  ghost predicate Visits(repo: Repo, head: Commit, i: nat, t: string)
    requires Walks(repo, head) && IsVersionTag(t)
  {
    i + 1 < |Trail(repo, head)| && exists step ::
      TagHop(repo, Trail(repo, head)[i], Trail(repo, head)[i + 1], step) && VersionKey(step) == VersionKey(t)
  }

  /** The stones in order: of two owed releases both are visited, each by one hop only, and the lower one first. */
  lemma {:induction false} StonesInOrder(repo: Repo, head: Commit, t: string, u: string)
    requires IsVersionTag(t) && IsVersionTag(u)
    requires Walks(repo, head) && repo.target == None && repo.OneTagPerCommit()
    requires Owed(repo, head, t) && Owed(repo, head, u)
    ensures (exists i: nat :: Visits(repo, head, i, t)) && (exists j: nat :: Visits(repo, head, j, u))
    ensures forall i: nat, j: nat :: Visits(repo, head, i, t) && Visits(repo, head, j, u) ==>
      (i < j <==> Less(VersionKey(t), VersionKey(u))) && (i == j <==> VersionKey(t) == VersionKey(u))
  {
    hide Trail, Owed, TagHop, IsVersionTag, VersionKey, Less;
    var i', t' := EveryStoneVisited(repo, head, t);
    assert Visits(repo, head, i', t);
    var j', u' := EveryStoneVisited(repo, head, u);
    assert Visits(repo, head, j', u);
    forall i: nat, j: nat | Visits(repo, head, i, t) && Visits(repo, head, j, u)
      ensures (i < j <==> Less(VersionKey(t), VersionKey(u))) && (i == j <==> VersionKey(t) == VersionKey(u))
    {
      if i < j { LaterVisitIsHigher(repo, head, i, j, t, u); }
      if j < i { LaterVisitIsHigher(repo, head, j, i, u, t); }
      if i == j { SameHopSameKey(repo, head, i, t, u); }
      KeyOrder(VersionKey(t), VersionKey(u), VersionKey(t));
      KeyOrder(VersionKey(u), VersionKey(t), VersionKey(u));
    }
  }

  lemma {:induction false} SameHopSameKey(repo: Repo, head: Commit, i: nat, t: string, u: string)
    requires Walks(repo, head) && IsVersionTag(t) && IsVersionTag(u) && Visits(repo, head, i, t) &&
      Visits(repo, head, i, u)
    ensures VersionKey(t) == VersionKey(u)
  {
    hide Trail, Walks, IsVersionTag, VersionKey, NextStep;
  }

  lemma {:induction false} LaterVisitIsHigher(repo: Repo, head: Commit, i: nat, j: nat, t: string, u: string)
    requires Walks(repo, head) && repo.target == None && repo.OneTagPerCommit() && IsVersionTag(t) && IsVersionTag(u)
    requires i < j && Visits(repo, head, i, t) && Visits(repo, head, j, u)
    ensures Less(VersionKey(t), VersionKey(u))
  {
    hide Trail, Base, IsVersionTag, VersionKey, Less, NextStep;
    var trail := Trail(repo, head);
    var step :| TagHop(repo, trail[i], trail[i + 1], step) && VersionKey(step) == VersionKey(t);
    var next :| TagHop(repo, trail[j], trail[j + 1], next) && VersionKey(next) == VersionKey(u);
    BaseIsTheTag(repo, step);
    if i + 1 < j {
      BaseRises(repo, head, i + 1, j);
      KeyOrder(VersionKey(step), VersionKey(Base(repo, trail[j]).value), VersionKey(next));
    }
  }

  lemma {:induction false} BaseIsTheTag(repo: Repo, t: string)
    requires repo.Valid() && repo.OneTagPerCommit() && t in repo.tags && IsVersionTag(t)
    ensures Base(repo, repo.tags[t]) == Some(t) && repo.tags[t] in repo.ancestors
  {
    hide IsVersionTag, VersionKey, Less;
    BaseAtTag(repo, t);
    assert repo.tags[t] in repo.tags.Values;
  }

  /** Tags v1 and v2 on commits 0 and 1, and a branch origin/v2 left behind on commit 0. */
  const SHADOWED := Repo(map[0 := {0}, 1 := {0, 1}], map["v1" := 0, "v2" := 1], ["v1", "v2"],
                         map["v2" := 0], map[], None, Unset)

  /** Why no branch may shadow a tag: a host on v1 steps to v2, lands where it already was, and would do so forever. */
  lemma {:induction false} ShadowedTagLoops()
    ensures SHADOWED.Valid() && !SHADOWED.TagsUnshadowed()
    ensures NextStep(SHADOWED, 0) == Ok(Some("v2")) && Land(SHADOWED, 0) == 0
  {
    ShadowedRepoIsValid();
    ShadowedLater();
    hide Later, Base, IsVersionTag, IsRelease;
    assert SHADOWED.target == None && Prereleases(SHADOWED) == Ok(false);
    assert Resolve(SHADOWED, "v2") == Some(0);
  }

  lemma ShadowedRepoIsValid()
    ensures SHADOWED.Valid() && !SHADOWED.TagsUnshadowed()
  {
    Shapes();
    assert SHADOWED.tags["v2"] == 1 && SHADOWED.remote["v2"] == 0;
  }

  lemma ShadowedBase()
    ensures Base(SHADOWED, 0) == Some("v1")
  {
    Shapes();
    var here := Filter(SHADOWED.listing, t => IsVersionTag(t) && t in SHADOWED.tags && SHADOWED.tags[t] == 0);
    assert "v1" in SHADOWED.listing;
    assert "v1" in here;
    assert CurrentTag(SHADOWED, 0) == Newest(here);
    assert forall t :: t in here ==> t == "v1";
  }

  lemma ShadowedLater()
    ensures Later(SHADOWED, 0, None) != [] && Later(SHADOWED, 0, None)[0] == "v2"
  {
    Shapes();
    ShadowedBase();
    var later := Later(SHADOWED, 0, None);
    assert "v2" in SHADOWED.listing;
    assert "v2" in Releases(SHADOWED);
    assert "v2" in Sorted(Releases(SHADOWED));
    assert "v2" in later;
    assert later[0] in later;
    assert later[0] in SHADOWED.listing;
    KeyOrder(VersionKey("v1"), VersionKey("v1"), VersionKey("v1"));
  }

  lemma Shapes()
    ensures IsRelease("v1") && IsRelease("v2") && VersionKey("v1") == Key([1], 1, 0) &&
      VersionKey("v2") == Key([2], 1, 0)
  {
    assert SplitDots("1") == ["1"] && SplitDots("2") == ["2"];
    assert "v1"[1..] == "1" && "v2"[1..] == "2";
    assert ToNat("1") == 1 && ToNat("2") == 2;
    NoRc("1");
    NoRc("2");
    assert Numbers(["1"]) == [1] && Numbers(["2"]) == [2];
  }
}
