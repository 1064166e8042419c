/** When a branch hides a tag: exactly which repositories the unpinned walk still climbs in. */
module ShadowedTags {
  import opened Common
  import opened Versions
  import opened UpdateWalk

  // ---------------------------------------------------------------- the condition

  function Names(repo: Repo): (names: seq<string>)
    ensures forall i :: 0 <= i < |names| ==> IsVersionTag(names[i])
  {
    Sorted(Releases(repo))
  }

  /** The name of a version tag resolves to a commit whose base is no lower than the tag: the tag's own commit, or that
      of a branch that is not behind it. */
  predicate Reaches(repo: Repo, t: string)
    requires IsVersionTag(t)
  {
    Resolve(repo, t).Some? && !Above(Base(repo, Resolve(repo, t).value), t)
  }

  /** Of the releases with one key only the first listed is ever stepped to. */
  ghost predicate FirstOfItsKey(repo: Repo, i: nat) {
    && i < |Names(repo)|
    && forall j :: 0 <= j < i ==> VersionKey(Names(repo)[j]) != VersionKey(Names(repo)[i])
  }

  ghost predicate ReleasesReach(repo: Repo) {
    forall i :: 0 <= i < |Names(repo)| && FirstOfItsKey(repo, i) ==> Reaches(repo, Names(repo)[i])
  }

  /** The candidate counts when the owner opted in and no release is as high. */
  ghost predicate CandidateReaches(repo: Repo) {
    Prereleases(repo) == Ok(true) && NewestCandidate(repo).Some?
    && (forall i :: 0 <= i < |Names(repo)| ==>
         Less(VersionKey(Names(repo)[i]), VersionKey(NewestCandidate(repo).value)))
    ==> Reaches(repo, NewestCandidate(repo).value)
  }

  /** The hop from `head`, if there is one, strictly raises the base. */
  ghost predicate HopClimbs(repo: Repo, head: Commit)
    requires repo.Valid()
  {
    NextStep(repo, head).Ok? && NextStep(repo, head).value.Some? ==> Climbs(repo, head, Land(repo, head))
  }

  // ---------------------------------------------------------------- the step that is taken

  lemma {:induction false} FilterFirst(names: seq<string>, p: string -> bool, i: nat)
    requires i < |names| && p(names[i]) && forall j :: 0 <= j < i ==> !p(names[j])
    ensures Filter(names, p) != [] && Filter(names, p)[0] == names[i]
  {
    if i > 0 { FilterFirst(names[1..], p, i - 1); }
  }

  lemma {:induction false} FilterOrigin(names: seq<string>, p: string -> bool) returns (i: nat)
    requires Filter(names, p) != []
    ensures i < |names| && names[i] == Filter(names, p)[0] && p(names[i]) && forall j :: 0 <= j < i ==> !p(names[j])
  {
    if p(names[0]) {
      i := 0;
    } else {
      i := FilterOrigin(names[1..], p);
      i := i + 1;
      assert forall j :: 0 < j < i ==> names[j] == names[1..][j - 1];
    }
  }

  ghost predicate Unpinned(repo: Repo) { repo.Valid() && repo.target == None && Prereleases(repo).Ok? }

  /** The release at `i` is the lowest above the base of `head`. */
  ghost predicate LowestAbove(repo: Repo, head: Commit, i: nat) {
    && i < |Names(repo)| && Above(Base(repo, head), Names(repo)[i])
    && forall j :: 0 <= j < i ==> !Above(Base(repo, head), Names(repo)[j])
  }

  lemma {:induction false} NamesAreTags(repo: Repo)
    requires repo.Valid()
    ensures forall t :: t in Names(repo) <==> t in repo.tags && IsRelease(t)
    ensures Ascending(Names(repo))
  {
    hide IsRelease, IsCandidate, VersionKey;
    SortedAscends(Releases(repo));
  }

  /** The same among the releases the pin contains. */
  ghost predicate LowestStone(repo: Repo, head: Commit, pin: Option<Commit>, i: nat) {
    && i < |Names(repo)| && Above(Base(repo, head), Names(repo)[i])
    && (pin == None || Contains(repo, pin.value, Names(repo)[i]))
    && forall j :: 0 <= j < i && Above(Base(repo, head), Names(repo)[j]) ==>
         pin.Some? && !Contains(repo, pin.value, Names(repo)[j])
  }

  lemma {:induction false} LaterStarts(repo: Repo, head: Commit, pin: Option<Commit>, i: nat)
    requires repo.Valid() && LowestStone(repo, head, pin, i)
    ensures Later(repo, head, pin) != [] && Later(repo, head, pin)[0] == Names(repo)[i]
  {
    hide IsRelease, IsCandidate, VersionKey, Sorted, Base, Above;
    NamesAreTags(repo);
    var base := Base(repo, head);
    assert Names(repo)[i] in Names(repo);
    FilterFirst(Names(repo),
      t => IsRelease(t) && Above(base, t) && (pin == None || Contains(repo, pin.value, t)), i);
  }

  lemma {:induction false} LaterOrigin(repo: Repo, head: Commit, pin: Option<Commit>) returns (i: nat)
    requires repo.Valid() && Later(repo, head, pin) != []
    ensures i < |Names(repo)| && Later(repo, head, pin)[0] == Names(repo)[i]
    ensures LowestStone(repo, head, pin, i)
  {
    hide IsRelease, IsCandidate, VersionKey, Sorted, Base, Above;
    NamesAreTags(repo);
    var base := Base(repo, head);
    i := FilterOrigin(Names(repo),
      t => IsRelease(t) && Above(base, t) && (pin == None || Contains(repo, pin.value, t)));
    assert forall j :: 0 <= j < i ==> Names(repo)[j] in Names(repo);
  }

  lemma {:induction false} StepsToLowest(repo: Repo, head: Commit, i: nat)
    requires Unpinned(repo) && LowestAbove(repo, head, i)
    ensures NextStep(repo, head) == Ok(Some(Names(repo)[i]))
  {
    hide IsVersionTag, VersionKey, Names, Base, Above, Later;
    LaterStarts(repo, head, None, i);
  }

  lemma {:induction false} LowestIsStep(repo: Repo, head: Commit) returns (i: nat)
    requires Unpinned(repo) && Later(repo, head, None) != []
    ensures LowestAbove(repo, head, i) && NextStep(repo, head) == Ok(Some(Names(repo)[i]))
  {
    hide IsVersionTag, VersionKey, Names, Base, Above, Later;
    i := LaterOrigin(repo, head, None);
  }

  lemma {:induction false} NoneLater(repo: Repo, head: Commit)
    requires repo.Valid()
    ensures Later(repo, head, None) == [] <==>
      forall i :: 0 <= i < |Names(repo)| ==> !Above(Base(repo, head), Names(repo)[i])
  {
    hide IsVersionTag, VersionKey, Sorted, Base, Above;
    NamesAreTags(repo);
    var later := Later(repo, head, None);
    if later != [] {
      assert later[0] in later;
      var i :| 0 <= i < |Names(repo)| && Names(repo)[i] == later[0];
    } else {
      forall i | 0 <= i < |Names(repo)| ensures !Above(Base(repo, head), Names(repo)[i]) {
        assert Names(repo)[i] in Names(repo) && Names(repo)[i] !in later;
      }
    }
  }

  // ---------------------------------------------------------------- the condition is enough

  lemma {:induction false} ReachingClimbs(repo: Repo, head: Commit, t: string)
    requires IsVersionTag(t) && Reaches(repo, t) && Above(Base(repo, head), t)
    ensures Climbs(repo, head, Resolve(repo, t).value)
  {
    hide Base, Resolve, IsVersionTag, VersionKey;
    var base, landed := Base(repo, head), Base(repo, Resolve(repo, t).value);
    if base.Some? { KeyOrder(VersionKey(base.value), VersionKey(t), VersionKey(landed.value)); }
    KeyOrder(VersionKey(t), VersionKey(landed.value), VersionKey(t));
  }

  lemma {:induction false} LowestIsFirst(repo: Repo, head: Commit, i: nat)
    requires LowestAbove(repo, head, i)
    ensures FirstOfItsKey(repo, i)
  {
    hide Base, IsVersionTag, VersionKey, Sorted;
  }

  lemma {:induction false} EnoughToClimb(repo: Repo, head: Commit)
    requires Unpinned(repo) && ReleasesReach(repo) && CandidateReaches(repo)
    ensures HopClimbs(repo, head)
  {
    hide Base, IsVersionTag, IsRelease, VersionKey, Sorted, Reaches, Above, Later, Climbs, LowestAbove, FirstOfItsKey;
    if NextStep(repo, head).Ok? && NextStep(repo, head).value.Some? {
      NamesAreTags(repo);
      if Later(repo, head, None) != [] {
        var i := LowestIsStep(repo, head);
        LowestIsFirst(repo, head, i);
        StillAbove(repo, head, i);
        ReachingClimbs(repo, head, Names(repo)[i]);
      } else {
        NoneLater(repo, head);
        var k := CandidateIsStep(repo, head);
        NothingAsHigh(repo, head, k);
        ReachingClimbs(repo, head, k);
      }
    }
  }

  lemma {:induction false} CandidateIsStep(repo: Repo, head: Commit) returns (k: string)
    requires Unpinned(repo) && Later(repo, head, None) == []
    requires NextStep(repo, head).Ok? && NextStep(repo, head).value.Some?
    ensures IsVersionTag(k) && Above(Base(repo, head), k)
    ensures NextStep(repo, head) == Ok(Some(k)) && NewestCandidate(repo) == Some(k) && Prereleases(repo) == Ok(true)
  {
    hide IsCandidate, IsRelease, VersionKey, Base, Above, Later;
    k := NewestCandidate(repo).value;
  }

  lemma {:induction false} StillAbove(repo: Repo, head: Commit, i: nat)
    requires LowestAbove(repo, head, i)
    ensures i < |Names(repo)| && IsVersionTag(Names(repo)[i]) && Above(Base(repo, head), Names(repo)[i])
  {
  }

  lemma {:induction false} NothingAsHigh(repo: Repo, head: Commit, k: string)
    requires IsVersionTag(k) && Above(Base(repo, head), k)
    requires forall i :: 0 <= i < |Names(repo)| ==> !Above(Base(repo, head), Names(repo)[i])
    ensures forall i :: 0 <= i < |Names(repo)| ==> Less(VersionKey(Names(repo)[i]), VersionKey(k))
  {
    hide Base, IsVersionTag, VersionKey, Sorted;
    var base := Base(repo, head);
    forall i | 0 <= i < |Names(repo)| ensures Less(VersionKey(Names(repo)[i]), VersionKey(k)) {
      KeyOrder(VersionKey(Names(repo)[i]), VersionKey(base.value), VersionKey(k));
    }
  }

  // ---------------------------------------------------------------- the condition is needed

  /** `head` is `landed` itself, or stands on a tag that lies above the base of `landed`. */
  ghost predicate NoHigher(repo: Repo, head: Commit, landed: Commit) {
    head == landed || (Base(repo, head).Some? && Above(Base(repo, landed), Base(repo, head).value))
  }

  lemma {:induction false} NoClimb(repo: Repo, head: Commit, landed: Commit)
    requires NoHigher(repo, head, landed)
    ensures !Climbs(repo, head, landed)
  {
    hide Base, IsVersionTag, VersionKey;
    var a, b := Base(repo, head), Base(repo, landed);
    if a.Some? && b.Some? { KeyOrder(VersionKey(a.value), VersionKey(b.value), VersionKey(a.value)); }
  }

  lemma {:induction false} HopFails(repo: Repo, head: Commit, landed: Commit, t: string)
    requires Unpinned(repo) && NoHigher(repo, head, landed)
    requires NextStep(repo, head) == Ok(Some(t)) && Resolve(repo, t) == Some(landed)
    ensures !HopClimbs(repo, head)
  {
    hide NoHigher, Climbs, Base, NextStep;
    NoClimb(repo, head, landed);
  }

  /** Standing on the tag at `i - 1`, the last of its key, nothing lower than the tag at `i` is above. */
  lemma {:induction false} StandBelow(repo: Repo, i: nat) returns (head: Commit)
    requires repo.Valid() && repo.OneTagPerCommit() && 0 < i <= |Names(repo)|
    ensures head in repo.ancestors && Base(repo, head) == Some(Names(repo)[i - 1])
    ensures forall j :: 0 <= j < i ==> !Above(Base(repo, head), Names(repo)[j])
  {
    hide Base, IsVersionTag, IsRelease, VersionKey, Sorted, Less;
    NamesAreTags(repo);
    var u := Names(repo)[i - 1];
    assert u in Names(repo);
    head := repo.tags[u];
    BaseIsTheTag(repo, u);
    KeyOrder(VersionKey(u), VersionKey(u), VersionKey(u));
  }

  /** In an ascending list, what is above a base at `j` is above it from there on. */
  lemma {:induction false} AboveFrom(repo: Repo, base: Option<string>, j: nat, i: nat)
    requires repo.Valid() && (base.Some? ==> IsVersionTag(base.value)) && j <= i < |Names(repo)|
    requires Above(base, Names(repo)[j])
    ensures Above(base, Names(repo)[i])
  {
    hide Base, IsVersionTag, VersionKey, Sorted, Less, Names;
    NamesAreTags(repo);
    if j < i && base.Some? {
      KeyOrder(VersionKey(base.value), VersionKey(Names(repo)[j]), VersionKey(Names(repo)[i]));
      KeyOrder(VersionKey(Names(repo)[j]), VersionKey(Names(repo)[i]), VersionKey(base.value));
    }
  }

  lemma {:induction false} FirstIsAbove(repo: Repo, i: nat)
    requires repo.Valid() && 0 < i && FirstOfItsKey(repo, i)
    ensures Above(Some(Names(repo)[i - 1]), Names(repo)[i])
  {
    hide IsVersionTag, VersionKey, Sorted, Less, Names;
    NamesAreTags(repo);
    KeyOrder(VersionKey(Names(repo)[i - 1]), VersionKey(Names(repo)[i]), VersionKey(Names(repo)[i]));
  }

  /** A release that does not reach: a HEAD from which the hop to it does not climb. */
  lemma {:induction false} FailsToClimb(repo: Repo, i: nat) returns (head: Commit)
    requires Unpinned(repo) && repo.OneTagPerCommit() && FirstOfItsKey(repo, i) && !Reaches(repo, Names(repo)[i])
    ensures head in repo.ancestors && !HopClimbs(repo, head)
  {
    hide Base, IsVersionTag, IsRelease, VersionKey, Names, NextStep, HopClimbs;
    var t := Names(repo)[i];
    ResolvesInside(repo, i);
    var landed := Resolve(repo, t).value;
    var base := Base(repo, landed);
    if exists j :: 0 <= j < i && Above(base, Names(repo)[j]) {
      var j :| 0 <= j < i && Above(base, Names(repo)[j]);
      AboveFrom(repo, base, j, i - 1);
      head := StandBelow(repo, i);
      FirstIsAbove(repo, i);
    } else {
      head := landed;
    }
    StepsToLowest(repo, head, i);
    HopFails(repo, head, landed, t);
  }

  lemma {:induction false} ResolvesInside(repo: Repo, i: nat)
    requires repo.Valid() && i < |Names(repo)|
    ensures Resolve(repo, Names(repo)[i]).Some? && Resolve(repo, Names(repo)[i]).value in repo.ancestors
  {
    hide IsVersionTag, IsRelease, VersionKey, Names;
    NamesAreTags(repo);
    TagResolvesInside(repo, Names(repo)[i]);
  }

  lemma {:induction false} TagResolvesInside(repo: Repo, t: string)
    requires repo.Valid() && t in repo.tags
    ensures Resolve(repo, t).Some? && Resolve(repo, t).value in repo.ancestors
  {
    if t in repo.remote {
      assert repo.remote[t] in repo.remote.Values;
    } else {
      assert repo.tags[t] in repo.tags.Values;
    }
  }

  /** The candidate is the step when it is above the base and no release is. */
  lemma {:induction false} StepsToCandidate(repo: Repo, head: Commit)
    requires Unpinned(repo) && Prereleases(repo) == Ok(true) && NewestCandidate(repo).Some?
    requires Above(Base(repo, head), NewestCandidate(repo).value)
    requires forall i :: 0 <= i < |Names(repo)| ==> !Above(Base(repo, head), Names(repo)[i])
    ensures NextStep(repo, head) == Ok(NewestCandidate(repo))
  {
    hide Base, IsVersionTag, IsRelease, VersionKey, Names, Above, Later;
    NoneLater(repo, head);
  }

  /** The same for the candidate. */
  lemma {:induction false} CandidateFailsToClimb(repo: Repo) returns (head: Commit)
    requires Unpinned(repo) && repo.OneTagPerCommit() && !CandidateReaches(repo)
    ensures head in repo.ancestors && !HopClimbs(repo, head)
  {
    hide Base, IsVersionTag, IsRelease, IsCandidate, VersionKey, Names, NextStep, HopClimbs;
    var k := NewestCandidate(repo).value;
    assert k in repo.tags by { hide *; CandidateIsTagged(repo); }
    TagResolvesInside(repo, k);
    var landed := Resolve(repo, k).value;
    var base := Base(repo, landed);
    if exists j :: 0 <= j < |Names(repo)| && Above(base, Names(repo)[j]) {
      var j :| 0 <= j < |Names(repo)| && Above(base, Names(repo)[j]);
      AboveFrom(repo, base, j, |Names(repo)| - 1);
      head := StandBelow(repo, |Names(repo)|);
    } else {
      head := landed;
    }
    StepsToCandidate(repo, head);
    HopFails(repo, head, landed, k);
  }

  lemma {:induction false} CandidateIsTagged(repo: Repo)
    requires repo.Valid() && NewestCandidate(repo).Some?
    ensures NewestCandidate(repo).value in repo.tags
  {
    hide IsCandidate, IsVersionTag, VersionKey;
    assert NewestCandidate(repo).value in repo.listing;
  }

  /** A hop that climbs leaves fewer tags above the base, so only finitely many can follow each other. */
  lemma {:induction false} ClimbShrinks(repo: Repo, from: Commit, to: Commit)
    requires repo.Valid() && Climbs(repo, from, to)
    ensures |TagsAbove(repo, to)| < |TagsAbove(repo, from)|
  {
    hide Base, IsCandidate, IsRelease, VersionKey, Less;
    var a, b := Base(repo, from), Base(repo, to).value;
    forall t | t in TagsAbove(repo, to) ensures t in TagsAbove(repo, from) {
      if a.Some? { KeyOrder(VersionKey(a.value), VersionKey(b), VersionKey(t)); }
    }
    KeyOrder(VersionKey(b), VersionKey(b), VersionKey(b));
    assert b in TagsAbove(repo, from) && b !in TagsAbove(repo, to);
    ProperSubsetIsSmaller(TagsAbove(repo, to), TagsAbove(repo, from));
  }

  /** Without a pin every hop from every HEAD climbs exactly when each name the walk can step to resolves to a commit
      whose base has come as far as the name says. A branch origin/<tag> on or past the tag's commit is harmless; one
      left behind it always catches some host. Hops that climb cannot go on forever; one that does not may still be made
      good by another branch. */
  lemma {:induction false} HopsClimbExactly(repo: Repo)
    requires Unpinned(repo) && repo.OneTagPerCommit()
    ensures (forall head :: head in repo.ancestors ==> HopClimbs(repo, head)) <==>
              ReleasesReach(repo) && CandidateReaches(repo)
  {
    hide Prereleases, HopClimbs, CandidateReaches, FirstOfItsKey, Reaches;
    if ReleasesReach(repo) && CandidateReaches(repo) {
      forall head | head in repo.ancestors ensures HopClimbs(repo, head) { EnoughToClimb(repo, head); }
    } else if !CandidateReaches(repo) {
      var head := CandidateFailsToClimb(repo);
    } else {
      var i :| 0 <= i < |Names(repo)| && FirstOfItsKey(repo, i) && !Reaches(repo, Names(repo)[i]);
      var head := FailsToClimb(repo, i);
    }
  }

  // ---------------------------------------------------------------- with a pin

  /** The hop from `head`, if there is one, lands on the pin or strictly raises the base. */
  ghost predicate HopAdvances(repo: Repo, head: Commit)
    requires repo.Valid()
  {
    NextStep(repo, head).Ok? && NextStep(repo, head).value.Some? ==>
      AtPin(repo, Land(repo, head)) || Climbs(repo, head, Land(repo, head))
  }

  ghost predicate Pinned(repo: Repo) { repo.Valid() && repo.target.Some? && Pin(repo).Some? }

  /** The release at `i` is the lowest stone for some HEAD that is not on the pin yet. */
  ghost predicate SteppedTo(repo: Repo, i: nat) {
    exists head :: head in repo.ancestors && !AtPin(repo, head) && LowestStone(repo, head, Pin(repo), i)
  }

  predicate Arrives(repo: Repo, t: string)
    requires IsVersionTag(t)
  {
    Reaches(repo, t) || (Resolve(repo, t).Some? && repo.target.Some? &&
      Resolve(repo, repo.target.value) == Resolve(repo, t))
  }

  ghost predicate StonesArrive(repo: Repo) {
    forall i :: 0 <= i < |Names(repo)| && SteppedTo(repo, i) ==> Arrives(repo, Names(repo)[i])
  }

  lemma {:induction false} PinnedStep(repo: Repo, head: Commit, i: nat)
    requires Pinned(repo) && !AtPin(repo, head) && LowestStone(repo, head, Pin(repo), i)
    ensures NextStep(repo, head) == Ok(Some(Names(repo)[i]))
  {
    hide IsVersionTag, VersionKey, Names, Base, Above, Later, LowestStone;
    LaterStarts(repo, head, Pin(repo), i);
  }

  lemma {:induction false} StoneOrPin(repo: Repo, head: Commit) returns (i: Option<nat>)
    requires Pinned(repo) && NextStep(repo, head).Ok? && NextStep(repo, head).value.Some?
    ensures !AtPin(repo, head)
    ensures i.Some? ==>
      LowestStone(repo, head, Pin(repo), i.value) && NextStep(repo, head).value == Some(Names(repo)[i.value])
    ensures i == None ==> AtPin(repo, Land(repo, head))
  {
    hide IsVersionTag, VersionKey, Names, Base, Above, Later, LowestStone;
    i := None;
    if Later(repo, head, Pin(repo)) != [] {
      var k := LaterOrigin(repo, head, Pin(repo));
      i := Some(k);
    }
  }

  lemma {:induction false} ArrivingAdvances(repo: Repo, head: Commit)
    requires Pinned(repo) && head in repo.ancestors && StonesArrive(repo)
    ensures HopAdvances(repo, head)
  {
    hide IsVersionTag, VersionKey, Names, Base, Above, LowestStone, Reaches, Climbs, NextStep;
    if NextStep(repo, head).Ok? && NextStep(repo, head).value.Some? {
      var i := StoneOrPin(repo, head);
      if i.Some? {
        StoneIsAbove(repo, head, i.value);
        assert SteppedTo(repo, i.value);
        if Reaches(repo, Names(repo)[i.value]) { ReachingClimbs(repo, head, Names(repo)[i.value]); }
      }
    }
  }

  lemma {:induction false} StoneIsAbove(repo: Repo, head: Commit, i: nat)
    requires LowestStone(repo, head, Pin(repo), i)
    ensures i < |Names(repo)| && Above(Base(repo, head), Names(repo)[i])
  {
    hide Names, Base, Above;
  }

  /** A stone that does not arrive where it says: either the commit it leads to is a HEAD that steps to it again, or
      that commit is below a lower stone, which every HEAD that steps to it has behind it. */
  lemma {:induction false} StoneFails(repo: Repo, i: nat) returns (head: Commit)
    requires Pinned(repo) && SteppedTo(repo, i) && i < |Names(repo)| && !Arrives(repo, Names(repo)[i])
    ensures head in repo.ancestors && !HopAdvances(repo, head)
  {
    hide IsVersionTag, VersionKey, Names, Base, NextStep, Less;
    var t := Names(repo)[i];
    head :| head in repo.ancestors && !AtPin(repo, head) && LowestStone(repo, head, Pin(repo), i);
    ResolvesInside(repo, i);
    var landed := Resolve(repo, t).value;
    var base := Base(repo, landed);
    if LowestStone(repo, landed, Pin(repo), i) {
      head := landed;
      NoClimb(repo, landed, landed);
    } else {
      var j :| 0 <= j < i && Above(base, Names(repo)[j])
        && Contains(repo, Pin(repo).value, Names(repo)[j]);
      AlreadyBehind(repo, head, landed, Names(repo)[j]);
    }
    PinnedStep(repo, head, i);
  }

  lemma {:induction false} AlreadyBehind(repo: Repo, head: Commit, landed: Commit, u: string)
    requires IsVersionTag(u) && !Above(Base(repo, head), u) && Above(Base(repo, landed), u)
    ensures !Climbs(repo, head, landed)
  {
    hide IsVersionTag, VersionKey, Base, Less;
    var a, b := Base(repo, head), Base(repo, landed);
    if b.Some? {
      KeyOrder(VersionKey(b.value), VersionKey(u), VersionKey(a.value));
      KeyOrder(VersionKey(u), VersionKey(a.value), VersionKey(a.value));
      KeyOrder(VersionKey(a.value), VersionKey(b.value), VersionKey(u));
    }
  }

  /** With a pin every hop from every HEAD lands on the pin or climbs, so that every walk ends, exactly when each
      release that is the next stone for some HEAD resolves to the pin or to a commit whose base has come as far as the
      name says. */
  lemma {:induction false} PinnedHopsExactly(repo: Repo)
    requires Pinned(repo)
    ensures (forall head :: head in repo.ancestors ==> HopAdvances(repo, head)) <==> StonesArrive(repo)
  {
    hide HopAdvances, SteppedTo, Arrives, Names;
    if StonesArrive(repo) {
      forall head | head in repo.ancestors ensures HopAdvances(repo, head) { ArrivingAdvances(repo, head); }
    } else {
      var i :| 0 <= i < |Names(repo)| && SteppedTo(repo, i) && !Arrives(repo, Names(repo)[i]);
      var head := StoneFails(repo, i);
    }
  }

  /** A hop that advances lowers the measure of the walk. */
  lemma {:induction false} AdvanceShrinks(repo: Repo, head: Commit)
    requires Pinned(repo) && NextStep(repo, head).Ok? && NextStep(repo, head).value.Some? && HopAdvances(repo, head)
    ensures Remaining(repo, Land(repo, head)) < Remaining(repo, head)
  {
    hide Climbs, TagsAbove, NextStep, Resolve;
    var i := StoneOrPin(repo, head);
    if !AtPin(repo, Land(repo, head)) { ClimbShrinks(repo, head, Land(repo, head)); }
  }
}
