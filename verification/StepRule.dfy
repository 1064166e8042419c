/** The next step, told from the tags, the history and the settings alone. */
module StepRule {
  import opened Common
  import opened Versions
  import opened UpdateWalk

  // ---------------------------------------------------------------- what a host has behind it

  predicate Tagged(repo: Repo, t: string) { t in repo.tags && IsVersionTag(t) }

  /** A version tag a host on `head` stands on; or, when it stands on none, one in its history. */
  ghost predicate Passed(repo: Repo, head: Commit, t: string) {
    && Tagged(repo, t)
    && (repo.tags[t] == head
        || ((forall u :: Tagged(repo, u) ==> repo.tags[u] != head)
            && head in repo.ancestors && repo.tags[t] in repo.ancestors[head]))
  }

  ghost predicate Ahead(repo: Repo, head: Commit, t: string) {
    Tagged(repo, t) && forall u :: Passed(repo, head, u) ==> Less(VersionKey(u), VersionKey(t))
  }

  /** A release ahead that the commit `pin`, if there is one, has in its history. */
  ghost predicate Stone(repo: Repo, head: Commit, pin: Option<Commit>, t: string) {
    && Ahead(repo, head, t) && IsRelease(t)
    && (pin.Some? ==> pin.value in repo.ancestors && repo.tags[t] in repo.ancestors[pin.value])
  }

  ghost predicate LowestOf(repo: Repo, head: Commit, pin: Option<Commit>, t: string) {
    && Stone(repo, head, pin, t)
    && forall u :: Stone(repo, head, pin, u) ==> !Less(VersionKey(u), VersionKey(t))
  }

  ghost predicate HighestCandidate(repo: Repo, t: string) {
    && Tagged(repo, t) && IsCandidate(t)
    && forall u :: Tagged(repo, u) && IsCandidate(u) ==> !Less(VersionKey(t), VersionKey(u))
  }

  // ---------------------------------------------------------------- the base is the highest tag passed

  lemma {:induction false} BaseIsHighestPassed(repo: Repo, head: Commit)
    requires repo.Valid()
    ensures var base := Base(repo, head);
      && (base == None <==> forall t :: !Passed(repo, head, t))
      && (base.Some? ==> Passed(repo, head, base.value))
      && (base.Some? ==> forall t :: Passed(repo, head, t) ==> !Less(VersionKey(base.value), VersionKey(t)))
  {
    hide IsVersionTag, VersionKey, Less;
    var here := Filter(repo.listing, t => IsVersionTag(t) && t in repo.tags && repo.tags[t] == head);
    assert forall t :: t in here <==> Tagged(repo, t) && repo.tags[t] == head;
    var before := Filter(repo.listing, t =>
      IsVersionTag(t) && t in repo.tags && head in repo.ancestors && repo.tags[t] in repo.ancestors[head]);
    assert forall t :: t in before <==>
      Tagged(repo, t) && head in repo.ancestors && repo.tags[t] in repo.ancestors[head];
    if CurrentTag(repo, head).Some? {
      assert CurrentTag(repo, head).value in here;
      assert forall t :: Passed(repo, head, t) <==> t in here;
    } else {
      assert here == [];
      assert forall u :: Tagged(repo, u) && repo.tags[u] == head ==> u in here;
      assert forall t :: Passed(repo, head, t) <==> t in before;
    }
  }

  lemma {:induction false} AboveIsAhead(repo: Repo, head: Commit, t: string)
    requires repo.Valid() && Tagged(repo, t)
    ensures Above(Base(repo, head), t) <==> Ahead(repo, head, t)
  {
    hide IsVersionTag, VersionKey, Less, Base;
    BaseIsHighestPassed(repo, head);
    var base := Base(repo, head);
    if base.Some? && Above(base, t) {
      forall u | Passed(repo, head, u) ensures Less(VersionKey(u), VersionKey(t)) {
        assert IsVersionTag(u) by { PassedIsTagged(repo, head, u); }
        KeyOrder(VersionKey(u), VersionKey(base.value), VersionKey(t));
        KeyOrder(VersionKey(base.value), VersionKey(u), VersionKey(t));
      }
    }
  }

  lemma {:induction false} PassedIsTagged(repo: Repo, head: Commit, t: string)
    requires Passed(repo, head, t)
    ensures Tagged(repo, t)
  {
  }

  // ---------------------------------------------------------------- the list of stones

  lemma {:induction false} LaterHolds(repo: Repo, head: Commit, pin: Option<Commit>, t: string)
    requires repo.Valid()
    ensures t in Later(repo, head, pin) <==> Stone(repo, head, pin, t)
  {
    hide IsCandidate, IsRelease, VersionKey, Less, Base, Above, Ahead, Sorted;
    if t in repo.tags && IsRelease(t) { AboveIsAhead(repo, head, t); }
    assert t in Sorted(Releases(repo)) <==> t in repo.tags && IsRelease(t);
    if Ahead(repo, head, t) { AheadIsTagged(repo, head, t); }
  }

  lemma {:induction false} AheadIsTagged(repo: Repo, head: Commit, t: string)
    requires Ahead(repo, head, t)
    ensures Tagged(repo, t)
  {
  }

  lemma {:induction false} FirstStone(repo: Repo, head: Commit, pin: Option<Commit>)
    requires repo.Valid() && Later(repo, head, pin) != []
    ensures LowestOf(repo, head, pin, Later(repo, head, pin)[0])
  {
    hide IsVersionTag, IsRelease, VersionKey, Less;
    var later := Later(repo, head, pin);
    LaterHolds(repo, head, pin, later[0]);
    LaterAscends(repo, head, pin);
    forall u | Stone(repo, head, pin, u) ensures !Less(VersionKey(u), VersionKey(later[0])) {
      LaterHolds(repo, head, pin, u);
      var i :| 0 <= i < |later| && later[i] == u;
      KeyOrder(VersionKey(u), VersionKey(u), VersionKey(u));
    }
  }

  lemma {:induction false} LaterAscends(repo: Repo, head: Commit, pin: Option<Commit>)
    ensures Ascending(Later(repo, head, pin))
  {
    hide IsCandidate, IsRelease, VersionKey, Less, Base, Sorted;
    var base := Base(repo, head);
    SortedAscends(Releases(repo));
    FilterAscends(Sorted(Releases(repo)),
      t => IsRelease(t) && Above(base, t) && (pin == None || Contains(repo, pin.value, t)));
  }

  lemma {:induction false} CandidateIsHighest(repo: Repo)
    requires repo.Valid()
    ensures NewestCandidate(repo) == None <==> forall t :: Tagged(repo, t) ==> !IsCandidate(t)
    ensures NewestCandidate(repo).Some? ==> HighestCandidate(repo, NewestCandidate(repo).value)
  {
    hide IsRelease, IsCandidate, VersionKey, Less;
    var names := Filter(repo.listing, IsCandidate);
    assert forall t :: t in names <==> Tagged(repo, t) && IsCandidate(t);
  }

  // ---------------------------------------------------------------- the step

  /** On the tags channel the step is the lowest release ahead; when there is none, the highest candidate, if the owner
      set the opt-in to true and it is ahead; and otherwise there is none. Nothing but a setting that cannot be read
      keeps it from being known. */
  lemma {:induction false} TagsStepExactly(repo: Repo, head: Commit)
    requires repo.Valid() && repo.target == None
    ensures NextStep(repo, head).Err? <==> repo.prereleases == Unreadable
    ensures NextStep(repo, head).Ok? ==>
      var step := NextStep(repo, head).value;
      if exists t :: Stone(repo, head, None, t) then step.Some? && LowestOf(repo, head, None, step.value)
      else if repo.prereleases == Set(true) && exists t :: HighestCandidate(repo, t) && Ahead(repo, head, t)
      then step.Some? && HighestCandidate(repo, step.value) && Ahead(repo, head, step.value)
      else step == None
  {
    hide IsRelease, IsCandidate, VersionKey, Less, Later, Above, Ahead, HighestCandidate, LowestOf, Stone;
    hide NewestCandidate, Base;
    if NextStep(repo, head).Ok? {
      forall t ensures t in Later(repo, head, None) <==> Stone(repo, head, None, t) { LaterHolds(repo, head, None, t); }
      if Later(repo, head, None) != [] {
        assert Stone(repo, head, None, Later(repo, head, None)[0]);
        FirstStone(repo, head, None);
      } else {
        CandidateStep(repo, head);
      }
    }
  }

  lemma {:induction false} CandidateStep(repo: Repo, head: Commit)
    requires repo.Valid()
    ensures (NewestCandidate(repo).Some? && Above(Base(repo, head), NewestCandidate(repo).value)) <==>
      exists t :: HighestCandidate(repo, t) && Ahead(repo, head, t)
    ensures NewestCandidate(repo).Some? && Above(Base(repo, head), NewestCandidate(repo).value) ==>
      HighestCandidate(repo, NewestCandidate(repo).value) && Ahead(repo, head, NewestCandidate(repo).value)
  {
    hide IsRelease, IsCandidate, VersionKey, Less, NewestCandidate, Base;
    CandidateIsHighest(repo);
    var newest := NewestCandidate(repo);
    if newest.Some? { AboveIsAhead(repo, head, newest.value); }
    if t :| HighestCandidate(repo, t) && Ahead(repo, head, t) {
      forall u | Passed(repo, head, u) ensures Less(VersionKey(u), VersionKey(newest.value)) {
        PassedIsTagged(repo, head, u);
        KeyOrder(VersionKey(u), VersionKey(t), VersionKey(newest.value));
        KeyOrder(VersionKey(t), VersionKey(newest.value), VersionKey(t));
      }
    }
  }

  /** With a pin: none where the host is on the pinned commit, the lowest release ahead that the pin has in its history,
      and when there is none the pin itself. The opt-in plays no part. */
  lemma {:induction false} PinnedStepExactly(repo: Repo, head: Commit)
    requires repo.Valid() && repo.target.Some?
    ensures NextStep(repo, head).Err? <==>
      repo.target.value !in repo.remote && repo.target.value !in repo.tags && repo.target.value !in repo.other
    ensures NextStep(repo, head).Ok? ==>
      var step, pin := NextStep(repo, head).value, Resolve(repo, repo.target.value);
      && pin.Some?
      && if pin.value == head then step == None
         else if exists t :: Stone(repo, head, pin, t) then step.Some? && LowestOf(repo, head, pin, step.value)
         else step == repo.target
  {
    hide IsRelease, IsCandidate, VersionKey, Less, Later, LowestOf, Stone;
    if NextStep(repo, head).Ok? {
      var pin := Resolve(repo, repo.target.value);
      forall t ensures t in Later(repo, head, pin) <==> Stone(repo, head, pin, t) { LaterHolds(repo, head, pin, t); }
      if Later(repo, head, pin) != [] {
        assert Stone(repo, head, pin, Later(repo, head, pin)[0]);
        FirstStone(repo, head, pin);
      }
    }
  }

  /** The preflight refuses exactly a remote without any version tag, when there is no pin either. */
  lemma {:induction false} NothingTaggedExactly(repo: Repo)
    requires repo.Valid()
    ensures NothingTagged(repo) <==> repo.target == None && forall t :: !Tagged(repo, t)
  {
    hide IsRelease, IsCandidate, VersionKey, Less;
    CandidateIsHighest(repo);
    assert forall t :: t in Sorted(Releases(repo)) <==> t in repo.tags && IsRelease(t);
    if Sorted(Releases(repo)) != [] { assert Tagged(repo, Sorted(Releases(repo))[0]); }
    if NewestCandidate(repo).Some? { assert Tagged(repo, NewestCandidate(repo).value); }
  }

  // ---------------------------------------------------------------- where the walk's theorems apply

  /** A remote without branches hides no tag, and a well-formed repository can be walked from everywhere unless its
      opt-in cannot be read or its pin names nothing. */
  lemma {:induction false} OrdinaryRemotes(repo: Repo, head: Commit)
    requires repo.Valid() && repo.remote == map[]
    ensures repo.TagsUnshadowed()
    ensures Walks(repo, head) <==>
      if repo.target.Some? then repo.target.value in repo.tags || repo.target.value in repo.other
      else repo.prereleases != Unreadable
  {
  }

  /** One branch that hides a version tag is enough, and it has to be on another commit. */
  lemma {:induction false} ShadowedExactly(repo: Repo)
    ensures repo.TagsUnshadowed() <==>
      !exists t :: Tagged(repo, t) && t in repo.remote && repo.remote[t] != repo.tags[t]
  {
    hide IsVersionTag;
  }

  lemma {:induction false} SharedCommitExactly(repo: Repo)
    ensures repo.OneTagPerCommit() <==>
      !exists t, u :: Tagged(repo, t) && Tagged(repo, u) && t != u && repo.tags[t] == repo.tags[u]
  {
    hide IsVersionTag;
  }
}
