/** Merging two snapshots of one recorded decision.

    A snapshot is pending, then gains an outcome, then a reflection. The merge
    is an algorithm over fields and artifacts; what is proved here is that it
    computes a join: it succeeds exactly when one snapshot contains the other,
    and then returns the larger one unchanged. */
module DecisionMerge {
  import opened Wrappers
  import opened MemoryModel

  predicate SameCore(a: Decision, b: Decision) {
    a.runId == b.runId && a.record == b.record && a.contract == b.contract
  }

  predicate Agree<T(==)>(a: Option<T>, b: Option<T>) {
    a.None? || b.None? || a == b
  }

  predicate ArtifactsAgree(a: map<Hash, Artifact>, b: map<Hash, Artifact>) {
    forall k | k in a && k in b :: a[k] == b[k]
  }

  function Joined(env: Env, a: Decision, b: Decision): Decision {
    var body := Decision(
                  a.runId, a.record, a.contract,
                  if a.outcome.None? then b.outcome else a.outcome,
                  if a.reflection.None? then b.reflection else a.reflection,
                  a.artifacts + b.artifacts, 0);
    body.(sha := env.digest(DecisionValue(body)))
  }

  function Merge(env: Env, a: Decision, b: Decision): Result<Decision> {
    if && ValidDecision(env, a) && ValidDecision(env, b)
       && SameCore(a, b)
       && Agree(a.outcome, b.outcome) && Agree(a.reflection, b.reflection)
       && ArtifactsAgree(a.artifacts, b.artifacts)
       && ValidDecision(env, Joined(env, a, b))
    then Success(Joined(env, a, b)) else Failure
  }

  /** `a` is a snapshot of the same decision from which `b` may have grown:
      every settled part of `a` and every artifact of `a` is in `b` unchanged. */
  predicate Within(a: Decision, b: Decision) {
    && SameCore(a, b)
    && (a.outcome.None? || a.outcome == b.outcome)
    && (a.reflection.None? || a.reflection == b.reflection)
    && a.artifacts.Keys <= b.artifacts.Keys
    && (forall k | k in a.artifacts :: a.artifacts[k] == b.artifacts[k])
  }

  /** 0 pending, 1 with an outcome, 2 with an outcome and a reflection. */
  function Stage(d: Decision): nat {
    (if d.outcome.Some? then 1 else 0) + (if d.reflection.Some? then 1 else 0)
  }

  /** The step-by-step merge: clone the first snapshot, fill in what it lacks,
      add artifacts one by one, rehash, validate again. */
  method MergeDecision(env: Env, first: Decision, second: Decision) returns (r: Result<Decision>)
    ensures r == Merge(env, first, second)
  {
    hide ValidDecision;
    if !ValidDecision(env, first) || !ValidDecision(env, second) {
      return Failure;
    }
    if !SameCore(first, second) {
      return Failure;
    }
    var merged := first;
    if !(first.outcome.None? || second.outcome.None? || first.outcome == second.outcome) {
      return Failure;
    }
    if merged.outcome.None? {
      merged := merged.(outcome := second.outcome);
    }
    if !(first.reflection.None? || second.reflection.None? || first.reflection == second.reflection) {
      return Failure;
    }
    if merged.reflection.None? {
      merged := merged.(reflection := second.reflection);
    }
    var artifacts := AddArtifacts(first.artifacts, second.artifacts);
    if artifacts.Failure? {
      return Failure;
    }
    merged := merged.(artifacts := artifacts.value);
    merged := merged.(sha := env.digest(Unhashed(DecisionValue(merged))));
    assert merged == Joined(env, first, second);
    if !ValidDecision(env, merged) {
      return Failure;
    }
    return Success(merged);
  }

  /** Copy the second snapshot's artifacts over, one by one; a key whose two
      artifacts differ stops the merge. */
  method AddArtifacts(first: map<Hash, Artifact>, second: map<Hash, Artifact>)
    returns (r: Result<map<Hash, Artifact>>)
    ensures r == if ArtifactsAgree(first, second) then Success(first + second) else Failure
  {
    var merged := first;
    var todo := second.Keys;
    while todo != {}
      invariant todo <= second.Keys
      invariant merged == first + (second - todo)
      invariant ArtifactsAgree(first, second - todo)
      decreases todo
    {
      var key :| key in todo;
      if key in merged && merged[key] != second[key] {
        assert key in first && first[key] != second[key];
        return Failure;
      }
      merged := merged[key := second[key]];
      assert second - (todo - {key}) == (second - todo)[key := second[key]];
      todo := todo - {key};
    }
    assert second - todo == second;
    return Success(merged);
  }

  lemma ReferencesGrow(env: Env, a: Decision, b: Decision)
    requires ValidDecision(env, a) && ValidDecision(env, b) && SameCore(a, b)
    requires a.outcome.None? || a.outcome == b.outcome
    requires a.reflection.None? || a.reflection == b.reflection
    requires ArtifactsAgree(a.artifacts, b.artifacts)
    ensures Within(a, b)
  {
    assert References(a) <= References(b);
  }

  /** Two valid snapshots that the merge does not reject contain one another. */
  lemma CompatibleIsNested(env: Env, a: Decision, b: Decision)
    requires ValidDecision(env, a) && ValidDecision(env, b) && SameCore(a, b)
    requires Agree(a.outcome, b.outcome) && Agree(a.reflection, b.reflection)
    requires ArtifactsAgree(a.artifacts, b.artifacts)
    ensures Within(a, b) || Within(b, a)
  {
    if Stage(a) <= Stage(b) {
      ReferencesGrow(env, a, b);
    } else {
      ReferencesGrow(env, b, a);
    }
  }

  lemma JoinOfNested(env: Env, a: Decision, b: Decision)
    requires Hashed(env, DecisionValue(a)) && Hashed(env, DecisionValue(b))
    ensures Within(a, b) ==> Joined(env, a, b) == b
    ensures Within(b, a) ==> Joined(env, a, b) == a
  {
    if Within(a, b) {
      assert a.artifacts + b.artifacts == b.artifacts;
      assert Joined(env, a, b).(sha := 0) == b.(sha := 0);
    }
    if Within(b, a) {
      assert a.artifacts + b.artifacts == a.artifacts;
      assert Joined(env, a, b).(sha := 0) == a.(sha := 0);
    }
  }

  /** What the merge means: of two valid snapshots, one must contain the other,
      and the larger one is the answer. */
  function Larger(env: Env, a: Decision, b: Decision): Result<Decision> {
    if !ValidDecision(env, a) || !ValidDecision(env, b) then Failure
    else if Within(a, b) then Success(b)
    else if Within(b, a) then Success(a)
    else Failure
  }

  /** The merge algorithm returns one of its arguments unchanged, and fails
      exactly when neither valid snapshot contains the other. */
  lemma MergeIsLarger(env: Env, a: Decision, b: Decision)
    ensures Merge(env, a, b) == Larger(env, a, b)
  {
    if ValidDecision(env, a) && ValidDecision(env, b) {
      JoinOfNested(env, a, b);
      if && SameCore(a, b) && Agree(a.outcome, b.outcome) && Agree(a.reflection, b.reflection)
         && ArtifactsAgree(a.artifacts, b.artifacts) {
        CompatibleIsNested(env, a, b);
      }
    }
  }

  /** Nothing new can be recorded at a stage that is already recorded. */
  lemma SameStageSameSnapshot(env: Env, a: Decision, b: Decision)
    requires Merge(env, a, b).Success?
    ensures Stage(a) == Stage(b) ==> a == b
  {
    MergeIsLarger(env, a, b);
    JoinOfNested(env, a, b);
    if Stage(a) == Stage(b) {
      ReferencesGrow(env, a, b);
      ReferencesGrow(env, b, a);
    }
  }

  lemma MergeCommutes(env: Env, a: Decision, b: Decision)
    ensures Merge(env, a, b) == Merge(env, b, a)
  {
    hide ValidDecision;
    MergeIsLarger(env, a, b);
    MergeIsLarger(env, b, a);
    if Larger(env, a, b).Success? && Within(a, b) && Within(b, a) {
      assert Stage(a) == Stage(b);
      SameStageSameSnapshot(env, a, b);
    }
  }

  lemma MergeIdempotent(env: Env, a: Decision)
    ensures ValidDecision(env, a) ==> Merge(env, a, a) == Success(a)
  {
    MergeIsLarger(env, a, a);
  }

  function AndThenMerge(env: Env, a: Result<Decision>, b: Result<Decision>): Result<Decision> {
    if a.Success? && b.Success? then Merge(env, a.value, b.value) else Failure
  }

  /** Associative including failure: either both groupings fail or both return
      the same snapshot. */
  lemma MergeAssociates(env: Env, a: Decision, b: Decision, c: Decision)
    ensures AndThenMerge(env, Merge(env, a, b), Success(c))
            == AndThenMerge(env, Success(a), Merge(env, b, c))
  {
    hide ValidDecision;
    hide Merge;
    MergeIsLarger(env, a, b);
    MergeIsLarger(env, b, c);
    MergeIsLarger(env, a, c);
    if && ValidDecision(env, a) && ValidDecision(env, b) && ValidDecision(env, c) {
      if Within(a, c) || Within(c, a) {
        if Within(b, a) { NestedBelow(env, b, a, c); }
        if Within(b, c) { NestedBelow(env, b, c, a); }
      }
      MergeCommutes(env, a, b);
      MergeCommutes(env, b, c);
      MergeCommutes(env, a, c);
    }
  }

  /** Whatever is contained in `top` is nested with everything that `top` is
      nested with. */
  lemma NestedBelow(env: Env, low: Decision, top: Decision, other: Decision)
    requires ValidDecision(env, low) && ValidDecision(env, other)
    requires Within(low, top)
    requires Within(top, other) || Within(other, top)
    ensures Within(low, other) || Within(other, low)
  {
    if Within(other, top) {
      assert ArtifactsAgree(low.artifacts, other.artifacts);
      CompatibleIsNested(env, low, other);
    }
  }

  /** Snapshots of one run that are pairwise mergeable are told apart by their
      stage, so there are at most three of them. */
  lemma AtMostThreeSnapshots(env: Env, snapshots: set<Decision>)
    requires forall a, b | a in snapshots && b in snapshots :: Merge(env, a, b).Success?
    ensures |snapshots| <= 3
  {
    hide Merge;
    forall a, b | a in snapshots && b in snapshots && Stage(a) == Stage(b)
      ensures a == b
    {
      assert Merge(env, a, b).Success?;
      SameStageSameSnapshot(env, a, b);
    }
    CountByStage(snapshots, 3);
  }

  lemma {:induction false} CountByStage(snapshots: set<Decision>, stages: nat)
    requires forall a | a in snapshots :: Stage(a) < stages
    requires forall a, b | a in snapshots && b in snapshots && Stage(a) == Stage(b) :: a == b
    ensures |snapshots| <= stages
  {
    if snapshots != {} && stages > 0 {
      if x :| x in snapshots && Stage(x) == stages - 1 {
        CountByStage(snapshots - {x}, stages - 1);
      } else {
        CountByStage(snapshots, stages - 1);
      }
    }
  }
}
