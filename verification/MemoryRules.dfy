/** What it means for a value to be saved: the rules of validity told from the
    times, hashes and fields of saved values, and a world in which the values
    that can be saved are exactly those the rules allow. */
module MemoryRules {
  import opened Wrappers
  import opened MemoryModel
  import opened DecisionMerge
  import opened MemoryCatalog
  import opened MemoryDatabase

  /** Both texts are time stamps, the first not after the second. */
  predicate AtMost(env: Env, a: string, b: string) {
    env.time(a).Some? && env.time(b).Some? && env.time(a).value <= env.time(b).value
  }

  // ---- what makes a value valid, told from its fields ----

  /** The value is under the digest of its own content, and an outcome and a
      reflection name the digest of their own; the leaf checks pass. */
  predicate UnderDigest(env: Env, v: Value, h: Hash) {
    && (match v
        case ArtifactValue(a) => h == env.digest(ArtifactValue(a.(sha := 0))) && env.artifactOk(a)
        case DecisionValue(d) =>
          && h == env.digest(DecisionValue(d.(sha := 0)))
          && env.recordOk(d.runId, d.record, d.contract)
          && (d.outcome.Some? ==> d.outcome.value.sha == env.outcomeDigest(d.outcome.value.(sha := 0)))
          && (d.reflection.Some? ==> d.reflection.value.sha == env.reflectionDigest(d.reflection.value.(sha := 0)))
        case ContextValue(c) => h == env.digest(ContextValue(c.(sha := 0))) && env.contextOk(c)
        case BundleValue(b) => h == env.digest(BundleValue(b.(sha := 0))) && env.bundleOk(b)
        case ReviewValue(r) => h == env.digest(ReviewValue(r.(sha := 0))))
    && (!v.ArtifactValue? ==> env.bounded(v))
  }

  /** A snapshot's times go forward: recorded, observed, reflected. */
  predicate InOrder(env: Env, d: Decision) {
    && env.time(d.record.recordedAt).Some?
    && (d.outcome.Some? ==> AtMost(env, d.record.recordedAt, d.outcome.value.observedAt))
    && (d.reflection.Some? ==>
          d.outcome.Some? && AtMost(env, d.outcome.value.observedAt, d.reflection.value.reflectedAt))
  }

  /** The stages of a snapshot: an available outcome belongs to a prospective
      contract and gives no reason; one that cannot be evaluated gives a reason,
      the contract's own unless it is prospective, and no calculation; only an
      available outcome is reflected on. */
  predicate Staged(env: Env, d: Decision) {
    && (d.outcome.Some? ==>
          && d.outcome.value.contractSha == d.contract.sha
          && (d.outcome.value.status == Available <==> d.outcome.value.reason.None?)
          && (d.outcome.value.status == Available <==> d.outcome.value.calculation.Some?)
          && (d.outcome.value.status == Available ==> d.contract.prospective && d.outcome.value.facts.Some?)
          && (d.outcome.value.status == NotEvaluable ==>
                env.reasonOk(d.outcome.value.reason.value)
                && (!d.contract.prospective ==> d.outcome.value.reason == d.contract.notEvaluableReason)))
    && (d.reflection.Some? ==>
          d.outcome.Some? && d.outcome.value.status == Available
          && d.reflection.value.outcomeSha == d.outcome.value.sha)
  }

  /** Why a snapshot carries an artifact. */
  predicate Carries(d: Decision, k: Hash) {
    || k == d.record.text
    || d.contract.policyArtifact == Some(k)
    || (d.outcome.Some? && (d.outcome.value.facts == Some(k) || d.outcome.value.calculation == Some(k)))
    || (d.reflection.Some? && (d.reflection.value.modelContext == k || d.reflection.value.prompt == k
                               || d.reflection.value.response == k))
  }

  predicate Is(d: Decision, k: Hash, form: Form) {
    k in d.artifacts && d.artifacts[k].form == form
  }

  /** The references of a snapshot lead to artifacts of the form they ask for, and
      texts that must not be empty are not. */
  predicate Referred(env: Env, d: Decision) {
    && Is(d, d.record.text, Text) && d.artifacts[d.record.text].payload != ""
    && (d.contract.policyArtifact.Some? ==>
          Is(d, d.contract.policyArtifact.value, CanonicalJson)
          && d.artifacts[d.contract.policyArtifact.value] == env.policyArtifact
          && env.subjectsOk(d.record, d.contract, d.outcome, d.artifacts))
    && (d.outcome.Some? ==>
          && (d.outcome.value.facts.Some? ==> Is(d, d.outcome.value.facts.value, CanonicalJson))
          && (d.outcome.value.calculation.Some? ==> Is(d, d.outcome.value.calculation.value, CanonicalJson)))
    && (d.reflection.Some? ==>
          && Is(d, d.reflection.value.modelContext, CanonicalJson)
          && Is(d, d.reflection.value.prompt, Text)
          && Is(d, d.reflection.value.response, Text)
          && d.artifacts[d.reflection.value.response].payload != "")
  }

  /** A snapshot carries exactly the artifacts it refers to, each under its digest. */
  ghost predicate Equipped(env: Env, d: Decision) {
    && (forall k :: k in d.artifacts <==> Carries(d, k))
    && (forall k | k in d.artifacts ::
          d.artifacts[k].sha == k && UnderDigest(env, ArtifactValue(d.artifacts[k]), k))
  }

  /** Which snapshots are valid. The bound on their artifacts refuses none. */
  lemma DecisionExactly(env: Env, d: Decision)
    ensures ValidDecision(env, d) <==>
              && UnderDigest(env, DecisionValue(d), d.sha)
              && InOrder(env, d) && Staged(env, d) && Referred(env, d) && Equipped(env, d)
  {
    hide *;
    if ValidDecision(env, d) { ValidIsRight(env, d); }
    if && UnderDigest(env, DecisionValue(d), d.sha)
       && InOrder(env, d) && Staged(env, d) && Referred(env, d) && Equipped(env, d) {
      RightIsValid(env, d);
    }
  }

  lemma ValidIsRight(env: Env, d: Decision)
    requires ValidDecision(env, d)
    ensures UnderDigest(env, DecisionValue(d), d.sha)
    ensures InOrder(env, d) && Staged(env, d) && Referred(env, d) && Equipped(env, d)
  {
    hide ValidOutcome, ValidReflection, References, Equipped, ValidArtifact, NotBefore, AtMost;
    EquippedExactly(env, d);
    if d.outcome.Some? { OutcomeExactly(env, d, d.outcome.value); }
    if d.reflection.Some? { ReflectionExactly(env, d, d.reflection.value); }
  }

  lemma RightIsValid(env: Env, d: Decision)
    requires UnderDigest(env, DecisionValue(d), d.sha)
    requires InOrder(env, d) && Staged(env, d) && Referred(env, d) && Equipped(env, d)
    ensures ValidDecision(env, d)
  {
    hide ValidOutcome, ValidReflection, References, Equipped, ValidArtifact, NotBefore, AtMost;
    EquippedExactly(env, d);
    if d.outcome.Some? { OutcomeExactly(env, d, d.outcome.value); }
    if d.reflection.Some? { ReflectionExactly(env, d, d.reflection.value); }
    FewReferences(d);
  }

  lemma OutcomeExactly(env: Env, d: Decision, o: Outcome)
    requires d.outcome == Some(o)
    ensures ValidOutcome(env, d, o) <==>
              && AtMost(env, d.record.recordedAt, o.observedAt)
              && o.sha == env.outcomeDigest(o.(sha := 0))
              && (o.facts.Some? ==> Is(d, o.facts.value, CanonicalJson))
              && (o.calculation.Some? ==> Is(d, o.calculation.value, CanonicalJson))
              && (o.status == NotEvaluable ==> d.reflection.None?)
              && o.contractSha == d.contract.sha
              && (o.status == Available <==> o.reason.None?)
              && (o.status == Available <==> o.calculation.Some?)
              && (o.status == Available ==> d.contract.prospective && o.facts.Some?)
              && (o.status == NotEvaluable ==>
                    env.reasonOk(o.reason.value)
                    && (!d.contract.prospective ==> o.reason == d.contract.notEvaluableReason))
  {}

  lemma ReflectionExactly(env: Env, d: Decision, r: Reflection)
    requires d.reflection == Some(r)
    ensures ValidReflection(env, d, r) <==>
              && d.outcome.Some? && d.outcome.value.status == Available && r.outcomeSha == d.outcome.value.sha
              && AtMost(env, d.outcome.value.observedAt, r.reflectedAt)
              && r.sha == env.reflectionDigest(r.(sha := 0))
              && Is(d, r.modelContext, CanonicalJson) && Is(d, r.prompt, Text) && Is(d, r.response, Text)
              && d.artifacts[r.response].payload != ""
  {}

  lemma EquippedExactly(env: Env, d: Decision)
    ensures Equipped(env, d) <==>
              && d.artifacts.Keys == References(d)
              && forall k | k in d.artifacts :: ValidArtifact(env, d.artifacts[k]) && d.artifacts[k].sha == k
  {
    forall k
      ensures k in References(d) <==> Carries(d, k)
    {
      ReferencesAreCarried(d, k);
    }
    hide References, Carries;
  }

  lemma ReferencesAreCarried(d: Decision, k: Hash)
    ensures k in References(d) <==> Carries(d, k)
  {}

  lemma FewReferences(d: Decision)
    ensures |References(d)| <= 7
  {
    Union(Optional(d.contract.policyArtifact), {d.record.text});
    Union(Optional(d.contract.policyArtifact) + {d.record.text}, OutcomeReferences(d.outcome));
    Union(Optional(d.contract.policyArtifact) + {d.record.text} + OutcomeReferences(d.outcome),
          ReflectionReferences(d.reflection));
    if d.outcome.Some? { Union(Optional(d.outcome.value.facts), Optional(d.outcome.value.calculation)); }
    if d.reflection.Some? {
      var r := d.reflection.value;
      assert ReflectionReferences(d.reflection) == {r.modelContext} + ({r.prompt} + {r.response});
      Union({r.prompt}, {r.response});
      Union({r.modelContext}, {r.prompt} + {r.response});
    }
  }

  lemma {:induction false} Union(a: set<Hash>, b: set<Hash>)
    ensures |a + b| <= |a| + |b|
  {
    assert |a + b| + |a * b| == |a| + |b|;
  }

  /** A context looks back: a decision in it was recorded, observed and reflected
      by the time it was selected and by its research cutoff. */
  predicate LooksBack(env: Env, c: Context, i: nat)
    requires i < |c.decisions|
  {
    var d := c.decisions[i];
    && d.outcome.Some? && d.outcome.value.status == Available && d.reflection.Some?
    && AtMost(env, d.record.recordedAt, c.selectedAt)
    && AtMost(env, d.record.recordedAt, c.researchCutoff)
    && AtMost(env, d.outcome.value.observedAt, c.selectedAt)
    && AtMost(env, d.outcome.value.observedAt, c.researchCutoff)
    && AtMost(env, d.reflection.value.reflectedAt, c.selectedAt)
    && AtMost(env, d.reflection.value.reflectedAt, c.researchCutoff)
  }

  /** A context is available from the earlier of its two times on. */
  predicate FromTheEarlier(env: Env, c: Context) {
    && AtMost(env, c.availabilityCutoff, c.selectedAt) && AtMost(env, c.availabilityCutoff, c.researchCutoff)
    && (AtMost(env, c.selectedAt, c.availabilityCutoff) || AtMost(env, c.researchCutoff, c.availabilityCutoff))
  }

  /** A context carries a text and at most 128 decisions of different runs. */
  predicate Shaped(c: Context) {
    && c.artifact.form == Text && |c.decisions| <= 128
    && forall i, j | 0 <= i < j < |c.decisions| :: c.decisions[i].runId != c.decisions[j].runId
  }

  lemma ContextExactly(env: Env, c: Context)
    ensures ValidContext(env, c) <==>
              && UnderDigest(env, ContextValue(c), c.sha) && FromTheEarlier(env, c) && Shaped(c)
              && UnderDigest(env, ArtifactValue(c.artifact), c.artifact.sha)
              && forall i | 0 <= i < |c.decisions| :: ValidDecision(env, c.decisions[i]) && LooksBack(env, c, i)
  {
    hide ValidDecision;
    if FromTheEarlier(env, c) {
      forall i | 0 <= i < |c.decisions|
        ensures LooksBack(env, c, i) <==> ByCutoff(env, c, i)
      {
        LooksBackExactly(env, c, i);
      }
    }
    hide LooksBack, NotBefore;
  }

  predicate ByCutoff(env: Env, c: Context, i: nat)
    requires i < |c.decisions|
  {
    var d := c.decisions[i];
    && d.outcome.Some? && d.reflection.Some? && d.outcome.value.status == Available
    && NotBefore(env, c.availabilityCutoff, d.record.recordedAt)
    && NotBefore(env, c.availabilityCutoff, d.outcome.value.observedAt)
    && NotBefore(env, c.availabilityCutoff, d.reflection.value.reflectedAt)
  }

  lemma LooksBackExactly(env: Env, c: Context, i: nat)
    requires i < |c.decisions| && FromTheEarlier(env, c)
    ensures LooksBack(env, c, i) <==> ByCutoff(env, c, i)
  {}

  /** A bundle belongs together: run, instrument, date and evidence agree, the
      context was selected while the research ran, at the cutoff the decision
      gives, and does not contain the decision itself. */
  predicate Matches(env: Env, b: Bundle) {
    var r := b.decision.record;
    && b.decision.runId == b.runId
    && r.instrument == b.instrument == b.input.instrument
    && r.analysisDate == b.analysisDate && r.evidenceBundle == b.evidenceBundle
    && r.asOf == b.input.researchCutoff
    && AtMost(env, r.startedAt, b.input.selectedAt) && AtMost(env, b.input.selectedAt, r.recordedAt)
    && forall i | 0 <= i < |b.input.decisions| :: b.input.decisions[i].runId != b.runId
  }

  lemma BundleExactly(env: Env, b: Bundle)
    ensures ValidBundle(env, b) <==>
              && UnderDigest(env, BundleValue(b), b.sha) && Matches(env, b)
              && ValidContext(env, b.input) && ValidDecision(env, b.decision)
  {
    hide ValidDecision, ValidContext;
  }

  /** A review comes after everything it reviews. */
  predicate ComesAfter(env: Env, r: Review) {
    var d := r.snapshot;
    && r.decisionId == d.runId
    && AtMost(env, d.record.recordedAt, r.reviewedAt)
    && (d.outcome.Some? ==> AtMost(env, d.outcome.value.observedAt, r.reviewedAt))
    && (d.reflection.Some? ==> AtMost(env, d.reflection.value.reflectedAt, r.reviewedAt))
  }

  lemma ReviewExactly(env: Env, r: Review)
    ensures ValidReview(env, r) <==>
              UnderDigest(env, ReviewValue(r), r.sha) && ComesAfter(env, r) && ValidDecision(env, r.snapshot)
  {
    hide ValidDecision;
  }

  // ---- what is saved ----

  /** Every saved value is under its digest; a saved snapshot's times go forward, its
      stages are right and it carries exactly the artifacts it refers to. */
  lemma SavedDecisions(env: Env, cat: Catalog, h: Hash)
    requires WellFormed(env, cat) && h in cat && cat[h].DecisionValue?
    ensures var d := cat[h].decision;
            UnderDigest(env, cat[h], h) && InOrder(env, d) && Staged(env, d) && Referred(env, d) && Equipped(env, d)
  {
    CatalogFacts(env, cat, h);
    DecisionExactly(env, cat[h].decision);
    hide *;
  }

  /** A saved context looks back: everything in it was known when it was selected and
      by its research cutoff. */
  lemma SavedContexts(env: Env, cat: Catalog, h: Hash)
    requires WellFormed(env, cat) && h in cat && cat[h].ContextValue?
    ensures var c := cat[h].context;
            && UnderDigest(env, cat[h], h) && FromTheEarlier(env, c) && Shaped(c)
            && forall i | 0 <= i < |c.decisions| :: LooksBack(env, c, i)
  {
    CatalogFacts(env, cat, h);
    ContextExactly(env, cat[h].context);
    hide *;
  }

  lemma SavedBundles(env: Env, cat: Catalog, h: Hash)
    requires WellFormed(env, cat) && h in cat && cat[h].BundleValue?
    ensures UnderDigest(env, cat[h], h) && Matches(env, cat[h].bundle)
  {
    CatalogFacts(env, cat, h);
    BundleExactly(env, cat[h].bundle);
    hide *;
  }

  lemma SavedReviews(env: Env, cat: Catalog, h: Hash)
    requires WellFormed(env, cat) && h in cat && cat[h].ReviewValue?
    ensures UnderDigest(env, cat[h], h) && ComesAfter(env, cat[h].review)
  {
    CatalogFacts(env, cat, h);
    ReviewExactly(env, cat[h].review);
    hide *;
  }

  /** All of this holds of what is in a sound database, so of all that is ever
      loaded from it. */
  lemma SoundDatabaseIsWellFormed(db: Database)
    ensures db.Valid() ==> WellFormed(db.env, db.catalog)
  {
    db.ValidFacts();
  }

  // ---- a world in which exactly the right times can be saved ----

  /** A time stamp is as late as it is long; every leaf is accepted; the digest
      tells apart the values below. */
  const WORLD: Env := Env(
    (v: Value) =>
      match v
      case ArtifactValue(a) => 1 + |a.payload|
      case DecisionValue(d) => (if d.runId == "past" then 10 else 20) + Stage(d)
      case ContextValue(_) => 30
      case BundleValue(_) => 40
      case ReviewValue(_) => 50,
    _ => 60, _ => 70, s => Some(|s|), _ => true, _ => true, (_, _, _) => true,
    Artifact(Text, "", 0), _ => true, (_, _, _, _) => true, _ => true, _ => true)

  const HOLD: Artifact := Artifact(Text, "h", 2)
  const FACTS: Artifact := Artifact(CanonicalJson, "ff", 3)
  const CALCULATION: Artifact := Artifact(CanonicalJson, "ccc", 4)
  const MODEL: Artifact := Artifact(CanonicalJson, "mmmm", 5)
  const PROMPT: Artifact := Artifact(Text, "ppppp", 6)
  const RESPONSE: Artifact := Artifact(Text, "rrrrrr", 7)
  const INPUT: Artifact := Artifact(Text, "iiiiiii", 8)
  const ALL: map<Hash, Artifact> :=
    map[2 := HOLD, 3 := FACTS, 4 := CALCULATION, 5 := MODEL, 6 := PROMPT, 7 := RESPONSE]

  const TERMS: Contract := Contract(true, None, None, 0, "")
  const UNDATED: Contract := Contract(false, Some("none"), None, 0, "")

  /** A decision with everything in it, recorded, observed and reflected then. */
  function Complete(run: string, started: string, asOf: string, recorded: string, observed: string, reflected: string)
    : Decision
  {
    Decision(run, Record("X", "day", started, asOf, recorded, 2, 0, ""), TERMS,
             Some(Outcome(0, observed, Available, None, Some(3), Some(4), 60)),
             Some(Reflection(60, reflected, 5, 6, 7, 70)), ALL, if run == "past" then 12 else 22)
  }

  function Fresh(started: string, asOf: string, recorded: string): Decision {
    Decision("now", Record("X", "day", started, asOf, recorded, 2, 0, ""), TERMS, None, None, map[2 := HOLD], 20)
  }

  /** A decision that turned out not to be evaluable. */
  function Dropped(recorded: string, observed: string): Decision {
    Decision("past", Record("X", "day", "", "", recorded, 2, 0, ""), UNDATED,
             Some(Outcome(0, observed, NotEvaluable, Some("none"), None, None, 60)), None, map[2 := HOLD], 11)
  }

  function Looking(selected: string, cutoff: string, available: string, past: Decision): Context {
    Context("X", selected, cutoff, available, "", INPUT, [past], 30)
  }

  function Whole(input: Context, decision: Decision): Bundle {
    Bundle("now", "X", "day", 0, "", input, decision, 40)
  }

  lemma AllValid()
    ensures forall k | k in ALL :: ValidArtifact(WORLD, ALL[k]) && ALL[k].sha == k
    ensures ValidArtifact(WORLD, HOLD) && ValidArtifact(WORLD, INPUT)
    ensures ALL.Keys == {2, 3, 4, 5, 6, 7}
  {}

  /** What this world asks of a reflected decision with all artifacts. */
  lemma AskedOfComplete(d: Decision)
    requires d.artifacts == ALL && d.record.text == 2 && d.contract == TERMS && d.outcome.Some? && d.reflection.Some?
    requires References(d) == {2, 3, 4, 5, 6, 7} && Hashed(WORLD, DecisionValue(d))
    ensures ValidDecision(WORLD, d) <==>
              ValidOutcome(WORLD, d, d.outcome.value) && ValidReflection(WORLD, d, d.reflection.value)
  {
    AllValid();
    AllEnough();
    WorldAccepts(d);
    hide ALL, WORLD, ValidArtifact, References, Hashed, ValidOutcome, ValidReflection, RefersTo;
  }

  lemma AllEnough()
    ensures |ALL| <= 16 && RefersTo(ALL, 2, Text) && ALL[2].payload != ""
  {
    assert ALL.Keys == {2, 3, 4, 5, 6, 7} && |{2, 3, 4, 5, 6, 7}| == 6 && ALL[2] == HOLD && HOLD.payload == "h";
  }

  lemma WorldAccepts(d: Decision)
    ensures WORLD.bounded(DecisionValue(d)) && WORLD.recordOk(d.runId, d.record, d.contract)
    ensures WORLD.time(d.record.recordedAt).Some?
  {}

  lemma CompleteValid(run: string, started: string, asOf: string, recorded: string, observed: string, reflected: string)
    ensures ValidDecision(WORLD, Complete(run, started, asOf, recorded, observed, reflected)) <==>
              |recorded| <= |observed| <= |reflected|
  {
    var d := Complete(run, started, asOf, recorded, observed, reflected);
    CompleteParts(d, run, started, asOf, recorded, observed, reflected);
    CompleteReferences(d, run, started, asOf, recorded, observed, reflected);
    AskedOfComplete(d);
    hide *;
  }

  lemma CompleteParts(d: Decision, run: string, started: string, asOf: string,
                      recorded: string, observed: string, reflected: string)
    requires d == Complete(run, started, asOf, recorded, observed, reflected)
    ensures ValidOutcome(WORLD, d, d.outcome.value) <==> |recorded| <= |observed|
    ensures ValidReflection(WORLD, d, d.reflection.value) <==> |observed| <= |reflected|
  {}

  lemma CompleteReferences(d: Decision, run: string, started: string, asOf: string,
                           recorded: string, observed: string, reflected: string)
    requires d == Complete(run, started, asOf, recorded, observed, reflected)
    ensures References(d) == {2, 3, 4, 5, 6, 7} && Hashed(WORLD, DecisionValue(d))
    ensures d.artifacts == ALL && d.record.text == 2 && d.contract == TERMS && d.outcome.Some? && d.reflection.Some?
  {}

  lemma FreshValid(started: string, asOf: string, recorded: string)
    ensures ValidDecision(WORLD, Fresh(started, asOf, recorded))
  {
    AllValid();
    assert References(Fresh(started, asOf, recorded)) == {2};
    hide ValidArtifact, References;
  }

  lemma DroppedValid(recorded: string, observed: string)
    ensures ValidDecision(WORLD, Dropped(recorded, observed)) <==> |recorded| <= |observed|
  {
    AllValid();
    assert References(Dropped(recorded, observed)) == {2};
    hide ValidArtifact, References;
  }

  lemma LookingValid(selected: string, cutoff: string, available: string, past: Decision)
    requires past.outcome.Some? && past.reflection.Some? && past.outcome.value.status == Available
    ensures ValidContext(WORLD, Looking(selected, cutoff, available, past)) <==>
              && ValidDecision(WORLD, past)
              && (|available| == |selected| <= |cutoff| || |available| == |cutoff| <= |selected|)
              && |past.record.recordedAt| <= |available|
              && |past.outcome.value.observedAt| <= |available|
              && |past.reflection.value.reflectedAt| <= |available|
  {
    var c := Looking(selected, cutoff, available, past);
    LookingHashed(c, selected, cutoff, available, past);
    WorldTimes(c, selected, cutoff, available);
    AskedOfContext(c, past);
    LookingOne(c, past);
    hide Looking, WORLD, ValidContext, ValidDecision, OneHolds;
  }

  lemma AskedOfContext(c: Context, past: Decision)
    requires c.decisions == [past] && c.artifact == INPUT && Hashed(WORLD, ContextValue(c))
    requires WORLD.bounded(ContextValue(c)) && WORLD.contextOk(c)
    requires past.outcome.Some? && past.reflection.Some? && past.outcome.value.status == Available
    ensures ValidContext(WORLD, c) <==>
              && WORLD.time(c.availabilityCutoff).Some?
              && WORLD.time(c.selectedAt).Some? && WORLD.time(c.researchCutoff).Some?
              && (if WORLD.time(c.selectedAt).value <= WORLD.time(c.researchCutoff).value
                  then WORLD.time(c.availabilityCutoff) == WORLD.time(c.selectedAt)
                  else WORLD.time(c.availabilityCutoff) == WORLD.time(c.researchCutoff))
              && OneHolds(c, past)
  {
    AllValid();
    hide WORLD, ValidDecision, ValidArtifact, Hashed, NotBefore;
    assert c.decisions[0] == past;
  }

  lemma WorldTimes(c: Context, selected: string, cutoff: string, available: string)
    ensures WORLD.bounded(ContextValue(c)) && WORLD.contextOk(c)
    ensures WORLD.time(selected) == Some(|selected|) && WORLD.time(cutoff) == Some(|cutoff|)
    ensures WORLD.time(available) == Some(|available|)
  {}

  /** What a context asks of one decision. */
  predicate OneHolds(c: Context, d: Decision) {
    && ValidDecision(WORLD, d)
    && d.outcome.Some? && d.reflection.Some? && d.outcome.value.status == Available
    && NotBefore(WORLD, c.availabilityCutoff, d.record.recordedAt)
    && NotBefore(WORLD, c.availabilityCutoff, d.outcome.value.observedAt)
    && NotBefore(WORLD, c.availabilityCutoff, d.reflection.value.reflectedAt)
  }

  lemma LookingOne(c: Context, past: Decision)
    requires c.decisions == [past] && past.outcome.Some? && past.reflection.Some?
    requires past.outcome.value.status == Available
    ensures OneHolds(c, past) <==>
              && ValidDecision(WORLD, past)
              && |past.record.recordedAt| <= |c.availabilityCutoff|
              && |past.outcome.value.observedAt| <= |c.availabilityCutoff|
              && |past.reflection.value.reflectedAt| <= |c.availabilityCutoff|
  {
    hide ValidDecision;
  }

  lemma LookingHashed(c: Context, selected: string, cutoff: string, available: string, past: Decision)
    requires c == Looking(selected, cutoff, available, past)
    ensures Hashed(WORLD, ContextValue(c))
    ensures c.selectedAt == selected && c.researchCutoff == cutoff && c.availabilityCutoff == available
    ensures c.decisions == [past] && c.artifact == INPUT && c.sha == 30 && c.instrument == "X"
  {}

  /** Values that are told apart by their hashes, decisions of different runs and
      at most one bundle, do not get in each other's way. */
  lemma ApartFits(env: Env, parts: set<Value>, named: Catalog)
    requires forall p | p in parts :: ValidValue(env, p) && Held(named, p)
    requires forall h, g | h in named && g in named && h != g ::
               && (named[h].DecisionValue? && named[g].DecisionValue? ==>
                     named[h].decision.runId != named[g].decision.runId)
               && (!named[h].BundleValue? || !named[g].BundleValue?)
    ensures Fits(env, map[], parts)
  {
    hide ValidValue, Merge, HashOf;
    forall p, q | p in parts && q in parts
      ensures Coexist(env, p, q)
    {
      if p == q { CoexistReflexive(env, p); }
    }
    hide Coexist;
  }

  /** What is saved at the hashes of this world. */
  function Named(past: Decision, now: Decision, c: Context, b: Bundle): Catalog {
    map[2 := ArtifactValue(HOLD), 3 := ArtifactValue(FACTS), 4 := ArtifactValue(CALCULATION),
        5 := ArtifactValue(MODEL), 6 := ArtifactValue(PROMPT), 7 := ArtifactValue(RESPONSE),
        8 := ArtifactValue(INPUT), past.sha := DecisionValue(past), now.sha := DecisionValue(now),
        30 := ContextValue(c), 40 := BundleValue(b)]
  }

  predicate Told(past: Decision, now: Decision) {
    && past.runId == "past" && now.runId == "now" && 10 <= past.sha < 20 <= now.sha < 30
    && (forall k | k in past.artifacts :: k in ALL && past.artifacts[k] == ALL[k])
    && (forall k | k in now.artifacts :: k in ALL && now.artifacts[k] == ALL[k])
  }

  lemma ToldHashes(past: Decision, now: Decision)
    requires Told(past, now)
    ensures 10 <= past.sha < 20 <= now.sha < 30 && past.runId == "past" && now.runId == "now"
  {}

  lemma AllNamed(past: Decision, now: Decision, c: Context, b: Bundle, d: Decision)
    requires Told(past, now) && (d == past || d == now)
    ensures forall p | p in DecisionParts(d) :: Held(Named(past, now, c, b), p)
  {
    NamedAtHash(past, now, c, b);
    assert Held(Named(past, now, c, b), DecisionValue(d));
    forall k | k in d.artifacts
      ensures Held(Named(past, now, c, b), ArtifactValue(d.artifacts[k]))
    {
      assert d.artifacts[k] == ALL[k];
    }
    hide Named, Held;
  }

  lemma NamedAtHash(past: Decision, now: Decision, c: Context, b: Bundle)
    requires 10 <= past.sha < 20 <= now.sha < 30
    ensures forall k | k in ALL :: Held(Named(past, now, c, b), ArtifactValue(ALL[k]))
    ensures Held(Named(past, now, c, b), DecisionValue(past)) && Held(Named(past, now, c, b), DecisionValue(now))
  {
    NamedValues(past, now, c, b);
    assert ALL.Keys == {2, 3, 4, 5, 6, 7};
    hide Named;
  }

  lemma NamedValues(past: Decision, now: Decision, c: Context, b: Bundle)
    requires 10 <= past.sha < 20 <= now.sha < 30
    ensures var named := Named(past, now, c, b);
            && {2, 3, 4, 5, 6, 7, past.sha, now.sha} <= named.Keys
            && named[past.sha] == DecisionValue(past) && named[now.sha] == DecisionValue(now)
            && named[2] == ArtifactValue(HOLD) && named[3] == ArtifactValue(FACTS)
            && named[4] == ArtifactValue(CALCULATION) && named[5] == ArtifactValue(MODEL)
            && named[6] == ArtifactValue(PROMPT) && named[7] == ArtifactValue(RESPONSE)
  {}

  lemma NamedApart(past: Decision, now: Decision, c: Context, b: Bundle)
    requires Told(past, now)
    ensures var named := Named(past, now, c, b);
            forall h, g | h in named && g in named && h != g ::
              && (named[h].DecisionValue? && named[g].DecisionValue? ==>
                    named[h].decision.runId != named[g].decision.runId)
              && (!named[h].BundleValue? || !named[g].BundleValue?)
  {
    assert "past" != "now";
  }

  lemma DecisionStorable(past: Decision, now: Decision, d: Decision)
    requires Told(past, now) && (d == past || d == now)
    ensures Storable(WORLD, map[], DecisionValue(d)) <==> ValidDecision(WORLD, d)
    ensures ValidDecision(WORLD, d) ==> forall p | p in DecisionParts(d) :: ValidValue(WORLD, p)
  {
    var c, b := Looking("", "", "", past), Whole(Looking("", "", "", past), now);
    AllNamed(past, now, c, b, d);
    NamedApart(past, now, c, b);
    if ValidDecision(WORLD, d) {
      PartsOfValid(WORLD, d);
      ApartFits(WORLD, DecisionParts(d), Named(past, now, c, b));
    }
    hide ValidDecision, Fits, DecisionParts, Told, Named;
  }

  lemma PartsOfValid(env: Env, d: Decision)
    requires ValidDecision(env, d)
    ensures forall p | p in DecisionParts(d) :: ValidValue(env, p)
  {
    ArtifactsOfValid(env, d);
    hide ValidDecision, ValidArtifact;
  }

  lemma ArtifactsOfValid(env: Env, d: Decision)
    requires ValidDecision(env, d)
    ensures forall k | k in d.artifacts :: ValidArtifact(env, d.artifacts[k])
  {
    hide References, RefersTo, ValidOutcome, ValidReflection, Hashed;
  }

  lemma ContextStorable(past: Decision, now: Decision, selected: string, cutoff: string, available: string)
    requires Told(past, now)
    ensures var c := Looking(selected, cutoff, available, past);
            && (Storable(WORLD, map[], ContextValue(c)) <==> ValidContext(WORLD, c))
            && (ValidContext(WORLD, c) ==> forall p | p in ContextParts(c) :: ValidValue(WORLD, p))
            && forall p | p in ContextParts(c) :: Held(Named(past, now, c, Whole(c, now)), p)
  {
    hide *;
    var c := Looking(selected, cutoff, available, past);
    LookingHashed(c, selected, cutoff, available, past);
    AllNamed(past, now, c, Whole(c, now), past);
    NamedApart(past, now, c, Whole(c, now));
    LookingParts(c, past);
    LookingHeld(c, past, now);
    StorableKinds(WORLD, c, Whole(c, now));
    if ValidContext(WORLD, c) {
      AllValid();
      LookingHolds(c, past);
      PartsOfValid(WORLD, past);
      ContextPartsValid(c, past);
      ApartFits(WORLD, ContextParts(c), Named(past, now, c, Whole(c, now)));
    }
  }

  lemma StorableKinds(env: Env, c: Context, b: Bundle)
    ensures Storable(env, map[], ContextValue(c)) <==> ValidContext(env, c) && Fits(env, map[], ContextParts(c))
    ensures Storable(env, map[], BundleValue(b)) <==>
              ValidBundle(env, b)
              && Fits(env, map[], {BundleValue(b)} + ContextParts(b.input) + DecisionParts(b.decision))
  {
    hide ValidContext, ValidBundle, Fits, ContextParts, DecisionParts;
  }

  lemma LookingParts(c: Context, past: Decision)
    requires c.decisions == [past]
    ensures ContextParts(c) == {ContextValue(c), ArtifactValue(c.artifact)} + DecisionParts(past)
  {
    hide DecisionParts;
    assert past in c.decisions;
  }

  lemma LookingHeld(c: Context, past: Decision, now: Decision)
    requires Told(past, now) && c.sha == 30 && c.artifact == INPUT
    ensures Held(Named(past, now, c, Whole(c, now)), ContextValue(c))
    ensures Held(Named(past, now, c, Whole(c, now)), ArtifactValue(c.artifact))
  {}

  lemma LookingHolds(c: Context, past: Decision)
    requires ValidContext(WORLD, c) && c.decisions == [past]
    ensures ValidDecision(WORLD, past)
  {
    hide ValidDecision, Hashed;
    assert c.decisions[0] == past;
  }

  lemma ContextPartsValid(c: Context, past: Decision)
    requires ValidContext(WORLD, c) && c.artifact == INPUT && ValidArtifact(WORLD, INPUT)
    requires ContextParts(c) == {ContextValue(c), ArtifactValue(c.artifact)} + DecisionParts(past)
    requires forall p | p in DecisionParts(past) :: ValidValue(WORLD, p)
    ensures forall p | p in ContextParts(c) :: ValidValue(WORLD, p)
  {
    hide ContextParts, DecisionParts, ValidContext, ValidArtifact, ValidDecision;
  }

  lemma BundleStorable(past: Decision, now: Decision, c: Context)
    requires Told(past, now) && c.sha == 30 && ValidBundle(WORLD, Whole(c, now))
    requires forall p | p in ContextParts(c) :: ValidValue(WORLD, p) && Held(Named(past, now, c, Whole(c, now)), p)
    ensures Storable(WORLD, map[], BundleValue(Whole(c, now)))
  {
    hide *;
    var b := Whole(c, now);
    WholeIs(c, now);
    ToldHashes(past, now);
    AllNamed(past, now, c, b, now);
    NamedApart(past, now, c, b);
    BundleHeld(past, now, c, b);
    StorableKinds(WORLD, c, b);
    BundleHolds(b);
    PartsOfValid(WORLD, now);
    ApartFits(WORLD, {BundleValue(b)} + ContextParts(c) + DecisionParts(now), Named(past, now, c, b));
  }

  lemma WholeIs(c: Context, now: Decision)
    ensures Whole(c, now).input == c && Whole(c, now).decision == now && Whole(c, now).sha == 40
  {}

  lemma BundleHeld(past: Decision, now: Decision, c: Context, b: Bundle)
    requires b.sha == 40 && 10 <= past.sha < 20 <= now.sha < 30
    ensures Held(Named(past, now, c, b), BundleValue(b))
  {}

  lemma BundleHolds(b: Bundle)
    requires ValidBundle(WORLD, b)
    ensures ValidDecision(WORLD, b.decision) && ValidContext(WORLD, b.input) && ValidValue(WORLD, BundleValue(b))
  {
    hide ValidDecision, ValidContext, Hashed;
  }

  lemma WholeValid(c: Context, now: Decision)
    requires c.instrument == "X" && now.runId == "now" && now.record.instrument == "X"
    requires now.record.analysisDate == "day" && now.record.evidenceBundle == 0
    requires |c.decisions| == 1 && c.decisions[0].runId == "past"
    ensures ValidBundle(WORLD, Whole(c, now)) <==>
              && ValidContext(WORLD, c) && ValidDecision(WORLD, now) && now.record.asOf == c.researchCutoff
              && |now.record.startedAt| <= |c.selectedAt| <= |now.record.recordedAt|
  {
    hide ValidContext, ValidDecision;
    assert Hashed(WORLD, BundleValue(Whole(c, now)));
    hide Hashed;
    assert "past" != "now";
  }

  lemma ReviewStorable(past: Decision, now: Decision, reviewed: string)
    requires Told(past, now)
    ensures var r := Review("now", reviewed, now, 50);
            Storable(WORLD, map[], ReviewValue(r)) <==>
              && ValidDecision(WORLD, now)
              && |now.record.recordedAt| <= |reviewed|
              && (now.outcome.Some? ==> |now.outcome.value.observedAt| <= |reviewed|)
              && (now.reflection.Some? ==> |now.reflection.value.reflectedAt| <= |reviewed|)
  {
    hide *;
    var r := Review("now", reviewed, now, 50);
    var c := Looking("", "", "", past);
    var b := Whole(c, now);
    ToldHashes(past, now);
    ReviewValid(r, now);
    StorableReview(WORLD, r);
    if ValidReview(WORLD, r) {
      AllNamed(past, now, c, b, now);
      NamedApart(past, now, c, b);
      PartsOfValid(WORLD, now);
      NotNamed(past, now, c, b);
      ReviewFits(r, now, Named(past, now, c, b));
    }
  }

  lemma NotNamed(past: Decision, now: Decision, c: Context, b: Bundle)
    requires 10 <= past.sha < 20 <= now.sha < 30
    ensures 50 !in Named(past, now, c, b)
  {}

  lemma StorableReview(env: Env, r: Review)
    ensures Storable(env, map[], ReviewValue(r)) <==>
              ValidReview(env, r) && Fits(env, map[], {ReviewValue(r)} + DecisionParts(r.snapshot))
  {
    hide ValidReview, Fits, DecisionParts;
  }

  lemma ReviewValid(r: Review, now: Decision)
    requires r == Review("now", r.reviewedAt, now, 50) && now.runId == "now"
    ensures ValidReview(WORLD, r) <==>
              && ValidDecision(WORLD, now)
              && |now.record.recordedAt| <= |r.reviewedAt|
              && (now.outcome.Some? ==> |now.outcome.value.observedAt| <= |r.reviewedAt|)
              && (now.reflection.Some? ==> |now.reflection.value.reflectedAt| <= |r.reviewedAt|)
  {
    hide ValidDecision;
  }

  lemma ReviewFits(r: Review, now: Decision, named: Catalog)
    requires r.sha == 50 && r.snapshot == now && ValidReview(WORLD, r) && 50 !in named
    requires forall p | p in DecisionParts(now) :: ValidValue(WORLD, p) && Held(named, p)
    requires forall h, g | h in named && g in named && h != g ::
               && (named[h].DecisionValue? && named[g].DecisionValue? ==>
                     named[h].decision.runId != named[g].decision.runId)
               && (!named[h].BundleValue? || !named[g].BundleValue?)
    ensures Fits(WORLD, map[], {ReviewValue(r)} + DecisionParts(now))
  {
    hide ValidReview, ValidDecision, DecisionParts;
    ApartFits(WORLD, {ReviewValue(r)} + DecisionParts(now), named[50 := ReviewValue(r)]);
    hide Fits;
  }

  lemma CompleteTold(a: string, b: string, c: string, started: string, asOf: string, recorded: string)
    ensures Told(Complete("past", "", "", a, b, c), Fresh(started, asOf, recorded))
    ensures Told(Complete("past", "", "", a, b, c), Complete("now", "", "", a, b, c))
    ensures Told(Dropped(a, b), Fresh(started, asOf, recorded))
  {}

  /** In this world a decision can be saved exactly if it was recorded, observed
      and reflected in this order. */
  lemma DecisionsSavedExactly(recorded: string, observed: string, reflected: string)
    ensures Storable(WORLD, map[], DecisionValue(Complete("past", "", "", recorded, observed, reflected))) <==>
              |recorded| <= |observed| <= |reflected|
    ensures Storable(WORLD, map[], DecisionValue(Dropped(recorded, observed))) <==> |recorded| <= |observed|
    ensures Storable(WORLD, map[], DecisionValue(Fresh(recorded, observed, reflected)))
  {
    hide *;
    CompleteTold(recorded, observed, reflected, recorded, observed, reflected);
    CompleteValid("past", "", "", recorded, observed, reflected);
    DroppedValid(recorded, observed);
    FreshValid(recorded, observed, reflected);
    var past, now := Complete("past", "", "", recorded, observed, reflected), Fresh(recorded, observed, reflected);
    DecisionStorable(past, now, past);
    DecisionStorable(past, now, now);
    DecisionStorable(Dropped(recorded, observed), now, Dropped(recorded, observed));
  }

  /** A context with one reflected decision can be saved exactly if it is
      available from the earlier of selection and research cutoff, and the
      decision was reflected by then. */
  lemma ContextsSavedExactly(selected: string, cutoff: string, available: string,
                             recorded: string, observed: string, reflected: string)
    ensures var c := Looking(selected, cutoff, available, Complete("past", "", "", recorded, observed, reflected));
            Storable(WORLD, map[], ContextValue(c)) <==>
              && |available| == (if |selected| <= |cutoff| then |selected| else |cutoff|)
              && |recorded| <= |observed| <= |reflected| <= |available|
  {
    hide *;
    var past := Complete("past", "", "", recorded, observed, reflected);
    CompleteTold(recorded, observed, reflected, "", "", "");
    CompleteValid("past", "", "", recorded, observed, reflected);
    CompleteIs("past", "", "", recorded, observed, reflected);
    LookingValid(selected, cutoff, available, past);
    ContextStorable(past, Fresh("", "", ""), selected, cutoff, available);
  }

  /** A context without decisions can be saved exactly if it is available from the
      earlier of the two. */
  lemma EmptyContextsSavedExactly(selected: string, cutoff: string, available: string)
    ensures Storable(WORLD, map[], ContextValue(Context("X", selected, cutoff, available, "", INPUT, [], 30))) <==>
              |available| == if |selected| <= |cutoff| then |selected| else |cutoff|
  {
    var c := Context("X", selected, cutoff, available, "", INPUT, [], 30);
    AllValid();
    WorldTimes(c, selected, cutoff, available);
    assert Hashed(WORLD, ContextValue(c));
    assert Parts(ContextValue(c)) == {ContextValue(c), ArtifactValue(INPUT)};
    assert HashOf(ContextValue(c)) == 30 && HashOf(ArtifactValue(INPUT)) == 8;
    hide WORLD, Hashed, ValidArtifact, Parts, Merge, HashOf;
  }

  lemma CompleteIs(run: string, started: string, asOf: string, recorded: string, observed: string, reflected: string)
    ensures var d := Complete(run, started, asOf, recorded, observed, reflected);
            && d.runId == run && d.outcome.Some? && d.outcome.value.status == Available && d.reflection.Some?
            && d.record.recordedAt == recorded && d.outcome.value.observedAt == observed
            && d.reflection.value.reflectedAt == reflected
  {}

  lemma FreshIs(started: string, asOf: string, recorded: string)
    ensures var d := Fresh(started, asOf, recorded);
            && d.runId == "now" && d.record.instrument == "X" && d.record.analysisDate == "day"
            && d.record.evidenceBundle == 0 && d.record.startedAt == started && d.record.asOf == asOf
            && d.record.recordedAt == recorded
  {}

  /** A bundle can be saved exactly if its context can, the context was selected
      between the start and the recording, and both have one research cutoff. */
  lemma BundlesSavedExactly(selected: string, cutoff: string, started: string, asOf: string, recorded: string,
                            reflected: string)
    ensures var available := if |selected| <= |cutoff| then selected else cutoff;
            var c := Looking(selected, cutoff, available, Complete("past", "", "", "", "", reflected));
            Storable(WORLD, map[], BundleValue(Whole(c, Fresh(started, asOf, recorded)))) <==>
              |reflected| <= |available| && asOf == cutoff && |started| <= |selected| <= |recorded|
  {
    hide *;
    var available := if |selected| <= |cutoff| then selected else cutoff;
    var past, now := Complete("past", "", "", "", "", reflected), Fresh(started, asOf, recorded);
    var c := Looking(selected, cutoff, available, past);
    CompleteTold("", "", reflected, started, asOf, recorded);
    CompleteValid("past", "", "", "", "", reflected);
    CompleteIs("past", "", "", "", "", reflected);
    FreshValid(started, asOf, recorded);
    FreshIs(started, asOf, recorded);
    LookingValid(selected, cutoff, available, past);
    LookingHashed(c, selected, cutoff, available, past);
    WholeValid(c, now);
    ContextStorable(past, now, selected, cutoff, available);
    StorableKinds(WORLD, c, Whole(c, now));
    if ValidBundle(WORLD, Whole(c, now)) { BundleStorable(past, now, c); }
  }

  /** A review can be saved exactly if it comes after all it reviews. */
  lemma ReviewsSavedExactly(reviewed: string, recorded: string, observed: string, reflected: string)
    ensures Storable(WORLD, map[],
                     ReviewValue(Review("now", reviewed, Complete("now", "", "", recorded, observed, reflected), 50)))
            <==> |recorded| <= |observed| <= |reflected| <= |reviewed|
    ensures Storable(WORLD, map[], ReviewValue(Review("now", reviewed, Fresh("", "", recorded), 50)))
            <==> |recorded| <= |reviewed|
  {
    hide *;
    var past := Complete("past", "", "", recorded, observed, reflected);
    CompleteTold(recorded, observed, reflected, "", "", recorded);
    CompleteValid("now", "", "", recorded, observed, reflected);
    CompleteIs("now", "", "", recorded, observed, reflected);
    FreshValid("", "", recorded);
    FreshIs("", "", recorded);
    FreshIsPending("", "", recorded);
    ReviewStorable(past, Complete("now", "", "", recorded, observed, reflected), reviewed);
    ReviewStorable(past, Fresh("", "", recorded), reviewed);
  }

  lemma FreshIsPending(started: string, asOf: string, recorded: string)
    ensures Fresh(started, asOf, recorded).outcome.None? && Fresh(started, asOf, recorded).reflection.None?
  {}
}
