/** The five kinds of research-memory value and the rules that make one valid.

    A SHA-256 string of fixed length sorts like the number it spells, so a hash
    is a natural number here. Nothing is assumed about the digest: every
    function that hashes takes it from `Env`, and two values may collide. */
module MemoryModel {
  import opened Wrappers

  type Hash = nat

  datatype Form = Text | CanonicalJson
  datatype Artifact = Artifact(form: Form, payload: string, sha: Hash)

  /** The frozen evaluation contract. `rest` stands for the fields that no rule
      of this model looks at one by one. */
  datatype Contract = Contract(
    prospective: bool, notEvaluableReason: Option<string>,
    policyArtifact: Option<Hash>, sha: Hash, rest: string)

  /** The recorded decision inside a snapshot. */
  datatype Record = Record(
    instrument: string, analysisDate: string, startedAt: string, asOf: string,
    recordedAt: string, text: Hash, evidenceBundle: Hash, rest: string)

  datatype Status = Available | NotEvaluable
  datatype Outcome = Outcome(
    contractSha: Hash, observedAt: string, status: Status, reason: Option<string>,
    facts: Option<Hash>, calculation: Option<Hash>, sha: Hash)

  datatype Reflection = Reflection(
    outcomeSha: Hash, reflectedAt: string, modelContext: Hash, prompt: Hash,
    response: Hash, sha: Hash)

  datatype Decision = Decision(
    runId: string, record: Record, contract: Contract,
    outcome: Option<Outcome>, reflection: Option<Reflection>,
    artifacts: map<Hash, Artifact>, sha: Hash)

  datatype Context = Context(
    instrument: string, selectedAt: string, researchCutoff: string,
    availabilityCutoff: string, rest: string,
    artifact: Artifact, decisions: seq<Decision>, sha: Hash)

  datatype Bundle = Bundle(
    runId: string, instrument: string, analysisDate: string,
    evidenceBundle: Hash, rest: string,
    input: Context, decision: Decision, sha: Hash)

  datatype Review = Review(decisionId: string, reviewedAt: string, snapshot: Decision, sha: Hash)

  datatype Kind = ArtifactKind | DecisionKind | ContextKind | BundleKind | ReviewKind
  datatype Value =
    | ArtifactValue(artifact: Artifact)
    | DecisionValue(decision: Decision)
    | ContextValue(context: Context)
    | BundleValue(bundle: Bundle)
    | ReviewValue(review: Review)

  /** Everything the model leaves open: the three uses of SHA-256, the reading
      of a time stamp, and the leaf checks (sizes, privacy patterns, calendar
      and policy fields) that look at one component only. */
  datatype Env = Env(
    digest: Value -> Hash,
    outcomeDigest: Outcome -> Hash,
    reflectionDigest: Reflection -> Hash,
    time: string -> Option<int>,
    bounded: Value -> bool,
    artifactOk: Artifact -> bool,
    recordOk: (string, Record, Contract) -> bool,
    policyArtifact: Artifact,
    reasonOk: string -> bool,
    subjectsOk: (Record, Contract, Option<Outcome>, map<Hash, Artifact>) -> bool,
    contextOk: Context -> bool,
    bundleOk: Bundle -> bool)

  function KindOf(v: Value): Kind {
    match v
    case ArtifactValue(_) => ArtifactKind
    case DecisionValue(_) => DecisionKind
    case ContextValue(_) => ContextKind
    case BundleValue(_) => BundleKind
    case ReviewValue(_) => ReviewKind
  }

  /** The value's own hash field. */
  function HashOf(v: Value): Hash {
    match v
    case ArtifactValue(a) => a.sha
    case DecisionValue(d) => d.sha
    case ContextValue(c) => c.sha
    case BundleValue(b) => b.sha
    case ReviewValue(r) => r.sha
  }

  /** The value without its own hash field: what the digest is taken over. */
  function Unhashed(v: Value): Value {
    match v
    case ArtifactValue(a) => ArtifactValue(a.(sha := 0))
    case DecisionValue(d) => DecisionValue(d.(sha := 0))
    case ContextValue(c) => ContextValue(c.(sha := 0))
    case BundleValue(b) => BundleValue(b.(sha := 0))
    case ReviewValue(r) => ReviewValue(r.(sha := 0))
  }

  predicate Hashed(env: Env, v: Value) {
    HashOf(v) == env.digest(Unhashed(v))
  }

  predicate NotBefore(env: Env, later: string, earlier: string) {
    match (env.time(later), env.time(earlier))
    case (Some(l), Some(e)) => l >= e
    case _ => false
  }

  predicate ValidArtifact(env: Env, a: Artifact) {
    env.artifactOk(a) && Hashed(env, ArtifactValue(a))
  }

  predicate RefersTo(artifacts: map<Hash, Artifact>, reference: Hash, form: Form) {
    reference in artifacts && artifacts[reference].form == form
  }

  function Optional(h: Option<Hash>): set<Hash> {
    match h case None => {} case Some(x) => {x}
  }

  function OutcomeReferences(o: Option<Outcome>): set<Hash> {
    match o
    case None => {}
    case Some(x) => Optional(x.facts) + Optional(x.calculation)
  }

  function ReflectionReferences(r: Option<Reflection>): set<Hash> {
    match r
    case None => {}
    case Some(x) => {x.modelContext, x.prompt, x.response}
  }

  /** The artifacts a snapshot must carry, and may carry no others. */
  function References(d: Decision): set<Hash> {
    Optional(d.contract.policyArtifact) + {d.record.text}
    + OutcomeReferences(d.outcome) + ReflectionReferences(d.reflection)
  }

  predicate ValidOutcome(env: Env, d: Decision, o: Outcome) {
    && o.contractSha == d.contract.sha
    && NotBefore(env, o.observedAt, d.record.recordedAt)
    && (match o.status
        case Available =>
          && d.contract.prospective
          && o.reason.None?
          && o.facts.Some? && RefersTo(d.artifacts, o.facts.value, CanonicalJson)
          && o.calculation.Some? && RefersTo(d.artifacts, o.calculation.value, CanonicalJson)
        case NotEvaluable =>
          && o.reason.Some? && env.reasonOk(o.reason.value)
          && (o.facts.Some? ==> RefersTo(d.artifacts, o.facts.value, CanonicalJson))
          && o.calculation.None? && d.reflection.None?
          && (d.contract.prospective || o.reason == d.contract.notEvaluableReason))
    && o.sha == env.outcomeDigest(o.(sha := 0))
  }

  predicate ValidReflection(env: Env, d: Decision, r: Reflection) {
    && d.outcome.Some? && d.outcome.value.status == Available
    && r.outcomeSha == d.outcome.value.sha
    && NotBefore(env, r.reflectedAt, d.outcome.value.observedAt)
    && RefersTo(d.artifacts, r.modelContext, CanonicalJson)
    && RefersTo(d.artifacts, r.prompt, Text)
    && RefersTo(d.artifacts, r.response, Text)
    && d.artifacts[r.response].payload != ""
    && r.sha == env.reflectionDigest(r.(sha := 0))
  }

  predicate ValidDecision(env: Env, d: Decision) {
    && env.bounded(DecisionValue(d))
    && env.recordOk(d.runId, d.record, d.contract)
    && env.time(d.record.recordedAt).Some?
    && |d.artifacts| <= 16
    && (forall k | k in d.artifacts :: ValidArtifact(env, d.artifacts[k]) && d.artifacts[k].sha == k)
    && (d.contract.policyArtifact.Some? ==>
          && RefersTo(d.artifacts, d.contract.policyArtifact.value, CanonicalJson)
          && d.artifacts[d.contract.policyArtifact.value] == env.policyArtifact)
    && RefersTo(d.artifacts, d.record.text, Text)
    && d.artifacts[d.record.text].payload != ""
    && (d.outcome.Some? ==> ValidOutcome(env, d, d.outcome.value))
    && (d.reflection.Some? ==> ValidReflection(env, d, d.reflection.value))
    && d.artifacts.Keys == References(d)
    && (d.contract.policyArtifact.Some? ==>
          env.subjectsOk(d.record, d.contract, d.outcome, d.artifacts))
    && Hashed(env, DecisionValue(d))
  }

  predicate ValidContext(env: Env, c: Context) {
    && env.bounded(ContextValue(c))
    && env.time(c.availabilityCutoff).Some?
    && env.time(c.selectedAt).Some? && env.time(c.researchCutoff).Some?
    && env.time(c.availabilityCutoff).value
       == (if env.time(c.selectedAt).value <= env.time(c.researchCutoff).value
           then env.time(c.selectedAt).value else env.time(c.researchCutoff).value)
    && |c.decisions| <= 128
    && (forall i | 0 <= i < |c.decisions| ::
          var d := c.decisions[i];
          && ValidDecision(env, d)
          && d.outcome.Some? && d.reflection.Some? && d.outcome.value.status == Available
          && NotBefore(env, c.availabilityCutoff, d.record.recordedAt)
          && NotBefore(env, c.availabilityCutoff, d.outcome.value.observedAt)
          && NotBefore(env, c.availabilityCutoff, d.reflection.value.reflectedAt))
    && (forall i, j | 0 <= i < j < |c.decisions| :: c.decisions[i].runId != c.decisions[j].runId)
    && ValidArtifact(env, c.artifact) && c.artifact.form == Text
    && env.contextOk(c)
    && Hashed(env, ContextValue(c))
  }

  predicate ValidBundle(env: Env, b: Bundle) {
    && env.bounded(BundleValue(b))
    && env.bundleOk(b)
    && ValidContext(env, b.input)
    && ValidDecision(env, b.decision)
    && b.decision.runId == b.runId
    && b.decision.record.instrument == b.instrument
    && b.input.instrument == b.instrument
    && b.decision.record.analysisDate == b.analysisDate
    && b.decision.record.evidenceBundle == b.evidenceBundle
    && b.decision.record.asOf == b.input.researchCutoff
    && NotBefore(env, b.input.selectedAt, b.decision.record.startedAt)
    && NotBefore(env, b.decision.record.recordedAt, b.input.selectedAt)
    && (forall i | 0 <= i < |b.input.decisions| :: b.input.decisions[i].runId != b.runId)
    && Hashed(env, BundleValue(b))
  }

  /** A review on its own, before it is compared with a completed bundle. */
  predicate ValidReview(env: Env, r: Review) {
    && env.bounded(ReviewValue(r))
    && ValidDecision(env, r.snapshot)
    && r.decisionId == r.snapshot.runId
    && NotBefore(env, r.reviewedAt, r.snapshot.record.recordedAt)
    && (r.snapshot.outcome.Some? ==> NotBefore(env, r.reviewedAt, r.snapshot.outcome.value.observedAt))
    && (r.snapshot.reflection.Some? ==> NotBefore(env, r.reviewedAt, r.snapshot.reflection.value.reflectedAt))
    && Hashed(env, ReviewValue(r))
  }

  predicate ValidValue(env: Env, v: Value) {
    match v
    case ArtifactValue(a) => ValidArtifact(env, a)
    case DecisionValue(d) => ValidDecision(env, d)
    case ContextValue(c) => ValidContext(env, c)
    case BundleValue(b) => ValidBundle(env, b)
    case ReviewValue(r) => ValidReview(env, r)
  }
}
