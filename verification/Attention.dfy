/**
 Attention identities: twelve families with closed selector schemas, an event id that
 is either a terminal name or base64url over canonical JSON, and the parser that
 accepts exactly the ids the printer makes.
 */
module Attention {
  import opened Prelude
  import opened Text
  import opened Base64Url
  import opened Json

  const MAX_BYTES: nat := 8192
  const ORIGINAL := "original_event_id"
  const FORMAT := "AIOS_BRAIN_ATTENTION"

  const RESULT := "RUN_RESULT_REQUIRING_SEMANTIC_REVIEW"
  const FAILURE := "RUN_FAILURE_REQUIRING" + "_CORRECTION_REASONING"
  const INGRESS := "INGRESS_OR_CARRIER_REJECTION"
  const DISPATCH := "PRIMARY_REMEDIATION" + "_REPAIR_DISPATCH_REJECTION"
  const PRE_AIOS := "PRE_AIOS_OPERATIONAL" + "_FAILURE_REQUIRING_DIAGNOSIS"
  const REVIEW_INGRESS := "REVIEW_INGRESS_REJECTION"
  const REVIEW := "REVIEW_CHANGES_REQUIRED_OR_BLOCKED"
  const AUTHORING := "REMEDIATION_OR_REPAIR" + "_AUTHORING_REJECTION"
  const PUBLICATION_FAILURE := "PUBLICATION_DISPATCH" + "_OR_EXECUTION_FAILURE"
  const PUBLICATION_SUCCESS := "PUBLICATION_SUCCESS_REQUIRING" + "_HUMAN_BRAIN_PLANNING"
  const CONFLICT := "CANONICAL_CONFLICT_OR_STALENESS"
  const RECOVERY := "WAKE_DELIVERY_RECOVERY" + "_FOR_UNRESOLVED_ATTENTION"

  datatype Family =
    | RunResult | RunFailure | Ingress | Dispatch | PreAios | ReviewIngress
    | Review | Authoring | PublicationFailure | PublicationSuccess | Conflict | Recovery

  function Name(family: Family): string {
    match family
    case RunResult => RESULT
    case RunFailure => FAILURE
    case Ingress => INGRESS
    case Dispatch => DISPATCH
    case PreAios => PRE_AIOS
    case ReviewIngress => REVIEW_INGRESS
    case Review => REVIEW
    case Authoring => AUTHORING
    case PublicationFailure => PUBLICATION_FAILURE
    case PublicationSuccess => PUBLICATION_SUCCESS
    case Conflict => CONFLICT
    case Recovery => RECOVERY
  }

  function NameLength(family: Family): nat {
    match family
    case RunResult => 36
    case RunFailure => 42
    case Ingress => 28
    case Dispatch => 45
    case PreAios => 48
    case ReviewIngress => 24
    case Review => 34
    case Authoring => 41
    case PublicationFailure => 41
    case PublicationSuccess => 50
    case Conflict => 31
    case Recovery => 47
  }

  lemma NameShape(family: Family)
    ensures |Name(family)| == NameLength(family)
  {
  }

  /** Capital letters and underscores only: no colon, nothing that JSON escapes. */
  predicate Word(s: string) {
    forall i :: 0 <= i < |s| ==> 'A' <= s[i] <= 'Z' || s[i] == '_'
  }

  lemma RunWords()
    ensures Word(RESULT) && Word(FAILURE)
  {
  }

  lemma IngressWords()
    ensures Word(INGRESS) && Word(REVIEW_INGRESS)
  {
  }

  lemma DispatchWords()
    ensures Word(DISPATCH) && Word(PRE_AIOS)
  {
  }

  lemma ReviewWords()
    ensures Word(REVIEW) && Word(AUTHORING)
  {
  }

  lemma PublicationWords()
    ensures Word(PUBLICATION_FAILURE) && Word(PUBLICATION_SUCCESS)
  {
  }

  lemma RecoveryWords()
    ensures Word(CONFLICT) && Word(RECOVERY)
  {
  }

  lemma NamesAreWords(family: Family)
    ensures Word(Name(family))
  {
    match family
    case RunResult | RunFailure => RunWords();
    case Ingress | ReviewIngress => IngressWords();
    case Dispatch | PreAios => DispatchWords();
    case Review | Authoring => ReviewWords();
    case PublicationFailure | PublicationSuccess => PublicationWords();
    case Conflict | Recovery => RecoveryWords();
  }

  lemma NamesDiffer(a: Family, b: Family)
    requires Name(a) == Name(b)
    ensures a == b
  {
    NameShape(a);
    NameShape(b);
    assert Name(Authoring)[0] == 'R' && Name(PublicationFailure)[0] == 'P';
  }

  function FamilyOf(name: string): (r: Option<Family>)
    ensures r.Some? ==> Name(r.value) == name
    ensures r.None? ==> forall f :: Name(f) != name
  {
    if exists f :: Name(f) == name then
      assert forall a, b :: Name(a) == name && Name(b) == name ==> a == b by {
        forall a, b | Name(a) == name && Name(b) == name
          ensures a == b
        {
          NamesDiffer(a, b);
        }
      }
      var f :| Name(f) == name;
      Some(f)
    else None
  }

  lemma FamilyOfName(family: Family)
    ensures FamilyOf(Name(family)) == Some(family)
  {
    NamesDiffer(FamilyOf(Name(family)).value, family);
  }

  datatype Kind =
    | Positive | NotCreated | OriginalId
    | Sha40 | Digest64 | RunName | Delivery | Subject | CanonicalRef
    | OneOf(words: set<string>)

  type Schema = map<string, Kind>
  type Selectors = map<string, Json>

  const ATTEMPT: Schema := map[
    "workflow_run_id" := Positive, "run_attempt" := Positive, "artifact_id" := Positive, "source_digest" := Digest64]
  const ISSUE_BODY: Schema := map["issue_id" := Positive, "issue_number" := Positive, "body_digest" := Digest64]
  const SUBJECT: Schema := map["subject_id" := Subject, "subject_sha" := Sha40, "finding_id" := Delivery]
  const NOT_CREATED: Schema := map["run_created" := NotCreated]
  const REVIEWED: Schema := map[
    "run_id" := RunName, "artifact_sha" := Sha40, "decision_sha" := Sha40, "reviewed_sha" := Sha40]

  function Choice(key: string, words: set<string>): Schema {
    map[key := OneOf(words)]
  }

  const TERMINAL: Schema := map["run_id" := RunName, "artifact_sha" := Sha40]
  const CORRECTIONS: set<string> := {"AUTHOR_REMEDIATION", "AUTHOR_REPAIR"}
  const OPERATIONS: set<string> := {"UNKNOWN", "AUTHOR_TASK", "SUBMIT_REVIEW"} + CORRECTIONS
  const EXECUTIONS: set<string> := {"PRIMARY", "REMEDIATION", "REPAIR"}
  const CARRIERS: set<string> := {"INGRESS"} + EXECUTIONS
  const STAGES: set<string> := {"DISPATCH", "EXECUTION"}
  const PREPARED: Schema := map[
    "prepared_sha" := Sha40, "prepared_digest" := Digest64, "predecessor_ref" := CanonicalRef,
    "predecessor_sha" := Sha40, "observed_sha" := Sha40]

  function Boundary(word: string): Schema {
    Choice("source_boundary", {word})
  }

  /** A rejected envelope: the workflow attempt, the issue, and what the envelope asked for. */
  function EnvelopeSchema(operations: set<string>, own: Schema): Schema {
    ATTEMPT + ISSUE_BODY + SUBJECT + NOT_CREATED + Choice("operation", operations) + own + Boundary("CARRIER_REJECTED")
  }

  function DeliverySchema(boundary: string): Schema {
    ATTEMPT + SUBJECT + NOT_CREATED + Choice("operation", EXECUTIONS) +
    map["delivery_id" := Delivery] + Boundary(boundary)
  }

  function ReviewedSchema(own: Schema, boundary: string): Schema {
    REVIEWED + own + Boundary(boundary)
  }

  function SchemaOf(family: Family): Schema {
    match family
    case RunResult | RunFailure => TERMINAL
    case Ingress => EnvelopeSchema(OPERATIONS, Choice("carrier", CARRIERS))
    case ReviewIngress => EnvelopeSchema({"SUBMIT_REVIEW"}, map[])
    case Authoring => EnvelopeSchema(CORRECTIONS, map[])
    case Dispatch => DeliverySchema("DISPATCH_REJECTED")
    case PreAios => DeliverySchema("PRE_AIOS_FAILED")
    case Review => ReviewedSchema(map[], "REVIEW_FOLLOWUP")
    case PublicationFailure => ReviewedSchema(ATTEMPT + Choice("stage", STAGES), "PUBLICATION_FAILED")
    case PublicationSuccess => ReviewedSchema(map["published_sha" := Sha40], "PUBLICATION_PROVEN")
    case Conflict => ATTEMPT + PREPARED + Boundary("CANONICAL_CONFLICT")
    case Recovery => map[ORIGINAL := OriginalId]
  }

  // ----- Selector values -----

  predicate Hex(c: char) { '0' <= c <= '9' || 'a' <= c <= 'f' }
  predicate Alnum(c: char) { '0' <= c <= '9' || 'A' <= c <= 'Z' || 'a' <= c <= 'z' }
  predicate NameChar(c: char) { Alnum(c) || c == '.' || c == '_' || c == '-' }
  predicate DeliveryChar(c: char) { Alnum(c) || c == '_' || c == '-' }
  predicate RefChar(c: char) { NameChar(c) || c == '/' }

  /** A prefix, one alphanumeric, then at most 95 further name characters. */
  predicate Named(s: string, prefix: string) {
    StartsWith(s, prefix) && |prefix| < |s| <= |prefix| + 96 && Alnum(s[|prefix|]) && AllIn(s, NameChar)
  }

  const NAMESPACES: set<string> := {
    "review", "failure", "artifacts", "failure-artifacts", "review-decision", "repair", "remediation", "task"}

  predicate RefName(s: string) {
    || s == "refs/heads/main"
    || (AllIn(s, RefChar) &&
        exists n :: n in NAMESPACES && RefIn(s, "refs/heads/aios/" + n + "/"))
  }

  predicate RefIn(s: string, prefix: string) {
    StartsWith(s, prefix) && |prefix| < |s| <= |prefix| + 128 && AllIn(s[|prefix|..], NameChar)
  }

  predicate Matches(v: Json, kind: Kind) {
    match kind
    case Positive => v.Num? && 1 <= v.n <= 9007199254740991
    case NotCreated => v == Flag(false)
    case Sha40 => v.Str? && |v.text| == 40 && AllIn(v.text, Hex)
    case Digest64 => v.Str? && |v.text| == 64 && AllIn(v.text, Hex)
    case RunName => v.Str? && Named(v.text, "RUN-")
    case Delivery => v.Str? && 1 <= |v.text| <= 128 && Alnum(v.text[0]) && AllIn(v.text, DeliveryChar)
    case Subject => v.Str? && (v.text == "NONE" || Named(v.text, "RUN-") || Named(v.text, "TASK-"))
    case CanonicalRef => v.Str? && RefName(v.text)
    case OneOf(words) => v.Str? && v.text in words
    case OriginalId => v.Str?
  }

  function TextOf(s: Selectors, key: string): string {
    if key in s && s[key].Str? then s[key].text else ""
  }

  predicate IsNone(s: Selectors, key: string) {
    TextOf(s, key) == "NONE"
  }

  /** Constraints between the selectors of one family. */
  predicate CrossChecks(family: Family, s: Selectors) {
    var subject, operation := TextOf(s, "subject_id"), TextOf(s, "operation");
    if family == ReviewIngress then
      StartsWith(subject, "RUN-") && IsNone(s, "finding_id")
    else if family == Authoring then
      StartsWith(subject, "RUN-") && (operation == "AUTHOR_REPAIR" ==> IsNone(s, "finding_id"))
    else if family == Ingress then
      && (if TextOf(s, "carrier") == "INGRESS"
          then operation !in {"SUBMIT_REVIEW", "AUTHOR_REMEDIATION", "AUTHOR_REPAIR"}
          else operation == "UNKNOWN")
      && (operation == "UNKNOWN" ==>
            subject == "NONE" && AllIn(TextOf(s, "subject_sha"), c => c == '0') && IsNone(s, "finding_id"))
      && (operation == "AUTHOR_TASK" ==> StartsWith(subject, "TASK-") && IsNone(s, "finding_id"))
    else if family == Dispatch || family == PreAios then
      && (subject == "NONE" || StartsWith(subject, if operation == "PRIMARY" then "TASK-" else "RUN-"))
      && (operation != "REMEDIATION" ==> IsNone(s, "finding_id"))
    else if family == PublicationSuccess then
      TextOf(s, "published_sha") == TextOf(s, "reviewed_sha")
    else true
  }

  /** Exactly the schema's keys, and a value of the right kind under each; the named original is checked apart. */
  predicate Fields(family: Family, s: Selectors) {
    && s.Keys == SchemaOf(family).Keys
    && forall k :: k in s ==> Matches(s[k], SchemaOf(family)[k])
  }

  // ----- Printing -----

  datatype Attention = Attention(family: Family, selectors: Selectors)

  function SortedMembers(s: Selectors): seq<Member> {
    var keys := SortKeys(s.Keys);
    seq(|keys|, i requires 0 <= i < |keys| => Member(keys[i], s[keys[i]]))
  }

  function Canonical(s: Selectors): string {
    Print(Object(SortedMembers(s)))
  }

  function ToMap(ms: seq<Member>): Selectors {
    if ms == [] then map[] else ToMap(ms[1..])[ms[0].key := ms[0].value]
  }

  const BOM := [0xEF as char, 0xBB as char, 0xBF as char]

  /** At most 8192 octets, an optional byte order mark, one JSON object. */
  function LoadObject(raw: string): Option<seq<Member>> {
    if !(0 < |raw| <= MAX_BYTES) then None
    else Parse(if StartsWith(raw, BOM) then raw[3..] else raw)
  }

  predicate PlainLeaf(v: Json) {
    !v.Object? && (v.Str? ==> Plain(v.text))
  }

  predicate PlainSelectors(s: Selectors) {
    forall k :: k in s ==> Plain(k) && PlainLeaf(s[k])
  }

  predicate Terminal(family: Family) {
    family == RunResult || family == RunFailure
  }

  function BodyMembers(a: Attention): seq<Member> {
    [Member("family", Str(Name(a.family))), Member("format", Str(FORMAT)),
     Member("selectors", Object(SortedMembers(a.selectors))), Member("version", Num(1))]
  }

  function Render(a: Attention): string {
    Print(Object(BodyMembers(a)))
  }

  predicate TerminalSelectors(s: Selectors) {
    "run_id" in s && s["run_id"].Str? && "artifact_sha" in s && s["artifact_sha"].Str?
  }

  function TerminalId(kind: string, run: string, sha: string): string {
    "terminal" + ":" + (kind + ":" + (run + ":" + sha))
  }

  function FamilyId(family: string, payload: string): string {
    "attention" + ":" + ("v1" + ":" + (family + ":" + payload))
  }

  // ----- Valid selectors print as themselves -----

  /** Every key, and every word of every enumeration, is plain text, and no selector names another attention. */
  ghost predicate PlainSchema(schema: Schema) {
    forall k :: k in schema ==> Plain(k) && PlainKind(schema[k])
  }

  ghost predicate PlainKind(kind: Kind) {
    !kind.OriginalId? && (kind.OneOf? ==> PlainWords(kind.words))
  }

  ghost predicate PlainWords(words: set<string>) {
    forall w :: w in words ==> Plain(w)
  }

  lemma SumIsPlain(a: Schema, b: Schema)
    requires PlainSchema(a) && PlainSchema(b)
    ensures PlainSchema(a + b)
  {
  }

  lemma ChoiceIsPlain(key: string, words: set<string>)
    requires Plain(key) && PlainWords(words)
    ensures PlainSchema(Choice(key, words))
  {
  }

  lemma AttemptIsPlain()
    ensures PlainSchema(ATTEMPT)
  {
    assert Plain("workflow_run_id") && Plain("run_attempt") && Plain("artifact_id") && Plain("source_digest");
  }

  lemma IssueBodyIsPlain()
    ensures PlainSchema(ISSUE_BODY)
  {
    assert Plain("issue_id") && Plain("issue_number") && Plain("body_digest");
  }

  lemma SubjectIsPlain()
    ensures PlainSchema(SUBJECT) && PlainSchema(NOT_CREATED)
  {
    assert Plain("subject_id") && Plain("subject_sha") && Plain("finding_id") && Plain("run_created");
  }

  lemma ReviewedIsPlain()
    ensures PlainSchema(REVIEWED)
  {
    assert Plain("run_id") && Plain("artifact_sha") && Plain("decision_sha") && Plain("reviewed_sha");
  }

  lemma TerminalIsPlain()
    ensures PlainSchema(TERMINAL)
  {
    assert Plain("run_id") && Plain("artifact_sha");
  }

  lemma PreparedKeysArePlain()
    ensures Plain("prepared_sha") && Plain("prepared_digest") && Plain("predecessor_ref")
    ensures Plain("predecessor_sha") && Plain("observed_sha")
  {
  }

  lemma PreparedIsPlain()
    ensures PlainSchema(PREPARED)
  {
    PreparedKeysArePlain();
  }

  lemma OperationsArePlain()
    ensures PlainWords(OPERATIONS) && PlainWords(CORRECTIONS) && PlainWords({"SUBMIT_REVIEW"})
  {
    assert Plain("UNKNOWN") && Plain("AUTHOR_TASK") && Plain("SUBMIT_REVIEW");
    assert Plain("AUTHOR_REMEDIATION") && Plain("AUTHOR_REPAIR");
  }

  lemma ExecutionsArePlain()
    ensures PlainWords(EXECUTIONS) && PlainWords(CARRIERS) && PlainWords(STAGES)
  {
    assert Plain("INGRESS") && Plain("PRIMARY") && Plain("REMEDIATION") && Plain("REPAIR");
    assert Plain("DISPATCH") && Plain("EXECUTION");
  }

  lemma BoundaryIsPlain(word: string)
    requires Plain(word)
    ensures PlainSchema(Boundary(word))
  {
    assert Plain("source_boundary");
    ChoiceIsPlain("source_boundary", {word});
  }

  lemma EnvelopeIsPlain(operations: set<string>, own: Schema)
    requires PlainWords(operations) && PlainSchema(own)
    ensures PlainSchema(EnvelopeSchema(operations, own))
  {
    AttemptIsPlain();
    IssueBodyIsPlain();
    SubjectIsPlain();
    assert Plain("operation") && Plain("CARRIER_REJECTED");
    ChoiceIsPlain("operation", operations);
    BoundaryIsPlain("CARRIER_REJECTED");
    SumIsPlain(ATTEMPT, ISSUE_BODY);
    SumIsPlain(ATTEMPT + ISSUE_BODY, SUBJECT);
    SumIsPlain(ATTEMPT + ISSUE_BODY + SUBJECT, NOT_CREATED);
    SumIsPlain(ATTEMPT + ISSUE_BODY + SUBJECT + NOT_CREATED, Choice("operation", operations));
    SumIsPlain(ATTEMPT + ISSUE_BODY + SUBJECT + NOT_CREATED + Choice("operation", operations), own);
    SumIsPlain(ATTEMPT + ISSUE_BODY + SUBJECT + NOT_CREATED + Choice("operation", operations) + own,
               Boundary("CARRIER_REJECTED"));
  }

  lemma DeliveryIsPlain(boundary: string)
    requires Plain(boundary)
    ensures PlainSchema(DeliverySchema(boundary))
  {
    AttemptIsPlain();
    SubjectIsPlain();
    ExecutionsArePlain();
    assert Plain("operation") && Plain("delivery_id");
    ChoiceIsPlain("operation", EXECUTIONS);
    BoundaryIsPlain(boundary);
    SumIsPlain(ATTEMPT, SUBJECT);
    SumIsPlain(ATTEMPT + SUBJECT, NOT_CREATED);
    SumIsPlain(ATTEMPT + SUBJECT + NOT_CREATED, Choice("operation", EXECUTIONS));
    SumIsPlain(ATTEMPT + SUBJECT + NOT_CREATED + Choice("operation", EXECUTIONS), map["delivery_id" := Delivery]);
    SumIsPlain(ATTEMPT + SUBJECT + NOT_CREATED + Choice("operation", EXECUTIONS) + map["delivery_id" := Delivery],
               Boundary(boundary));
  }

  lemma ReviewedSchemaIsPlain(own: Schema, boundary: string)
    requires PlainSchema(own) && Plain(boundary)
    ensures PlainSchema(ReviewedSchema(own, boundary))
  {
    ReviewedIsPlain();
    BoundaryIsPlain(boundary);
    SumIsPlain(REVIEWED, own);
    SumIsPlain(REVIEWED + own, Boundary(boundary));
  }

  lemma CarrierChoiceIsPlain()
    ensures PlainSchema(Choice("carrier", CARRIERS))
  {
    assert Plain("carrier");
    ExecutionsArePlain();
    ChoiceIsPlain("carrier", CARRIERS);
  }

  lemma StageChoiceIsPlain()
    ensures PlainSchema(ATTEMPT + Choice("stage", STAGES))
  {
    assert Plain("stage");
    ExecutionsArePlain();
    ChoiceIsPlain("stage", STAGES);
    AttemptIsPlain();
    SumIsPlain(ATTEMPT, Choice("stage", STAGES));
  }

  lemma ConflictIsPlain()
    ensures PlainSchema(ATTEMPT + PREPARED + Boundary("CANONICAL_CONFLICT"))
  {
    AttemptIsPlain();
    PreparedIsPlain();
    assert Plain("CANONICAL_CONFLICT");
    BoundaryIsPlain("CANONICAL_CONFLICT");
    SumIsPlain(ATTEMPT, PREPARED);
    SumIsPlain(ATTEMPT + PREPARED, Boundary("CANONICAL_CONFLICT"));
  }

  lemma PublishedIsPlain()
    ensures PlainSchema(map["published_sha" := Sha40])
  {
    assert Plain("published_sha");
  }

  lemma BoundaryWordsArePlain()
    ensures Plain("DISPATCH_REJECTED") && Plain("PRE_AIOS_FAILED") && Plain("REVIEW_FOLLOWUP")
    ensures Plain("PUBLICATION_FAILED") && Plain("PUBLICATION_PROVEN")
  {
  }

  /** Every schema is plain; RECOVERY's one key is, and its value alone is another attention. */
  lemma SchemasArePlain(family: Family)
    ensures if family == Recovery then SchemaOf(family) == map[ORIGINAL := OriginalId] && Plain(ORIGINAL)
            else PlainSchema(SchemaOf(family))
  {
    match family
    case Recovery =>
      assert Plain(ORIGINAL);
    case RunResult | RunFailure =>
      TerminalIsPlain();
    case Ingress =>
      OperationsArePlain();
      CarrierChoiceIsPlain();
      EnvelopeIsPlain(OPERATIONS, Choice("carrier", CARRIERS));
    case ReviewIngress =>
      OperationsArePlain();
      EnvelopeIsPlain({"SUBMIT_REVIEW"}, map[]);
    case Authoring =>
      OperationsArePlain();
      EnvelopeIsPlain(CORRECTIONS, map[]);
    case Dispatch =>
      BoundaryWordsArePlain();
      DeliveryIsPlain("DISPATCH_REJECTED");
    case PreAios =>
      BoundaryWordsArePlain();
      DeliveryIsPlain("PRE_AIOS_FAILED");
    case Review =>
      BoundaryWordsArePlain();
      ReviewedSchemaIsPlain(map[], "REVIEW_FOLLOWUP");
    case PublicationFailure =>
      BoundaryWordsArePlain();
      StageChoiceIsPlain();
      ReviewedSchemaIsPlain(ATTEMPT + Choice("stage", STAGES), "PUBLICATION_FAILED");
    case PublicationSuccess =>
      BoundaryWordsArePlain();
      PublishedIsPlain();
      ReviewedSchemaIsPlain(map["published_sha" := Sha40], "PUBLICATION_PROVEN");
    case Conflict =>
      ConflictIsPlain();
  }

  lemma MatchesArePlain(v: Json, kind: Kind)
    requires Matches(v, kind) && PlainKind(kind)
    ensures PlainLeaf(v)
  {
  }

  lemma FieldsArePlain(family: Family, s: Selectors)
    requires Fields(family, s)
    requires family == Recovery ==> Plain(TextOf(s, ORIGINAL))
    ensures PlainSelectors(s)
  {
    if family == Recovery {
      assert Plain(ORIGINAL);
    } else {
      var schema := SchemaOf(family);
      SchemasArePlain(family);
      forall k | k in s
        ensures Plain(k) && PlainLeaf(s[k])
      {
        assert k in schema;
        MatchesArePlain(s[k], schema[k]);
      }
    }
  }

  // ----- Canonical text -----

  lemma SortedArePrintable(s: Selectors)
    requires PlainSelectors(s)
    ensures PrintableMembers(SortedMembers(s))
  {
    SortedKeysDistinct(s.Keys);
  }

  lemma {:induction false} ToMapFinds(ms: seq<Member>)
    ensures forall k :: k in ToMap(ms) ==> Member(k, ToMap(ms)[k]) in ms
    ensures forall m :: m in ms ==> m.key in ToMap(ms)
  {
    if ms != [] {
      ToMapFinds(ms[1..]);
      assert ms == [ms[0]] + ms[1..];
    }
  }

  lemma ToMapOfSorted(s: Selectors)
    ensures ToMap(SortedMembers(s)) == s
  {
    var ms := SortedMembers(s);
    ToMapFinds(ms);
    forall k | k in s
      ensures k in ToMap(ms)
    {
      assert k in SortKeys(s.Keys);
      var i :| 0 <= i < |SortKeys(s.Keys)| && SortKeys(s.Keys)[i] == k;
      assert ms[i] in ms;
    }
  }

  /** Canonical text is ASCII, starts with a brace, and loads back to the same selectors. */
  lemma CanonicalLoads(s: Selectors)
    requires PlainSelectors(s)
    ensures OneByteEach(Canonical(s)) && StartsWith(Canonical(s), "{")
    ensures |Canonical(s)| <= MAX_BYTES ==> LoadObject(Canonical(s)) == Some(SortedMembers(s))
  {
    SortedArePrintable(s);
    PrintedIsAscii(Object(SortedMembers(s)));
    ParsePrinted(SortedMembers(s));
  }
}
