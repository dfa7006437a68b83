/**
 What an attention may say, without the tables of the constructor: the spelling of every
 kind of selector value, the keys of every family, and the constraints between the
 values of one family.
 */
module AttentionForms {
  import opened Prelude
  import opened Text
  import opened Json
  import opened Attention
  import opened AttentionIdentity

  // ----- Spellings -----

  /** A prefix, one head character, and at most `more` further characters. */
  ghost predicate Spelled(s: string, prefix: string, head: char, rest: string, more: nat) {
    s == prefix + [head] + rest && |rest| <= more
  }

  ghost predicate NameAfter(s: string, prefix: string) {
    exists head, rest :: Spelled(s, prefix, head, rest, 95) && Alnum(head) && AllIn(rest, NameChar)
  }

  ghost predicate Identifier(s: string) {
    exists head, rest :: Spelled(s, "", head, rest, 127) && Alnum(head) && AllIn(rest, DeliveryChar)
  }

  ghost predicate Under(s: string, directory: string, name: string) {
    s == directory + name && 1 <= |name| <= 128 && AllIn(name, NameChar)
  }

  ghost predicate Reference(s: string) {
    || s == "refs/heads/main"
    || exists space, name ::
         && space in {"review", "failure", "artifacts", "failure-artifacts", "review-decision", "repair", "remediation", "task"}
         && Under(s, "refs/heads/aios/" + space + "/", name)
  }

  lemma NamedExactly(s: string, prefix: string)
    requires AllIn(prefix, NameChar)
    ensures Named(s, prefix) <==> NameAfter(s, prefix)
  {
    if Named(s, prefix) {
      assert Spelled(s, prefix, s[|prefix|], s[|prefix| + 1..], 95);
    }
  }

  lemma IdentifierExactly(s: string)
    ensures (1 <= |s| <= 128 && Alnum(s[0]) && AllIn(s, DeliveryChar)) <==> Identifier(s)
  {
    if 1 <= |s| <= 128 {
      assert Spelled(s, "", s[0], s[1..], 127);
    }
  }

  lemma SpacesAreNames(space: string)
    requires space in NAMESPACES
    ensures AllIn(space, NameChar)
  {
  }

  lemma RefChars(space: string, name: string)
    requires AllIn(space, NameChar) && AllIn(name, NameChar)
    ensures AllIn("refs/heads/aios/" + space + "/" + name, RefChar)
  {
  }

  lemma ReferenceExactly(s: string)
    ensures RefName(s) <==> Reference(s)
  {
    if RefName(s) && s != "refs/heads/main" {
      var space :| space in NAMESPACES && RefIn(s, "refs/heads/aios/" + space + "/");
      var directory := "refs/heads/aios/" + space + "/";
      assert Under(s, directory, s[|directory|..]);
    }
    if Reference(s) && s != "refs/heads/main" {
      var space, name :| space in NAMESPACES && Under(s, "refs/heads/aios/" + space + "/", name);
      SpacesAreNames(space);
      RefChars(space, name);
      assert RefIn(s, "refs/heads/aios/" + space + "/");
    }
  }

  lemma HexExactly(s: string)
    ensures AllIn(s, Hex) <==> forall c :: c in s ==> '0' <= c <= '9' || 'a' <= c <= 'f'
  {
    if forall c :: c in s ==> '0' <= c <= '9' || 'a' <= c <= 'f' {
      forall i | 0 <= i < |s|
        ensures Hex(s[i])
      {
        assert s[i] in s;
      }
    }
  }

  lemma HashesExactly(v: Json)
    ensures Matches(v, Sha40) <==> v.Str? && |v.text| == 40 && forall c :: c in v.text ==> '0' <= c <= '9' || 'a' <= c <= 'f'
    ensures Matches(v, Digest64) <==> v.Str? && |v.text| == 64 && forall c :: c in v.text ==> '0' <= c <= '9' || 'a' <= c <= 'f'
  {
    if v.Str? {
      HexExactly(v.text);
    }
  }

  lemma NamesExactly(v: Json)
    ensures Matches(v, RunName) <==> v.Str? && NameAfter(v.text, "RUN-")
    ensures Matches(v, Subject) <==> v.Str? && (v.text == "NONE" || NameAfter(v.text, "RUN-") || NameAfter(v.text, "TASK-"))
  {
    if v.Str? {
      NamedExactly(v.text, "RUN-");
      NamedExactly(v.text, "TASK-");
    }
  }

  lemma IdentifiersExactly(v: Json)
    ensures Matches(v, Delivery) <==> v.Str? && Identifier(v.text)
    ensures Matches(v, CanonicalRef) <==> v.Str? && Reference(v.text)
  {
    if v.Str? {
      IdentifierExactly(v.text);
      ReferenceExactly(v.text);
    }
  }

  lemma OthersExactly(v: Json, words: set<string>)
    ensures Matches(v, Positive) <==> v.Num? && 0 < v.n < 0x20_0000_0000_0000
    ensures Matches(v, NotCreated) <==> v == Flag(false)
    ensures Matches(v, OneOf(words)) <==> v.Str? && v.text in words
  {
  }

  /** The spelling of each kind of selector value; the named original is checked apart. */
  lemma KindsExactly(v: Json, kind: Kind)
    ensures Matches(v, kind) <==> match kind
              case Positive => v.Num? && 0 < v.n < 0x20_0000_0000_0000
              case NotCreated => v == Flag(false)
              case Sha40 => v.Str? && |v.text| == 40 && forall c :: c in v.text ==> '0' <= c <= '9' || 'a' <= c <= 'f'
              case Digest64 => v.Str? && |v.text| == 64 && forall c :: c in v.text ==> '0' <= c <= '9' || 'a' <= c <= 'f'
              case RunName => v.Str? && NameAfter(v.text, "RUN-")
              case Delivery => v.Str? && Identifier(v.text)
              case Subject => v.Str? && (v.text == "NONE" || NameAfter(v.text, "RUN-") || NameAfter(v.text, "TASK-"))
              case CanonicalRef => v.Str? && Reference(v.text)
              case OneOf(words) => v.Str? && v.text in words
              case OriginalId => v.Str?
  {
    match kind
    case Positive | NotCreated => OthersExactly(v, {});
    case OneOf(words) => OthersExactly(v, words);
    case Sha40 | Digest64 => HashesExactly(v);
    case RunName | Subject => NamesExactly(v);
    case Delivery | CanonicalRef => IdentifiersExactly(v);
    case OriginalId =>
  }

  // ----- Keys -----

  lemma RunSchemas()
    ensures SchemaOf(RunResult) == SchemaOf(RunFailure) == map["run_id" := RunName, "artifact_sha" := Sha40]
    ensures SchemaOf(Recovery) == map["original_event_id" := OriginalId]
  {
  }

  /** The workflow attempt that produced an artifact. */
  function Attempt(): Schema {
    map["workflow_run_id" := Positive, "run_attempt" := Positive, "artifact_id" := Positive, "source_digest" := Digest64]
  }

  /** The review decision on an artifact. */
  function Decision(): Schema {
    map["run_id" := RunName, "artifact_sha" := Sha40, "decision_sha" := Sha40, "reviewed_sha" := Sha40]
  }

  /** What was asked for, and that no RUN came of it. */
  function Asked(operations: set<string>): Schema {
    map["operation" := OneOf(operations), "subject_id" := Subject, "subject_sha" := Sha40, "finding_id" := Delivery,
        "run_created" := NotCreated]
  }

  function Issue(): Schema {
    map["issue_id" := Positive, "issue_number" := Positive, "body_digest" := Digest64]
  }

  function From(word: string): Schema {
    map["source_boundary" := OneOf({word})]
  }

  lemma ReviewSchemas()
    ensures SchemaOf(Review) == Decision() + From("REVIEW_FOLLOWUP")
    ensures SchemaOf(PublicationSuccess) == Decision() + map["published_sha" := Sha40] + From("PUBLICATION_PROVEN")
  {
    assert REVIEWED + map[] == REVIEWED;
  }

  lemma PublicationFailureSchema()
    ensures SchemaOf(PublicationFailure) ==
            Decision() + (Attempt() + map["stage" := OneOf({"DISPATCH", "EXECUTION"})]) + From("PUBLICATION_FAILED")
  {
    assert STAGES == {"DISPATCH", "EXECUTION"};
  }

  lemma ConflictSchema()
    ensures SchemaOf(Conflict) ==
            Attempt() + map["prepared_sha" := Sha40, "prepared_digest" := Digest64, "predecessor_ref" := CanonicalRef,
                            "predecessor_sha" := Sha40, "observed_sha" := Sha40] + From("CANONICAL_CONFLICT")
  {
  }

  lemma AskedExactly(operations: set<string>)
    ensures SUBJECT + NOT_CREATED + Choice("operation", operations) == Asked(operations)
  {
  }

  lemma Regrouped(a: Schema, b: Schema, c: Schema, d: Schema)
    ensures a + b + c + d == a + (b + c + d)
  {
  }

  lemma DeliverySchemas(family: Family)
    requires family == Dispatch || family == PreAios
    ensures SchemaOf(family) ==
            Attempt() + Asked({"PRIMARY", "REMEDIATION", "REPAIR"}) + map["delivery_id" := Delivery] +
            From(if family == Dispatch then "DISPATCH_REJECTED" else "PRE_AIOS_FAILED")
  {
    AskedExactly(EXECUTIONS);
    Regrouped(ATTEMPT, SUBJECT, NOT_CREATED, Choice("operation", EXECUTIONS));
  }

  lemma EnvelopeExactly(operations: set<string>, own: Schema)
    ensures EnvelopeSchema(operations, own) == Attempt() + Issue() + Asked(operations) + own + From("CARRIER_REJECTED")
  {
    AskedExactly(operations);
    Regrouped(ATTEMPT + ISSUE_BODY, SUBJECT, NOT_CREATED, Choice("operation", operations));
  }

  lemma NothingAdded(a: Schema)
    ensures a + map[] == a
  {
  }

  lemma EnvelopeSchemas()
    ensures SchemaOf(ReviewIngress) == Attempt() + Issue() + Asked({"SUBMIT_REVIEW"}) + From("CARRIER_REJECTED")
    ensures SchemaOf(Authoring) ==
            Attempt() + Issue() + Asked({"AUTHOR_REMEDIATION", "AUTHOR_REPAIR"}) + From("CARRIER_REJECTED")
  {
    EnvelopeExactly({"SUBMIT_REVIEW"}, map[]);
    EnvelopeExactly(CORRECTIONS, map[]);
    NothingAdded(Attempt() + Issue() + Asked({"SUBMIT_REVIEW"}));
    NothingAdded(Attempt() + Issue() + Asked(CORRECTIONS));
  }

  lemma IngressSchema()
    ensures SchemaOf(Ingress) ==
            Attempt() + Issue() +
            Asked({"UNKNOWN", "AUTHOR_TASK", "SUBMIT_REVIEW", "AUTHOR_REMEDIATION", "AUTHOR_REPAIR"}) +
            map["carrier" := OneOf({"INGRESS", "PRIMARY", "REMEDIATION", "REPAIR"})] + From("CARRIER_REJECTED")
  {
    assert OPERATIONS == {"UNKNOWN", "AUTHOR_TASK", "SUBMIT_REVIEW", "AUTHOR_REMEDIATION", "AUTHOR_REPAIR"};
    assert CARRIERS == {"INGRESS", "PRIMARY", "REMEDIATION", "REPAIR"};
    EnvelopeExactly(OPERATIONS, Choice("carrier", CARRIERS));
  }

  /** The keys of every family and the kind of value under each. */
  lemma SchemasExactly(family: Family)
    ensures SchemaOf(family) == match family
              case RunResult | RunFailure => map["run_id" := RunName, "artifact_sha" := Sha40]
              case Recovery => map["original_event_id" := OriginalId]
              case Review => Decision() + From("REVIEW_FOLLOWUP")
              case PublicationSuccess => Decision() + map["published_sha" := Sha40] + From("PUBLICATION_PROVEN")
              case PublicationFailure =>
                Decision() + (Attempt() + map["stage" := OneOf({"DISPATCH", "EXECUTION"})]) + From("PUBLICATION_FAILED")
              case Conflict =>
                Attempt() + map["prepared_sha" := Sha40, "prepared_digest" := Digest64, "predecessor_ref" := CanonicalRef,
                                "predecessor_sha" := Sha40, "observed_sha" := Sha40] + From("CANONICAL_CONFLICT")
              case Dispatch =>
                Attempt() + Asked({"PRIMARY", "REMEDIATION", "REPAIR"}) + map["delivery_id" := Delivery] +
                From("DISPATCH_REJECTED")
              case PreAios =>
                Attempt() + Asked({"PRIMARY", "REMEDIATION", "REPAIR"}) + map["delivery_id" := Delivery] +
                From("PRE_AIOS_FAILED")
              case ReviewIngress => Attempt() + Issue() + Asked({"SUBMIT_REVIEW"}) + From("CARRIER_REJECTED")
              case Authoring =>
                Attempt() + Issue() + Asked({"AUTHOR_REMEDIATION", "AUTHOR_REPAIR"}) + From("CARRIER_REJECTED")
              case Ingress =>
                Attempt() + Issue() +
                Asked({"UNKNOWN", "AUTHOR_TASK", "SUBMIT_REVIEW", "AUTHOR_REMEDIATION", "AUTHOR_REPAIR"}) +
                map["carrier" := OneOf({"INGRESS", "PRIMARY", "REMEDIATION", "REPAIR"})] + From("CARRIER_REJECTED")
  {
    match family
    case RunResult | RunFailure | Recovery => RunSchemas();
    case Review | PublicationSuccess => ReviewSchemas();
    case PublicationFailure => PublicationFailureSchema();
    case Conflict => ConflictSchema();
    case Dispatch | PreAios => DeliverySchemas(family);
    case ReviewIngress | Authoring => EnvelopeSchemas();
    case Ingress => IngressSchema();
  }

  // ----- Constraints between values -----

  ghost predicate Says(s: Selectors, key: string, text: string) {
    key in s && s[key] == Str(text)
  }

  ghost predicate Begins(s: string, prefix: string) {
    exists rest :: s == prefix + rest
  }

  lemma BeginsExactly(s: string, prefix: string)
    ensures StartsWith(s, prefix) <==> Begins(s, prefix)
  {
    if StartsWith(s, prefix) {
      assert s == prefix + s[|prefix|..];
    }
  }

  /** A rejected review names its RUN and no finding; a rejected correction names its RUN, and a finding only for a REMEDIATION. */
  lemma RejectionChecks(s: Selectors, subject: string, operation: string, finding: string)
    requires Says(s, "subject_id", subject) && Says(s, "operation", operation) && Says(s, "finding_id", finding)
    ensures CrossChecks(ReviewIngress, s) <==> Begins(subject, "RUN-") && finding == "NONE"
    ensures CrossChecks(Authoring, s) <==> Begins(subject, "RUN-") && (finding == "NONE" || operation != "AUTHOR_REPAIR")
  {
    BeginsExactly(subject, "RUN-");
  }

  /** A carrier names either nothing, with an unknown operation, or, as INGRESS, a TASK to author. */
  lemma CarrierChecks(s: Selectors, subject: string, sha: string, operation: string, finding: string, carrier: string)
    requires Says(s, "subject_id", subject) && Says(s, "subject_sha", sha) && Says(s, "operation", operation)
    requires Says(s, "finding_id", finding) && Says(s, "carrier", carrier)
    requires operation in {"UNKNOWN", "AUTHOR_TASK", "SUBMIT_REVIEW", "AUTHOR_REMEDIATION", "AUTHOR_REPAIR"}
    ensures CrossChecks(Ingress, s) <==>
            && finding == "NONE"
            && (|| (operation == "UNKNOWN" && subject == "NONE" && forall i :: 0 <= i < |sha| ==> sha[i] == '0')
                || (operation == "AUTHOR_TASK" && carrier == "INGRESS" && Begins(subject, "TASK-")))
  {
    BeginsExactly(subject, "TASK-");
  }

  /** A primary delivery is about a TASK, any other about a RUN, or about nothing; only a REMEDIATION has a finding. */
  lemma DeliveryChecks(family: Family, s: Selectors, subject: string, operation: string, finding: string)
    requires family == Dispatch || family == PreAios
    requires Says(s, "subject_id", subject) && Says(s, "operation", operation) && Says(s, "finding_id", finding)
    ensures CrossChecks(family, s) <==>
            && (subject == "NONE" || Begins(subject, if operation == "PRIMARY" then "TASK-" else "RUN-"))
            && (finding == "NONE" || operation == "REMEDIATION")
  {
    BeginsExactly(subject, "TASK-");
    BeginsExactly(subject, "RUN-");
  }

  /** What was published is what was reviewed; the other families are not constrained. */
  lemma OtherChecks(family: Family, s: Selectors, published: string, reviewed: string)
    requires family !in {ReviewIngress, Authoring, Ingress, Dispatch, PreAios}
    requires family == PublicationSuccess ==> Says(s, "published_sha", published) && Says(s, "reviewed_sha", reviewed)
    ensures CrossChecks(family, s) <==> (family == PublicationSuccess ==> published == reviewed)
  {
  }

  /** A recovery names, under its one key, the id of a constructible attention that is not a recovery itself. */
  ghost predicate Recovers(s: Selectors) {
    exists b :: Valid(b) && b.family != Recovery && Says(s, "original_event_id", EventId(b))
  }

  lemma RecoveryExactly(s: Selectors)
    requires "original_event_id" in s && s["original_event_id"].Str?
    ensures OriginalOk(TextOf(s, ORIGINAL)) <==> Recovers(s)
  {
    RecoverableIds(s["original_event_id"].text);
  }

  lemma RecoveryFields(s: Selectors)
    requires Fields(Recovery, s)
    ensures "original_event_id" in s && s["original_event_id"].Str?
  {
    RunSchemas();
    assert "original_event_id" in s && Matches(s["original_event_id"], OriginalId);
  }

  predicate Fits(a: Attention)
    requires Printing(a)
  {
    |Render(a)| <= 8192 && |EventId(a)| <= 8192
  }

  lemma ConstructedIs(family: Family, s: Selectors)
    ensures Construct(family, s).Some? <==>
            && Fields(family, s) && CrossChecks(family, s) && (family == Recovery ==> OriginalOk(TextOf(s, ORIGINAL)))
            && Printing(Attention(family, s)) && Fits(Attention(family, s))
  {
  }

  lemma NamedOriginal(family: Family, s: Selectors)
    requires Fields(family, s)
    ensures (family == Recovery ==> OriginalOk(TextOf(s, ORIGINAL))) <==> (family == Recovery ==> Recovers(s))
  {
    if family == Recovery {
      RecoveryFields(s);
      RecoveryExactly(s);
    }
  }

  /** Accepted selectors have the keys, kinds and constraints of the family, name a recoverable id, and fit in 8192 octets. */
  lemma ConstructedExactly(family: Family, s: Selectors)
    ensures Construct(family, s).Some? <==>
            && Fields(family, s) && CrossChecks(family, s) && (family == Recovery ==> Recovers(s))
            && Printing(Attention(family, s)) && Fits(Attention(family, s))
  {
    ConstructedIs(family, s);
    if Fields(family, s) {
      NamedOriginal(family, s);
    }
  }

  lemma FieldsExactly(family: Family, s: Selectors)
    ensures Fields(family, s) <==>
            s.Keys == SchemaOf(family).Keys && forall k :: k in s.Keys ==> Matches(s[k], SchemaOf(family)[k])
  {
  }
}
