/**
 What RESOLVED and UNRESOLVED mean for each family, in the refs, the documents and the
 commits at hand: an independent account of the verdicts, with which the frozen reader is
 proved to agree on every input.
 */
module FreshnessVerdicts {
  import opened Prelude
  import opened Text
  import opened Freshness
  import Git

  // ----- What the refs and documents say -----

  /** The five refs of the RUN name exactly this review, and its documents are at hand. */
  ghost predicate Stands(refs: Refs, holds: set<Sha>, c: Content, id: Identity) {
    && Lookup(refs, Name("artifacts", id.run)) == Some(id.artifact) && id.artifact in holds
    && Lookup(refs, Name("review", id.run)) == Some(id.reviewed)
    && Lookup(refs, Name("review-decision", id.run)) == Some(id.decision) && id.decision in holds
    && Name("failure-artifacts", id.run) !in refs && Name("failure", id.run) !in refs
    && id in c.reviews
  }

  /** Some review of this RUN stands for this decision and this reviewed commit. */
  ghost predicate StandsFor(refs: Refs, holds: set<Sha>, c: Content, run: string, decision: Sha, reviewed: Sha, verdicts: set<string>) {
    exists id: Identity :: id.run == run && id.decision == decision && id.reviewed == reviewed && Stands(refs, holds, c, id) &&
                 c.reviews[id].verdict in verdicts
  }

  ghost predicate MainHeld(refs: Refs, holds: set<Sha>) {
    MAIN in refs && refs[MAIN] in holds
  }

  /** The remediation ref of this finding holds a document that answers it as the review demands. */
  ghost predicate Remedied(refs: Refs, holds: set<Sha>, c: Content, id: Identity, actions: map<string, string>, finding: string) {
    var ref := Name("remediation", id.run + "-" + finding);
    && ref in refs && refs[ref] in holds && finding in actions
    && Lookup(c.remediations, (refs[ref], id.run + "-" + finding, id.decision)) ==
       Some(Git.Correction(finding, actions[finding], id.reviewed))
  }

  /** Every remediation ref of the RUN answers a finding of the review. */
  ghost predicate OnlyAnswers(refs: Refs, holds: set<Sha>, c: Content, id: Identity, actions: map<string, string>) {
    forall ref :: ref in refs && StartsWith(ref, Name("remediation", id.run + "-")) ==>
      exists finding :: ref == Name("remediation", id.run + "-" + finding) &&
                        Remedied(refs, holds, c, id, actions, finding)
  }

  ghost predicate Demands(refs: Refs, holds: set<Sha>, c: Content, id: Identity) {
    && Stands(refs, holds, c, id) && c.reviews[id].verdict in {"CHANGES_REQUIRED", "BLOCKED"} && c.reviews[id].actions.Some?
    && OnlyAnswers(refs, holds, c, id, c.reviews[id].actions.value)
  }

  /** Every finding has its answer, and there is one. */
  ghost predicate AllAnswered(refs: Refs, id: Identity, actions: map<string, string>) {
    actions != map[] && forall finding :: finding in actions ==>
      Name("remediation", id.run + "-" + finding) in refs
  }

  /** A published review: PASS, both commits at hand, and main of which version it is. */
  ghost predicate Passed(refs: Refs, holds: set<Sha>, c: Content, id: Identity) {
    && Stands(refs, holds, c, id) && c.reviews[id].verdict == "PASS"
    && MainHeld(refs, holds) && id.reviewed in holds
  }

  ghost predicate InMain(refs: Refs, c: Content, id: Identity)
    requires MAIN in refs
  {
    (id.reviewed, refs[MAIN]) in c.included
  }

  /** The roadmap of main records this very publication wherever it records the RUN. */
  ghost predicate Recorded(refs: Refs, c: Content, id: Identity, published: Sha)
    requires MAIN in refs
  {
    && refs[MAIN] in c.roadmaps
    && forall b :: b in c.roadmaps[refs[MAIN]] && b.completed.Some? && b.completed.value.identity.run == id.run ==>
         b.completed.value == Completed(id, published, "REVIEW-" + (if |id.run| >= 4 then id.run[4..] else ""))
  }

  /** And some such bookmark is done. */
  ghost predicate Reconciled(refs: Refs, c: Content, id: Identity)
    requires MAIN in refs && refs[MAIN] in c.roadmaps
  {
    exists b :: b in c.roadmaps[refs[MAIN]] && b.done &&
                b.completed.Some? && b.completed.value.identity.run == id.run
  }

  /** The publication the conflict belongs to still passes, and so does what blocks it. */
  ghost predicate Supported(refs: Refs, holds: set<Sha>, c: Content, context: Option<Context>) {
    context.Some? ==>
      && Stands(refs, holds, c, context.value.id) && c.reviews[context.value.id].verdict == "PASS"
      && (context.value.blocker.Some? ==>
            var b := context.value.blocker.value;
            StandsFor(refs, holds, c, b.run, b.decision, b.reviewed, {"PASS"}))
  }

  /** What main says of a prepared commit; nothing for other refs. */
  ghost predicate Contains(holds: set<Sha>, c: Content, ref: string, prepared: Sha, current: Sha) {
    ref == MAIN && prepared in holds && current in holds && (prepared, current) in c.included
  }

  ghost predicate Lacks(holds: set<Sha>, c: Content, ref: string, prepared: Sha, current: Sha) {
    ref == MAIN ==> prepared in holds && current in holds && (prepared, current) !in c.included
  }

  /** The terminal of the successor RUN, one of a success and a failure, and how it descends from the subject. */
  ghost predicate Delivered(refs: Refs, holds: set<Sha>, c: Content, item: Item, next: Successor)
    requires item.Delivery?
  {
    exists artifact: Sha, success: bool ::
      && Lookup(refs, Name("artifacts", next.run)) == (if success then Some(artifact) else None)
      && Lookup(refs, Name("failure-artifacts", next.run)) == (if success then None else Some(artifact))
      && DeliveredAs(refs, holds, c, item, next, artifact, success)
  }

  ghost predicate DeliveredAs(refs: Refs, holds: set<Sha>, c: Content, item: Item, next: Successor, artifact: Sha, success: bool)
    requires item.Delivery?
  {
    && artifact in holds && artifact in c.runs && c.runs[artifact].id == next.run
    && Descends(refs, holds, c, item, next, artifact, c.runs[artifact])
    && EndsAt(refs, holds, c, next, artifact, success, c.runs[artifact])
  }

  ghost predicate Descends(
    refs: Refs, holds: set<Sha>, c: Content, item: Item, next: Successor, artifact: Sha, run: RunFacts)
    requires item.Delivery?
  {
    match item.operation
    case Primary => run.kindless && run.task == next.task
    case Remediation => run.lineage == Some((item.subject, item.finding))
    case Repair =>
      && artifact in holds && artifact in c.repairs && c.repairs[artifact].failedRun == item.subject
      && item.sha.Some? && item.sha.value in holds && item.sha.value in c.repairs
      && Lookup(refs, Name("repair", item.subject)) == item.sha
      && c.repairs[item.sha.value] == c.repairs[artifact]
  }

  /** The candidate ref is the head that the terminal document names, and the RUN's own head where it has one. */
  ghost predicate EndsAt(refs: Refs, holds: set<Sha>, c: Content, next: Successor, artifact: Sha, success: bool, run: RunFacts) {
    exists head: Sha ::
      && Lookup(refs, Name(if success then "review" else "failure", next.run)) == Some(head)
      && (if success then Lookup(c.results, artifact) == Some(head)
          else Lookup(c.failures, artifact) == Some(FailureFacts(run.id, run.task, head)))
      && (run.head == None || run.head == Some(head))
  }

  // ----- The two verdicts, family by family -----

  ghost predicate MeansResolved(
    refs: Refs, holds: set<Sha>, c: Content, item: Item, next: Option<Successor>, context: Option<Context>)
  {
    match item
    case Reviewed(id) => Demands(refs, holds, c, id) && AllAnswered(refs, id, c.reviews[id].actions.value)
    case PublicationFailed(id) => Passed(refs, holds, c, id) && InMain(refs, c, id)
    case PublicationProven(id, published) =>
      && Passed(refs, holds, c, id) && InMain(refs, c, id)
      && Recorded(refs, c, id, published) && Reconciled(refs, c, id)
    case Conflict(ref, prepared, observed) =>
      && Supported(refs, holds, c, context) && ref in refs && prepared.Some?
      && (refs[ref] == prepared.value || Contains(holds, c, ref, prepared.value, refs[ref]))
    case ReviewIngress(_, subject, sha) =>
      && sha.Some? && Name("review-decision", subject) in refs
      && exists id: Identity :: id.run == subject && id.reviewed == sha.value && Stands(refs, holds, c, id)
    case RemediationAuthoring(_, subject, sha, finding) =>
      sha.Some? && exists id: Identity ::
        && id.run == subject && id.reviewed == sha.value && Stands(refs, holds, c, id)
        && c.reviews[id].verdict == "CHANGES_REQUIRED" && c.reviews[id].actions.Some?
        && Remedied(refs, holds, c, id, c.reviews[id].actions.value, finding)
    case RepairAuthoring(_, subject, sha) =>
      var ref := Name("repair", subject);
      && sha.Some? && ref in refs && refs[ref] in holds && refs[ref] in c.repairs
      && c.repairs[refs[ref]].failedRun == subject && c.repairs[refs[ref]].failedHead == sha.value
    case TaskIngress(issue, subject) =>
      && issue.intact && MainHeld(refs, holds)
      && Lookup(c.tasks, (refs[MAIN], subject)) == Some(issue.payload)
    case OtherIngress(_) => false
    case Delivery(_, _, _, _) => next.Some? && Delivered(refs, holds, c, item, next.value)
  }

  ghost predicate MeansUnresolved(
    refs: Refs, holds: set<Sha>, c: Content, item: Item, next: Option<Successor>, context: Option<Context>)
  {
    match item
    case Reviewed(id) => Demands(refs, holds, c, id) && !AllAnswered(refs, id, c.reviews[id].actions.value)
    case PublicationFailed(id) => Passed(refs, holds, c, id) && !InMain(refs, c, id)
    case PublicationProven(id, published) =>
      && Passed(refs, holds, c, id) && InMain(refs, c, id)
      && Recorded(refs, c, id, published) && !Reconciled(refs, c, id)
    case Conflict(ref, prepared, observed) =>
      && Supported(refs, holds, c, context) && ref in refs && refs[ref] == observed
      && (prepared.Some? ==> refs[ref] != prepared.value && Lacks(holds, c, ref, prepared.value, refs[ref]))
    case ReviewIngress(issue, subject, sha) =>
      issue.intact && (sha == None || Name("review-decision", subject) !in refs)
    case RemediationAuthoring(issue, subject, sha, finding) =>
      issue.intact && (sha == None || Name("remediation", subject + "-" + finding) !in refs)
    case RepairAuthoring(issue, subject, sha) =>
      issue.intact && (sha == None || Name("repair", subject) !in refs)
    case TaskIngress(issue, subject) =>
      && issue.intact && MainHeld(refs, holds)
      && Lookup(c.tasks, (refs[MAIN], subject)) != Some(issue.payload)
    case OtherIngress(issue) => issue.intact
    case Delivery(_, _, _, _) => next == None
  }

  // ----- What the frozen reader reads -----

  /** A review that is found stands for what was asked. */
  lemma FoundStands(refs: Refs, ps: seq<Pattern>, holds: set<Sha>, c: Content, run: string, decision: Option<Sha>)
    requires forall q :: q in ReviewPatterns(run) ==> q in ps
    ensures var found := ReviewOf(Freeze(refs, ps, holds), c, run, decision);
            found.Some? ==>
              var (id, review) := found.value;
              && id.run == run && (decision == None || decision == Some(id.decision))
              && Stands(refs, holds, c, id) && review == c.reviews[id]
  {
    ReadsOf(refs, ps, holds, run);
  }

  /** A review that stands is found. */
  lemma StandsFound(refs: Refs, ps: seq<Pattern>, holds: set<Sha>, c: Content, id: Identity, decision: Option<Sha>)
    requires forall q :: q in ReviewPatterns(id.run) ==> q in ps
    requires Stands(refs, holds, c, id) && (decision == None || decision == Some(id.decision))
    ensures ReviewOf(Freeze(refs, ps, holds), c, id.run, decision) == Some((id, c.reviews[id]))
  {
    ReadsOf(refs, ps, holds, id.run);
  }

  lemma ReadsOf(refs: Refs, ps: seq<Pattern>, holds: set<Sha>, run: string)
    requires forall q :: q in ReviewPatterns(run) ==> q in ps
    ensures var read := Query(Freeze(refs, ps, holds), ReviewPatterns(run));
            && Lookup(read, Name("artifacts", run)) == Lookup(refs, Name("artifacts", run))
            && Lookup(read, Name("failure-artifacts", run)) == Lookup(refs, Name("failure-artifacts", run))
            && Lookup(read, Name("review", run)) == Lookup(refs, Name("review", run))
            && Lookup(read, Name("failure", run)) == Lookup(refs, Name("failure", run))
            && Lookup(read, Name("review-decision", run)) == Lookup(refs, Name("review-decision", run))
  {
    var qs := ReviewPatterns(run);
    assert qs[0] in qs && qs[1] in qs && qs[2] in qs && qs[3] in qs && qs[4] in qs;
    LiteralRead(refs, ps, qs, Name("artifacts", run), holds);
    LiteralRead(refs, ps, qs, Name("failure-artifacts", run), holds);
    LiteralRead(refs, ps, qs, Name("review", run), holds);
    LiteralRead(refs, ps, qs, Name("failure", run), holds);
    LiteralRead(refs, ps, qs, Name("review-decision", run), holds);
  }

  lemma MatchingExactly(refs: Refs, ps: seq<Pattern>, holds: set<Sha>, c: Content, id: Identity)
    requires forall q :: q in ReviewPatterns(id.run) ==> q in ps
    ensures Matching(Freeze(refs, ps, holds), c, id) == if Stands(refs, holds, c, id) then Some(c.reviews[id]) else None
  {
    FoundStands(refs, ps, holds, c, id.run, Some(id.decision));
    if Stands(refs, holds, c, id) {
      StandsFound(refs, ps, holds, c, id, Some(id.decision));
    }
  }

  /** Two reviews of one RUN that stand are one. */
  lemma StandsOnce(refs: Refs, holds: set<Sha>, c: Content, a: Identity, b: Identity)
    requires a.run == b.run && Stands(refs, holds, c, a) && Stands(refs, holds, c, b)
    ensures a == b
  {
  }

  /** The commit under one literal name. */
  lemma OneRead(refs: Refs, ps: seq<Pattern>, holds: set<Sha>, name: string)
    requires Exact(name) in ps
    ensures Lookup(Query(Freeze(refs, ps, holds), [Exact(name)]), name) == Lookup(refs, name)
  {
    assert Exact(name) in [Exact(name)];
    LiteralRead(refs, ps, [Exact(name)], name, holds);
  }

  lemma AppendedIn(a: seq<Pattern>, b: seq<Pattern>)
    ensures forall q :: q in a ==> q in a + b
    ensures forall q :: q in b ==> q in a + b
  {
  }

  // ----- Remediations -----

  lemma SubjectOf(subject: string)
    ensures var ref := Name("remediation", subject);
            StartsWith(ref, Name("remediation", "")) && ref[|Name("remediation", "")|..] == subject
  {
    assert Name("remediation", subject) == Name("remediation", "") + subject;
  }

  lemma CorrectsExactly(
    r: Reader, refs: Refs, c: Content, ref: string, id: Identity, actions: map<string, string>, finding: string)
    requires ref in refs
    ensures Corrects(r, c, ref, refs[ref], id, actions) == Some(finding) <==>
            ref == Name("remediation", id.run + "-" + finding) && Remedied(refs, r.holds, c, id, actions, finding)
  {
    SubjectOf(id.run + "-" + finding);
  }

  lemma FindingOf(run: string, a: string, b: string)
    requires Name("remediation", run + "-" + a) == Name("remediation", run + "-" + b)
    ensures a == b
  {
    SubjectOf(run + "-" + a);
    SubjectOf(run + "-" + b);
    assert (run + "-" + a)[|run| + 1..] == a && (run + "-" + b)[|run| + 1..] == b;
  }

  lemma Stemmed(run: string, finding: string)
    ensures StartsWith(Name("remediation", run + "-" + finding), Name("remediation", run + "-"))
  {
    assert Name("remediation", run + "-" + finding) == Name("remediation", run + "-") + finding;
  }

  /** Nothing unbound means only answers. */
  lemma UnboundExactly(refs: Refs, holds: set<Sha>, c: Content, id: Identity, actions: map<string, string>)
    ensures SomeUnbound(refs, holds, c, id, actions) <==> !OnlyAnswers(refs, holds, c, id, actions)
  {
    forall ref | ref in refs
      ensures Corrects(Live(refs, holds), c, ref, refs[ref], id, actions).Some? <==>
              exists finding :: ref == Name("remediation", id.run + "-" + finding) && Remedied(refs, holds, c, id, actions, finding)
    {
      forall finding
        ensures Corrects(Live(refs, holds), c, ref, refs[ref], id, actions) == Some(finding) <==>
                ref == Name("remediation", id.run + "-" + finding) && Remedied(refs, holds, c, id, actions, finding)
      {
        CorrectsExactly(Live(refs, holds), refs, c, ref, id, actions, finding);
      }
    }
  }

  /** What the listed remediations correct, when each of them answers a finding. */
  lemma CorrectedExactly(refs: Refs, r: Reader, c: Content, id: Identity, actions: map<string, string>, listed: Refs)
    requires OnlyAnswers(refs, r.holds, c, id, actions)
    requires forall ref :: ref in listed <==> ref in refs && StartsWith(ref, Name("remediation", id.run + "-"))
    requires forall ref :: ref in listed ==> listed[ref] == refs[ref]
    ensures (set ref | ref in listed :: Corrects(r, c, ref, listed[ref], id, actions)) == (set f | f in actions :: Some(f))
            <==> forall f :: f in actions ==> Name("remediation", id.run + "-" + f) in refs
  {
    var corrected := set ref | ref in listed :: Corrects(r, c, ref, listed[ref], id, actions);
    forall ref | ref in listed
      ensures exists f :: f in actions && ref == Name("remediation", id.run + "-" + f) &&
                          Corrects(r, c, ref, listed[ref], id, actions) == Some(f)
    {
      var f :| ref == Name("remediation", id.run + "-" + f) && Remedied(refs, r.holds, c, id, actions, f);
      CorrectsExactly(r, refs, c, ref, id, actions, f);
    }
    forall f | f in actions
      ensures Some(f) in corrected <==> Name("remediation", id.run + "-" + f) in refs
    {
      var ref := Name("remediation", id.run + "-" + f);
      Stemmed(id.run, f);
      if ref in refs {
        assert ref in listed;
        var g :| g in actions && ref == Name("remediation", id.run + "-" + g) &&
                 Corrects(r, c, ref, listed[ref], id, actions) == Some(g);
        FindingOf(id.run, f, g);
      }
      if Some(f) in corrected {
        var other :| other in listed && Corrects(r, c, other, listed[other], id, actions) == Some(f);
        CorrectsExactly(r, refs, c, other, id, actions, f);
      }
    }
    assert corrected <= (set f | f in actions :: Some(f));
  }

  // ----- The verdicts -----

  lemma ReviewedExactly(refs: Refs, holds: set<Sha>, c: Content, id: Identity)
    ensures var v := Judge(Freeze(refs, Patterns(Reviewed(id), None, None), holds), c, Reviewed(id), None, None);
            && (v == Resolved <==> MeansResolved(refs, holds, c, Reviewed(id), None, None))
            && (v == Unresolved <==> MeansUnresolved(refs, holds, c, Reviewed(id), None, None))
  {
    var ps, stem := Patterns(Reviewed(id), None, None), Name("remediation", id.run + "-");
    var frozen := Freeze(refs, ps, holds);
    AppendedIn(ReviewPatterns(id.run), [Prefix(stem)]);
    MatchingExactly(refs, ps, holds, c, id);
    if Stands(refs, holds, c, id) && c.reviews[id].actions.Some? {
      assert Prefix(stem) in [Prefix(stem)];
      FrozenLists(refs, ps, holds, stem);
      var listed, actions := Query(frozen, [Prefix(stem)]), c.reviews[id].actions.value;
      UnboundExactly(refs, holds, c, id, actions);
      forall ref | ref in listed
        ensures listed[ref] == refs[ref]
        ensures Corrects(frozen, c, ref, listed[ref], id, actions) == Corrects(Live(refs, holds), c, ref, refs[ref], id, actions)
      {
      }
      if OnlyAnswers(refs, holds, c, id, actions) {
        CorrectedExactly(refs, frozen, c, id, actions, listed);
      }
    }
  }

  lemma PublicationExactly(refs: Refs, holds: set<Sha>, c: Content, item: Item)
    requires item.PublicationFailed? || item.PublicationProven?
    ensures var v := Judge(Freeze(refs, Patterns(item, None, None), holds), c, item, None, None);
            && (v == Resolved <==> MeansResolved(refs, holds, c, item, None, None))
            && (v == Unresolved <==> MeansUnresolved(refs, holds, c, item, None, None))
  {
    var ps := Patterns(item, None, None);
    AppendedIn(ReviewPatterns(item.id.run), [Exact(MAIN)]);
    assert Exact(MAIN) in [Exact(MAIN)];
    MatchingExactly(refs, ps, holds, c, item.id);
    OneRead(refs, ps, holds, MAIN);
  }

  lemma CurrentExactly(refs: Refs, ps: seq<Pattern>, holds: set<Sha>, c: Content, context: Context)
    requires forall q :: q in ContextPatterns(Some(context)) ==> q in ps
    ensures Current(Freeze(refs, ps, holds), c, context) <==> Supported(refs, holds, c, Some(context))
  {
    AppendedIn(ReviewPatterns(context.id.run),
               if context.blocker.Some? then ReviewPatterns(context.blocker.value.run) else []);
    var frozen := Freeze(refs, ps, holds);
    FoundStands(refs, ps, holds, c, context.id.run, Some(context.id.decision));
    if Stands(refs, holds, c, context.id) {
      StandsFound(refs, ps, holds, c, context.id, Some(context.id.decision));
    }
    if context.blocker.Some? {
      BlockerExactly(refs, ps, holds, c, context.blocker.value);
    }
  }

  lemma BlockerExactly(refs: Refs, ps: seq<Pattern>, holds: set<Sha>, c: Content, b: Blocker)
    requires forall q :: q in ReviewPatterns(b.run) ==> q in ps
    ensures var other := ReviewOf(Freeze(refs, ps, holds), c, b.run, Some(b.decision));
            other.Some? && other.value.1.verdict == "PASS" && other.value.0.reviewed == b.reviewed <==>
            StandsFor(refs, holds, c, b.run, b.decision, b.reviewed, {"PASS"})
  {
    FoundStands(refs, ps, holds, c, b.run, Some(b.decision));
    if StandsFor(refs, holds, c, b.run, b.decision, b.reviewed, {"PASS"}) {
      var id: Identity :| id.run == b.run && id.decision == b.decision && id.reviewed == b.reviewed &&
                          Stands(refs, holds, c, id) && c.reviews[id].verdict in {"PASS"};
      StandsFound(refs, ps, holds, c, id, Some(b.decision));
    }
  }

  lemma ConflictExactly(refs: Refs, holds: set<Sha>, c: Content, item: Item, context: Option<Context>)
    requires item.Conflict?
    ensures var v := Judge(Freeze(refs, Patterns(item, None, context), holds), c, item, None, context);
            && (v == Resolved <==> MeansResolved(refs, holds, c, item, None, context))
            && (v == Unresolved <==> MeansUnresolved(refs, holds, c, item, None, context))
  {
    var ps := Patterns(item, None, context);
    AppendedIn([Exact(item.predecessor)], ContextPatterns(context));
    assert Exact(item.predecessor) in [Exact(item.predecessor)];
    OneRead(refs, ps, holds, item.predecessor);
    if context.Some? {
      CurrentExactly(refs, ps, holds, c, context.value);
    }
  }

  lemma ReviewIngressExactly(refs: Refs, holds: set<Sha>, c: Content, item: Item)
    requires item.ReviewIngress?
    ensures var v := Judge(Freeze(refs, Patterns(item, None, None), holds), c, item, None, None);
            && (v == Resolved <==> MeansResolved(refs, holds, c, item, None, None))
            && (v == Unresolved <==> MeansUnresolved(refs, holds, c, item, None, None))
  {
    if item.sha.Some? {
      var ps := Patterns(item, None, None);
      FrozenLooksAtDecision(refs, holds, item, None, None);
      FoundStands(refs, ps, holds, c, item.subject, None);
      if id: Identity :| id.run == item.subject && id.reviewed == item.sha.value && Stands(refs, holds, c, id) {
        StandsFound(refs, ps, holds, c, id, None);
      }
    }
  }

  /** The review found for an authored remediation, and the remediation against it. */
  lemma AuthoredExactly(refs: Refs, ps: seq<Pattern>, holds: set<Sha>, c: Content, subject: string, sha: Sha, finding: string)
    requires forall q :: q in ReviewPatterns(subject) ==> q in ps
    requires Name("remediation", subject + "-" + finding) in refs
    ensures var frozen, ref := Freeze(refs, ps, holds), Name("remediation", subject + "-" + finding);
            var found := ReviewOf(frozen, c, subject, None);
            (found.Some? && found.value.0.reviewed == sha && found.value.1.verdict == "CHANGES_REQUIRED" &&
             found.value.1.actions.Some? &&
             Corrects(frozen, c, ref, refs[ref], found.value.0, found.value.1.actions.value) == Some(finding)) <==>
            exists id: Identity ::
              && id.run == subject && id.reviewed == sha && Stands(refs, holds, c, id)
              && c.reviews[id].verdict == "CHANGES_REQUIRED" && c.reviews[id].actions.Some?
              && Remedied(refs, holds, c, id, c.reviews[id].actions.value, finding)
  {
    var frozen, ref := Freeze(refs, ps, holds), Name("remediation", subject + "-" + finding);
    FoundStands(refs, ps, holds, c, subject, None);
    var found := ReviewOf(frozen, c, subject, None);
    if found.Some? && found.value.1.actions.Some? {
      CorrectsExactly(frozen, refs, c, ref, found.value.0, found.value.1.actions.value, finding);
    }
    forall id: Identity | id.run == subject && Stands(refs, holds, c, id)
      ensures found == Some((id, c.reviews[id]))
    {
      StandsFound(refs, ps, holds, c, id, None);
    }
  }

  lemma RemediationAuthoringExactly(refs: Refs, holds: set<Sha>, c: Content, item: Item)
    requires item.RemediationAuthoring?
    ensures var v := Judge(Freeze(refs, Patterns(item, None, None), holds), c, item, None, None);
            && (v == Resolved <==> MeansResolved(refs, holds, c, item, None, None))
            && (v == Unresolved <==> MeansUnresolved(refs, holds, c, item, None, None))
  {
    if item.sha.Some? {
      var ps, ref := Patterns(item, None, None), Name("remediation", item.subject + "-" + item.finding);
      AppendedIn(ReviewPatterns(item.subject), [Exact(ref)]);
      assert Exact(ref) in [Exact(ref)];
      OneRead(refs, ps, holds, ref);
      if ref in refs {
        AuthoredExactly(refs, ps, holds, c, item.subject, item.sha.value, item.finding);
      }
    }
  }

  lemma OtherAuthoringExactly(refs: Refs, holds: set<Sha>, c: Content, item: Item)
    requires item.RepairAuthoring? || item.TaskIngress? || item.OtherIngress?
    ensures var v := Judge(Freeze(refs, Patterns(item, None, None), holds), c, item, None, None);
            && (v == Resolved <==> MeansResolved(refs, holds, c, item, None, None))
            && (v == Unresolved <==> MeansUnresolved(refs, holds, c, item, None, None))
  {
    var ps := Patterns(item, None, None);
    if item.TaskIngress? {
      assert ps[0] == Exact(MAIN);
      OneRead(refs, ps, holds, MAIN);
    } else if item.RepairAuthoring? && item.sha.Some? {
      assert ps[0] == Exact(Name("repair", item.subject));
      OneRead(refs, ps, holds, Name("repair", item.subject));
    }
  }

  lemma TerminalExactly(refs: Refs, r: Reader, c: Content, next: Successor, artifact: Sha, success: bool, run: RunFacts)
    requires artifact in r.holds
    ensures var head := TerminalHead(r, c, artifact, success, run);
            var candidate := Lookup(refs, Name(if success then "review" else "failure", next.run));
            (head.Some? && head == candidate && (run.head == None || run.head == head)) <==>
            EndsAt(refs, r.holds, c, next, artifact, success, run)
  {
  }

  lemma DescentExactly(refs: Refs, ps: seq<Pattern>, holds: set<Sha>, c: Content, item: Item, next: Successor, artifact: Sha, run: RunFacts)
    requires item.Delivery? && (item.operation == Repair ==> Exact(Name("repair", item.subject)) in ps)
    requires artifact in holds
    ensures Inherits(Freeze(refs, ps, holds), c, item, next, artifact, run) <==>
            Descends(refs, holds, c, item, next, artifact, run)
  {
    if item.operation == Repair {
      OneRead(refs, ps, holds, Name("repair", item.subject));
    }
  }

  lemma DeliveryReads(refs: Refs, ps: seq<Pattern>, holds: set<Sha>, run: string)
    requires forall q :: q in DeliveryPatterns(run) ==> q in ps
    ensures var read := Query(Freeze(refs, ps, holds), DeliveryPatterns(run));
            && Lookup(read, Name("artifacts", run)) == Lookup(refs, Name("artifacts", run))
            && Lookup(read, Name("failure-artifacts", run)) == Lookup(refs, Name("failure-artifacts", run))
            && Lookup(read, Name("review", run)) == Lookup(refs, Name("review", run))
            && Lookup(read, Name("failure", run)) == Lookup(refs, Name("failure", run))
  {
    var qs := DeliveryPatterns(run);
    assert qs[0] in qs && qs[1] in qs && qs[2] in qs && qs[3] in qs;
    LiteralRead(refs, ps, qs, Name("artifacts", run), holds);
    LiteralRead(refs, ps, qs, Name("failure-artifacts", run), holds);
    LiteralRead(refs, ps, qs, Name("review", run), holds);
    LiteralRead(refs, ps, qs, Name("failure", run), holds);
  }

  lemma DeliveryExactly(refs: Refs, holds: set<Sha>, c: Content, item: Item, next: Option<Successor>)
    requires item.Delivery?
    ensures var v := Judge(Freeze(refs, Patterns(item, next, None), holds), c, item, next, None);
            && (v == Resolved <==> MeansResolved(refs, holds, c, item, next, None))
            && (v == Unresolved <==> MeansUnresolved(refs, holds, c, item, next, None))
  {
    if next.Some? {
      var run, ps := next.value.run, Patterns(item, next, None);
      var own := if item.operation == Repair then [Exact(Name("repair", item.subject))] else [];
      AppendedIn(DeliveryPatterns(run), own);
      assert item.operation == Repair ==> own[0] in own;
      DeliveryReads(refs, ps, holds, run);
      var success, failure := Lookup(refs, Name("artifacts", run)), Lookup(refs, Name("failure-artifacts", run));
      if success.Some? != failure.Some? {
        var artifact := if success.Some? then success.value else failure.value;
        if artifact in holds && artifact in c.runs {
          DescentExactly(refs, ps, holds, c, item, next.value, artifact, c.runs[artifact]);
          TerminalExactly(refs, Freeze(refs, ps, holds), c, next.value, artifact, success.Some?, c.runs[artifact]);
        }
        assert Delivered(refs, holds, c, item, next.value) <==>
               DeliveredAs(refs, holds, c, item, next.value, artifact, success.Some?);
      }
    }
  }

  /** The verdict over a frozen snapshot, exactly, for every item. */
  lemma VerdictExactly(
    refs: Refs, holds: set<Sha>, c: Content, item: Item, next: Option<Successor>, context: Option<Context>)
    ensures var v := Judge(Freeze(refs, Patterns(item, next, context), holds), c, item, next, context);
            && (v == Resolved <==> MeansResolved(refs, holds, c, item, next, context))
            && (v == Unresolved <==> MeansUnresolved(refs, holds, c, item, next, context))
  {
    match item
    case Reviewed(id) => ReviewedExactly(refs, holds, c, id);
    case PublicationFailed(_) | PublicationProven(_, _) => PublicationExactly(refs, holds, c, item);
    case Conflict(_, _, _) => ConflictExactly(refs, holds, c, item, context);
    case ReviewIngress(_, _, _) => ReviewIngressExactly(refs, holds, c, item);
    case RemediationAuthoring(_, _, _, _) => RemediationAuthoringExactly(refs, holds, c, item);
    case RepairAuthoring(_, _, _) | TaskIngress(_, _) | OtherIngress(_) => OtherAuthoringExactly(refs, holds, c, item);
    case Delivery(_, _, _, _) => DeliveryExactly(refs, holds, c, item, next);
  }

  /** What is answered in the end: the verdict where the patterns read the same before and after, and UNKNOWN otherwise. */
  lemma FreshnessExactly(
    first: Refs, second: Refs, holds: set<Sha>, c: Content, item: Item, next: Option<Successor>, context: Option<Context>)
    ensures var ps := Patterns(item, next, context);
            var unmoved := Query(Live(second, holds), ps) == Query(Live(first, holds), ps);
            && (Freshen(first, second, holds, c, item, next, context) == Resolved <==>
                  unmoved && MeansResolved(first, holds, c, item, next, context))
            && (Freshen(first, second, holds, c, item, next, context) == Unresolved <==>
                  unmoved && MeansUnresolved(first, holds, c, item, next, context))
  {
    var ps := Patterns(item, next, context);
    VerdictExactly(first, holds, c, item, next, context);
    if ps == [] {
      assert Query(Live(first, holds), []) == map[] == Query(Live(second, holds), []);
    }
  }
}
