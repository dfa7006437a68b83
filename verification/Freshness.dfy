/**
 Freshness of an attention: the patterns a verdict may consult are read once, the
 verdict is worked out against that frozen snapshot, and the patterns are read again.
 The live reader asks the remote, whose patterns match any tail of a ref name; the
 frozen reader matches whole names.
 */
module Freshness {
  import opened Prelude
  import opened Text
  import Git

  type Sha = Git.Sha
  type Refs = map<string, Sha>

  // ----- Ref queries -----

  /** A literal ref name, or every name that starts with a stem. */
  datatype Pattern = Exact(name: string) | Prefix(stem: string)

  predicate Whole(ref: string, p: Pattern) {
    match p
    case Exact(name) => ref == name
    case Prefix(stem) => StartsWith(ref, stem)
  }

  predicate Tail(ref: string, p: Pattern) {
    Whole(ref, p) || exists i :: 0 <= i < |ref| && ref[i] == '/' && Whole(ref[i + 1..], p)
  }

  predicate Matches(ref: string, ps: seq<Pattern>, frozen: bool) {
    exists i :: 0 <= i < |ps| && (if frozen then Whole(ref, ps[i]) else Tail(ref, ps[i]))
  }

  /** `holds` are the commits whose documents this reader can reach. */
  datatype Reader = Reader(refs: Refs, frozen: bool, holds: set<Sha>)

  function Query(r: Reader, ps: seq<Pattern>): Refs {
    map ref | ref in r.refs && Matches(ref, ps, r.frozen) :: r.refs[ref]
  }

  function Live(refs: Refs, holds: set<Sha>): Reader {
    Reader(refs, false, holds)
  }

  /** What one read of the patterns returned, to be consulted offline. */
  function Freeze(refs: Refs, ps: seq<Pattern>, holds: set<Sha>): Reader {
    Reader(Query(Live(refs, holds), ps), true, holds)
  }

  // ----- Ref names -----

  const MAIN := "refs/heads/main"
  const AIOS := "refs/heads/aios/"

  function Name(namespace: string, subject: string): string {
    AIOS + namespace + "/" + subject
  }

  function ReviewPatterns(run: string): seq<Pattern> {
    [Exact(Name("artifacts", run)), Exact(Name("failure-artifacts", run)), Exact(Name("review", run)),
     Exact(Name("failure", run)), Exact(Name("review-decision", run))]
  }

  function DeliveryPatterns(run: string): seq<Pattern> {
    [Exact(Name("artifacts", run)), Exact(Name("failure-artifacts", run)), Exact(Name("review", run)),
     Exact(Name("failure", run))]
  }

  // ----- Immutable content: what a verdict uses of each document -----

  datatype Identity = Identity(run: string, artifact: Sha, decision: Sha, reviewed: Sha)
  datatype ReviewFacts = ReviewFacts(verdict: string, actions: Option<map<string, string>>)
  datatype Completed = Completed(identity: Identity, published: Sha, review: string)
  datatype Bookmark = Bookmark(completed: Option<Completed>, done: bool)
  datatype RepairFacts = RepairFacts(failedRun: string, failedHead: Sha, text: string)
  datatype RunFacts = RunFacts(id: string, kindless: bool, task: Git.TaskReference, head: Option<Sha>, lineage: Option<(string, string)>)
  datatype FailureFacts = FailureFacts(run: string, task: Git.TaskReference, head: Sha)

  datatype Content = Content(
    reviews: map<Identity, ReviewFacts>,
    remediations: map<(Sha, string, Sha), Git.Correction>,
    included: set<(Sha, Sha)>,
    roadmaps: map<Sha, seq<Bookmark>>,
    repairs: map<Sha, RepairFacts>,
    runs: map<Sha, RunFacts>,
    results: map<Sha, Sha>,
    failures: map<Sha, FailureFacts>,
    tasks: map<(Sha, string), string>)

  function Read<V>(r: Reader, m: map<Sha, V>, sha: Sha): Option<V> {
    if sha in r.holds then Lookup(m, sha) else None
  }

  // ----- Attentions that have a freshness -----

  datatype Operation = Primary | Remediation | Repair

  /** The issue behind an envelope: whether its body still has the digest, and the payload it carries. */
  datatype Issue = Issue(intact: bool, payload: string)

  /** A subject commit of forty zeros is `None`. */
  datatype Item =
    | Reviewed(id: Identity)
    | PublicationFailed(id: Identity)
    | PublicationProven(id: Identity, published: Sha)
    | Conflict(predecessor: string, prepared: Option<Sha>, observed: Sha)
    | ReviewIngress(issue: Issue, subject: string, sha: Option<Sha>)
    | RemediationAuthoring(issue: Issue, subject: string, sha: Option<Sha>, finding: string)
    | RepairAuthoring(issue: Issue, subject: string, sha: Option<Sha>)
    | TaskIngress(issue: Issue, subject: string)
    | OtherIngress(issue: Issue)
    | Delivery(operation: Operation, subject: string, sha: Option<Sha>, finding: string)

  datatype Successor = Successor(run: string, task: Git.TaskReference)
  datatype Blocker = Blocker(run: string, decision: Sha, reviewed: Sha)
  datatype Context = Context(id: Identity, blocker: Option<Blocker>)

  /** UNKNOWN stands for a rejection as well. */
  datatype Verdict = Resolved | Unresolved | Unknown

  function Patterns(item: Item, next: Option<Successor>, context: Option<Context>): seq<Pattern> {
    match item
    case Reviewed(id) => ReviewPatterns(id.run) + [Prefix(Name("remediation", id.run + "-"))]
    case PublicationFailed(id) => ReviewPatterns(id.run) + [Exact(MAIN)]
    case PublicationProven(id, _) => ReviewPatterns(id.run) + [Exact(MAIN)]
    case Conflict(predecessor, _, _) => [Exact(predecessor)] + ContextPatterns(context)
    case ReviewIngress(_, subject, sha) => if sha.Some? then ReviewPatterns(subject) else []
    case RemediationAuthoring(_, subject, sha, finding) =>
      if sha.Some? then ReviewPatterns(subject) + [Exact(Name("remediation", subject + "-" + finding))] else []
    case RepairAuthoring(_, subject, sha) => if sha.Some? then [Exact(Name("repair", subject))] else []
    case TaskIngress(_, _) => [Exact(MAIN)]
    case OtherIngress(_) => []
    case Delivery(operation, subject, _, _) =>
      if next.None? then []
      else DeliveryPatterns(next.value.run) + (if operation == Repair then [Exact(Name("repair", subject))] else [])
  }

  function ContextPatterns(context: Option<Context>): seq<Pattern> {
    if context.None? then []
    else
      ReviewPatterns(context.value.id.run) +
      (if context.value.blocker.Some? then ReviewPatterns(context.value.blocker.value.run) else [])
  }

  // ----- Working a verdict out against a reader -----

  function ReviewOf(r: Reader, c: Content, run: string, decision: Option<Sha>): Option<(Identity, ReviewFacts)> {
    var refs := Query(r, ReviewPatterns(run));
    var artifact, head, chosen :=
      Lookup(refs, Name("artifacts", run)), Lookup(refs, Name("review", run)), Lookup(refs, Name("review-decision", run));
    if artifact.None? || head.None? || chosen.None? then None
    else if Name("failure-artifacts", run) in refs || Name("failure", run) in refs then None
    else if decision.Some? && decision != chosen then None
    else if artifact.value !in r.holds || chosen.value !in r.holds then None
    else
      var id := Identity(run, artifact.value, chosen.value, head.value);
      if id in c.reviews then Some((id, c.reviews[id])) else None
  }

  predicate Included(r: Reader, c: Content, sha: Sha, main: Sha) {
    sha in r.holds && main in r.holds && (sha, main) in c.included
  }

  predicate Excluded(r: Reader, c: Content, sha: Sha, main: Sha) {
    sha in r.holds && main in r.holds && (sha, main) !in c.included
  }

  function Corrects(r: Reader, c: Content, ref: string, sha: Sha, id: Identity, actions: map<string, string>): Option<string> {
    var subject := if StartsWith(ref, Name("remediation", "")) then ref[|Name("remediation", "")|..] else "";
    if sha !in r.holds || (sha, subject, id.decision) !in c.remediations then None
    else
      var x := c.remediations[(sha, subject, id.decision)];
      if ref == Name("remediation", id.run + "-" + x.finding) && x.reviewed == id.reviewed &&
         Lookup(actions, x.finding) == Some(x.action)
      then Some(x.finding) else None
  }

  function JudgeReview(r: Reader, c: Content, id: Identity, review: ReviewFacts): Verdict {
    if review.verdict !in {"CHANGES_REQUIRED", "BLOCKED"} || review.actions.None? then Unknown
    else
      var actions := review.actions.value;
      var refs := Query(r, [Prefix(Name("remediation", id.run + "-"))]);
      if exists ref :: ref in refs && Corrects(r, c, ref, refs[ref], id, actions).None? then Unknown
      else
        var corrected := set ref | ref in refs :: Corrects(r, c, ref, refs[ref], id, actions);
        if actions != map[] && corrected == (set f | f in actions :: Some(f)) then Resolved else Unresolved
  }

  function MainOf(r: Reader): Option<Sha> {
    Lookup(Query(r, [Exact(MAIN)]), MAIN)
  }

  function JudgeFailure(r: Reader, c: Content, id: Identity): Verdict {
    match MainOf(r)
    case None => Unknown
    case Some(main) =>
      if Included(r, c, id.reviewed, main) then Resolved
      else if Excluded(r, c, id.reviewed, main) then Unresolved
      else Unknown
  }

  predicate Mentions(b: Bookmark, run: string) {
    b.completed.Some? && b.completed.value.identity.run == run
  }

  function JudgeProven(r: Reader, c: Content, id: Identity, published: Sha): Verdict {
    match MainOf(r)
    case None => Unknown
    case Some(main) =>
      if !Included(r, c, id.reviewed, main) || Read(r, c.roadmaps, main).None? then Unknown
      else
        var marks := Read(r, c.roadmaps, main).value;
        var record := Completed(id, published, "REVIEW-" + (if |id.run| >= 4 then id.run[4..] else ""));
        if exists b :: b in marks && Mentions(b, id.run) && b.completed.value != record then Unknown
        else if exists b :: b in marks && Mentions(b, id.run) && b.done then Resolved
        else Unresolved
  }

  predicate Current(r: Reader, c: Content, context: Context) {
    var review := ReviewOf(r, c, context.id.run, Some(context.id.decision));
    && review.Some? && review.value.1.verdict == "PASS" && review.value.0 == context.id
    && (context.blocker.Some? ==>
          var blocker := context.blocker.value;
          var other := ReviewOf(r, c, blocker.run, Some(blocker.decision));
          other.Some? && other.value.1.verdict == "PASS" && other.value.0.reviewed == blocker.reviewed)
  }

  function JudgeConflict(
    r: Reader, c: Content, predecessor: string, prepared: Option<Sha>, observed: Sha, context: Option<Context>): Verdict
  {
    if context.Some? && !Current(r, c, context.value) then Unknown
    else
      match Lookup(Query(r, [Exact(predecessor)]), predecessor)
      case None => Unknown
      case Some(current) =>
        if prepared == Some(current) then Resolved
        else if prepared.Some? && predecessor == MAIN && Included(r, c, prepared.value, current) then Resolved
        else if prepared.Some? && predecessor == MAIN && !Excluded(r, c, prepared.value, current) then Unknown
        else if current != observed then Unknown
        else Unresolved
  }

  function JudgeIssue(issue: Issue): Verdict {
    if issue.intact then Unresolved else Unknown
  }

  function JudgeReviewIngress(r: Reader, c: Content, issue: Issue, subject: string, sha: Option<Sha>): Verdict {
    if sha.Some? && Query(r, [Exact(Name("review-decision", subject))]) != map[] then
      match ReviewOf(r, c, subject, None)
      case None => Unknown
      case Some((id, _)) => if id.reviewed == sha.value then Resolved else Unknown
    else JudgeIssue(issue)
  }

  function JudgeRemediation(
    r: Reader, c: Content, issue: Issue, subject: string, sha: Option<Sha>, finding: string): Verdict
  {
    var ref := Name("remediation", subject + "-" + finding);
    if sha.None? then JudgeIssue(issue)
    else
      match Lookup(Query(r, [Exact(ref)]), ref)
      case None => JudgeIssue(issue)
      case Some(at) =>
        match ReviewOf(r, c, subject, None)
        case None => Unknown
        case Some((id, review)) =>
          if id.reviewed != sha.value || review.verdict != "CHANGES_REQUIRED" || review.actions.None? then Unknown
          else if Corrects(r, c, ref, at, id, review.actions.value) == Some(finding) then Resolved
          else Unknown
  }

  function JudgeRepair(r: Reader, c: Content, issue: Issue, subject: string, sha: Option<Sha>): Verdict {
    var ref := Name("repair", subject);
    if sha.None? then JudgeIssue(issue)
    else
      match Lookup(Query(r, [Exact(ref)]), ref)
      case None => JudgeIssue(issue)
      case Some(at) =>
        match Read(r, c.repairs, at)
        case None => Unknown
        case Some(doc) => if doc.failedRun == subject && doc.failedHead == sha.value then Resolved else Unknown
  }

  function JudgeTask(r: Reader, c: Content, issue: Issue, subject: string): Verdict {
    if !issue.intact then Unknown
    else
      match MainOf(r)
      case None => Unknown
      case Some(main) =>
        if main !in r.holds then Unknown
        else if Lookup(c.tasks, (main, subject)) == Some(issue.payload) then Resolved
        else Unresolved
  }

  predicate Inherits(r: Reader, c: Content, item: Item, next: Successor, artifact: Sha, run: RunFacts)
    requires item.Delivery?
  {
    match item.operation
    case Primary => run.kindless && run.task == next.task
    case Remediation => run.lineage == Some((item.subject, item.finding))
    case Repair =>
      var ref := Name("repair", item.subject);
      && Read(r, c.repairs, artifact).Some? && Read(r, c.repairs, artifact).value.failedRun == item.subject
      && item.sha.Some? && Lookup(Query(r, [Exact(ref)]), ref) == item.sha
      && Read(r, c.repairs, item.sha.value) == Read(r, c.repairs, artifact)
  }

  function TerminalHead(r: Reader, c: Content, artifact: Sha, success: bool, run: RunFacts): Option<Sha> {
    if success then Read(r, c.results, artifact)
    else
      match Read(r, c.failures, artifact)
      case None => None
      case Some(f) => if f.run == run.id && f.task == run.task then Some(f.head) else None
  }

  function JudgeDelivery(r: Reader, c: Content, item: Item, next: Option<Successor>): Verdict
    requires item.Delivery?
  {
    if next.None? then Unresolved
    else
      var run := next.value.run;
      var refs := Query(r, DeliveryPatterns(run));
      var success, failure := Lookup(refs, Name("artifacts", run)), Lookup(refs, Name("failure-artifacts", run));
      if success.Some? == failure.Some? then Unknown
      else
        var artifact := if success.Some? then success.value else failure.value;
        match Read(r, c.runs, artifact)
        case None => Unknown
        case Some(doc) =>
          if doc.id != run || !Inherits(r, c, item, next.value, artifact, doc) then Unknown
          else
            var head := TerminalHead(r, c, artifact, success.Some?, doc);
            var candidate := Lookup(refs, Name(if success.Some? then "review" else "failure", run));
            if head.Some? && head == candidate && (doc.head == None || doc.head == head) then Resolved else Unknown
  }

  function Judge(r: Reader, c: Content, item: Item, next: Option<Successor>, context: Option<Context>): Verdict {
    match item
    case Reviewed(id) =>
      (match Matching(r, c, id)
       case None => Unknown
       case Some(review) => JudgeReview(r, c, id, review))
    case PublicationFailed(id) =>
      (match Matching(r, c, id)
       case None => Unknown
       case Some(review) => if review.verdict != "PASS" then Unknown else JudgeFailure(r, c, id))
    case PublicationProven(id, published) =>
      (match Matching(r, c, id)
       case None => Unknown
       case Some(review) => if review.verdict != "PASS" then Unknown else JudgeProven(r, c, id, published))
    case Conflict(predecessor, prepared, observed) => JudgeConflict(r, c, predecessor, prepared, observed, context)
    case ReviewIngress(issue, subject, sha) => JudgeReviewIngress(r, c, issue, subject, sha)
    case RemediationAuthoring(issue, subject, sha, finding) => JudgeRemediation(r, c, issue, subject, sha, finding)
    case RepairAuthoring(issue, subject, sha) => JudgeRepair(r, c, issue, subject, sha)
    case TaskIngress(issue, subject) => JudgeTask(r, c, issue, subject)
    case OtherIngress(issue) => JudgeIssue(issue)
    case Delivery(_, _, _, _) => JudgeDelivery(r, c, item, next)
  }

  /** The review of exactly this identity. */
  function Matching(r: Reader, c: Content, id: Identity): Option<ReviewFacts> {
    match ReviewOf(r, c, id.run, Some(id.decision))
    case None => None
    case Some((actual, review)) => if actual == id then Some(review) else None
  }

  /** One read of the patterns, the verdict against what it returned, one more read. */
  function Freshen(
    first: Refs, second: Refs, holds: set<Sha>,
    c: Content, item: Item, next: Option<Successor>, context: Option<Context>): Verdict
  {
    var ps := Patterns(item, next, context);
    if ps == [] then Judge(Live(first, holds), c, item, next, context)
    else
      var verdict := Judge(Freeze(first, ps, holds), c, item, next, context);
      if Query(Live(second, holds), ps) == Query(Live(first, holds), ps) then verdict else Unknown
  }

  // ----- When the frozen reader answers as the live one -----

  /** A ref that the remote would match although its whole name is not the pattern's. */
  predicate Strays(ref: string, p: Pattern) {
    Tail(ref, p) && !Whole(ref, p)
  }

  ghost predicate NoStray(refs: Refs, ps: seq<Pattern>) {
    forall ref, p :: ref in refs && p in ps ==> !Strays(ref, p)
  }

  /** For one frozen pattern, the two readers agree exactly when no ref strays into it. */
  lemma QueryAgrees(refs: Refs, ps: seq<Pattern>, p: Pattern, holds: set<Sha>)
    requires p in ps
    ensures Query(Freeze(refs, ps, holds), [p]) == Query(Live(refs, holds), [p]) <==> NoStray(refs, [p])
  {
    var frozen, live := Query(Freeze(refs, ps, holds), [p]), Query(Live(refs, holds), [p]);
    forall ref | ref in refs
      ensures ref in live <==> Tail(ref, p)
      ensures ref in frozen <==> Whole(ref, p)
    {
      OnlyPattern(ref, p);
      var i :| 0 <= i < |ps| && ps[i] == p;
      assert Whole(ref, p) ==> Matches(ref, ps, false);
    }
    if frozen == live {
      forall ref, q | ref in refs && q in [p]
        ensures !Strays(ref, q)
      {
        assert ref in live <==> ref in frozen;
      }
    }
    if NoStray(refs, [p]) {
      assert p in [p];
      forall ref | ref in refs
        ensures ref in live <==> ref in frozen
      {
        assert !Strays(ref, p);
      }
      assert frozen == live;
    }
  }

  lemma OnlyPattern(ref: string, p: Pattern)
    ensures Matches(ref, [p], false) <==> Tail(ref, p)
    ensures Matches(ref, [p], true) <==> Whole(ref, p)
  {
    assert [p][0] == p;
  }

  /** Every query over frozen patterns is answered as the remote answered. */
  lemma FrozenAnswers(refs: Refs, ps: seq<Pattern>, qs: seq<Pattern>, holds: set<Sha>, other: set<Sha>)
    requires forall q :: q in qs ==> q in ps
    requires NoStray(refs, qs)
    ensures Query(Freeze(refs, ps, holds), qs) == Query(Live(refs, other), qs)
  {
    forall ref | ref in refs
      ensures Matches(ref, qs, true) <==> Matches(ref, qs, false)
      ensures Matches(ref, qs, true) ==> Matches(ref, ps, false)
    {
      if Matches(ref, qs, true) {
        var i :| 0 <= i < |qs| && Whole(ref, qs[i]);
        assert qs[i] in ps;
        var j :| 0 <= j < |ps| && ps[j] == qs[i];
        assert Tail(ref, ps[j]) && Tail(ref, qs[i]);
      }
      if Matches(ref, qs, false) {
        var i :| 0 <= i < |qs| && Tail(ref, qs[i]);
        assert !Strays(ref, qs[i]);
      }
    }
  }

  // ----- A verdict depends on the refs only through its queries -----

  /** `b` finds the same commit under every literal name asked for, and reaches at least the same commits. */
  ghost predicate Answers(a: Reader, b: Reader, qs: seq<Pattern>) {
    && a.holds <= b.holds
    && forall i :: 0 <= i < |qs| ==> Finds(a, b, qs, qs[i])
  }

  ghost predicate Finds(a: Reader, b: Reader, qs: seq<Pattern>, q: Pattern) {
    q.Exact? ==> Lookup(Query(a, qs), q.name) == Lookup(Query(b, qs), q.name)
  }

  lemma ReviewCarries(a: Reader, b: Reader, c: Content, run: string, decision: Option<Sha>)
    requires Answers(a, b, ReviewPatterns(run)) && ReviewOf(a, c, run, decision).Some?
    ensures ReviewOf(b, c, run, decision) == ReviewOf(a, c, run, decision)
  {
    var qs := ReviewPatterns(run);
    assert Finds(a, b, qs, qs[0]) && Finds(a, b, qs, qs[1]) && Finds(a, b, qs, qs[2]);
    assert Finds(a, b, qs, qs[3]) && Finds(a, b, qs, qs[4]);
  }

  lemma MatchingCarries(a: Reader, b: Reader, c: Content, id: Identity)
    requires Answers(a, b, ReviewPatterns(id.run)) && Matching(a, c, id).Some?
    ensures Matching(b, c, id) == Matching(a, c, id)
  {
    ReviewCarries(a, b, c, id.run, Some(id.decision));
  }

  lemma CorrectsCarries(
    a: Reader, b: Reader, c: Content, ref: string, sha: Sha, id: Identity, actions: map<string, string>)
    requires a.holds <= b.holds && Corrects(a, c, ref, sha, id, actions).Some?
    ensures Corrects(b, c, ref, sha, id, actions) == Corrects(a, c, ref, sha, id, actions)
  {
  }

  lemma JudgeReviewCarries(a: Reader, b: Reader, c: Content, id: Identity, review: ReviewFacts)
    requires a.holds <= b.holds
    requires Query(a, [Prefix(Name("remediation", id.run + "-"))]) == Query(b, [Prefix(Name("remediation", id.run + "-"))])
    requires JudgeReview(a, c, id, review) != Unknown
    ensures JudgeReview(b, c, id, review) == JudgeReview(a, c, id, review)
  {
    var actions := review.actions.value;
    var refs := Query(a, [Prefix(Name("remediation", id.run + "-"))]);
    forall ref | ref in refs
      ensures Corrects(b, c, ref, refs[ref], id, actions) == Corrects(a, c, ref, refs[ref], id, actions)
    {
      CorrectsCarries(a, b, c, ref, refs[ref], id, actions);
    }
    assert (set ref | ref in refs :: Corrects(a, c, ref, refs[ref], id, actions)) ==
           (set ref | ref in refs :: Corrects(b, c, ref, refs[ref], id, actions));
  }

  lemma CurrentCarries(a: Reader, b: Reader, c: Content, context: Context)
    requires Answers(a, b, ReviewPatterns(context.id.run))
    requires context.blocker.Some? ==> Answers(a, b, ReviewPatterns(context.blocker.value.run))
    requires Current(a, c, context)
    ensures Current(b, c, context)
  {
    ReviewCarries(a, b, c, context.id.run, Some(context.id.decision));
    if context.blocker.Some? {
      ReviewCarries(a, b, c, context.blocker.value.run, Some(context.blocker.value.decision));
    }
  }

  lemma DeliveryCarries(a: Reader, b: Reader, c: Content, item: Item, next: Successor)
    requires item.Delivery? && Answers(a, b, DeliveryPatterns(next.run))
    requires item.operation == Repair ==> Answers(a, b, [Exact(Name("repair", item.subject))])
    requires JudgeDelivery(a, c, item, Some(next)) != Unknown
    ensures JudgeDelivery(b, c, item, Some(next)) == JudgeDelivery(a, c, item, Some(next))
  {
    var qs, own := DeliveryPatterns(next.run), [Exact(Name("repair", item.subject))];
    assert Finds(a, b, qs, qs[0]) && Finds(a, b, qs, qs[1]) && Finds(a, b, qs, qs[2]) && Finds(a, b, qs, qs[3]);
    assert item.operation == Repair ==> Finds(a, b, own, own[0]);
  }

  /** The queries each family makes. */
  function Queries(item: Item, next: Option<Successor>, context: Option<Context>): seq<seq<Pattern>> {
    match item
    case Reviewed(id) => [ReviewPatterns(id.run), [Prefix(Name("remediation", id.run + "-"))]]
    case PublicationFailed(id) => [ReviewPatterns(id.run), [Exact(MAIN)]]
    case PublicationProven(id, _) => [ReviewPatterns(id.run), [Exact(MAIN)]]
    case Conflict(predecessor, _, _) =>
      [[Exact(predecessor)]] +
      (if context.None? then []
       else [ReviewPatterns(context.value.id.run)] +
            (if context.value.blocker.None? then [] else [ReviewPatterns(context.value.blocker.value.run)]))
    case ReviewIngress(_, subject, sha) =>
      if sha.None? then [] else [[Exact(Name("review-decision", subject))], ReviewPatterns(subject)]
    case RemediationAuthoring(_, subject, sha, finding) =>
      if sha.None? then [] else [[Exact(Name("remediation", subject + "-" + finding))], ReviewPatterns(subject)]
    case RepairAuthoring(_, subject, sha) => if sha.None? then [] else [[Exact(Name("repair", subject))]]
    case TaskIngress(_, _) => [[Exact(MAIN)]]
    case OtherIngress(_) => []
    case Delivery(operation, subject, _, _) =>
      if next.None? then []
      else [DeliveryPatterns(next.value.run)] + (if operation == Repair then [[Exact(Name("repair", subject))]] else [])
  }

  /** The queries of which more is used than the commit under a literal name. */
  function Sensitive(item: Item): seq<Pattern> {
    match item
    case Reviewed(id) => [Prefix(Name("remediation", id.run + "-"))]
    case ReviewIngress(_, subject, sha) => if sha.None? then [] else [Exact(Name("review-decision", subject))]
    case _ => []
  }

  /** The frozen patterns cover every query of every branch. */
  lemma PatternsCoverQueries(item: Item, next: Option<Successor>, context: Option<Context>)
    ensures forall i, q :: 0 <= i < |Queries(item, next, context)| && q in Queries(item, next, context)[i] ==>
              q in Patterns(item, next, context)
    ensures forall q :: q in Sensitive(item) ==> q in Patterns(item, next, context)
  {
  }

  lemma ConflictCarries(a: Reader, b: Reader, c: Content, item: Item, context: Option<Context>)
    requires item.Conflict? && Answers(a, b, [Exact(item.predecessor)])
    requires context.Some? ==> Answers(a, b, ReviewPatterns(context.value.id.run))
    requires context.Some? && context.value.blocker.Some? ==>
               Answers(a, b, ReviewPatterns(context.value.blocker.value.run))
    requires JudgeConflict(a, c, item.predecessor, item.prepared, item.observed, context) != Unknown
    ensures JudgeConflict(b, c, item.predecessor, item.prepared, item.observed, context) ==
            JudgeConflict(a, c, item.predecessor, item.prepared, item.observed, context)
  {
    assert Finds(a, b, [Exact(item.predecessor)], [Exact(item.predecessor)][0]);
    if context.Some? {
      CurrentCarries(a, b, c, context.value);
    }
  }

  lemma AuthoringCarries(a: Reader, b: Reader, c: Content, item: Item)
    requires item.RemediationAuthoring? && item.sha.Some?
    requires Answers(a, b, ReviewPatterns(item.subject))
    requires Answers(a, b, [Exact(Name("remediation", item.subject + "-" + item.finding))])
    requires JudgeRemediation(a, c, item.issue, item.subject, item.sha, item.finding) != Unknown
    ensures JudgeRemediation(b, c, item.issue, item.subject, item.sha, item.finding) ==
            JudgeRemediation(a, c, item.issue, item.subject, item.sha, item.finding)
  {
    var ref := Name("remediation", item.subject + "-" + item.finding);
    var refs := Query(a, [Exact(ref)]);
    assert Finds(a, b, [Exact(ref)], [Exact(ref)][0]);
    if ref in refs {
      ReviewCarries(a, b, c, item.subject, None);
      var (id, review) := ReviewOf(a, c, item.subject, None).value;
      CorrectsCarries(a, b, c, ref, refs[ref], id, review.actions.value);
    }
  }

  /** All queries of the item answered alike. */
  ghost predicate AnswersAll(a: Reader, b: Reader, item: Item, next: Option<Successor>, context: Option<Context>) {
    && (forall i :: 0 <= i < |Queries(item, next, context)| ==> Answers(a, b, Queries(item, next, context)[i]))
    && Query(a, Sensitive(item)) == Query(b, Sensitive(item))
  }

  lemma ReviewFamiliesCarry(
    a: Reader, b: Reader, c: Content, item: Item, next: Option<Successor>, context: Option<Context>)
    requires item.Reviewed? || item.PublicationFailed? || item.PublicationProven?
    requires a.holds <= b.holds && AnswersAll(a, b, item, next, context)
    requires Judge(a, c, item, next, context) != Unknown
    ensures Judge(b, c, item, next, context) == Judge(a, c, item, next, context)
  {
    var qs := Queries(item, next, context);
    assert Answers(a, b, qs[0]) && Answers(a, b, qs[1]);
    MatchingCarries(a, b, c, item.id);
    assert Finds(a, b, qs[1], qs[1][0]);
    if item.Reviewed? {
      JudgeReviewCarries(a, b, c, item.id, Matching(a, c, item.id).value);
    }
  }

  lemma IngressFamiliesCarry(
    a: Reader, b: Reader, c: Content, item: Item, next: Option<Successor>, context: Option<Context>)
    requires item.ReviewIngress? || item.RemediationAuthoring? || item.RepairAuthoring? || item.TaskIngress?
    requires a.holds <= b.holds && AnswersAll(a, b, item, next, context)
    requires Judge(a, c, item, next, context) != Unknown
    ensures Judge(b, c, item, next, context) == Judge(a, c, item, next, context)
  {
    var qs := Queries(item, next, context);
    if item.TaskIngress? || item.sha.Some? {
      assert Answers(a, b, qs[0]) && Finds(a, b, qs[0], qs[0][0]);
      if item.ReviewIngress? {
        assert Answers(a, b, qs[1]);
        if Query(a, qs[0]) != map[] {
          ReviewCarries(a, b, c, item.subject, None);
        }
      } else if item.RemediationAuthoring? {
        assert Answers(a, b, qs[1]);
        AuthoringCarries(a, b, c, item);
      }
    }
  }

  lemma OtherFamiliesCarry(
    a: Reader, b: Reader, c: Content, item: Item, next: Option<Successor>, context: Option<Context>)
    requires item.Conflict? || item.Delivery?
    requires a.holds <= b.holds && AnswersAll(a, b, item, next, context)
    requires Judge(a, c, item, next, context) != Unknown
    ensures Judge(b, c, item, next, context) == Judge(a, c, item, next, context)
  {
    var qs := Queries(item, next, context);
    if item.Conflict? {
      assert Answers(a, b, qs[0]);
      assert context.Some? ==> Answers(a, b, qs[1]);
      assert context.Some? && context.value.blocker.Some? ==> Answers(a, b, qs[2]);
      ConflictCarries(a, b, c, item, context);
    } else if next.Some? {
      assert Answers(a, b, qs[0]);
      assert item.operation == Repair ==> Answers(a, b, qs[1]);
      DeliveryCarries(a, b, c, item, next.value);
    }
  }

  /** A decided verdict is the verdict of any reader that answers alike and reaches at least as much. */
  lemma VerdictCarries(a: Reader, b: Reader, c: Content, item: Item, next: Option<Successor>, context: Option<Context>)
    requires a.holds <= b.holds && AnswersAll(a, b, item, next, context)
    requires Judge(a, c, item, next, context) != Unknown
    ensures Judge(b, c, item, next, context) == Judge(a, c, item, next, context)
  {
    match item
    case Reviewed(_) | PublicationFailed(_) | PublicationProven(_, _) => ReviewFamiliesCarry(a, b, c, item, next, context);
    case Conflict(_, _, _) | Delivery(_, _, _, _) => OtherFamiliesCarry(a, b, c, item, next, context);
    case OtherIngress(_) =>
    case _ => IngressFamiliesCarry(a, b, c, item, next, context);
  }

  lemma LiteralFound(refs: Refs, ps: seq<Pattern>, qs: seq<Pattern>, q: Pattern, holds: set<Sha>, other: set<Sha>)
    requires q in qs && q in ps
    ensures Finds(Freeze(refs, ps, holds), Live(refs, other), qs, q)
    ensures Finds(Live(refs, other), Freeze(refs, ps, holds), qs, q)
  {
    if q.Exact? {
      var i :| 0 <= i < |qs| && qs[i] == q;
      var j :| 0 <= j < |ps| && ps[j] == q;
      assert Whole(q.name, qs[i]) && Whole(q.name, ps[j]) && Tail(q.name, qs[i]) && Tail(q.name, ps[j]);
      assert Matches(q.name, qs, true) && Matches(q.name, qs, false) && Matches(q.name, ps, false);
    }
  }

  lemma FrozenAnswersAll(
    refs: Refs, holds: set<Sha>, other: set<Sha>, item: Item, next: Option<Successor>, context: Option<Context>)
    requires NoStray(refs, Sensitive(item))
    ensures holds <= other ==>
              AnswersAll(Freeze(refs, Patterns(item, next, context), holds), Live(refs, other), item, next, context)
    ensures other <= holds ==>
              AnswersAll(Live(refs, other), Freeze(refs, Patterns(item, next, context), holds), item, next, context)
  {
    var ps, all := Patterns(item, next, context), Queries(item, next, context);
    var frozen, live := Freeze(refs, ps, holds), Live(refs, other);
    PatternsCoverQueries(item, next, context);
    FrozenAnswers(refs, ps, Sensitive(item), holds, other);
    forall i, k | 0 <= i < |all| && 0 <= k < |all[i]|
      ensures Finds(frozen, live, all[i], all[i][k]) && Finds(live, frozen, all[i], all[i][k])
    {
      assert all[i][k] in all[i];
      LiteralFound(refs, ps, all[i], all[i][k], holds, other);
    }
  }

  /** Some ref strays into a sensitive query, and no decision under the literal name outweighs it. */
  ghost predicate Masked(refs: Refs, item: Item) {
    && !NoStray(refs, Sensitive(item))
    && !(item.ReviewIngress? && Name("review-decision", item.subject) in refs)
  }

  lemma FrozenLooksAtDecision(
    refs: Refs, holds: set<Sha>, item: Item, next: Option<Successor>, context: Option<Context>)
    requires item.ReviewIngress? && item.sha.Some?
    ensures var ref := Name("review-decision", item.subject);
            && (Query(Freeze(refs, Patterns(item, next, context), holds), [Exact(ref)]) != map[] <==> ref in refs)
            && (ref in refs ==> Query(Live(refs, holds), [Exact(ref)]) != map[])
  {
    var ref, ps := Name("review-decision", item.subject), Patterns(item, next, context);
    assert ps[4] == Exact(ref);
    forall name | name in refs
      ensures name in Query(Freeze(refs, ps, holds), [Exact(ref)]) <==> name == ref
      ensures name == ref ==> name in Query(Live(refs, holds), [Exact(ref)])
    {
      OnlyPattern(name, Exact(ref));
      if name == ref {
        assert Tail(name, ps[4]);
        assert Matches(name, ps, false);
      }
    }
  }

  /** With a decision under the literal name nothing that strays matters. */
  lemma DecisionOutweighs(
    refs: Refs, holds: set<Sha>, reach: set<Sha>, c: Content, item: Item, next: Option<Successor>, context: Option<Context>)
    requires item.ReviewIngress? && item.sha.Some? && Name("review-decision", item.subject) in refs
    requires holds <= reach
    ensures var frozen := Judge(Freeze(refs, Patterns(item, next, context), holds), c, item, next, context);
            var live := Judge(Live(refs, reach), c, item, next, context);
            && (frozen != Unknown ==> live == frozen)
            && (holds == reach ==> live == frozen)
  {
    var ps := Patterns(item, next, context);
    FrozenLooksAtDecision(refs, holds, item, next, context);
    FrozenLooksAtDecision(refs, reach, item, next, context);
    var frozen, live := Freeze(refs, ps, holds), Live(refs, reach);
    var qs := ReviewPatterns(item.subject);
    forall k | 0 <= k < |qs|
      ensures Finds(frozen, live, qs, qs[k]) && Finds(live, frozen, qs, qs[k])
    {
      assert qs[k] in ps;
      LiteralFound(refs, ps, qs, qs[k], holds, reach);
    }
    if ReviewOf(frozen, c, item.subject, None).Some? {
      ReviewCarries(frozen, live, c, item.subject, None);
    } else if holds == reach && ReviewOf(live, c, item.subject, None).Some? {
      ReviewCarries(live, frozen, c, item.subject, None);
    }
  }

  lemma StrayIsListed(refs: Refs, holds: set<Sha>, p: Pattern) returns (ref: string)
    requires !NoStray(refs, [p])
    ensures ref in Query(Live(refs, holds), [p]) && Strays(ref, p)
  {
    var stray, q :| stray in refs && q in [p] && Strays(stray, q);
    OnlyPattern(stray, p);
    ref := stray;
  }

  /** A live reader that lists a stray ref decides nothing, whatever commits it reaches. */
  lemma MaskedIsUnknown(
    refs: Refs, reach: set<Sha>, c: Content, item: Item, next: Option<Successor>, context: Option<Context>)
    requires Masked(refs, item)
    ensures Judge(Live(refs, reach), c, item, next, context) == Unknown
  {
    var live := Live(refs, reach);
    if item.ReviewIngress? {
      var ref := StrayIsListed(refs, reach, Exact(Name("review-decision", item.subject)));
      assert Query(live, [Exact(Name("review-decision", item.subject))]) != map[];
      assert ReviewOf(live, c, item.subject, None) == None;
    } else if Matching(live, c, item.id).Some? {
      var stem := Name("remediation", item.id.run + "-");
      var ref := StrayIsListed(refs, reach, Prefix(stem));
      var review := Matching(live, c, item.id).value;
      if review.actions.Some? {
        StrayCorrectsNothing(live, c, ref, refs[ref], item.id, review.actions.value);
        assert ref in Query(live, [Prefix(stem)]) && Query(live, [Prefix(stem)])[ref] == refs[ref];
      }
    }
  }

  /** A remediation is bound to its whole ref name. */
  lemma StrayCorrectsNothing(
    r: Reader, c: Content, ref: string, sha: Sha, id: Identity, actions: map<string, string>)
    requires !Whole(ref, Prefix(Name("remediation", id.run + "-")))
    ensures Corrects(r, c, ref, sha, id, actions) == None
  {
    var stem := Name("remediation", id.run + "-");
    forall finding: string
      ensures ref != Name("remediation", id.run + "-" + finding)
    {
      var whole := Name("remediation", id.run + "-" + finding);
      assert whole == stem + finding;
      assert StartsWith(whole, stem);
    }
  }

  // ----- When the frozen reader decides nothing either -----

  /** The refs name this review and no failure of its RUN, its documents are at hand, and it asks for corrections. */
  predicate ReviewStands(refs: Refs, holds: set<Sha>, c: Content, id: Identity) {
    && Lookup(refs, Name("artifacts", id.run)) == Some(id.artifact) && id.artifact in holds
    && Lookup(refs, Name("review", id.run)) == Some(id.reviewed)
    && Lookup(refs, Name("review-decision", id.run)) == Some(id.decision) && id.decision in holds
    && Name("failure-artifacts", id.run) !in refs && Name("failure", id.run) !in refs
    && id in c.reviews && c.reviews[id].verdict in {"CHANGES_REQUIRED", "BLOCKED"} && c.reviews[id].actions.Some?
  }

  /** Some remediation of the RUN, under its whole name, does not correct a finding of this review. */
  predicate SomeUnbound(refs: Refs, holds: set<Sha>, c: Content, id: Identity, actions: map<string, string>) {
    exists ref :: ref in refs && StartsWith(ref, Name("remediation", id.run + "-")) &&
                  Corrects(Live(refs, holds), c, ref, refs[ref], id, actions).None?
  }

  /** The frozen reader cannot decide: what a caller sees in the refs, the documents and the issue. */
  ghost predicate Undecidable(refs: Refs, holds: set<Sha>, c: Content, item: Item) {
    match item
    case Reviewed(id) => ReviewStands(refs, holds, c, id) ==> SomeUnbound(refs, holds, c, id, c.reviews[id].actions.value)
    case ReviewIngress(issue, _, _) => !issue.intact
    case _ => false
  }

  lemma LiteralRead(refs: Refs, ps: seq<Pattern>, qs: seq<Pattern>, name: string, holds: set<Sha>)
    requires Exact(name) in qs && Exact(name) in ps
    ensures Lookup(Query(Freeze(refs, ps, holds), qs), name) == Lookup(refs, name)
  {
    var i :| 0 <= i < |qs| && qs[i] == Exact(name);
    var j :| 0 <= j < |ps| && ps[j] == Exact(name);
    assert Whole(name, qs[i]) && Tail(name, ps[j]);
    assert Matches(name, qs, true) && Matches(name, ps, false);
  }

  lemma FrozenReviewExact(refs: Refs, ps: seq<Pattern>, holds: set<Sha>, c: Content, id: Identity)
    requires forall q :: q in ReviewPatterns(id.run) ==> q in ps
    ensures Matching(Freeze(refs, ps, holds), c, id).Some? && JudgeableReview(Matching(Freeze(refs, ps, holds), c, id).value)
            <==> ReviewStands(refs, holds, c, id)
    ensures ReviewStands(refs, holds, c, id) ==> Matching(Freeze(refs, ps, holds), c, id) == Some(c.reviews[id])
  {
    var qs := ReviewPatterns(id.run);
    assert qs[0] in qs && qs[1] in qs && qs[2] in qs && qs[3] in qs && qs[4] in qs;
    LiteralRead(refs, ps, qs, Name("artifacts", id.run), holds);
    LiteralRead(refs, ps, qs, Name("failure-artifacts", id.run), holds);
    LiteralRead(refs, ps, qs, Name("review", id.run), holds);
    LiteralRead(refs, ps, qs, Name("failure", id.run), holds);
    LiteralRead(refs, ps, qs, Name("review-decision", id.run), holds);
  }

  predicate JudgeableReview(review: ReviewFacts) {
    review.verdict in {"CHANGES_REQUIRED", "BLOCKED"} && review.actions.Some?
  }

  lemma FrozenLists(refs: Refs, ps: seq<Pattern>, holds: set<Sha>, stem: string)
    requires Prefix(stem) in ps
    ensures forall ref :: ref in Query(Freeze(refs, ps, holds), [Prefix(stem)]) <==> ref in refs && StartsWith(ref, stem)
  {
    forall ref
      ensures ref in Query(Freeze(refs, ps, holds), [Prefix(stem)]) <==> ref in refs && StartsWith(ref, stem)
    {
      OnlyPattern(ref, Prefix(stem));
      if ref in refs && StartsWith(ref, stem) {
        var j :| 0 <= j < |ps| && ps[j] == Prefix(stem);
        assert Tail(ref, ps[j]);
        assert Matches(ref, ps, false);
      }
    }
  }

  lemma FrozenReviewedUndecided(refs: Refs, ps: seq<Pattern>, holds: set<Sha>, c: Content, id: Identity)
    requires ps == Patterns(Reviewed(id), None, None) && ReviewStands(refs, holds, c, id)
    ensures JudgeReview(Freeze(refs, ps, holds), c, id, c.reviews[id]) == Unknown <==>
            SomeUnbound(refs, holds, c, id, c.reviews[id].actions.value)
  {
    var stem, frozen := Name("remediation", id.run + "-"), Freeze(refs, ps, holds);
    var listed, actions := Query(frozen, [Prefix(stem)]), c.reviews[id].actions.value;
    assert ps[5] == Prefix(stem);
    FrozenLists(refs, ps, holds, stem);
    forall ref | ref in listed
      ensures listed[ref] == refs[ref]
      ensures Corrects(frozen, c, ref, listed[ref], id, actions) == Corrects(Live(refs, holds), c, ref, refs[ref], id, actions)
    {
    }
  }

  /** When a stray ref is there to be listed, the frozen reader is undecided exactly on these facts. */
  lemma FrozenUndecided(
    refs: Refs, holds: set<Sha>, c: Content, item: Item, next: Option<Successor>, context: Option<Context>)
    requires Masked(refs, item)
    ensures Judge(Freeze(refs, Patterns(item, next, context), holds), c, item, next, context) == Unknown <==>
            Undecidable(refs, holds, c, item)
  {
    var ps := Patterns(item, next, context);
    if item.ReviewIngress? {
      FrozenLooksAtDecision(refs, holds, item, next, context);
    } else {
      forall q | q in ReviewPatterns(item.id.run)
        ensures q in ps
      {
        var i :| 0 <= i < |ReviewPatterns(item.id.run)| && ReviewPatterns(item.id.run)[i] == q;
        assert ps[i] == q;
      }
      FrozenReviewExact(refs, ps, holds, c, item.id);
      if ReviewStands(refs, holds, c, item.id) {
        FrozenReviewedUndecided(refs, ps, holds, c, item.id);
      }
    }
  }

  /**
   Over the same commits the frozen reader judges as the live one if and only if no stray
   ref is there to be listed, or the frozen reader cannot decide either.
   */
  lemma FrozenJudgesAsLive(
    refs: Refs, holds: set<Sha>, c: Content, item: Item, next: Option<Successor>, context: Option<Context>)
    ensures Judge(Freeze(refs, Patterns(item, next, context), holds), c, item, next, context) ==
            Judge(Live(refs, holds), c, item, next, context)
            <==> !Masked(refs, item) || Undecidable(refs, holds, c, item)
  {
    if Masked(refs, item) {
      MaskedIsUnknown(refs, holds, c, item, next, context);
      FrozenUndecided(refs, holds, c, item, next, context);
    } else if NoStray(refs, Sensitive(item)) {
      NoStrayJudgesAsLive(refs, holds, c, item, next, context);
    } else {
      DecisionOutweighs(refs, holds, holds, c, item, next, context);
    }
  }

  lemma NoStrayJudgesAsLive(
    refs: Refs, holds: set<Sha>, c: Content, item: Item, next: Option<Successor>, context: Option<Context>)
    requires NoStray(refs, Sensitive(item))
    ensures Judge(Freeze(refs, Patterns(item, next, context), holds), c, item, next, context) ==
            Judge(Live(refs, holds), c, item, next, context)
  {
    var frozen, live := Freeze(refs, Patterns(item, next, context), holds), Live(refs, holds);
    FrozenAnswersAll(refs, holds, holds, item, next, context);
    if Judge(frozen, c, item, next, context) != Unknown {
      VerdictCarries(frozen, live, c, item, next, context);
    } else if Judge(live, c, item, next, context) != Unknown {
      VerdictCarries(live, frozen, c, item, next, context);
    }
  }

  /** A frozen reader's decision is the live one's at the same refs exactly when no stray ref is there to be listed. */
  lemma DecisionIsLive(
    refs: Refs, holds: set<Sha>, reach: set<Sha>,
    c: Content, item: Item, next: Option<Successor>, context: Option<Context>)
    requires holds <= reach
    requires Judge(Freeze(refs, Patterns(item, next, context), holds), c, item, next, context) != Unknown
    ensures Judge(Live(refs, reach), c, item, next, context) ==
            Judge(Freeze(refs, Patterns(item, next, context), holds), c, item, next, context)
            <==> !Masked(refs, item)
  {
    var ps := Patterns(item, next, context);
    if Masked(refs, item) {
      MaskedIsUnknown(refs, reach, c, item, next, context);
    } else if NoStray(refs, Sensitive(item)) {
      FrozenAnswersAll(refs, holds, reach, item, next, context);
      VerdictCarries(Freeze(refs, ps, holds), Live(refs, reach), c, item, next, context);
    } else {
      DecisionOutweighs(refs, holds, reach, c, item, next, context);
    }
  }

  lemma ReadAlikeHas(first: Refs, second: Refs, holds: set<Sha>, ps: seq<Pattern>, ref: string, p: Pattern)
    requires Query(Live(second, holds), ps) == Query(Live(first, holds), ps)
    requires p in ps && Tail(ref, p)
    ensures ref in first <==> ref in second
  {
    var i :| 0 <= i < |ps| && ps[i] == p;
    assert Matches(ref, ps, false);
    assert ref in first <==> ref in Query(Live(first, holds), ps);
    assert ref in second <==> ref in Query(Live(second, holds), ps);
  }

  /** What was read twice alike is masked alike. */
  lemma SameReadSameMask(
    first: Refs, second: Refs, holds: set<Sha>, item: Item, next: Option<Successor>, context: Option<Context>)
    requires Query(Live(second, holds), Patterns(item, next, context)) == Query(Live(first, holds), Patterns(item, next, context))
    requires Masked(first, item)
    ensures Masked(second, item)
  {
    var ps := Patterns(item, next, context);
    PatternsCoverQueries(item, next, context);
    var ref, p :| ref in first && p in Sensitive(item) && Strays(ref, p);
    ReadAlikeHas(first, second, holds, ps, ref, p);
    assert !NoStray(second, Sensitive(item));
    if item.ReviewIngress? {
      var name := Name("review-decision", item.subject);
      assert Exact(name) in Sensitive(item) && Whole(name, Exact(name));
      ReadAlikeHas(first, second, holds, ps, name, Exact(name));
    }
  }

  /**
   A decided verdict on the snapshot path means the patterns read the same before and
   after.  It is the verdict a live reader would have given at either moment, even one
   that reaches more commits, exactly if no stray ref was there to be listed.
   */
  lemma DecidedIsLive(
    first: Refs, second: Refs, holds: set<Sha>, reach: set<Sha>,
    c: Content, item: Item, next: Option<Successor>, context: Option<Context>)
    requires Patterns(item, next, context) != [] && holds <= reach
    requires Freshen(first, second, holds, c, item, next, context) != Unknown
    ensures Query(Live(second, reach), Patterns(item, next, context)) ==
            Query(Live(first, reach), Patterns(item, next, context))
    ensures Judge(Live(first, reach), c, item, next, context) == Freshen(first, second, holds, c, item, next, context)
            <==> !Masked(first, item)
    ensures Judge(Live(second, reach), c, item, next, context) == Freshen(first, second, holds, c, item, next, context)
            <==> !Masked(first, item)
  {
    var ps := Patterns(item, next, context);
    assert Query(Live(second, reach), ps) == Query(Live(second, holds), ps);
    assert Query(Live(first, reach), ps) == Query(Live(first, holds), ps);
    assert Freeze(first, ps, holds) == Freeze(second, ps, holds);
    DecisionIsLive(first, holds, reach, c, item, next, context);
    DecisionIsLive(second, holds, reach, c, item, next, context);
    if Masked(first, item) {
      SameReadSameMask(first, second, holds, item, next, context);
    } else if Masked(second, item) {
      SameReadSameMask(second, first, holds, item, next, context);
    }
  }

  /** A verdict without patterns consults no ref at all. */
  lemma NoPatternsNoRefs(
    first: Refs, second: Refs, holds: set<Sha>,
    c: Content, item: Item, next: Option<Successor>, context: Option<Context>)
    requires Patterns(item, next, context) == []
    ensures Judge(Live(first, holds), c, item, next, context) == Judge(Live(second, holds), c, item, next, context)
    ensures Freshen(first, second, holds, c, item, next, context) != Resolved
  {
  }

  lemma StrayQueries(name: string, refs: Refs, ps: seq<Pattern>, holds: set<Sha>)
    requires refs == map["refs/heads/" + name := 7]
    ensures Query(Live(refs, holds), [Exact(name)]) != map[]
    ensures Query(Freeze(refs, ps, holds), [Exact(name)]) == map[]
  {
    var ref := "refs/heads/" + name;
    assert ref[10] == '/' && ref[11..] == name;
    assert Tail(ref, Exact(name)) && !Whole(ref, Exact(name));
    OnlyPattern(ref, Exact(name));
    assert ref in Query(Live(refs, holds), [Exact(name)]);
  }

  /** Without an artifact ref there is no review. */
  lemma NoArtifactNoReview(r: Reader, c: Content, run: string, decision: Option<Sha>)
    requires Name("artifacts", run) !in r.refs
    ensures ReviewOf(r, c, run, decision) == None
  {
  }

  /** With a stray ref the two readers can differ: the live one takes it for a decision, the frozen one does not see it. */
  lemma StrayRefDivides(c: Content, subject: string, refs: Refs)
    requires refs == map["refs/heads/" + Name("review-decision", subject) := 7]
    ensures var item := ReviewIngress(Issue(true, ""), subject, Some(1));
            && Judge(Live(refs, {7}), c, item, None, None) == Unknown
            && Judge(Freeze(refs, Patterns(item, None, None), {7}), c, item, None, None) == Unresolved
            && Freshen(refs, refs, {7}, c, item, None, None) == Unresolved
  {
    var item := ReviewIngress(Issue(true, ""), subject, Some(1));
    StrayQueries(Name("review-decision", subject), refs, Patterns(item, None, None), {7});
    assert Name("artifacts", subject)[11] == 'a' && ("refs/heads/" + Name("review-decision", subject))[11] == 'r';
    NoArtifactNoReview(Live(refs, {7}), c, subject, None);
  }

  /** The ref names of a RUN, and the names that stray into its remediations. */
  lemma NamesDiffer(run: string, stray: string)
    requires stray == "refs/heads/" + Name("remediation", run + "-")
    ensures !StartsWith(Name("artifacts", run), Name("remediation", run + "-"))
    ensures !StartsWith(Name("review", run), Name("remediation", run + "-"))
    ensures !StartsWith(Name("review-decision", run), Name("remediation", run + "-"))
    ensures Strays(stray, Prefix(Name("remediation", run + "-")))
    ensures Name("artifacts", run) !in {Name("review", run), Name("review-decision", run)}
    ensures Name("review", run) != Name("review-decision", run)
    ensures Name("failure", run) !in {Name("artifacts", run), Name("review", run), Name("review-decision", run), stray}
    ensures Name("failure-artifacts", run) !in {Name("artifacts", run), Name("review", run), Name("review-decision", run), stray}
    ensures stray !in {Name("artifacts", run), Name("review", run), Name("review-decision", run)}
  {
    var artifacts, review, decision := Name("artifacts", run), Name("review", run), Name("review-decision", run);
    var remediation, failure, failures := Name("remediation", run + "-"), Name("failure", run), Name("failure-artifacts", run);
    assert artifacts[16] == 'a' && review[16] == decision[16] == 'r' && failure[16] == failures[16] == 'f';
    assert remediation[18] == 'm' && review[18] == decision[18] == 'v' && artifacts[18] == 't';
    assert review[22] == '/' && decision[22] == '-';
    assert stray[11] == 'r' && artifacts[11] == review[11] == decision[11] == failure[11] == failures[11] == remediation[11] == 'a';
    assert stray[10] == '/' && stray[11..] == remediation;
  }

  function OneStray(id: Identity): Refs {
    map[Name("artifacts", id.run) := id.artifact, Name("review", id.run) := id.reviewed,
        Name("review-decision", id.run) := id.decision,
        "refs/heads/" + Name("remediation", id.run + "-") := 7]
  }

  lemma FourRefs(a: string, b: string, c: string, d: string, x: Sha, y: Sha, z: Sha)
    requires a !in {b, c, d} && b !in {c, d} && c != d
    ensures var refs := map[a := x, b := y, c := z, d := 7];
            && d in refs && Lookup(refs, a) == Some(x) && Lookup(refs, b) == Some(y) && Lookup(refs, c) == Some(z)
            && (forall ref :: ref in refs ==> ref in {a, b, c, d})
  {
  }

  lemma OneStrayNames(id: Identity, stray: string)
    requires stray == "refs/heads/" + Name("remediation", id.run + "-")
    ensures var refs := OneStray(id);
            && stray in refs && Lookup(refs, Name("artifacts", id.run)) == Some(id.artifact)
            && Lookup(refs, Name("review", id.run)) == Some(id.reviewed)
            && Lookup(refs, Name("review-decision", id.run)) == Some(id.decision)
            && Name("failure", id.run) !in refs && Name("failure-artifacts", id.run) !in refs
            && (forall ref :: ref in refs ==> !StartsWith(ref, Name("remediation", id.run + "-")))
  {
    NamesDiffer(id.run, stray);
    FourRefs(Name("artifacts", id.run), Name("review", id.run), Name("review-decision", id.run), stray,
             id.artifact, id.reviewed, id.decision);
  }

  lemma OneStrayMasks(id: Identity)
    ensures Masked(OneStray(id), Reviewed(id))
  {
    var stray := "refs/heads/" + Name("remediation", id.run + "-");
    NamesDiffer(id.run, stray);
    OneStrayNames(id, stray);
    assert Prefix(Name("remediation", id.run + "-")) in Sensitive(Reviewed(id));
  }

  lemma OneStrayDecides(c: Content, id: Identity, holds: set<Sha>)
    requires id in c.reviews && c.reviews[id] == ReviewFacts("BLOCKED", Some(map[]))
    requires id.artifact in holds && id.decision in holds
    ensures !Undecidable(OneStray(id), holds, c, Reviewed(id))
  {
    OneStrayNames(id, "refs/heads/" + Name("remediation", id.run + "-"));
  }

  /** A stray remediation keeps a live reader from deciding a review that the frozen reader decides. */
  lemma StrayRemediationDivides(c: Content, id: Identity, holds: set<Sha>)
    requires id in c.reviews && c.reviews[id] == ReviewFacts("BLOCKED", Some(map[]))
    requires id.artifact in holds && id.decision in holds
    ensures var refs := OneStray(id);
            && Judge(Live(refs, holds), c, Reviewed(id), None, None) == Unknown
            && Judge(Freeze(refs, Patterns(Reviewed(id), None, None), holds), c, Reviewed(id), None, None) == Unresolved
            && Freshen(refs, refs, holds, c, Reviewed(id), None, None) == Unresolved
  {
    OneStrayMasks(id);
    OneStrayDecides(c, id, holds);
    MaskedIsUnknown(OneStray(id), holds, c, Reviewed(id), None, None);
    FrozenUndecided(OneStray(id), holds, c, Reviewed(id), None, None);
    NothingToCorrect(Freeze(OneStray(id), Patterns(Reviewed(id), None, None), holds), c, id);
  }

  /** A review without findings is never resolved by corrections. */
  lemma NothingToCorrect(r: Reader, c: Content, id: Identity)
    requires id in c.reviews && c.reviews[id] == ReviewFacts("BLOCKED", Some(map[]))
    ensures Judge(r, c, Reviewed(id), None, None) != Resolved
  {
    if Matching(r, c, id).Some? {
      assert Matching(r, c, id).value == c.reviews[id];
      assert JudgeReview(r, c, id, c.reviews[id]) != Resolved;
    }
  }
}
