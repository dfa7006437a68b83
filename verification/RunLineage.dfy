/**
 Lineage of a RUN within one snapshot of the refs: a remediation descends from the RUN
 it corrects and from the RUN its execution base came from, a repair from the failed
 RUN.  The prover walks that graph depth first with a memo, a bound of 32 RUNs and a
 cycle check, and accepts only if TASK and return affinity agree all the way down.
 */
module RunLineage {
  import opened Prelude
  import opened Text
  import Git
  import Attention

  const BOUND: nat := 32

  datatype Family = Success | Failed
  datatype Namespace = Artifacts | FailureArtifacts | ReviewHead | FailureHead | ReviewDecision
  type Sha = Git.Sha
  type Affinity = Git.Affinity

  datatype TaskDoc = TaskDoc(identity: Git.TaskReference, affinity: Affinity)
  datatype RunRecord = RunRecord(
    id: string, task: Git.TaskReference, base: Sha, head: Option<Sha>, status: string, affinity: Affinity)
  datatype Predecessor = Predecessor(run: string, review: string, finding: string, reviewed: Sha)
  datatype ExecutionBase = ExecutionBase(run: string, candidate: Option<Sha>)
  datatype RunDoc =
    | PlainRun(run: RunRecord)
    | Remediation(run: RunRecord, review: string, finding: string, correction: Git.Correction,
                  predecessor: Option<Predecessor>, base: Option<ExecutionBase>)
    | UnknownKind

  /** `bound` is the head that the failure document binds, if its facts are consistent. */
  datatype TerminalDoc =
    | ResultDoc(head: Sha)
    | FailureDoc(run: string, task: Git.TaskReference, head: Sha, declaresCandidate: bool, historical: bool,
                 bound: Option<Sha>, mayLackCandidate: bool)
  datatype Nested = Nested(run: string, head: Sha, task: Git.TaskReference)
  datatype RepairDoc = RepairDoc(run: RunRecord, failedRun: string, failedHead: Sha, affinity: Affinity, nested: seq<Nested>)
  datatype ReviewDoc = ReviewDoc(reviewed: Sha, id: string, verdict: string, findings: set<(string, string)>)

  /** Everything that can be read; what is absent fails to be read. */
  datatype Sources = Sources(
    refs: map<(Namespace, string), Sha>,
    runs: map<Sha, RunDoc>,
    terminals: map<Sha, TerminalDoc>,
    repairs: map<Sha, RepairDoc>,
    tasks: map<(Sha, string), TaskDoc>,
    reviews: map<string, ReviewDoc>,
    included: set<(Sha, Sha)>)

  datatype Edge = Edge(target: string, candidate: Option<Sha>, family: Family)

  /** What the documents of one RUN establish before its lineage is followed. */
  datatype Facts = Facts(
    artifact: Sha, head: Sha, family: Family, task: Git.TaskReference, affinity: Affinity,
    corrected: Option<Edge>, base: Option<Edge>, repaired: Option<Edge>)

  function Edges(f: Facts): set<Edge> {
    (if f.corrected.Some? then {f.corrected.value} else {}) +
    (if f.base.Some? then {f.base.value} else {}) +
    (if f.repaired.Some? then {f.repaired.value} else {})
  }

  // ----- The documents of one RUN -----

  function FailureHeadOf(s: Sources, run: string, doc: TerminalDoc): Option<Sha> {
    if !doc.FailureDoc? then None
    else
      var candidate := Lookup(s.refs, (FailureHead, run));
      var reviewed := (ReviewHead, run) in s.refs || (ReviewDecision, run) in s.refs;
      if (candidate.None? || doc.declaresCandidate) && reviewed then None
      else
        var head :=
          if candidate.Some? && doc.historical then Some(doc.head)
          else if candidate.None? && !doc.mayLackCandidate then None
          else doc.bound;
        if candidate.Some? && candidate != head then None else head
  }

  function HeadOf(s: Sources, run: string, artifact: Sha, family: Family): Option<Sha> {
    if artifact !in s.terminals then None
    else if family == Failed then FailureHeadOf(s, run, s.terminals[artifact])
    else Lookup(s.refs, (ReviewHead, run))
  }

  predicate TerminalAgrees(doc: TerminalDoc, run: string, task: Git.TaskReference, head: Sha, family: Family) {
    if family == Success then doc.ResultDoc? && doc.head == head
    else doc.FailureDoc? && doc.run == run && doc.task == task && doc.head == head
  }

  predicate TaskAt(s: Sources, sha: Sha, task: Git.TaskReference, affinity: Affinity) {
    (sha, task.id) in s.tasks && s.tasks[(sha, task.id)] == TaskDoc(task, affinity)
  }

  predicate RecordAgrees(s: Sources, r: RunRecord, run: string, head: Sha) {
    && Attention.Named(r.task.id, "TASK-")
    && r.id == run && r.status == "ACTIVE" && (r.head == None || r.head == Some(head))
    && TaskAt(s, r.base, r.task, r.affinity)
    && TaskAt(s, head, r.task, r.affinity)
    && (r.base, head) in s.included
  }

  function CorrectedRun(review: string): string
    requires StartsWith(review, "REVIEW-")
  {
    "RUN-" + review[7..]
  }

  predicate RemediationAgrees(s: Sources, d: RunDoc)
    requires d.Remediation?
  {
    && StartsWith(d.review, "REVIEW-")
    && var source := CorrectedRun(d.review);
    && (d.predecessor.Some? ==>
          d.predecessor.value == Predecessor(source, d.review, d.correction.finding, d.correction.reviewed))
    && d.finding == d.correction.finding
    && source in s.reviews
    && var review := s.reviews[source];
    && review.reviewed == d.correction.reviewed && review.id == d.review
    && review.verdict == "CHANGES_REQUIRED" && (d.correction.finding, d.correction.action) in review.findings
    && (d.base.None? ==> d.run.base == d.correction.reviewed)
  }

  predicate RepairAgrees(p: RepairDoc, r: RunRecord) {
    && p.run == r && p.failedHead == r.base && p.affinity == r.affinity
    && forall i :: 0 <= i < |p.nested| ==> p.nested[i] == Nested(p.failedRun, p.failedHead, r.task)
  }

  function FactsAt(s: Sources, run: string, artifact: Sha, family: Family): Option<Facts> {
    var head := HeadOf(s, run, artifact, family);
    if head.None? || artifact !in s.runs || s.runs[artifact].UnknownKind? then None
    else
      var d, repair := s.runs[artifact], Lookup(s.repairs, artifact);
      var r := d.run;
      if !RecordAgrees(s, r, run, head.value) then None
      else if !TerminalAgrees(s.terminals[artifact], run, r.task, head.value, family) then None
      else if d.Remediation? && !RemediationAgrees(s, d) then None
      else if repair.Some? && (d.Remediation? || !RepairAgrees(repair.value, r)) then None
      else
        Some(Facts(
          artifact, head.value, family, r.task, r.affinity,
          if d.Remediation? then Some(Edge(CorrectedRun(d.review), Some(d.correction.reviewed), Success)) else None,
          if d.Remediation? && d.base.Some?
          then Some(Edge(d.base.value.run, d.base.value.candidate, Success)) else None,
          if repair.Some? then Some(Edge(repair.value.failedRun, Some(repair.value.failedHead), Failed)) else None))
  }

  /** Exactly one of a success and a failure artifact, and documents that agree with it. */
  function FactsOf(s: Sources, run: string): Option<Facts> {
    var success, failure := Lookup(s.refs, (Artifacts, run)), Lookup(s.refs, (FailureArtifacts, run));
    if !Attention.Named(run, "RUN-") || success.Some? == failure.Some? then None
    else if success.Some? then FactsAt(s, run, success.value, Success)
    else FactsAt(s, run, failure.value, Failed)
  }

  // ----- What a caller asks of a RUN -----

  datatype Request = Request(artifact: Option<Sha>, candidate: Option<Sha>, family: Option<Family>, task: Option<Git.TaskReference>)

  predicate Allows<T(==)>(asked: Option<T>, actual: T) {
    asked.None? || asked.value == actual
  }

  predicate Meets(f: Facts, q: Request) {
    && Allows(q.artifact, f.artifact) && Allows(q.candidate, f.head)
    && Allows(q.family, f.family) && Allows(q.task, f.task)
  }

  function AskedBy(f: Facts, e: Edge): Request {
    Request(None, e.candidate, Some(e.family), Some(f.task))
  }

  predicate EdgeHolds(f: Facts, e: Edge, g: Facts) {
    Meets(g, AskedBy(f, e)) && g.affinity == f.affinity
  }

  // ----- The specification: a small closed set of RUNs whose edges all hold and lead downwards -----

  datatype Certificate = Certificate(runs: set<string>, rank: map<string, nat>)

  ghost predicate Certifies(s: Sources, c: Certificate) {
    && |c.runs| <= BOUND
    && forall r :: r in c.runs ==> Certified(s, c, r)
  }

  ghost predicate Certified(s: Sources, c: Certificate, r: string) {
    && r in c.rank && FactsOf(s, r).Some?
    && forall e :: e in Edges(FactsOf(s, r).value) ==> EdgeCertified(s, c, r, FactsOf(s, r).value, e)
  }

  ghost predicate EdgeCertified(s: Sources, c: Certificate, r: string, f: Facts, e: Edge) {
    && e.target in c.runs && e.target in c.rank && r in c.rank && c.rank[e.target] < c.rank[r]
    && FactsOf(s, e.target).Some? && EdgeHolds(f, e, FactsOf(s, e.target).value)
  }

  ghost predicate Provable(s: Sources, run: string, q: Request) {
    exists c :: Proves(s, c, run, q)
  }

  ghost predicate Proves(s: Sources, c: Certificate, run: string, q: Request) {
    Certifies(s, c) && run in c.runs && FactsOf(s, run).Some? && Meets(FactsOf(s, run).value, q)
  }

  // ----- What the prover knows -----

  type Memo = map<string, Facts>

  /** At most 32 RUNs are known or being visited, and the known ones were settled from the leaves upwards. */
  ghost predicate KnowsSoundly(s: Sources, visited: set<string>, proven: Memo, rank: map<string, nat>) {
    && visited !! proven.Keys
    && |visited| + |proven| <= BOUND
    && proven.Keys <= rank.Keys
    && forall r :: r in proven ==> Settled(s, proven, rank, r)
  }

  ghost predicate Settled(s: Sources, proven: Memo, rank: map<string, nat>, r: string)
    requires r in proven
  {
    && FactsOf(s, r) == Some(proven[r])
    && r in rank && rank[r] < |proven|
    && forall e :: e in Edges(proven[r]) ==> Below(proven, rank, r, e)
  }

  ghost predicate Below(proven: Memo, rank: map<string, nat>, r: string, e: Edge)
    requires r in proven
  {
    && Followed(proven, proven[r], e)
    && r in rank && e.target in rank && rank[e.target] < rank[r]
  }

  ghost predicate Followed(proven: Memo, f: Facts, e: Edge) {
    e.target in proven && EdgeHolds(f, e, proven[e.target])
  }

  /** What was known stays known, with the same facts. */
  ghost predicate Extends(before: Memo, after: Memo) {
    forall r :: r in before ==> r in after && after[r] == before[r]
  }

  lemma Settle(s: Sources, visited: set<string>, proven: Memo, rank: map<string, nat>, run: string, f: Facts)
    requires KnowsSoundly(s, visited, proven, rank) && run in visited && FactsOf(s, run) == Some(f)
    requires forall e :: e in Edges(f) ==> Followed(proven, f, e)
    ensures KnowsSoundly(s, visited - {run}, proven[run := f], rank[run := |proven|])
  {
    var more, ranks := proven[run := f], rank[run := |proven|];
    assert more.Keys == proven.Keys + {run};
    forall r | r in more
      ensures Settled(s, more, ranks, r)
    {
      if r != run {
        assert Settled(s, proven, rank, r);
        forall e | e in Edges(more[r])
          ensures Below(more, ranks, r, e)
        {
          assert Below(proven, rank, r, e);
        }
      } else {
        forall e | e in Edges(f)
          ensures Below(more, ranks, run, e)
        {
          assert Followed(proven, f, e);
          assert Settled(s, proven, rank, e.target);
        }
      }
    }
  }

  /** A certificate that covers all that is known, and ranks the RUNs being visited above this one. */
  ghost predicate Guides(s: Sources, c: Certificate, visited: set<string>, proven: Memo, run: string, q: Request) {
    && Proves(s, c, run, q)
    && visited <= c.runs && proven.Keys <= c.runs
    && run in c.rank && forall v :: v in visited ==> v in c.rank && c.rank[run] < c.rank[v]
  }

  lemma Room(s: Sources, c: Certificate, visited: set<string>, proven: Memo, rank: map<string, nat>, run: string, q: Request)
    requires KnowsSoundly(s, visited, proven, rank) && Guides(s, c, visited, proven, run, q) && run !in proven
    ensures run !in visited && |visited| + |proven| < BOUND
  {
    Smaller(visited + proven.Keys + {run}, c.runs);
    assert |visited + proven.Keys| == |visited| + |proven.Keys|;
  }

  lemma {:induction false} Smaller(a: set<string>, b: set<string>)
    requires a <= b
    ensures |a| <= |b|
  {
    if a != {} {
      var x :| x in a;
      Smaller(a - {x}, b - {x});
    }
  }

  lemma GuideDown(s: Sources, c: Certificate, visited: set<string>, proven: Memo, run: string, q: Request, f: Facts, e: Edge)
    requires Proves(s, c, run, q) && FactsOf(s, run) == Some(f) && e in Edges(f)
    requires visited <= c.runs && proven.Keys <= c.runs
    requires run in visited && forall v :: v in visited ==> v in c.rank && c.rank[run] <= c.rank[v]
    ensures Guides(s, c, visited, proven, e.target, AskedBy(f, e))
  {
    assert Certified(s, c, run);
    assert EdgeCertified(s, c, run, f, e);
  }

  lemma AllFollowed(first: Memo, second: Memo, third: Memo, f: Facts)
    requires Extends(first, second) && Extends(second, third)
    requires f.corrected.Some? ==> Followed(first, f, f.corrected.value)
    requires f.base.Some? ==> Followed(second, f, f.base.value)
    requires f.repaired.Some? ==> Followed(third, f, f.repaired.value)
    ensures forall e :: e in Edges(f) ==> Followed(third, f, e)
  {
  }

  // ----- The prover -----

  class Prover {
    const sources: Sources
    var visited: set<string>
    var proven: Memo
    ghost var rank: map<string, nat>

    ghost predicate Valid()
      reads this
    {
      KnowsSoundly(sources, visited, proven, rank)
    }

    constructor (s: Sources)
      ensures sources == s && visited == {} && proven == map[] && Valid()
    {
      sources, visited, proven, rank := s, {}, map[], map[];
    }

    method RunAffinity(run: string, q: Request, ghost c: Option<Certificate>) returns (r: Result<Affinity>)
      requires Valid()
      requires c.Some? ==> Guides(sources, c.value, visited, proven, run, q)
      modifies this
      ensures r.Accepted? ==> Valid() && visited == old(visited) && Extends(old(proven), proven) && |old(proven)| <= |proven|
      ensures r.Accepted? ==> run in proven && Meets(proven[run], q) && r.value == proven[run].affinity
      ensures c.Some? ==> r.Accepted? && proven.Keys <= c.value.runs
      decreases BOUND - |visited| - |proven|, 0
    {
      if run in proven {
        assert c.Some? ==> Meets(proven[run], q) by { assert Settled(sources, proven, rank, run); }
        return if Meets(proven[run], q) then Accepted(proven[run].affinity) else Rejected;
      }
      if c.Some? { Room(sources, c.value, visited, proven, rank, run, q); }
      if run in visited || |visited| + |proven| >= BOUND {
        return Rejected;
      }
      visited := visited + {run};
      var facts := FactsOf(sources, run);
      if facts.None? || !Meets(facts.value, q) {
        return Rejected;
      }
      var f := facts.value;
      var ok := FollowAll(run, q, f, c);
      if !ok {
        return Rejected;
      }
      Settle(sources, visited, proven, rank, run, f);
      visited := visited - {run};
      rank := rank[run := |proven|];
      proven := proven[run := f];
      r := Accepted(f.affinity);
    }

    /** The corrected RUN, the execution base, the failed RUN, as far as the documents name them. */
    method FollowAll(run: string, q: Request, f: Facts, ghost c: Option<Certificate>) returns (ok: bool)
      requires Valid() && run in visited && FactsOf(sources, run) == Some(f)
      requires c.Some? ==> OnPath(c.value, run, q)
      modifies this
      ensures ok ==> Valid() && visited == old(visited) && Extends(old(proven), proven) && |old(proven)| <= |proven|
      ensures ok ==> forall e :: e in Edges(f) ==> Followed(proven, f, e)
      ensures c.Some? ==> ok && proven.Keys <= c.value.runs
      decreases BOUND - |visited| - |proven|, 3
    {
      ok := FollowIf(run, q, f, f.corrected, c);
      if !ok { return; }
      ghost var first := proven;
      ok := FollowIf(run, q, f, f.base, c);
      if !ok { return; }
      ghost var second := proven;
      ok := FollowIf(run, q, f, f.repaired, c);
      if !ok { return; }
      AllFollowed(first, second, proven, f);
    }

    ghost predicate OnPath(c: Certificate, run: string, q: Request)
      reads this
    {
      && Proves(sources, c, run, q)
      && visited <= c.runs && proven.Keys <= c.runs
      && run in visited && forall v :: v in visited ==> v in c.rank && run in c.rank && c.rank[run] <= c.rank[v]
    }

    method FollowIf(run: string, q: Request, f: Facts, e: Option<Edge>, ghost c: Option<Certificate>) returns (ok: bool)
      requires Valid() && run in visited && FactsOf(sources, run) == Some(f)
      requires e.Some? ==> e.value in Edges(f)
      requires c.Some? ==> OnPath(c.value, run, q)
      modifies this
      ensures ok ==> Valid() && visited == old(visited) && Extends(old(proven), proven) && |old(proven)| <= |proven|
      ensures ok && e.Some? ==> Followed(proven, f, e.value)
      ensures c.Some? ==> ok && OnPath(c.value, run, q)
      decreases BOUND - |visited| - |proven|, 2
    {
      ok := true;
      if e.Some? {
        ok := Follow(run, q, f, e.value, c);
      }
    }

    method Follow(run: string, q: Request, f: Facts, e: Edge, ghost c: Option<Certificate>) returns (ok: bool)
      requires Valid() && run in visited && FactsOf(sources, run) == Some(f) && e in Edges(f)
      requires c.Some? ==> OnPath(c.value, run, q)
      modifies this
      ensures ok ==> Valid() && visited == old(visited) && Extends(old(proven), proven) && |old(proven)| <= |proven| && Followed(proven, f, e)
      ensures c.Some? ==> ok && OnPath(c.value, run, q)
      decreases BOUND - |visited| - |proven|, 1
    {
      if c.Some? { GuideDown(sources, c.value, visited, proven, run, q, f, e); }
      var affinity := RunAffinity(e.target, AskedBy(f, e), c);
      ok := affinity == Accepted(f.affinity);
    }
  }

  /** What the prover knows is itself a certificate. */
  lemma KnownIsCertified(s: Sources, visited: set<string>, proven: Memo, rank: map<string, nat>)
    requires KnowsSoundly(s, visited, proven, rank)
    ensures Certifies(s, Certificate(proven.Keys, rank))
  {
    var c := Certificate(proven.Keys, rank);
    forall r | r in c.runs
      ensures Certified(s, c, r)
    {
      assert Settled(s, proven, rank, r);
      forall e | e in Edges(proven[r])
        ensures EdgeCertified(s, c, r, proven[r], e)
      {
        assert Below(proven, rank, r, e);
        assert Settled(s, proven, rank, e.target);
      }
    }
  }

  /** A fresh proof succeeds exactly when a certificate exists, and returns the affinity of the RUN itself. */
  method Resolve(s: Sources, run: string, q: Request) returns (r: Result<Affinity>)
    ensures r.Accepted? <==> Provable(s, run, q)
    ensures r.Accepted? ==> FactsOf(s, run).Some? && r.value == FactsOf(s, run).value.affinity
  {
    var prover := new Prover(s);
    ghost var c: Option<Certificate> := None;
    if Provable(s, run, q) {
      ghost var known :| Proves(s, known, run, q);
      assert Certified(s, known, run);
      c := Some(known);
    }
    r := prover.RunAffinity(run, q, c);
    if r.Accepted? {
      KnownIsCertified(s, prover.visited, prover.proven, prover.rank);
      assert Settled(s, prover.proven, prover.rank, run);
      assert Proves(s, Certificate(prover.proven.Keys, prover.rank), run, q);
    }
  }

  /** A memo hit answers what a fresh proof would answer to the same request. */
  lemma MemoHitIsFresh(s: Sources, visited: set<string>, proven: Memo, rank: map<string, nat>, run: string, q: Request)
    requires KnowsSoundly(s, visited, proven, rank) && run in proven
    ensures Meets(proven[run], q) <==> Provable(s, run, q)
    ensures FactsOf(s, run) == Some(proven[run])
  {
    KnownIsCertified(s, visited, proven, rank);
    assert Settled(s, proven, rank, run);
    if Meets(proven[run], q) {
      assert Proves(s, Certificate(proven.Keys, rank), run, q);
    }
  }

  // ----- What acceptance says about the whole lineage -----

  ghost predicate StepsTo(s: Sources, a: string, b: string) {
    FactsOf(s, a).Some? && exists e :: e in Edges(FactsOf(s, a).value) && e.target == b
  }

  ghost predicate Path(s: Sources, p: seq<string>) {
    p != [] && forall i :: 0 <= i < |p| - 1 ==> StepsTo(s, p[i], p[i + 1])
  }

  lemma {:induction false} PathStaysCertified(s: Sources, c: Certificate, p: seq<string>, k: nat)
    requires Certifies(s, c) && Path(s, p) && p[0] in c.runs && k < |p|
    ensures p[k] in c.runs && p[k] in c.rank && p[0] in c.rank && c.rank[p[k]] + k <= c.rank[p[0]]
    ensures FactsOf(s, p[0]).Some? && FactsOf(s, p[k]).Some?
    ensures FactsOf(s, p[k]).value.task == FactsOf(s, p[0]).value.task
    ensures FactsOf(s, p[k]).value.affinity == FactsOf(s, p[0]).value.affinity
  {
    assert Certified(s, c, p[0]);
    if k > 0 {
      PathStaysCertified(s, c, p, k - 1);
      assert StepsTo(s, p[k - 1], p[k - 1 + 1]);
      var f := FactsOf(s, p[k - 1]).value;
      var e :| e in Edges(f) && e.target == p[k];
      assert Certified(s, c, p[k - 1]);
      assert EdgeCertified(s, c, p[k - 1], f, e);
    }
  }

  lemma PathHasNoCycle(s: Sources, c: Certificate, p: seq<string>, i: nat, j: nat)
    requires Certifies(s, c) && Path(s, p) && p[0] in c.runs && i < j < |p|
    ensures p[i] != p[j]
  {
    PathStaysCertified(s, c, p, i);
    assert Path(s, p[i..]) by {
      forall k | 0 <= k < |p[i..]| - 1
        ensures StepsTo(s, p[i..][k], p[i..][k + 1])
      {
        assert StepsTo(s, p[i + k], p[i + k + 1]);
      }
    }
    PathStaysCertified(s, c, p[i..], j - i);
  }

  lemma {:induction false} DistinctCount(p: seq<string>)
    requires forall i, j :: 0 <= i < j < |p| ==> p[i] != p[j]
    ensures |set x | x in p| == |p|
  {
    if p != [] {
      DistinctCount(p[1..]);
      assert (set x | x in p) == (set x | x in p[1..]) + {p[0]};
    }
  }

  /** Every descent from an accepted RUN shares its TASK and affinity, never repeats, and has at most 32 RUNs. */
  lemma LineageAgrees(s: Sources, run: string, q: Request, p: seq<string>)
    requires Provable(s, run, q) && Path(s, p) && p[0] == run
    ensures FactsOf(s, run).Some? && |p| <= BOUND
    ensures forall i, j :: 0 <= i < j < |p| ==> p[i] != p[j]
    ensures forall k :: 0 <= k < |p| ==>
              && FactsOf(s, p[k]).Some?
              && FactsOf(s, p[k]).value.task == FactsOf(s, run).value.task
              && FactsOf(s, p[k]).value.affinity == FactsOf(s, run).value.affinity
  {
    var c :| Proves(s, c, run, q);
    forall k | 0 <= k < |p|
      ensures p[k] in c.runs && FactsOf(s, p[k]).Some?
      ensures FactsOf(s, p[k]).value.task == FactsOf(s, run).value.task
      ensures FactsOf(s, p[k]).value.affinity == FactsOf(s, run).value.affinity
    {
      PathStaysCertified(s, c, p, k);
    }
    forall i, j | 0 <= i < j < |p|
      ensures p[i] != p[j]
    {
      PathHasNoCycle(s, c, p, i, j);
    }
    DistinctCount(p);
    Smaller((set x | x in p), c.runs);
  }

  /** The whole closure, not only one descent, has at most 32 RUNs. */
  lemma ClosureIsBounded(s: Sources, run: string, q: Request, reached: set<string>)
    requires Provable(s, run, q)
    requires forall r :: r in reached ==> Reaches(s, run, r)
    ensures |reached| <= BOUND
  {
    var c :| Proves(s, c, run, q);
    forall r | r in reached
      ensures r in c.runs
    {
      assert Reaches(s, run, r);
      var p :| Path(s, p) && p[0] == run && p[|p| - 1] == r;
      PathStaysCertified(s, c, p, |p| - 1);
    }
    Smaller(reached, c.runs);
  }

  ghost predicate Reaches(s: Sources, run: string, r: string) {
    exists p :: Path(s, p) && p[0] == run && p[|p| - 1] == r
  }
}
