/**
 What the documents of a RUN have to say for its lineage to be accepted, stated on the refs
 and documents themselves, and acceptance as a whole in those terms: an independent
 account with which the prover's specification is proved to agree.
 */
module LineageDocuments {
  import opened Prelude
  import opened Text
  import opened RunLineage
  import Git
  import Attention

  /** What the documents of a RUN establish. */
  datatype Terminal = Terminal(artifact: Sha, head: Sha, family: Family, task: Git.TaskReference, affinity: Affinity)

  /** A success: its refs, and a RESULT for the reviewed head. */
  ghost predicate Succeeded(s: Sources, run: string, t: Terminal) {
    && t.family == Success
    && Lookup(s.refs, (Artifacts, run)) == Some(t.artifact) && (FailureArtifacts, run) !in s.refs
    && Lookup(s.refs, (ReviewHead, run)) == Some(t.head)
    && Lookup(s.terminals, t.artifact) == Some(ResultDoc(t.head))
  }

  /**
   A failure: its refs, and a FAILURE for this RUN, TASK and head.  With a candidate ref the
   head is that candidate; without one the document has to bind the head and to permit the
   absence.  A review of the RUN excludes both the absence and a declared candidate.
   */
  ghost predicate FailedAt(s: Sources, run: string, t: Terminal) {
    && t.family == Failed
    && Lookup(s.refs, (FailureArtifacts, run)) == Some(t.artifact) && (Artifacts, run) !in s.refs
    && t.artifact in s.terminals && s.terminals[t.artifact].FailureDoc?
    && var doc := s.terminals[t.artifact];
    && doc.run == run && doc.task == t.task && doc.head == t.head
    && (if (FailureHead, run) in s.refs
        then s.refs[(FailureHead, run)] == t.head && (doc.historical || doc.bound == Some(t.head))
        else doc.mayLackCandidate && doc.bound == Some(t.head))
    && ((FailureHead, run) !in s.refs || doc.declaresCandidate ==>
          (ReviewHead, run) !in s.refs && (ReviewDecision, run) !in s.refs)
  }

  /** The RUN record: its own id, active, its head, and a TASK that is the same at base and head. */
  ghost predicate Recorded(s: Sources, run: string, t: Terminal) {
    && t.artifact in s.runs && !s.runs[t.artifact].UnknownKind?
    && var r := s.runs[t.artifact].run;
    && r.id == run && r.status == "ACTIVE" && (r.head == None || r.head == Some(t.head))
    && r.task == t.task && r.affinity == t.affinity && Attention.Named(t.task.id, "TASK-")
    && Lookup(s.tasks, (r.base, t.task.id)) == Some(TaskDoc(t.task, t.affinity))
    && Lookup(s.tasks, (t.head, t.task.id)) == Some(TaskDoc(t.task, t.affinity))
    && (r.base, t.head) in s.included
  }

  /** A remediation answers a finding, with its action, of the review of the RUN that its review id names. */
  ghost predicate Remedies(s: Sources, d: RunDoc, source: string)
    requires d.Remediation?
  {
    && |source| >= 4 && source[..4] == "RUN-" && d.review == "REVIEW-" + source[4..]
    && d.finding == d.correction.finding
    && (d.predecessor == None ||
        d.predecessor == Some(Predecessor(source, d.review, d.correction.finding, d.correction.reviewed)))
    && source in s.reviews
    && s.reviews[source].reviewed == d.correction.reviewed && s.reviews[source].id == d.review
    && s.reviews[source].verdict == "CHANGES_REQUIRED"
    && (d.correction.finding, d.correction.action) in s.reviews[source].findings
    && (d.base == None ==> d.run.base == d.correction.reviewed)
  }

  /** A repair record agrees with its RUN, starts from the failed head, and nests nothing else. */
  ghost predicate Repairs(p: RepairDoc, r: RunRecord, t: Terminal) {
    && p.run == r && p.failedHead == r.base && p.affinity == t.affinity
    && forall x :: x in p.nested ==> x.run == p.failedRun && x.head == p.failedHead && x.task == t.task
  }

  /** All the documents of this RUN agree on `t`. */
  ghost predicate Establishes(s: Sources, run: string, t: Terminal) {
    && Attention.Named(run, "RUN-")
    && (Succeeded(s, run, t) || FailedAt(s, run, t)) && Recorded(s, run, t)
    && (s.runs[t.artifact].Remediation? ==>
          && (exists source :: Remedies(s, s.runs[t.artifact], source))
          && t.artifact !in s.repairs)
    && (t.artifact in s.repairs ==> Repairs(s.repairs[t.artifact], s.runs[t.artifact].run, t))
  }

  /** The documents of this artifact name another RUN: the corrected one, the execution base, or the failed one. */
  ghost predicate Names(s: Sources, artifact: Sha, other: string, candidate: Option<Sha>, family: Family) {
    || (artifact in s.runs && s.runs[artifact].Remediation? && |s.runs[artifact].review| >= 7
        && other == "RUN-" + s.runs[artifact].review[7..]
        && candidate == Some(s.runs[artifact].correction.reviewed) && family == Success)
    || (artifact in s.runs && s.runs[artifact].Remediation? && s.runs[artifact].base.Some?
        && other == s.runs[artifact].base.value.run
        && candidate == s.runs[artifact].base.value.candidate && family == Success)
    || (artifact in s.repairs && other == s.repairs[artifact].failedRun
        && candidate == Some(s.repairs[artifact].failedHead) && family == Failed)
  }

  function TerminalOf(f: Facts): Terminal {
    Terminal(f.artifact, f.head, f.family, f.task, f.affinity)
  }

  lemma SourceOf(d: RunDoc, source: string)
    requires d.Remediation? && |source| >= 4 && source[..4] == "RUN-" && d.review == "REVIEW-" + source[4..]
    ensures StartsWith(d.review, "REVIEW-") && CorrectedRun(d.review) == source
  {
    assert d.review[7..] == source[4..] && d.review[..7] == "REVIEW-";
    assert source == source[..4] + source[4..];
  }

  lemma ReviewOfSource(d: RunDoc)
    requires d.Remediation? && StartsWith(d.review, "REVIEW-")
    ensures var source := CorrectedRun(d.review);
            |source| >= 4 && source[..4] == "RUN-" && d.review == "REVIEW-" + source[4..]
  {
    var source := CorrectedRun(d.review);
    assert source[4..] == d.review[7..] && source[..4] == "RUN-";
  }

  lemma RemediesExactly(s: Sources, d: RunDoc)
    requires d.Remediation?
    ensures RemediationAgrees(s, d) <==> exists source :: Remedies(s, d, source)
    ensures forall source :: Remedies(s, d, source) ==> |d.review| >= 7 && source == "RUN-" + d.review[7..]
  {
    if RemediationAgrees(s, d) {
      ReviewOfSource(d);
      assert Remedies(s, d, CorrectedRun(d.review));
    }
    forall source | Remedies(s, d, source)
      ensures RemediationAgrees(s, d) && |d.review| >= 7 && source == "RUN-" + d.review[7..]
    {
      SourceOf(d, source);
    }
  }

  lemma HeadExactly(s: Sources, run: string, t: Terminal)
    ensures Succeeded(s, run, t) <==>
              && t.family == Success && Lookup(s.refs, (Artifacts, run)) == Some(t.artifact) && (FailureArtifacts, run) !in s.refs
              && HeadOf(s, run, t.artifact, Success) == Some(t.head)
              && TerminalAgrees(s.terminals[t.artifact], run, t.task, t.head, Success)
    ensures FailedAt(s, run, t) <==>
              && t.family == Failed && Lookup(s.refs, (FailureArtifacts, run)) == Some(t.artifact) && (Artifacts, run) !in s.refs
              && HeadOf(s, run, t.artifact, Failed) == Some(t.head)
              && TerminalAgrees(s.terminals[t.artifact], run, t.task, t.head, Failed)
  {
  }

  /** The facts the prover works with are those the documents establish, and they name what the documents name. */
  lemma FactsExactly(s: Sources, run: string, t: Terminal)
    ensures Establishes(s, run, t) <==> FactsOf(s, run).Some? && TerminalOf(FactsOf(s, run).value) == t
    ensures Establishes(s, run, t) ==> forall e ::
              e in Edges(FactsOf(s, run).value) <==> Names(s, t.artifact, e.target, e.candidate, e.family)
  {
    HeadExactly(s, run, t);
    if FactsOf(s, run).Some? {
      HeadExactly(s, run, TerminalOf(FactsOf(s, run).value));
    }
    if t.artifact in s.runs && s.runs[t.artifact].Remediation? {
      RemediesExactly(s, s.runs[t.artifact]);
    }
  }

  // ----- Acceptance -----

  /** A RUN that is named is there, ranked below, terminal as named, and for the same TASK with the same affinity. */
  ghost predicate Carries(
    known: map<string, Terminal>, rank: map<string, nat>, r: string, other: string, candidate: Option<Sha>, family: Family)
    requires r in known
  {
    && other in known && other in rank && r in rank && rank[other] < rank[r]
    && known[other].family == family && (candidate == None || candidate == Some(known[other].head))
    && known[other].task == known[r].task && known[other].affinity == known[r].affinity
  }

  ghost predicate FollowsAll(s: Sources, known: map<string, Terminal>, rank: map<string, nat>, r: string)
    requires r in known
  {
    forall other, candidate, family :: Names(s, known[r].artifact, other, candidate, family) ==>
      Carries(known, rank, r, other, candidate, family)
  }

  ghost predicate AsAsked(t: Terminal, q: Request) {
    && (q.artifact == None || q.artifact == Some(t.artifact)) && (q.candidate == None || q.candidate == Some(t.head))
    && (q.family == None || q.family == Some(t.family)) && (q.task == None || q.task == Some(t.task))
  }

  /** At most 32 RUNs whose documents agree, closed under the RUNs they name, with the asked one among them. */
  ghost predicate Lineage(s: Sources, known: map<string, Terminal>, rank: map<string, nat>, run: string, q: Request) {
    && |known| <= 32 && run in known && AsAsked(known[run], q)
    && forall r :: r in known ==> r in rank && Establishes(s, r, known[r]) && FollowsAll(s, known, rank, r)
  }

  lemma EdgeExactly(s: Sources, c: Certificate, known: map<string, Terminal>, r: string, e: Edge)
    requires r in known && c.runs == known.Keys && FactsOf(s, r).Some?
    requires forall x :: x in known ==> FactsOf(s, x).Some? && TerminalOf(FactsOf(s, x).value) == known[x]
    ensures EdgeCertified(s, c, r, FactsOf(s, r).value, e) <==>
            Carries(known, c.rank, r, e.target, e.candidate, e.family)
  {
  }

  lemma CertifiedExactly(s: Sources, c: Certificate, known: map<string, Terminal>, r: string)
    requires r in known && c.runs == known.Keys && r in c.rank
    requires forall x :: x in known ==> Establishes(s, x, known[x])
    ensures Certified(s, c, r) <==> FollowsAll(s, known, c.rank, r)
  {
    forall x | x in known
      ensures FactsOf(s, x).Some? && TerminalOf(FactsOf(s, x).value) == known[x]
    {
      FactsExactly(s, x, known[x]);
    }
    FactsExactly(s, r, known[r]);
    var f := FactsOf(s, r).value;
    forall e | e in Edges(f)
      ensures EdgeCertified(s, c, r, f, e) <==> Carries(known, c.rank, r, e.target, e.candidate, e.family)
    {
      EdgeExactly(s, c, known, r, e);
    }
    forall other, candidate, family | Names(s, known[r].artifact, other, candidate, family)
      ensures Edge(other, candidate, family) in Edges(f)
    {
      assert Edge(other, candidate, family).target == other;
    }
  }

  /** The facts of a certificate, as what the documents establish. */
  function KnownBy(s: Sources, c: Certificate): map<string, Terminal>
    requires forall r :: r in c.runs ==> FactsOf(s, r).Some?
  {
    map r | r in c.runs :: TerminalOf(FactsOf(s, r).value)
  }

  /**
   A RUN is accepted if and only if it belongs to at most 32 RUNs whose documents agree, with
   every RUN that those documents name among them and nothing that leads back.
   */
  lemma AcceptedExactly(s: Sources, run: string, q: Request)
    ensures Provable(s, run, q) <==> exists known, rank :: Lineage(s, known, rank, run, q)
  {
    if Provable(s, run, q) {
      var c :| Proves(s, c, run, q);
      forall r | r in c.runs
        ensures FactsOf(s, r).Some?
      {
        assert Certified(s, c, r);
      }
      CertificateIsLineage(s, c, run, q);
    }
    if known, rank :| Lineage(s, known, rank, run, q) {
      LineageIsCertificate(s, known, rank, run, q);
    }
  }

  lemma CertificateIsLineage(s: Sources, c: Certificate, run: string, q: Request)
    requires Proves(s, c, run, q) && forall r :: r in c.runs ==> FactsOf(s, r).Some?
    ensures Lineage(s, KnownBy(s, c), c.rank, run, q)
  {
    var known := KnownBy(s, c);
    assert known.Keys == c.runs;
    forall r | r in known
      ensures Establishes(s, r, known[r])
    {
      FactsExactly(s, r, known[r]);
    }
    forall r | r in known
      ensures r in c.rank && FollowsAll(s, known, c.rank, r)
    {
      assert Certified(s, c, r);
      CertifiedExactly(s, c, known, r);
    }
  }

  lemma LineageIsCertificate(s: Sources, known: map<string, Terminal>, rank: map<string, nat>, run: string, q: Request)
    requires Lineage(s, known, rank, run, q)
    ensures Proves(s, Certificate(known.Keys, rank), run, q)
  {
    var c := Certificate(known.Keys, rank);
    forall r | r in known
      ensures Certified(s, c, r)
    {
      CertifiedExactly(s, c, known, r);
    }
    FactsExactly(s, run, known[run]);
  }

  /**
   Whatever the documents of an accepted RUN name was accepted too: the corrected RUN as a
   success at the reviewed commit, the execution base as a success, the failed RUN as a
   failure at the failed head, each for the same TASK and with the same affinity.
   */
  lemma NamedIsAccepted(
    s: Sources, run: string, q: Request, t: Terminal, other: string, candidate: Option<Sha>, family: Family)
    requires Provable(s, run, q) && Establishes(s, run, t) && Names(s, t.artifact, other, candidate, family)
    ensures Provable(s, other, Request(None, candidate, Some(family), Some(t.task)))
    ensures exists u :: Establishes(s, other, u) && u.family == family && u.task == t.task && u.affinity == t.affinity &&
              (candidate == None || candidate == Some(u.head))
  {
    AcceptedExactly(s, run, q);
    var known, rank :| Lineage(s, known, rank, run, q);
    FactsExactly(s, run, t);
    FactsExactly(s, run, known[run]);
    assert FollowsAll(s, known, rank, run) && Carries(known, rank, run, other, candidate, family);
    assert Lineage(s, known, rank, other, Request(None, candidate, Some(family), Some(t.task)));
    AcceptedExactly(s, other, Request(None, candidate, Some(family), Some(t.task)));
    assert Establishes(s, other, known[other]);
  }
}
