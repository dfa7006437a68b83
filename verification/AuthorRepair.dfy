/**
 AUTHOR_REPAIR: the REPAIR authorizations of a failed RUN form one supersession chain
 of write-once refs, however many requests race to extend it.
 */
module AuthorRepair {
  import opened Prelude
  import opened Git
  import opened Metadata
  import opened Publication

  const REPAIR_PATH: Path := ".ai/transport/repair.json"
  const SUPERSESSION_PATH: Path := ".ai/transport/repair-supersession.json"

  datatype Authorization = Authorization(revision: nat, sha: Sha, repair: Repair, predecessor: Option<Sha>)

  // ----- Reading the current authorization -----

  function Revisions(remote: map<Ref, Sha>, run: string): set<nat> {
    set r | r in remote && r.RepairRef? && r.run == run :: r.revision
  }

  function UpTo(n: nat): (r: set<nat>)
    ensures forall k: nat :: k in r <==> 1 <= k <= n
  {
    if n == 0 then {} else UpTo(n - 1) + {n}
  }

  /** The observed revisions must be exactly 1..n. */
  function ChainLength(remote: map<Ref, Sha>, run: string): Result<nat> {
    var revisions := Revisions(remote, run);
    if revisions == UpTo(|revisions|) then Accepted(|revisions|) else Rejected
  }

  lemma {:induction false} UpToSize(n: nat)
    ensures |UpTo(n)| == n
  {
    if n > 0 {
      UpToSize(n - 1);
    }
  }

  ghost predicate HasLength(remote: map<Ref, Sha>, run: string, n: nat) {
    forall k: nat :: RepairRef(run, k) in remote <==> 1 <= k <= n
  }

  lemma ChainLengthExact(remote: map<Ref, Sha>, run: string, n: nat)
    ensures ChainLength(remote, run) == Accepted(n) <==> HasLength(remote, run, n)
  {
    var revisions := Revisions(remote, run);
    assert forall k: nat :: k in revisions <==> RepairRef(run, k) in remote;
    UpToSize(n);
    if HasLength(remote, run, n) {
      assert revisions == UpTo(n);
    }
  }

  predicate ForThisFailure(repair: Repair, run: string, f: Failure) {
    repair.failedRun == run && repair.failedHead == f.head && repair.task == f.task
  }

  /** The commit carries an authorization for this failure as one regular file. */
  predicate Authorizes(store: Store, run: string, f: Failure, sha: Sha) {
    && sha < |store|
    && REPAIR_PATH in store[sha].tree && store[sha].tree[REPAIR_PATH].mode == Regular
    && store[sha].tree[REPAIR_PATH].document.RepairFile?
    && ForThisFailure(store[sha].tree[REPAIR_PATH].document.repair, run, f)
  }

  predicate Supersedes(store: Store, run: string, f: Failure, revision: nat, sha: Sha, predecessor: Sha)
    requires sha < |store|
  {
    && revision >= 2
    && store[sha].parents == [predecessor] && predecessor < |store|
    && SUPERSESSION_PATH in store[sha].tree
    && store[sha].tree[SUPERSESSION_PATH] ==
       Entry(Regular, SupersessionFile(Supersession(run, revision, predecessor, f.artifacts)))
    && SUPERSESSION_PATH in ChangedPaths(store[predecessor].tree, store[sha].tree)
    && ChangedPaths(store[predecessor].tree, store[sha].tree) <= {REPAIR_PATH, SUPERSESSION_PATH}
  }

  /** One link: the root adds its metadata to the failed head, a successor to its predecessor. */
  predicate LinkOk(store: Store, run: string, f: Failure, revision: nat, sha: Sha, predecessor: Option<Sha>) {
    && Authorizes(store, run, f, sha)
    && match predecessor
       case None => revision == 1 && ValidMetadataCommit(store, sha, f.head, REPAIR_PATH, store[sha].tree[REPAIR_PATH].document)
       case Some(older) => Supersedes(store, run, f, revision, sha, older)
  }

  function PredecessorRef(remote: map<Ref, Sha>, run: string, k: nat): Option<Sha>
    requires 1 <= k
  {
    if k == 1 then None else Lookup(remote, RepairRef(run, k - 1))
  }

  predicate LinkAt(s: World, run: string, k: nat)
    requires run in s.failures && 1 <= k && RepairRef(run, k) in s.remote
  {
    && LinkOk(s.store, run, s.failures[run], k, s.remote[RepairRef(run, k)], PredecessorRef(s.remote, run, k))
    && (k > 1 ==> PredecessorRef(s.remote, run, k).Some?)
  }

  function RepairIn(store: Store, sha: Sha): Repair
    requires sha < |store| && REPAIR_PATH in store[sha].tree && store[sha].tree[REPAIR_PATH].document.RepairFile?
  {
    store[sha].tree[REPAIR_PATH].document.repair
  }

  /** The unique current authorization; any gap, fork or foreign link is refused. */
  function ReadAuthorization(s: World, run: string): Result<Option<Authorization>>
    requires run in s.failures
  {
    match ChainLength(s.remote, run)
    case Rejected => Rejected
    case Accepted(n) =>
      ChainLengthExact(s.remote, run, n);
      if n == 0 then Accepted(None)
      else if forall k | 1 <= k <= n :: LinkAt(s, run, k) then
        assert LinkAt(s, run, n);
        var sha := s.remote[RepairRef(run, n)];
        Accepted(Some(Authorization(n, sha, RepairIn(s.store, sha), PredecessorRef(s.remote, run, n))))
      else Rejected
  }

  // ----- One request -----

  datatype Decision = Reject | Idempotent(revision: nat, sha: Sha) | Write(revision: nat, commit: Commit)

  function Superseding(store: Store, run: string, f: Failure, current: Authorization, repair: Repair): Decision
    requires current.sha < |store|
  {
    var supersession := Supersession(run, current.revision + 1, current.sha, f.artifacts);
    match TreeWithMetadata(store[current.sha].tree, REPAIR_PATH, RepairFile(repair), true)
    case Rejected => Reject
    case Accepted(staged) =>
      match TreeWithMetadata(staged, SUPERSESSION_PATH, SupersessionFile(supersession), true)
      case Rejected => Reject
      case Accepted(tree) => Write(current.revision + 1, Commit([current.sha], tree))
  }

  function Root(store: Store, f: Failure, repair: Repair): Decision {
    if f.head >= |store| then Reject else
    match TreeWithMetadata(store[f.head].tree, REPAIR_PATH, RepairFile(repair), false)
    case Rejected => Reject
    case Accepted(tree) => Write(1, Commit([f.head], tree))
  }

  /** What one envelope does against one observation, once every step that can only abort has passed. */
  function Decide(s: World, e: RepairEnvelope): Decision {
    if e.run !in s.failures || e.repair.None? then Reject else
    var f, repair := s.failures[e.run], e.repair.value;
    if e.expectedHead != Some(f.head) || (e.expectedFailure.Some? && e.expectedFailure != Some(f.artifacts)) then Reject else
    match ReadAuthorization(s, e.run)
    case Rejected => Reject
    case Accepted(None) => AnswerWithoutRoot(s.store, e, f, repair)
    case Accepted(Some(now)) =>
      CurrentIsStored(s, e.run);
      Answer(s.store, e, f, repair, now)
  }

  function AnswerWithoutRoot(store: Store, e: RepairEnvelope, f: Failure, repair: Repair): Decision {
    if !ForThisFailure(repair, e.run, f) || e.expectedCurrent.Some? then Reject else Root(store, f, repair)
  }

  function Answer(store: Store, e: RepairEnvelope, f: Failure, repair: Repair, now: Authorization): Decision
    requires now.sha < |store|
  {
    if !ForThisFailure(repair, e.run, f) then Reject else
    var identical := now.repair == repair;
    var replayable := if identical then {Some(now.sha), now.predecessor} else {Some(now.sha)};
    if (now.revision > 1 || !identical || e.expectedCurrent.Some?) && e.expectedCurrent !in replayable then Reject
    else if (now.revision > 1 || !identical) && e.expectedFailure != Some(f.artifacts) then Reject
    else if identical then Idempotent(now.revision, now.sha)
    else Superseding(store, e.run, f, now, repair)
  }

  lemma CurrentIsStored(s: World, run: string)
    requires run in s.failures
    ensures var r := ReadAuthorization(s, run);
            r.Accepted? && r.value.Some? ==>
              var now := r.value.value;
              && 1 <= now.revision && HasLength(s.remote, run, now.revision)
              && RepairRef(run, now.revision) in s.remote && s.remote[RepairRef(run, now.revision)] == now.sha
              && now.sha < |s.store| && LinkAt(s, run, now.revision)
              && BlobAt(s.store[now.sha].tree, REPAIR_PATH) == Some(RepairFile(now.repair))
              && now.predecessor == PredecessorRef(s.remote, run, now.revision)
  {
    var r := ReadAuthorization(s, run);
    if r.Accepted? && r.value.Some? {
      var n := ChainLength(s.remote, run).value;
      ChainLengthExact(s.remote, run, n);
      assert LinkAt(s, run, n);
    }
  }

  /** A request is judged on stored objects, remote refs and the recorded failure, and on nothing else. */
  lemma SameObservation(s: World, t: World, e: RepairEnvelope, run: string)
    requires s.store == t.store && s.remote == t.remote && s.failures == t.failures
    ensures Decide(s, e) == Decide(t, e)
    ensures run in s.failures ==> ReadAuthorization(s, run) == ReadAuthorization(t, run)
  {
    SameReading(s, t, run);
    SameReading(s, t, e.run);
  }

  lemma SameReading(s: World, t: World, run: string)
    requires s.store == t.store && s.remote == t.remote && s.failures == t.failures
    ensures run in s.failures ==> ReadAuthorization(s, run) == ReadAuthorization(t, run)
  {
    forall k: nat | run in s.failures && 1 <= k && RepairRef(run, k) in s.remote
      ensures LinkAt(s, run, k) == LinkAt(t, run, k)
    {
    }
    if run in s.failures && ChainLength(s.remote, run).Accepted? {
      ChainLengthExact(s.remote, run, ChainLength(s.remote, run).value);
    }
  }

  // ----- The machine restricted to AUTHOR_REPAIR on repair refs -----

  /** The commit a Begin carries is the one this request decided on, from what it then observed. */
  ghost predicate Admits(s: World, a: Action) {
    match a
    case Begin(_, w) =>
      w.place.ref.RepairRef? ==>
        && w.request.AuthorRepair? && w.request.repair.run == w.place.ref.run
        && w.commit < |s.store|
        && Decide(s, w.request.repair) == Write(w.place.ref.revision, s.store[w.commit])
    case _ => true
  }

  ghost predicate Linked(s: World, run: string, k: nat) {
    RepairRef(run, k) in s.remote ==> run in s.failures && 1 <= k && LinkAt(s, run, k)
  }

  ghost predicate ChainsOk(s: World) {
    forall run: string, k: nat :: Linked(s, run, k)
  }

  /** A pending commit links to a predecessor that is canonical, and so fixed. */
  ghost predicate Pending(s: World, w: Writer) {
    w.place.ref.RepairRef? ==>
      var run, k := w.place.ref.run, w.place.ref.revision;
      && w.request.AuthorRepair? && w.request.repair.repair.Some? && run in s.failures && 1 <= k
      && w.commit < |s.store| && |s.store[w.commit].parents| == 1
      && LinkOk(s.store, run, s.failures[run], k, w.commit, BuiltOn(s.store, w.commit, k))
      && RepairIn(s.store, w.commit) == w.request.repair.repair.value
      && (k > 1 ==> (RepairRef(run, k - 1), s.store[w.commit].parents[0]) in s.canonical)
  }

  ghost predicate PendingOk(s: World) {
    forall id :: id in s.writers ==> Pending(s, s.writers[id])
  }

  lemma LinkStable(store: Store, grown: Store, run: string, f: Failure, k: nat, sha: Sha, predecessor: Option<Sha>)
    requires LinkOk(store, run, f, k, sha, predecessor) && store <= grown
    ensures LinkOk(grown, run, f, k, sha, predecessor)
    ensures RepairIn(grown, sha) == RepairIn(store, sha)
  {
  }

  lemma RootLinks(store: Store, run: string, f: Failure, repair: Repair, sha: Sha)
    requires Sound(store) && ForThisFailure(repair, run, f) && sha < |store|
    requires Root(store, f, repair) == Write(1, store[sha])
    ensures LinkOk(store, run, f, 1, sha, None) && RepairIn(store, sha) == repair
  {
    BuilderAndValidatorAgree(store, sha, f.head, REPAIR_PATH, RepairFile(repair));
  }

  lemma SupersedingLinks(store: Store, run: string, f: Failure, current: Authorization, repair: Repair, sha: Sha)
    requires Sound(store) && ForThisFailure(repair, run, f) && sha < |store| && current.sha < |store|
    requires 1 <= current.revision
    requires Superseding(store, run, f, current, repair) == Write(current.revision + 1, store[sha])
    ensures LinkOk(store, run, f, current.revision + 1, sha, Some(current.sha)) && RepairIn(store, sha) == repair
  {
    var before, after := store[current.sha].tree, store[sha].tree;
    var entry := Entry(Regular, SupersessionFile(Supersession(run, current.revision + 1, current.sha, f.artifacts)));
    assert after == before[REPAIR_PATH := Entry(Regular, RepairFile(repair))][SUPERSESSION_PATH := entry];
    assert REPAIR_PATH != SUPERSESSION_PATH by {
      assert REPAIR_PATH[20] != SUPERSESSION_PATH[20];
    }
    assert NamesOnlyOlder(before, current.sha);
    assert SUPERSESSION_PATH in ChangedPaths(before, after);
  }

  // ----- What every step keeps -----

  /** The parent a pending commit of revision k was built on; none for the root. */
  function BuiltOn(store: Store, sha: Sha, k: nat): Option<Sha>
    requires sha < |store|
  {
    if k == 1 || store[sha].parents == [] then None else Some(store[sha].parents[0])
  }

  /** The commit decided on at this state links to the authorization current at this state. */
  lemma DecidedLinks(s: World, e: RepairEnvelope, sha: Sha, k: nat)
    requires Invariant(s) && sha < |s.store|
    requires Decide(s, e) == Write(k, s.store[sha])
    ensures e.repair.Some? && e.run in s.failures && 1 <= k && RepairRef(e.run, k) !in s.remote
    ensures |s.store[sha].parents| == 1
    ensures LinkOk(s.store, e.run, s.failures[e.run], k, sha, BuiltOn(s.store, sha, k))
    ensures RepairIn(s.store, sha) == e.repair.value
    ensures k > 1 ==> (RepairRef(e.run, k - 1), s.store[sha].parents[0]) in s.canonical
    ensures HasLength(s.remote, e.run, k - 1)
  {
    var f, repair := s.failures[e.run], e.repair.value;
    match ReadAuthorization(s, e.run).value {
      case None =>
        DecidedRoot(s, e, f, repair, sha, k);
      case Some(now) =>
        CurrentIsStored(s, e.run);
        DecidedSuccessor(s, e, f, repair, now, sha, k);
    }
  }

  lemma DecidedRoot(s: World, e: RepairEnvelope, f: Failure, repair: Repair, sha: Sha, k: nat)
    requires Sound(s.store) && sha < |s.store| && e.run in s.failures
    requires ReadAuthorization(s, e.run) == Accepted(None)
    requires AnswerWithoutRoot(s.store, e, f, repair) == Write(k, s.store[sha])
    ensures k == 1 && HasLength(s.remote, e.run, 0)
    ensures |s.store[sha].parents| == 1
    ensures LinkOk(s.store, e.run, f, 1, sha, None) && RepairIn(s.store, sha) == repair
  {
    ChainLengthExact(s.remote, e.run, 0);
    RootLinks(s.store, e.run, f, repair, sha);
  }

  lemma DecidedSuccessor(s: World, e: RepairEnvelope, f: Failure, repair: Repair, now: Authorization, sha: Sha, k: nat)
    requires Invariant(s) && sha < |s.store| && now.sha < |s.store| && 1 <= now.revision
    requires Answer(s.store, e, f, repair, now) == Write(k, s.store[sha])
    requires Lookup(s.remote, RepairRef(e.run, now.revision)) == Some(now.sha)
    ensures k == now.revision + 1 && s.store[sha].parents == [now.sha]
    ensures LinkOk(s.store, e.run, f, k, sha, Some(now.sha)) && RepairIn(s.store, sha) == repair
    ensures (RepairRef(e.run, k - 1), s.store[sha].parents[0]) in s.canonical
  {
    AnswerSupersedes(s.store, e, f, repair, now);
    SupersedingLinks(s.store, e.run, f, now, repair, sha);
  }

  lemma AnswerSupersedes(store: Store, e: RepairEnvelope, f: Failure, repair: Repair, now: Authorization)
    requires now.sha < |store| && Answer(store, e, f, repair, now).Write?
    ensures ForThisFailure(repair, e.run, f)
    ensures Answer(store, e, f, repair, now) == Superseding(store, e.run, f, now, repair)
    ensures Answer(store, e, f, repair, now).revision == now.revision + 1
    ensures Answer(store, e, f, repair, now).commit.parents == [now.sha]
  {
  }

  /** What a request decides to write is a commit Git can store. */
  lemma DecidedIsStorable(s: World, e: RepairEnvelope)
    requires Invariant(s) && ChainsOk(s) && Decide(s, e).Write?
    ensures var c := Decide(s, e).commit;
            (forall k :: 0 <= k < |c.parents| ==> c.parents[k] < |s.store|) &&
            Consistent(c.tree) && NamesOnlyOlder(c.tree, |s.store|)
  {
    var f, repair := s.failures[e.run], e.repair.value;
    match ReadAuthorization(s, e.run).value {
      case None =>
        BuiltTreeIsConsistent(s.store[f.head].tree, REPAIR_PATH, RepairFile(repair), false);
        assert NamesOnlyOlder(s.store[f.head].tree, f.head);
      case Some(now) =>
        CurrentIsStored(s, e.run);
        SupersedingIsStorable(s.store, e.run, f, now, repair);
    }
  }

  lemma SupersedingIsStorable(store: Store, run: string, f: Failure, now: Authorization, repair: Repair)
    requires Sound(store) && now.sha < |store| && Superseding(store, run, f, now, repair).Write?
    ensures var c := Superseding(store, run, f, now, repair).commit;
            c.parents == [now.sha] && Consistent(c.tree) && NamesOnlyOlder(c.tree, |store|)
  {
    var tree := store[now.sha].tree;
    assert Consistent(tree) && NamesOnlyOlder(tree, now.sha);
    BuiltTreeIsConsistent(tree, REPAIR_PATH, RepairFile(repair), true);
    var staged := TreeWithMetadata(tree, REPAIR_PATH, RepairFile(repair), true).value;
    BuiltTreeIsConsistent(staged, SUPERSESSION_PATH,
      SupersessionFile(Supersession(run, now.revision + 1, now.sha, f.artifacts)), true);
  }

  /** Storing one more object does not change what is decided. */
  lemma DecideUnmoved(s: World, e: RepairEnvelope, c: Commit)
    requires Invariant(s) && ChainsOk(s) && Decide(s, e).Write?
    ensures Decide(s.(store := s.store + [c]), e) == Decide(s, e)
  {
    var t := s.(store := s.store + [c]);
    CurrentIsStored(s, e.run);
    SameRepairRefs(s, t);
    ChainIsReadable(t, e.run);
    CurrentIsStored(t, e.run);
    var n := ChainLength(s.remote, e.run).value;
    ChainLengthExact(s.remote, e.run, n);
    assert Linked(s, e.run, n) && Linked(t, e.run, n);
  }

  lemma PendingStable(s: World, t: World, w: Writer, later: Writer)
    requires Pending(s, w) && Extends(s, t) && later == w.(phase := later.phase)
    ensures Pending(t, later)
  {
    if w.place.ref.RepairRef? {
      var run, k := w.place.ref.run, w.place.ref.revision;
      LinkStable(s.store, t.store, run, s.failures[run], k, w.commit, BuiltOn(s.store, w.commit, k));
    }
  }

  lemma StepKeepsPending(s: World, a: Action)
    requires Invariant(s) && ChainsOk(s) && PendingOk(s) && Enabled(s, a) && Admits(s, a)
    ensures PendingOk(Next(s, a))
  {
    var t := Next(s, a);
    StepExtends(s, a);
    forall id | id in t.writers
      ensures Pending(t, t.writers[id])
    {
      if id in s.writers {
        PendingStable(s, t, s.writers[id], t.writers[id]);
      } else {
        BeginPending(s, id, t.writers[id]);
      }
    }
  }

  lemma BeginPending(s: World, id: nat, w: Writer)
    requires Invariant(s) && Admits(s, Begin(id, w))
    ensures Pending(Next(s, Begin(id, w)), w)
  {
    if w.place.ref.RepairRef? {
      DecidedLinks(s, w.request.repair, w.commit, w.place.ref.revision);
    }
  }

  /** A ref that gains a value gets this writer's commit, on top of the predecessor it was built on. */
  lemma MoveKeepsChains(s: World, w: Writer, author: Option<nat>)
    requires Invariant(s) && ChainsOk(s) && Pending(s, w)
    requires w.place.ref.RepairRef? ==> w.place.ref !in s.remote
    ensures ChainsOk(MoveRemote(s, w.place.ref, w.commit, author))
  {
    var t := MoveRemote(s, w.place.ref, w.commit, author);
    forall run: string, k: nat
      ensures Linked(t, run, k)
    {
      if RepairRef(run, k) == w.place.ref {
        if k > 1 {
          assert (RepairRef(run, k - 1), s.store[w.commit].parents[0]) in s.canonical;
        }
      } else {
        assert Linked(s, run, k);
      }
    }
  }

  lemma StepKeepsChains(s: World, a: Action)
    requires Invariant(s) && ChainsOk(s) && PendingOk(s) && Enabled(s, a) && Admits(s, a)
    ensures ChainsOk(Next(s, a))
  {
    var t := Next(s, a);
    StepExtends(s, a);
    if a.Push? && a.outcome != Bounced && s.writers[a.id].place.ref !in s.remote {
      MoveKeepsChains(s, s.writers[a.id], Some(a.id));
      SameRepairRefs(MoveRemote(s, s.writers[a.id].place.ref, s.writers[a.id].commit, Some(a.id)), t);
    } else {
      SameRepairRefs(s, t);
    }
  }

  lemma SameRepairRefs(s: World, t: World)
    requires ChainsOk(s) && s.store <= t.store && s.failures == t.failures
    requires forall r: Ref :: r.RepairRef? ==> Lookup(t.remote, r) == Lookup(s.remote, r)
    ensures ChainsOk(t)
  {
    forall run: string, k: nat
      ensures Linked(t, run, k)
    {
      assert Lookup(t.remote, RepairRef(run, k)) == Lookup(s.remote, RepairRef(run, k));
      assert Linked(s, run, k);
      if RepairRef(run, k) in s.remote {
        assert PredecessorRef(t.remote, run, k) == PredecessorRef(s.remote, run, k);
        LinkStable(s.store, t.store, run, s.failures[run], k, s.remote[RepairRef(run, k)], PredecessorRef(s.remote, run, k));
      }
    }
  }

  lemma {:induction false} RunKeepsChains(s: World, schedule: seq<Action>)
    requires Invariant(s) && ChainsOk(s) && PendingOk(s) && Run(s, schedule, Admits)
    ensures var t := After(s, schedule); Invariant(t) && ChainsOk(t) && PendingOk(t)
    decreases |schedule|
  {
    if schedule != [] {
      StepKeeps(s, schedule[0]);
      StepKeepsPending(s, schedule[0]);
      StepKeepsChains(s, schedule[0]);
      RunKeepsChains(Next(s, schedule[0]), schedule[1..]);
    }
  }

  // ----- One contiguous chain without forks -----

  lemma {:induction false} NoGap(s: World, run: string, k: nat, j: nat)
    requires ChainsOk(s) && RepairRef(run, k) in s.remote && 1 <= j <= k
    ensures RepairRef(run, j) in s.remote
    decreases k
  {
    assert Linked(s, run, k);
    if j < k {
      NoGap(s, run, k - 1, j);
    }
  }

  lemma ChainIsReadable(s: World, run: string)
    requires ChainsOk(s) && run in s.failures
    ensures ReadAuthorization(s, run).Accepted?
    ensures exists n: nat :: HasLength(s.remote, run, n)
  {
    var revisions := Revisions(s.remote, run);
    assert forall k: nat :: k in revisions <==> RepairRef(run, k) in s.remote;
    var n: nat := 0;
    if revisions != {} {
      n := Largest(revisions);
    }
    forall k: nat
      ensures RepairRef(run, k) in s.remote <==> 1 <= k <= n
    {
      assert Linked(s, run, k);
      if 1 <= k <= n {
        NoGap(s, run, n, k);
      }
    }
    assert HasLength(s.remote, run, n);
    ChainLengthExact(s.remote, run, n);
    forall k | 1 <= k <= n
      ensures LinkAt(s, run, k)
    {
      assert Linked(s, run, k);
    }
  }

  lemma {:induction false} Largest(xs: set<nat>) returns (m: nat)
    requires xs != {}
    ensures m in xs && forall x :: x in xs ==> x <= m
  {
    var x :| x in xs;
    var rest := xs - {x};
    assert forall z :: z in xs ==> z == x || z in rest;
    if rest == {} {
      m := x;
    } else {
      var y := Largest(rest);
      m := if x > y then x else y;
    }
  }

  /**
   For any number of racing supersession requests the authorizations of a failed RUN
   are exactly the revisions 1..n, one ref each, the sole parent of each revision is
   the commit of the revision before it, and the current one is readable.
   */
  lemma OneContiguousChain(start: World, schedule: seq<Action>, run: string)
    requires Initial(start) && ChainsOk(start) && run in start.failures && Run(start, schedule, Admits)
    ensures var s := After(start, schedule);
            && run in s.failures && ReadAuthorization(s, run).Accepted?
            && (exists n: nat :: HasLength(s.remote, run, n))
            && (forall k: nat :: 2 <= k && RepairRef(run, k) in s.remote ==>
                  && RepairRef(run, k - 1) in s.remote
                  && s.remote[RepairRef(run, k)] < |s.store|
                  && s.store[s.remote[RepairRef(run, k)]].parents == [s.remote[RepairRef(run, k - 1)]])
  {
    InitialHolds(start);
    RunKeepsChains(start, schedule);
    RunExtends(start, schedule, Admits);
    var s := After(start, schedule);
    ChainIsReadable(s, run);
    forall k: nat | 2 <= k && RepairRef(run, k) in s.remote
      ensures && RepairRef(run, k - 1) in s.remote
              && s.remote[RepairRef(run, k)] < |s.store|
              && s.store[s.remote[RepairRef(run, k)]].parents == [s.remote[RepairRef(run, k - 1)]]
    {
      assert Linked(s, run, k);
    }
  }

  // ----- Success means canonical -----

  /** The request's payload is the current authorization, at this ref and this commit. */
  ghost predicate Tip(s: World, run: string, k: nat, sha: Sha, repair: Repair) {
    && Lookup(s.remote, RepairRef(run, k)) == Some(sha)
    && RepairRef(run, k + 1) !in s.remote
    && sha < |s.store| && BlobAt(s.store[sha].tree, REPAIR_PATH) == Some(RepairFile(repair))
  }

  /** The one read after a failed publication that may still classify it as won by an identical request. */
  predicate RaceWon(s: World, w: Writer, winner: Authorization)
    requires w.place.ref.RepairRef? && w.request.AuthorRepair? && w.commit < |s.store|
  {
    && w.place.ref.run in s.failures
    && ReadAuthorization(s, w.place.ref.run) == Accepted(Some(winner))
    && winner.revision == w.place.ref.revision
    && winner.predecessor == (if winner.revision == 1 || s.store[w.commit].parents == [] then None
                              else Some(s.store[w.commit].parents[0]))
    && w.request.repair.repair == Some(winner.repair)
  }

  /** An IDEMPOTENT answer names the current authorization, and its payload is the request's. */
  lemma ReplayIsCanonical(s: World, e: RepairEnvelope)
    requires Decide(s, e).Idempotent?
    ensures e.repair.Some? && Tip(s, e.run, Decide(s, e).revision, Decide(s, e).sha, e.repair.value)
  {
    CurrentIsStored(s, e.run);
  }

  /** So does the answer after a lost race, at the very ref the loser tried to publish. */
  lemma RaceWonIsCanonical(s: World, w: Writer, winner: Authorization)
    requires w.place.ref.RepairRef? && w.request.AuthorRepair? && w.commit < |s.store|
    requires RaceWon(s, w, winner)
    ensures w.request.repair.repair.Some?
    ensures Tip(s, w.place.ref.run, w.place.ref.revision, winner.sha, w.request.repair.repair.value)
  {
    CurrentIsStored(s, w.place.ref.run);
  }

  lemma {:induction false} FirstAppearance(s: World, schedule: seq<Action>, ref: Ref) returns (n: nat)
    requires ref !in s.remote && ref in After(s, schedule).remote
    ensures n < |schedule|
    ensures ref !in After(s, schedule[..n]).remote
    ensures After(s, schedule[..n + 1]) == Next(After(s, schedule[..n]), schedule[n])
    ensures ref in After(s, schedule[..n + 1]).remote
    decreases |schedule|
  {
    var t := Next(s, schedule[0]);
    if ref in t.remote {
      n := 0;
      assert schedule[..0] == [] && schedule[..1] == [schedule[0]];
      assert After(t, []) == t;
    } else {
      var m := FirstAppearance(t, schedule[1..], ref);
      n := m + 1;
      assert schedule[..n][1..] == schedule[1..][..m] && schedule[..n + 1][1..] == schedule[1..][..m + 1];
    }
  }

  /** When a revision first appears on the remote it is the tip. */
  lemma AppearsAsTip(s: World, a: Action, run: string, k: nat)
    requires Invariant(s) && ChainsOk(s) && PendingOk(s) && Enabled(s, a) && Admits(s, a) && 1 <= k
    requires RepairRef(run, k) !in s.remote && RepairRef(run, k) in Next(s, a).remote
    ensures RepairRef(run, k + 1) !in Next(s, a).remote
  {
    assert Linked(s, run, k + 1);
  }

  /** The state in the middle of a run, and the end as seen from there. */
  lemma Midway(begun: World, during: seq<Action>, n: nat)
    requires Invariant(begun) && ChainsOk(begun) && PendingOk(begun) && Run(begun, during, Admits) && n <= |during|
    ensures var t, end := After(begun, during[..n]), After(begun, during);
            && Invariant(t) && ChainsOk(t) && Publication.Extends(begun, t)
            && Invariant(end) && Publication.Extends(t, end)
  {
    RunPrefix(begun, during, n, Admits);
    RunKeepsChains(begun, during[..n]);
    RunExtends(begun, during[..n], Admits);
    RunKeepsChains(After(begun, during[..n]), during[n..]);
    RunExtends(After(begun, during[..n]), during[n..], Admits);
  }

  /** A ref that a writer ends up returning from can hold nothing but that writer's commit. */
  lemma HoldsItsOwn(begun: World, during: seq<Action>, n: nat, id: nat)
    requires Invariant(begun) && ChainsOk(begun) && PendingOk(begun) && Run(begun, during, Admits) && n <= |during|
    requires id in begun.writers && begun.writers[id].place.ref.RepairRef?
    requires begun.writers[id].request.AuthorRepair? && begun.writers[id].request.repair.repair.Some?
    requires InPhase(After(begun, during), id, Returned)
    ensures var w, t := begun.writers[id], After(begun, during[..n]);
            w.place.ref in t.remote && RepairRef(w.place.ref.run, w.place.ref.revision + 1) !in t.remote ==>
              Tip(t, w.place.ref.run, w.place.ref.revision, w.commit, w.request.repair.repair.value)
  {
    Midway(begun, during, n);
    OwnTip(begun, After(begun, during[..n]), After(begun, during), id);
  }

  lemma OwnTip(begun: World, t: World, end: World, id: nat)
    requires Publication.Extends(begun, t) && Publication.Extends(t, end)
    requires Invariant(t) && Invariant(end) && PendingOk(begun)
    requires id in begun.writers && begun.writers[id].place.ref.RepairRef?
    requires begun.writers[id].request.AuthorRepair? && begun.writers[id].request.repair.repair.Some?
    requires InPhase(end, id, Returned)
    ensures var w := begun.writers[id];
            w.place.ref in t.remote && RepairRef(w.place.ref.run, w.place.ref.revision + 1) !in t.remote ==>
              Tip(t, w.place.ref.run, w.place.ref.revision, w.commit, w.request.repair.repair.value)
  {
    var w := begun.writers[id];
    if w.place.ref in t.remote {
      OnlyItsOwn(t, end, id, w.place.ref);
      assert Pending(begun, w);
    }
  }

  /** Whatever the ref held on the way is what the writer that returned put there. */
  lemma OnlyItsOwn(t: World, end: World, id: nat, ref: Ref)
    requires Publication.Extends(t, end) && Invariant(t) && Invariant(end)
    requires ref != Main && ref in t.remote && InPhase(end, id, Returned) && end.writers[id].place.ref == ref
    ensures t.remote[ref] == end.writers[id].commit
  {
    assert WriterOk(end, end.writers[id]);
    assert (ref, t.remote[ref]) in end.canonical;
  }

  /** A revision missing at first and there at the end was the newest one at some moment. */
  lemma WasNewest(begun: World, during: seq<Action>, run: string, k: nat) returns (n: nat)
    requires Invariant(begun) && ChainsOk(begun) && PendingOk(begun) && Run(begun, during, Admits) && 1 <= k
    requires RepairRef(run, k) !in begun.remote && RepairRef(run, k) in After(begun, during).remote
    ensures n <= |during|
    ensures RepairRef(run, k) in After(begun, during[..n]).remote
    ensures RepairRef(run, k + 1) !in After(begun, during[..n]).remote
  {
    var m := FirstAppearance(begun, during, RepairRef(run, k));
    RunPrefix(begun, during, m, Admits);
    RunKeepsChains(begun, during[..m]);
    assert during[m..][0] == during[m];
    AppearsAsTip(After(begun, during[..m]), during[m], run, k);
    n := m + 1;
  }

  lemma ReturnedIsThere(begun: World, during: seq<Action>, id: nat)
    requires Invariant(begun) && Run(begun, during, Admits) && id in begun.writers
    requires begun.writers[id].place.ref != Main && InPhase(After(begun, during), id, Returned)
    ensures begun.writers[id].place.ref in After(begun, during).remote
  {
    RunKeeps(begun, during, Admits);
    RunExtends(begun, during, Admits);
    var end := After(begun, during);
    assert WriterOk(end, end.writers[id]);
  }

  /** From a missing ref to a normal return: the moment the writer's commit was the tip. */
  lemma LandedWasTip(begun: World, during: seq<Action>, id: nat) returns (n: nat)
    requires Invariant(begun) && ChainsOk(begun) && PendingOk(begun) && Run(begun, during, Admits)
    requires id in begun.writers && begun.writers[id].place.ref.RepairRef? && begun.writers[id].place.ref !in begun.remote
    requires begun.writers[id].request.AuthorRepair? && begun.writers[id].request.repair.repair.Some?
    requires 1 <= begun.writers[id].place.ref.revision
    requires InPhase(After(begun, during), id, Returned)
    ensures n <= |during|
    ensures var w := begun.writers[id];
            Tip(After(begun, during[..n]), w.place.ref.run, w.place.ref.revision, w.commit, w.request.repair.repair.value)
  {
    ReturnedIsThere(begun, during, id);
    n := WasNewest(begun, during, begun.writers[id].place.ref.run, begun.writers[id].place.ref.revision);
    HoldsItsOwn(begun, during, n, id);
  }

  /**
   CANONICALIZED is linearizable: if a request enters the publisher after the first
   part of a run and has returned normally by the end of it, then at some moment in
   between its commit was the current authorization and held its payload.
   */
  lemma ReturnedWasTip(start: World, before: seq<Action>, id: nat, w: Writer, during: seq<Action>) returns (n: nat)
    requires Initial(start) && ChainsOk(start) && Run(start, before, Admits)
    requires w.place.ref.RepairRef?
    requires Enabled(After(start, before), Begin(id, w)) && Admits(After(start, before), Begin(id, w))
    requires Run(Next(After(start, before), Begin(id, w)), during, Admits)
    requires InPhase(After(Next(After(start, before), Begin(id, w)), during), id, Returned)
    ensures n <= |during| && w.request.AuthorRepair? && w.request.repair.repair.Some?
    ensures Tip(After(Next(After(start, before), Begin(id, w)), during[..n]),
                w.place.ref.run, w.place.ref.revision, w.commit, w.request.repair.repair.value)
  {
    var s := After(start, before);
    InitialHolds(start);
    RunKeepsChains(start, before);
    DecidedLinks(s, w.request.repair, w.commit, w.place.ref.revision);
    StepKeeps(s, Begin(id, w));
    StepKeepsPending(s, Begin(id, w));
    StepKeepsChains(s, Begin(id, w));
    n := LandedWasTip(Next(s, Begin(id, w)), during, id);
  }

  // ----- Retries and stale predecessors -----

  /** The request names the commit this one was built on: nothing for a root, the superseded commit otherwise. */
  ghost predicate NamesBase(e: RepairEnvelope, f: Failure, k: nat, parents: seq<Sha>) {
    if e.expectedCurrent.None? then k == 1
    else parents == [e.expectedCurrent.value] && e.expectedFailure == Some(f.artifacts)
  }

  lemma WriteNamesBase(store: Store, e: RepairEnvelope, f: Failure, repair: Repair, now: Authorization, k: nat, c: Commit)
    requires now.sha < |store| && Answer(store, e, f, repair, now) == Write(k, c)
    ensures NamesBase(e, f, k, c.parents) && ForThisFailure(repair, e.run, f)
  {
  }

  lemma DecidedNamesBase(s: World, e: RepairEnvelope, k: nat, c: Commit)
    requires Decide(s, e) == Write(k, c)
    ensures e.run in s.failures && e.repair.Some?
    ensures NamesBase(e, s.failures[e.run], k, c.parents) && ForThisFailure(e.repair.value, e.run, s.failures[e.run])
  {
    if ReadAuthorization(s, e.run).value.Some? {
      CurrentIsStored(s, e.run);
      var f, now := s.failures[e.run], ReadAuthorization(s, e.run).value.value;
      WriteNamesBase(s.store, e, f, e.repair.value, now, k, c);
    }
  }

  /** Such a request against the authorization it made: its replay. */
  lemma ReplayAnswered(store: Store, e: RepairEnvelope, f: Failure, repair: Repair, now: Authorization)
    requires now.sha < |store| && now.repair == repair && ForThisFailure(repair, e.run, f) && 1 <= now.revision
    requires NamesBase(e, f, now.revision, store[now.sha].parents)
    requires now.revision > 1 ==> now.predecessor.Some? && store[now.sha].parents == [now.predecessor.value]
    requires now.revision == 1 ==> e.expectedCurrent.None?
    ensures Answer(store, e, f, repair, now) == Idempotent(now.revision, now.sha)
  {
  }

  /** While the commit a request decided on is current, repeating the request verbatim changes nothing. */
  lemma RetryWhileCurrent(s: World, e: RepairEnvelope, t: World, k: nat, sha: Sha)
    requires Invariant(s) && ChainsOk(s) && sha < |s.store| && Decide(s, e) == Write(k, s.store[sha])
    requires ChainsOk(t) && t.failures == s.failures && s.store <= t.store
    requires Lookup(t.remote, RepairRef(e.run, k)) == Some(sha) && RepairRef(e.run, k + 1) !in t.remote
    ensures Decide(t, e) == Idempotent(k, sha)
  {
    DecidedLinks(s, e, sha, k);
    DecidedNamesBase(s, e, k, s.store[sha]);
    DecidedRevision(s, e, k, s.store[sha]);
    CurrentIs(t, e.run, k, sha);
    CurrentIsStored(t, e.run);
    assert Linked(t, e.run, k);
    ReplayAnswered(t.store, e, t.failures[e.run], e.repair.value, ReadAuthorization(t, e.run).value.value);
  }

  lemma DecidedRevision(s: World, e: RepairEnvelope, k: nat, c: Commit)
    requires Decide(s, e) == Write(k, c)
    ensures k == 1 ==> e.expectedCurrent.None?
  {
    if ReadAuthorization(s, e.run).value.Some? {
      CurrentIsStored(s, e.run);
    }
  }

  /** The last ref of a chain is what the reader takes for current. */
  lemma CurrentIs(t: World, run: string, k: nat, sha: Sha)
    requires ChainsOk(t) && 1 <= k && Lookup(t.remote, RepairRef(run, k)) == Some(sha) && RepairRef(run, k + 1) !in t.remote
    requires run in t.failures
    ensures ReadAuthorization(t, run).Accepted? && ReadAuthorization(t, run).value.Some?
    ensures ReadAuthorization(t, run).value.value.sha == sha && ReadAuthorization(t, run).value.value.revision == k
  {
    ChainIsReadable(t, run);
    var n: nat :| HasLength(t.remote, run, n);
    ChainLengthExact(t.remote, run, n);
    assert n == k;
    CurrentIsStored(t, run);
    assert Linked(t, run, k);
  }


  lemma {:induction false} EarlierIsOlder(s: World, run: string, j: nat, k: nat)
    requires Sound(s.store) && ChainsOk(s) && 1 <= j < k && RepairRef(run, k) in s.remote
    ensures RepairRef(run, j) in s.remote && s.remote[RepairRef(run, j)] < s.remote[RepairRef(run, k)]
    decreases k
  {
    assert Linked(s, run, k);
    assert s.store[s.remote[RepairRef(run, k)]].parents[0] == s.remote[RepairRef(run, k - 1)];
    if j < k - 1 {
      EarlierIsOlder(s, run, j, k - 1);
    }
  }

  /** A write needs the exact current commit; a replay also accepts the commit it superseded. */
  lemma AnswerNeedsCurrent(store: Store, e: RepairEnvelope, f: Failure, repair: Repair, now: Authorization)
    requires now.sha < |store|
    ensures Answer(store, e, f, repair, now).Write? ==> e.expectedCurrent == Some(now.sha)
    ensures Answer(store, e, f, repair, now).Idempotent? ==>
              now.repair == repair && Answer(store, e, f, repair, now) == Idempotent(now.revision, now.sha) &&
              (e.expectedCurrent.Some? ==> e.expectedCurrent in {Some(now.sha), now.predecessor})
  {
  }

  /**
   A request that names an earlier revision as current never writes, even when a later
   revision has brought that very content back.  At most it is answered as a replay of
   the current revision, and only by naming the revision right before it.
   */
  lemma StalePredecessorIsRefused(s: World, e: RepairEnvelope, j: nat, n: nat)
    requires Invariant(s) && ChainsOk(s) && e.run in s.failures
    requires HasLength(s.remote, e.run, n) && 1 <= j < n
    requires e.expectedCurrent == Some(s.remote[RepairRef(e.run, j)])
    ensures !Decide(s, e).Write?
    ensures Decide(s, e).Idempotent? ==>
              j == n - 1 && e.repair.Some? && Tip(s, e.run, n, s.remote[RepairRef(e.run, n)], e.repair.value)
  {
    EarlierIsOlder(s, e.run, j, n);
    ChainLengthExact(s.remote, e.run, n);
    CurrentIsStored(s, e.run);
    if j < n - 1 {
      EarlierIsOlder(s, e.run, j, n - 1);
    }
    var r := ReadAuthorization(s, e.run);
    if r.Accepted? && e.repair.Some? {
      AnswerNeedsCurrent(s.store, e, s.failures[e.run], e.repair.value, r.value.value);
    }
  }
}
