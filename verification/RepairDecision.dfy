/**
 What AUTHOR_REPAIR answers, in terms of the refs, the stored files, the recorded failure
 and the fields of the envelope: an independent account of the decision, condition by
 condition, with which the decision procedure is proved to agree on every input.
 */
module RepairDecision {
  import opened Prelude
  import opened Git
  import opened Metadata
  import opened Publication
  import opened AuthorRepair

  // ----- A readable chain -----

  /** The commit holds, as one regular file, an authorization for this failed RUN, head and TASK. */
  ghost predicate Holds(store: Store, sha: Sha, run: string, f: Failure, repair: Repair) {
    && sha < |store|
    && REPAIR_PATH in store[sha].tree
    && store[sha].tree[REPAIR_PATH] == Entry(Regular, RepairFile(repair))
    && repair.failedRun == run && repair.failedHead == f.head && repair.task == f.task
  }

  /** The root adds its file to the failed head and changes nothing else. */
  ghost predicate IsRoot(store: Store, sha: Sha, f: Failure, repair: Repair)
    requires sha < |store|
  {
    && f.head < |store| && store[sha].parents == [f.head]
    && store[sha].tree == store[f.head].tree[REPAIR_PATH := Entry(Regular, RepairFile(repair))]
    && store[sha].tree != store[f.head].tree
  }

  /** A successor names its predecessor in a file it adds or changes, and touches no other file but the authorization. */
  ghost predicate IsSuccessor(store: Store, sha: Sha, run: string, f: Failure, k: nat, before: Sha)
    requires sha < |store|
  {
    && before < |store| && store[sha].parents == [before]
    && SUPERSESSION_PATH in store[sha].tree
    && store[sha].tree[SUPERSESSION_PATH] == Entry(Regular, SupersessionFile(Supersession(run, k, before, f.artifacts)))
    && (SUPERSESSION_PATH in store[before].tree ==>
          store[before].tree[SUPERSESSION_PATH] != store[sha].tree[SUPERSESSION_PATH])
    && store[sha].tree - {REPAIR_PATH, SUPERSESSION_PATH} == store[before].tree - {REPAIR_PATH, SUPERSESSION_PATH}
  }

  /** Revision `k` is stored where its ref says, with this authorization, on the revision before it. */
  ghost predicate IsRevision(s: World, run: string, k: nat, repair: Repair)
    requires run in s.failures
  {
    && 1 <= k && RepairRef(run, k) in s.remote
    && var f, sha := s.failures[run], s.remote[RepairRef(run, k)];
    && Holds(s.store, sha, run, f, repair)
    && (if k == 1 then IsRoot(s.store, sha, f, repair)
        else RepairRef(run, k - 1) in s.remote &&
             IsSuccessor(s.store, sha, run, f, k, s.remote[RepairRef(run, k - 1)]))
  }

  ghost predicate HasRevision(s: World, run: string, k: nat)
    requires run in s.failures
  {
    exists repair :: IsRevision(s, run, k, repair)
  }

  /** The refs are exactly the revisions 1..n, and each of them is in order. */
  ghost predicate Readable(s: World, run: string, n: nat)
    requires run in s.failures
  {
    && (forall k: nat :: RepairRef(run, k) in s.remote <==> 1 <= k <= n)
    && forall k: nat :: 1 <= k <= n ==> HasRevision(s, run, k)
  }

  lemma RootExactly(store: Store, sha: Sha, f: Failure, repair: Repair, run: string)
    requires Holds(store, sha, run, f, repair)
    ensures ValidMetadataCommit(store, sha, f.head, REPAIR_PATH, RepairFile(repair)) <==> IsRoot(store, sha, f, repair)
  {
    if f.head < |store| {
      ValidatorExact(store, sha, f.head, REPAIR_PATH, RepairFile(repair));
      var tree, entry := store[f.head].tree, Entry(Regular, RepairFile(repair));
      assert REPAIR_PATH in tree && tree[REPAIR_PATH] == entry ==> tree[REPAIR_PATH := entry] == tree;
    }
  }

  lemma DeltaExactly(before: Tree, after: Tree)
    requires REPAIR_PATH in after && SUPERSESSION_PATH in after
    ensures ChangedPaths(before, after) <= {REPAIR_PATH, SUPERSESSION_PATH} <==>
            after - {REPAIR_PATH, SUPERSESSION_PATH} == before - {REPAIR_PATH, SUPERSESSION_PATH}
    ensures SUPERSESSION_PATH in ChangedPaths(before, after) <==>
            (SUPERSESSION_PATH in before ==> before[SUPERSESSION_PATH] != after[SUPERSESSION_PATH])
  {
    var own := {REPAIR_PATH, SUPERSESSION_PATH};
    if ChangedPaths(before, after) <= own {
      forall p | p !in own
        ensures (p in after <==> p in before) && (p in after ==> after[p] == before[p])
      {
        assert p !in ChangedPaths(before, after);
      }
    }
    if after - own == before - own {
      forall p | p in ChangedPaths(before, after)
        ensures p in own
      {
        assert p !in own ==> (p in after <==> p in after - own) && (p in before <==> p in before - own);
      }
    }
  }

  /** One link of the chain, as it is read. */
  lemma LinkExactly(s: World, run: string, k: nat)
    requires run in s.failures && 1 <= k && RepairRef(run, k) in s.remote
    ensures LinkAt(s, run, k) <==> HasRevision(s, run, k)
    ensures forall repair :: IsRevision(s, run, k, repair) ==> RepairIn(s.store, s.remote[RepairRef(run, k)]) == repair
  {
    var f, sha := s.failures[run], s.remote[RepairRef(run, k)];
    if Authorizes(s.store, run, f, sha) {
      var repair := RepairIn(s.store, sha);
      assert Holds(s.store, sha, run, f, repair);
      RootExactly(s.store, sha, f, repair, run);
      if k > 1 && RepairRef(run, k - 1) in s.remote {
        var before := s.remote[RepairRef(run, k - 1)];
        if before < |s.store| && SUPERSESSION_PATH in s.store[sha].tree {
          DeltaExactly(s.store[before].tree, s.store[sha].tree);
        }
        assert Supersedes(s.store, run, f, k, sha, before) <==> IsSuccessor(s.store, sha, run, f, k, before);
      }
      assert LinkAt(s, run, k) <==> IsRevision(s, run, k, repair);
    }
  }

  /** What the reader makes of a readable chain, and that it reads no other. */
  lemma ReadExactly(s: World, run: string, n: nat)
    requires run in s.failures
    ensures Readable(s, run, n) && n == 0 ==> ReadAuthorization(s, run) == Accepted(None)
    ensures Readable(s, run, n) && n > 0 ==>
              && var sha := s.remote[RepairRef(run, n)];
              && sha < |s.store| && REPAIR_PATH in s.store[sha].tree && s.store[sha].tree[REPAIR_PATH].document.RepairFile?
              && ReadAuthorization(s, run) == Accepted(Some(Authorization(
                   n, sha, s.store[sha].tree[REPAIR_PATH].document.repair,
                   if n == 1 then None else Some(s.remote[RepairRef(run, n - 1)]))))
  {
    if Readable(s, run, n) {
      ChainLengthExact(s.remote, run, n);
      forall k: nat | 1 <= k <= n
        ensures LinkAt(s, run, k)
      {
        assert HasRevision(s, run, k);
        LinkExactly(s, run, k);
      }
      assert n > 0 ==> HasRevision(s, run, n);
    }
  }

  lemma ReadIsReadable(s: World, run: string)
    requires run in s.failures && ReadAuthorization(s, run).Accepted?
    ensures exists n: nat :: Readable(s, run, n)
  {
    var n := ChainLength(s.remote, run).value;
    ChainLengthExact(s.remote, run, n);
    forall k: nat | 1 <= k <= n
      ensures HasRevision(s, run, k)
    {
      LinkExactly(s, run, k);
    }
    assert Readable(s, run, n);
  }

  // ----- The decision -----

  /** The envelope is about this failure: its head, its RUN, head and TASK in the payload, and any artifacts it names. */
  ghost predicate AboutFailure(e: RepairEnvelope, f: Failure) {
    && e.repair.Some? && e.expectedHead == Some(f.head)
    && e.repair.value.failedRun == e.run && e.repair.value.failedHead == f.head && e.repair.value.task == f.task
    && (e.expectedFailure == None || e.expectedFailure == Some(f.artifacts))
  }

  /** No file stands where `path` needs a directory, or below it. */
  ghost predicate Fits(tree: Tree, path: Path) {
    forall p :: p in tree ==> !Under(p, path) && !Under(path, p)
  }

  lemma FitsExactly(tree: Tree, path: Path)
    ensures Fits(tree, path) <==> !Collides(tree, path)
  {
  }

  /** The first authorization: nothing may be named as current, and the failed head gains one file. */
  ghost predicate WritesRoot(s: World, e: RepairEnvelope, c: Commit)
    requires e.run in s.failures
  {
    var f := s.failures[e.run];
    && AboutFailure(e, f) && e.expectedCurrent == None && f.head < |s.store|
    && BlobAt(s.store[f.head].tree, REPAIR_PATH) == None && Fits(s.store[f.head].tree, REPAIR_PATH)
    && c == Commit([f.head], s.store[f.head].tree[REPAIR_PATH := Entry(Regular, RepairFile(e.repair.value))])
  }

  /** A successor: another payload, on the current commit by name, for the failure artifacts by name. */
  ghost predicate WritesSuccessor(s: World, e: RepairEnvelope, n: nat, c: Commit)
    requires e.run in s.failures && RepairRef(e.run, n) in s.remote && s.remote[RepairRef(e.run, n)] < |s.store|
  {
    var f, now := s.failures[e.run], s.remote[RepairRef(e.run, n)];
    var tree := s.store[now].tree;
    && AboutFailure(e, f) && BlobAt(tree, REPAIR_PATH) != Some(RepairFile(e.repair.value))
    && e.expectedCurrent == Some(now) && e.expectedFailure == Some(f.artifacts)
    && Fits(tree, REPAIR_PATH) && Fits(tree, SUPERSESSION_PATH)
    && c == Commit([now],
                   tree[REPAIR_PATH := Entry(Regular, RepairFile(e.repair.value))]
                   [SUPERSESSION_PATH := Entry(Regular, SupersessionFile(Supersession(e.run, n + 1, now, f.artifacts)))])
  }

  /** A replay: the current payload, with the current commit or its predecessor named where there is one. */
  ghost predicate Replays(s: World, e: RepairEnvelope, n: nat)
    requires e.run in s.failures && RepairRef(e.run, n) in s.remote && s.remote[RepairRef(e.run, n)] < |s.store|
    requires n >= 1 && (n > 1 ==> RepairRef(e.run, n - 1) in s.remote)
  {
    var f, now := s.failures[e.run], s.remote[RepairRef(e.run, n)];
    && AboutFailure(e, f) && BlobAt(s.store[now].tree, REPAIR_PATH) == Some(RepairFile(e.repair.value))
    && (if n == 1 then e.expectedCurrent == None || e.expectedCurrent == Some(now)
        else && (e.expectedCurrent == Some(now) || e.expectedCurrent == Some(s.remote[RepairRef(e.run, n - 1)]))
             && e.expectedFailure == Some(f.artifacts))
  }

  lemma TwoFilesApart()
    ensures REPAIR_PATH != SUPERSESSION_PATH && !Under(REPAIR_PATH, SUPERSESSION_PATH) && !Under(SUPERSESSION_PATH, REPAIR_PATH)
  {
    assert REPAIR_PATH[20] == '.' && SUPERSESSION_PATH[20] == '-';
  }

  lemma SupersedingExactly(store: Store, run: string, f: Failure, now: Authorization, repair: Repair)
    requires now.sha < |store|
    ensures var tree := store[now.sha].tree;
            Superseding(store, run, f, now, repair) ==
            if Fits(tree, REPAIR_PATH) && Fits(tree, SUPERSESSION_PATH) then
              Write(now.revision + 1, Commit([now.sha],
                tree[REPAIR_PATH := Entry(Regular, RepairFile(repair))]
                [SUPERSESSION_PATH := Entry(Regular, SupersessionFile(Supersession(run, now.revision + 1, now.sha, f.artifacts)))]))
            else Reject
  {
    var tree := store[now.sha].tree;
    var staged := tree[REPAIR_PATH := Entry(Regular, RepairFile(repair))];
    TwoFilesApart();
    FitsExactly(tree, REPAIR_PATH);
    FitsExactly(staged, SUPERSESSION_PATH);
    assert Fits(staged, SUPERSESSION_PATH) <==> Fits(tree, SUPERSESSION_PATH) by {
      assert forall p :: p in staged <==> p in tree || p == REPAIR_PATH;
    }
  }

  /** Where no chain can be read, or nothing is known of the failure, nothing but a refusal comes back. */
  lemma UnreadableIsRefused(s: World, e: RepairEnvelope)
    requires e.run in s.failures ==> forall n: nat :: !Readable(s, e.run, n)
    ensures Decide(s, e) == Reject
  {
    if e.run in s.failures && ReadAuthorization(s, e.run).Accepted? {
      ReadIsReadable(s, e.run);
    }
  }

  /** Without an authorization the answer is the first one or a refusal. */
  lemma FirstDecision(s: World, e: RepairEnvelope)
    requires e.run in s.failures && Readable(s, e.run, 0)
    ensures forall k, c :: Decide(s, e) == Write(k, c) <==> k == 1 && WritesRoot(s, e, c)
    ensures !Decide(s, e).Idempotent?
  {
    ReadExactly(s, e.run, 0);
    var f := s.failures[e.run];
    if f.head < |s.store| {
      FitsExactly(s.store[f.head].tree, REPAIR_PATH);
    }
  }

  lemma AnswerExactly(s: World, e: RepairEnvelope, n: nat, now: Authorization)
    requires e.run in s.failures && e.repair.Some? && Readable(s, e.run, n) && n >= 1
    requires now.sha == s.remote[RepairRef(e.run, n)] < |s.store| && now.revision == n
    requires now.predecessor == if n == 1 then None else Some(s.remote[RepairRef(e.run, n - 1)])
    requires BlobAt(s.store[now.sha].tree, REPAIR_PATH) == Some(RepairFile(now.repair))
    requires AboutFailure(e, s.failures[e.run])
    ensures var d := Answer(s.store, e, s.failures[e.run], e.repair.value, now);
            && (d.Idempotent? <==> Replays(s, e, n)) && (d.Idempotent? ==> d == Idempotent(n, now.sha))
            && (d.Write? ==> d.revision == n + 1 && WritesSuccessor(s, e, n, d.commit))
            && (forall c :: WritesSuccessor(s, e, n, c) ==> d == Write(n + 1, c))
  {
    SupersedingExactly(s.store, e.run, s.failures[e.run], now, e.repair.value);
  }

  /**
   On a chain of length n >= 1 the answer is revision n + 1, a replay of revision n, or a
   refusal, each under exactly its own conditions.
   */
  lemma LaterDecision(s: World, e: RepairEnvelope, n: nat)
    requires e.run in s.failures && Readable(s, e.run, n) && n >= 1
    ensures s.remote[RepairRef(e.run, n)] < |s.store|
    ensures forall k, c :: Decide(s, e) == Write(k, c) <==> k == n + 1 && WritesSuccessor(s, e, n, c)
    ensures forall k, sha :: Decide(s, e) == Idempotent(k, sha) <==>
              k == n && sha == s.remote[RepairRef(e.run, n)] && Replays(s, e, n)
  {
    ReadExactly(s, e.run, n);
    var f, sha := s.failures[e.run], s.remote[RepairRef(e.run, n)];
    var now := ReadAuthorization(s, e.run).value.value;
    CurrentIsStored(s, e.run);
    if e.repair.Some? && AboutFailure(e, f) {
      AnswerExactly(s, e, n, now);
      assert Decide(s, e) == Answer(s.store, e, f, e.repair.value, now);
    } else {
      assert Decide(s, e) == Reject;
    }
  }

  /** The winner of a lost race, exactly: the request's payload is current at its ref, on the commit it was built on. */
  lemma RaceWonExactly(s: World, w: Writer)
    requires w.place.ref.RepairRef? && w.request.AuthorRepair? && w.commit < |s.store|
    ensures forall winner :: RaceWon(s, w, winner) ==>
              Lookup(s.remote, w.place.ref) == Some(winner.sha) && Some(winner.repair) == w.request.repair.repair
    ensures var run, k := w.place.ref.run, w.place.ref.revision;
            (exists winner :: RaceWon(s, w, winner)) <==>
              && run in s.failures && k >= 1 && Readable(s, run, k) && w.request.repair.repair.Some?
              && s.remote[w.place.ref] < |s.store|
              && BlobAt(s.store[s.remote[w.place.ref]].tree, REPAIR_PATH) == Some(RepairFile(w.request.repair.repair.value))
              && (k > 1 ==> s.store[w.commit].parents != [] &&
                            s.store[w.commit].parents[0] == s.remote[RepairRef(run, k - 1)])
  {
    var run, k := w.place.ref.run, w.place.ref.revision;
    if run in s.failures {
      CurrentIsStored(s, run);
      ReadExactly(s, run, k);
      if ReadAuthorization(s, run).Accepted? {
        ReadIsReadable(s, run);
        var n :| Readable(s, run, n);
        ReadExactly(s, run, n);
        if Readable(s, run, k) && k >= 1 {
          var winner := ReadAuthorization(s, run).value.value;
          assert winner.sha == s.remote[RepairRef(run, k)] && winner.revision == k;
          assert RaceWon(s, w, winner) <==>
            winner.predecessor == (if k == 1 || s.store[w.commit].parents == [] then None else Some(s.store[w.commit].parents[0])) &&
            w.request.repair.repair == Some(winner.repair);
        }
      }
    }
  }
}
