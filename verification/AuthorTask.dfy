/**
 AUTHOR_TASK: the revisions of every TASK form one linear history on main, built by
 racing writers on top of the publication protocol.
 */
module AuthorTask {
  import opened Prelude
  import opened Git
  import opened Metadata
  import opened Publication

  lemma TaskPathInjective(a: string, b: string)
    requires TaskPath(a) == TaskPath(b)
    ensures a == b
  {
    var p := ".ai/tasks/";
    assert |TaskPath(a)| == |p| + |a| + 5 && |TaskPath(b)| == |p| + |b| + 5;
    assert a == TaskPath(a)[|p|..|p| + |a|];
    assert b == TaskPath(b)[|p|..|p| + |b|];
  }

  /** A TASK without the selector reads as the legacy route. */
  function Effective(affinity: Option<Affinity>): Affinity {
    if affinity.None? then Legacy else affinity.value
  }

  /** Equality of parsed TASKs. */
  predicate SameTask(a: Task, b: Task) {
    a.(affinity := None) == b.(affinity := None) && Effective(a.affinity) == Effective(b.affinity)
  }

  function FirstParent(store: Store, sha: Sha): Option<Sha>
    requires sha < |store|
  {
    if store[sha].parents == [] then None else Some(store[sha].parents[0])
  }

  datatype Decision = Reject | Idempotent(sha: Sha) | Author(tree: Tree)

  /** What one envelope does at one main, once every step that can only abort has passed. */
  function Decide(store: Store, main: Sha, e: TaskEnvelope): Decision
    requires main < |store|
  {
    if e.task.None? || e.task.value.id != e.taskId || e.expectedMain.None? then Reject else
    var task := e.task.value;
    var tree := store[main].tree;
    match BlobAt(tree, TaskPath(e.taskId))
    case None =>
      if task.revision != 1 then Reject else Mutate(main, tree, e, task)
    case Some(TaskFile(existing)) =>
      if task.revision == existing.revision then
        if SameTask(existing, task) && (Some(main) == e.expectedMain || FirstParent(store, main) == e.expectedMain)
        then Idempotent(main)
        else Reject
      else if task.revision != existing.revision + 1 then Reject
      else if task.affinity != Some(Effective(existing.affinity)) then Reject
      else Mutate(main, tree, e, task)
    case Some(_) => Reject
  }

  function Mutate(main: Sha, tree: Tree, e: TaskEnvelope, task: Task): Decision {
    if !task.currentPolicy || task.affinity.None? || e.expectedMain != Some(main) then Reject
    else if Collides(tree, TaskPath(e.taskId)) then Reject
    else
      var mutated := tree[TaskPath(e.taskId) := Entry(Regular, TaskFile(task))];
      if ChangedPaths(tree, mutated) != {TaskPath(e.taskId)} then Reject else Author(mutated)
  }

  /** The revision main holds for a TASK; 0 when it holds none. */
  function RevisionAt(store: Store, sha: Sha, id: string): int
    requires sha < |store|
  {
    match BlobAt(store[sha].tree, TaskPath(id))
    case Some(TaskFile(task)) => task.revision
    case _ => 0
  }

  /** The commit is this request's mutation of the main it leased, and of nothing else. */
  ghost predicate Authored(store: Store, w: Writer) {
    && w.request.AuthorTask?
    && w.lease.Some? && w.lease.value < |store| && w.commit < |store|
    && Decide(store, w.lease.value, w.request.task).Author?
    && store[w.commit] == Commit([w.lease.value], Decide(store, w.lease.value, w.request.task).tree)
  }

  ghost predicate SameTasks(before: Tree, after: Tree) {
    forall id :: BlobAt(before, TaskPath(id)) == BlobAt(after, TaskPath(id))
  }

  /**
   Only AUTHOR_TASK enters the publisher for main, with a commit made for the remote main
   it once read; the Publisher moves main without touching a TASK.  That the local main
   was found equal at some later moment only makes fewer requests enter.
   */
  ghost predicate Admits(s: World, a: Action) {
    match a
    case Begin(_, w) =>
      w.place.ref == Main ==> Authored(s.store, w)
    case PublishMain(sha) =>
      Main in s.remote && s.remote[Main] < |s.store| && sha < |s.store| &&
      SameTasks(s.store[s.remote[Main]].tree, s.store[sha].tree)
    case _ => true
  }

  // ----- What one authored commit is -----

  lemma AuthoredCommit(store: Store, w: Writer)
    requires Authored(store, w)
    ensures var task := w.request.task.task.value;
            && store[w.commit].parents == [w.lease.value]
            && w.request.task.expectedMain == w.lease
            && ChangedPaths(store[w.lease.value].tree, store[w.commit].tree) == {TaskPath(task.id)}
            && BlobAt(store[w.commit].tree, TaskPath(task.id)) == Some(TaskFile(task))
            && task.revision == RevisionAt(store, w.lease.value, task.id) + 1
            && (forall id :: id != task.id ==>
                  BlobAt(store[w.commit].tree, TaskPath(id)) == BlobAt(store[w.lease.value].tree, TaskPath(id)))
  {
    var task := w.request.task.task.value;
    forall id | id != task.id
      ensures BlobAt(store[w.commit].tree, TaskPath(id)) == BlobAt(store[w.lease.value].tree, TaskPath(id))
    {
      if TaskPath(id) == TaskPath(task.id) {
        TaskPathInjective(id, task.id);
      }
    }
  }

  lemma AuthoredStable(store: Store, grown: Store, w: Writer)
    requires Authored(store, w) && store <= grown
    ensures Authored(grown, w)
  {
  }

  // ----- Invariant of the log of main -----

  ghost predicate AuthorsOk(s: World) {
    forall id :: id in s.writers && s.writers[id].place.ref == Main ==> Authored(s.store, s.writers[id])
  }

  /** One move of main: one author's commit onto the value it leased, or the Publisher's. */
  ghost predicate MoveOk(s: World, before: Value, after: Value) {
    && before.sha < |s.store| && after.sha < |s.store|
    && match after.author
       case Some(id) =>
         && id in s.writers
         && s.writers[id].lease == Some(before.sha) && s.writers[id].commit == after.sha
         && Authored(s.store, s.writers[id])
       case None =>
         && Ancestor(s.store, before.sha, after.sha)
         && SameTasks(s.store[before.sha].tree, s.store[after.sha].tree)
  }

  ghost predicate MoveAt(s: World, i: nat)
    requires 0 < i < |s.mainLog|
  {
    MoveOk(s, s.mainLog[i - 1], s.mainLog[i])
  }

  ghost predicate LogOk(s: World) {
    && (forall i :: 0 < i < |s.mainLog| ==> MoveAt(s, i))
    && (0 < |s.mainLog| ==> s.mainLog[0].author == None && s.mainLog[0].sha < |s.store|)
  }

  lemma MoveStable(s: World, t: World, before: Value, after: Value)
    requires MoveOk(s, before, after) && Extends(s, t)
    ensures MoveOk(t, before, after)
  {
    if after.author.None? {
      AncestorStable(s.store, t.store, before.sha, after.sha);
    } else {
      AuthoredStable(s.store, t.store, s.writers[after.author.value]);
    }
  }

  lemma StepKeepsAuthors(s: World, a: Action)
    requires Invariant(s) && AuthorsOk(s) && Enabled(s, a) && Admits(s, a)
    ensures AuthorsOk(Next(s, a))
  {
    var t := Next(s, a);
    StepExtends(s, a);
    forall id | id in t.writers && t.writers[id].place.ref == Main
      ensures Authored(t.store, t.writers[id])
    {
      if id in s.writers {
        AuthoredStable(s.store, t.store, s.writers[id]);
      }
    }
  }

  /** One step adds at most one value to the log. */
  lemma LogGrows(s: World, a: Action)
    requires Invariant(s) && Enabled(s, a)
    ensures s.mainLog <= Next(s, a).mainLog && |Next(s, a).mainLog| <= |s.mainLog| + 1
  {
  }

  lemma StepKeepsLog(s: World, a: Action)
    requires Invariant(s) && AuthorsOk(s) && LogOk(s) && Enabled(s, a) && Admits(s, a)
    ensures AuthorsOk(Next(s, a)) && LogOk(Next(s, a))
  {
    var t := Next(s, a);
    StepKeepsAuthors(s, a);
    StepExtends(s, a);
    LogGrows(s, a);
    LogOkGrows(s, t, a);
  }

  lemma LogOkGrows(s: World, t: World, a: Action)
    requires Invariant(s) && AuthorsOk(s) && LogOk(s) && Enabled(s, a) && Admits(s, a) && t == Next(s, a)
    requires Extends(s, t) && s.mainLog <= t.mainLog && |t.mainLog| <= |s.mainLog| + 1
    ensures LogOk(t)
  {
    var n := |s.mainLog|;
    forall i | 0 < i < |t.mainLog|
      ensures MoveAt(t, i)
    {
      assert t.mainLog[i - 1] == s.mainLog[i - 1];
      if i < n {
        assert MoveAt(s, i);
        assert t.mainLog[i] == s.mainLog[i];
        MoveStable(s, t, s.mainLog[i - 1], s.mainLog[i]);
      } else {
        NewMove(s, a);
      }
    }
    assert t.mainLog[0] == s.mainLog[0];
  }

  lemma NewMove(s: World, a: Action)
    requires Invariant(s) && AuthorsOk(s) && LogOk(s) && Enabled(s, a) && Admits(s, a)
    requires |Next(s, a).mainLog| == |s.mainLog| + 1
    ensures MoveOk(Next(s, a), s.mainLog[|s.mainLog| - 1], Next(s, a).mainLog[|s.mainLog|])
  {
    var n := |s.mainLog|;
    assert s.mainLog[n - 1].sha == s.remote[Main];
    assert (Main, s.remote[Main]) in s.canonical;
    match a
    case Push(id, _) =>
      assert WriterOk(s, s.writers[id]);
      assert Next(s, a).mainLog[n] == Value(s.writers[id].commit, Some(id));
    case PublishMain(sha) =>
      assert Next(s, a).mainLog[n] == Value(sha, None);
    case _ =>
  }

  lemma {:induction false} RunKeepsLog(s: World, schedule: seq<Action>)
    requires Invariant(s) && AuthorsOk(s) && LogOk(s) && Run(s, schedule, Admits)
    ensures Invariant(After(s, schedule)) && AuthorsOk(After(s, schedule)) && LogOk(After(s, schedule))
    decreases |schedule|
  {
    if schedule != [] {
      StepKeeps(s, schedule[0]);
      StepKeepsLog(s, schedule[0]);
      RunKeepsLog(Next(s, schedule[0]), schedule[1..]);
    }
  }

  lemma Reachable(start: World, schedule: seq<Action>)
    requires Initial(start) && Run(start, schedule, Admits)
    ensures var s := After(start, schedule);
            Invariant(s) && AuthorsOk(s) && LogOk(s) && Extends(start, s)
  {
    InitialHolds(start);
    RunKeepsLog(start, schedule);
    RunExtends(start, schedule, Admits);
  }

  // ----- No lost update -----

  lemma MoveIsAncestry(s: World, j: nat)
    requires LogOk(s) && Sound(s.store) && 0 < j < |s.mainLog|
    ensures s.mainLog[j].sha < |s.store| && Ancestor(s.store, s.mainLog[j - 1].sha, s.mainLog[j].sha)
  {
    assert MoveAt(s, j);
    var before, after := s.mainLog[j - 1].sha, s.mainLog[j].sha;
    if s.mainLog[j].author.Some? {
      assert s.store[after].parents == [before];
      assert s.store[after].parents[0] < after;
      assert Ancestor(s.store, before, s.store[after].parents[0]);
    }
  }

  lemma {:induction false} LogIsAncestry(s: World, i: nat, j: nat)
    requires LogOk(s) && Sound(s.store) && i <= j < |s.mainLog|
    ensures s.mainLog[j].sha < |s.store|
    ensures Ancestor(s.store, s.mainLog[i].sha, s.mainLog[j].sha)
    decreases j
  {
    if 0 < j {
      MoveIsAncestry(s, j);
    }
    if i < j {
      LogIsAncestry(s, i, j - 1);
      AncestorTransitive(s.store, s.mainLog[i].sha, s.mainLog[j - 1].sha, s.mainLog[j].sha);
    }
  }

  lemma CanonicalMainIsAncestor(s: World, sha: Sha)
    requires Invariant(s) && LogOk(s) && (Main, sha) in s.canonical
    ensures Ancestor(s.store, sha, s.remote[Main])
  {
    var i :| 0 <= i < |s.mainLog| && s.mainLog[i].sha == sha;
    LogIsAncestry(s, i, |s.mainLog| - 1);
  }

  /**
   Every commit a writer pushed to main, and so every one reported as CANONICALIZED,
   is an ancestor of main now and for ever.  Every writer builds on a value remote
   main really had, whatever the local mains hold.
   */
  lemma NoLostUpdate(start: World, schedule: seq<Action>, n: nat, id: nat)
    requires Initial(start) && Run(start, schedule, Admits) && n <= |schedule|
    requires id in After(start, schedule[..n]).writers && After(start, schedule[..n]).writers[id].place.ref == Main
    ensures var now, later := After(start, schedule[..n]), After(start, schedule);
            var w := now.writers[id];
            && Main in later.remote
            && w.lease.Some? && (Main, w.lease.value) in now.canonical
            && (w.phase in {Returned, Reread, Confirmed, Unconfirmed} ==>
                  Ancestor(later.store, w.commit, later.remote[Main]))
  {
    RunPrefix(start, schedule, n, Admits);
    Reachable(start, schedule[..n]);
    Reachable(start, schedule);
    var now, later := After(start, schedule[..n]), After(start, schedule);
    RunExtends(now, schedule[n..], Admits);
    var w := now.writers[id];
    assert WriterOk(now, w);
    if w.phase in {Returned, Reread, Confirmed, Unconfirmed} {
      CanonicalMainIsAncestor(later, w.commit);
    }
  }

  /** Every move of main by an author goes from a commit to its direct child, and changes one TASK file. */
  lemma AuthorsAppendOneCommit(start: World, schedule: seq<Action>, i: nat)
    requires Initial(start) && Run(start, schedule, Admits)
    requires 0 < i < |After(start, schedule).mainLog| && After(start, schedule).mainLog[i].author.Some?
    ensures var s := After(start, schedule);
            var before, after := s.mainLog[i - 1].sha, s.mainLog[i].sha;
            && before < |s.store| && after < |s.store|
            && s.store[after].parents == [before]
            && exists id :: ChangedPaths(s.store[before].tree, s.store[after].tree) == {TaskPath(id)} &&
                            RevisionAt(s.store, after, id) == RevisionAt(s.store, before, id) + 1
  {
    Reachable(start, schedule);
    var s := After(start, schedule);
    assert MoveAt(s, i);
    var w := s.writers[s.mainLog[i].author.value];
    AuthoredCommit(s.store, w);
    var id := w.request.task.task.value.id;
    assert RevisionAt(s.store, w.commit, id) == RevisionAt(s.store, w.lease.value, id) + 1;
  }

  // ----- Revisions -----

  /** The revisions of one TASK that authors moved main to, in order, over a prefix of the log. */
  ghost function AuthoredRevisions(s: World, n: nat, id: string): seq<int>
    requires n <= |s.mainLog|
  {
    if n == 0 then []
    else
      var value := s.mainLog[n - 1];
      var before := AuthoredRevisions(s, n - 1, id);
      if Authors(s, value, id)
      then before + [s.writers[value.author.value].request.task.task.value.revision]
      else before
  }

  /** This value of main was written by an author of this TASK. */
  ghost predicate Authors(s: World, value: Value, id: string) {
    && value.author.Some? && value.author.value in s.writers
    && var request := s.writers[value.author.value].request;
    request.AuthorTask? && request.task.task.Some? && request.task.task.value.id == id
  }

  /** lo + 1, lo + 2, ..., hi. */
  function Consecutive(lo: int, hi: int): seq<int>
    requires lo <= hi
  {
    seq(hi - lo, i => lo + 1 + i)
  }

  lemma {:induction false} RevisionsAreConsecutive(s: World, n: nat, id: string)
    requires LogOk(s) && 0 < n <= |s.mainLog|
    ensures s.mainLog[0].sha < |s.store| && s.mainLog[n - 1].sha < |s.store|
    ensures RevisionAt(s.store, s.mainLog[0].sha, id) <= RevisionAt(s.store, s.mainLog[n - 1].sha, id)
    ensures AuthoredRevisions(s, n, id) ==
            Consecutive(RevisionAt(s.store, s.mainLog[0].sha, id), RevisionAt(s.store, s.mainLog[n - 1].sha, id))
  {
    if n == 1 {
      assert AuthoredRevisions(s, 0, id) == [];
    } else {
      RevisionsAreConsecutive(s, n - 1, id);
      MoveRevision(s, n - 1, id);
      var first, last := RevisionAt(s.store, s.mainLog[0].sha, id), RevisionAt(s.store, s.mainLog[n - 2].sha, id);
      assert Consecutive(first, last) + [last + 1] == Consecutive(first, last + 1);
    }
  }

  /** One move raises the revision of the TASK its author wrote by one, and no other. */
  lemma MoveRevision(s: World, i: nat, id: string)
    requires LogOk(s) && 0 < i < |s.mainLog|
    ensures s.mainLog[i - 1].sha < |s.store| && s.mainLog[i].sha < |s.store|
    ensures RevisionAt(s.store, s.mainLog[i].sha, id) ==
            RevisionAt(s.store, s.mainLog[i - 1].sha, id) + (if Authors(s, s.mainLog[i], id) then 1 else 0)
    ensures Authors(s, s.mainLog[i], id) ==>
              s.writers[s.mainLog[i].author.value].request.task.task.value.revision ==
              RevisionAt(s.store, s.mainLog[i].sha, id)
  {
    assert MoveAt(s, i);
    var before, after := s.mainLog[i - 1], s.mainLog[i];
    if after.author.Some? {
      AuthoredCommit(s.store, s.writers[after.author.value]);
    } else {
      assert BlobAt(s.store[before.sha].tree, TaskPath(id)) == BlobAt(s.store[after.sha].tree, TaskPath(id));
    }
  }

  /**
   Over every run with any number of authors, the revisions of each TASK that authors
   put on main are, in order, exactly the successors of the revision main started
   with: 1, 2, 3, ... for a new TASK.
   */
  lemma RevisionHistory(start: World, schedule: seq<Action>, id: string)
    requires Initial(start) && Run(start, schedule, Admits)
    ensures var s := After(start, schedule);
            && Main in s.remote && s.remote[Main] < |s.store| && start.remote[Main] < |start.store|
            && RevisionAt(start.store, start.remote[Main], id) <= RevisionAt(s.store, s.remote[Main], id)
            && AuthoredRevisions(s, |s.mainLog|, id) ==
               Consecutive(RevisionAt(start.store, start.remote[Main], id), RevisionAt(s.store, s.remote[Main], id))
  {
    Reachable(start, schedule);
    var s := After(start, schedule);
    RevisionsAreConsecutive(s, |s.mainLog|, id);
    assert s.mainLog[0] == start.mainLog[0];
  }

  lemma {:induction false} RevisionsGrow(s: World, id: string, i: nat, j: nat)
    requires LogOk(s) && i <= j < |s.mainLog|
    ensures s.mainLog[i].sha < |s.store| && s.mainLog[j].sha < |s.store|
    ensures RevisionAt(s.store, s.mainLog[i].sha, id) <= RevisionAt(s.store, s.mainLog[j].sha, id)
    ensures RevisionAt(s.store, s.mainLog[i].sha, id) == RevisionAt(s.store, s.mainLog[j].sha, id) ==>
              BlobAt(s.store[s.mainLog[i].sha].tree, TaskPath(id)) == BlobAt(s.store[s.mainLog[j].sha].tree, TaskPath(id))
    decreases j
  {
    if 0 < j {
      assert MoveAt(s, j);
    }
    if i < j {
      RevisionsGrow(s, id, i, j - 1);
      if s.mainLog[j].author.Some? {
        var w := s.writers[s.mainLog[j].author.value];
        AuthoredCommit(s.store, w);
        if w.request.task.task.value.id != id {
          assert BlobAt(s.store[s.mainLog[j - 1].sha].tree, TaskPath(id)) == BlobAt(s.store[s.mainLog[j].sha].tree, TaskPath(id));
        }
      } else {
        assert BlobAt(s.store[s.mainLog[j - 1].sha].tree, TaskPath(id)) == BlobAt(s.store[s.mainLog[j].sha].tree, TaskPath(id));
      }
    }
  }

  /** What one author's move did to the revision of its TASK. */
  lemma AuthoredMove(s: World, i: nat) returns (task: Task)
    requires LogOk(s) && 0 < i < |s.mainLog| && s.mainLog[i].author.Some?
    ensures s.mainLog[i].author.value in s.writers
    ensures var w := s.writers[s.mainLog[i].author.value];
            w.request.AuthorTask? && w.request.task.task == Some(task)
    ensures s.mainLog[i - 1].sha < |s.store| && s.mainLog[i].sha < |s.store|
    ensures RevisionAt(s.store, s.mainLog[i].sha, task.id) == task.revision
    ensures RevisionAt(s.store, s.mainLog[i - 1].sha, task.id) == task.revision - 1
  {
    assert MoveAt(s, i);
    var w := s.writers[s.mainLog[i].author.value];
    AuthoredCommit(s.store, w);
    task := w.request.task.task.value;
  }

  lemma LaterMoveIsHigher(s: World, i: nat, j: nat, a: Task, b: Task)
    requires LogOk(s) && 0 < i < j < |s.mainLog| && a.id == b.id
    requires s.mainLog[i].sha < |s.store| && s.mainLog[j - 1].sha < |s.store|
    requires RevisionAt(s.store, s.mainLog[i].sha, a.id) == a.revision
    requires RevisionAt(s.store, s.mainLog[j - 1].sha, b.id) == b.revision - 1
    ensures a.revision < b.revision
  {
    RevisionsGrow(s, a.id, i, j - 1);
  }

  /** However many writers carry it and however often, one envelope moves main at most once. */
  lemma AppliedAtMostOnce(start: World, schedule: seq<Action>, i: nat, j: nat)
    requires Initial(start) && Run(start, schedule, Admits)
    requires var s := After(start, schedule);
             && 0 < i < |s.mainLog| && 0 < j < |s.mainLog|
             && s.mainLog[i].author.Some? && s.mainLog[j].author.Some?
             && s.mainLog[i].author.value in s.writers && s.mainLog[j].author.value in s.writers
             && s.writers[s.mainLog[i].author.value].request == s.writers[s.mainLog[j].author.value].request
    ensures i == j
  {
    Reachable(start, schedule);
    var s := After(start, schedule);
    var a := AuthoredMove(s, i);
    var b := AuthoredMove(s, j);
    if i < j {
      LaterMoveIsHigher(s, i, j, a, b);
    } else if j < i {
      LaterMoveIsHigher(s, j, i, b, a);
    }
  }

  // ----- Replay -----

  /** Replaying an applied envelope at the very main it produced changes nothing. */
  lemma ImmediateReplay(store: Store, w: Writer)
    requires Authored(store, w)
    ensures Decide(store, w.commit, w.request.task) == Idempotent(w.commit)
  {
    AuthoredCommit(store, w);
  }

  /**
   Replaying it at any later main never authors again.  It is rejected, except in one
   case: the TASK is still at that revision and the first parent of main is the main
   the envelope expected, as after a merge that lists the old main first.
   */
  lemma LaterReplay(start: World, schedule: seq<Action>, i: nat, j: nat)
    requires Initial(start) && Run(start, schedule, Admits)
    requires var s := After(start, schedule);
             && 0 < i < j < |s.mainLog|
             && s.mainLog[i].author.Some? && s.mainLog[i].author.value in s.writers
             && s.writers[s.mainLog[i].author.value].request.AuthorTask?
             && s.mainLog[j].sha != s.mainLog[i].sha
    ensures var s := After(start, schedule);
            var e, main := s.writers[s.mainLog[i].author.value].request.task, s.mainLog[j].sha;
            && main < |s.store| && e.task.Some?
            && Decide(s.store, main, e) ==
               if RevisionAt(s.store, main, e.taskId) == e.task.value.revision && FirstParent(s.store, main) == e.expectedMain
               then Idempotent(main)
               else Reject
  {
    Reachable(start, schedule);
    var s := After(start, schedule);
    var w := s.writers[s.mainLog[i].author.value];
    MovedOn(s, i, j);
    assert MoveAt(s, i);
    ReplayAt(s.store, w, s.mainLog[j].sha);
  }

  /** What the log says about a main after an author's move. */
  lemma MovedOn(s: World, i: nat, j: nat)
    requires LogOk(s) && Sound(s.store) && 0 < i < j < |s.mainLog| && s.mainLog[i].author.Some?
    ensures s.mainLog[i].author.value in s.writers
    ensures var w, main := s.writers[s.mainLog[i].author.value], s.mainLog[j].sha;
            && Authored(s.store, w) && main < |s.store| && w.commit <= main
            && var task := w.request.task.task.value;
               task.revision <= RevisionAt(s.store, main, task.id) &&
               (task.revision == RevisionAt(s.store, main, task.id) ==>
                  BlobAt(s.store[main].tree, TaskPath(task.id)) == Some(TaskFile(task)))
  {
    assert MoveAt(s, i);
    var w := s.writers[s.mainLog[i].author.value];
    AuthoredCommit(s.store, w);
    RevisionsGrow(s, w.request.task.task.value.id, i, j);
    LogIsAncestry(s, i, j);
    AncestorIsOlder(s.store, w.commit, s.mainLog[j].sha);
  }

  lemma ReplayAt(store: Store, w: Writer, main: Sha)
    requires Sound(store) && Authored(store, w) && main < |store| && w.commit < main
    requires var task := w.request.task.task.value;
             task.revision <= RevisionAt(store, main, task.id) &&
             (task.revision == RevisionAt(store, main, task.id) ==>
                BlobAt(store[main].tree, TaskPath(task.id)) == Some(TaskFile(task)))
    ensures var e := w.request.task;
            Decide(store, main, e) ==
              if RevisionAt(store, main, e.taskId) == e.task.value.revision && FirstParent(store, main) == e.expectedMain
              then Idempotent(main)
              else Reject
  {
    AuthoredCommit(store, w);
    assert store[w.commit].parents[0] < w.commit;
  }

  // ----- The exception is real -----

  function FirstTask(): Task {
    Task("TASK-1", 1, Some(Legacy), true, "")
  }

  function FirstEnvelope(): TaskEnvelope {
    TaskEnvelope("TASK-1", Some(FirstTask()), Some(0))
  }

  function FirstTree(): Tree {
    map[TaskPath("TASK-1") := Entry(Regular, TaskFile(FirstTask()))]
  }

  function FirstWriter(phase: Phase): Writer {
    Writer(Place(0, Main), Some(0), 1, Request.AuthorTask(FirstEnvelope()), phase)
  }

  /** An empty repository, the authored commit, and a merge of it into the old main. */
  function MergeStore(n: nat): Store
    requires 1 <= n <= 3
  {
    [Commit([], map[]), Commit([0], FirstTree()), Commit([0, 1], FirstTree())][..n]
  }

  lemma MergeStoreFacts()
    ensures Consistent(FirstTree()) && NamesOnlyOlder(FirstTree(), 1) && NamesOnlyOlder(FirstTree(), 2)
    ensures Sound(MergeStore(1)) && Authored(MergeStore(2), FirstWriter(Entered))
    ensures Ancestor(MergeStore(3), 1, 2) && SameTasks(FirstTree(), FirstTree())
    ensures Decide(MergeStore(3), 2, FirstEnvelope()) == Idempotent(2)
    ensures MergeStore(1) + [Commit([0], FirstTree())] == MergeStore(2)
    ensures MergeStore(2) + [Commit([0, 1], FirstTree())] == MergeStore(3)
  {
    var none: Tree := map[];
    assert none[TaskPath("TASK-1") := Entry(Regular, TaskFile(FirstTask()))] == FirstTree();
    ChangedExactlyOne(none, FirstTree(), TaskPath("TASK-1"), Entry(Regular, TaskFile(FirstTask())));
    assert !Under(TaskPath("TASK-1"), TaskPath("TASK-1"));
    assert Decide(MergeStore(2), 0, FirstEnvelope()) == Author(FirstTree());
    assert MergeStore(3)[2].parents[1] == 1 && Ancestor(MergeStore(3), 1, MergeStore(3)[2].parents[1]);
  }

  /** `n` commits are stored, remote main moved from 0 up to `main`, and the writer is in this phase. */
  function Stage(n: nat, main: nat, local: Sha, phase: Option<Phase>): World
    requires 1 <= n <= 3 && main <= 2
  {
    World(MergeStore(n), map[Main := main], map[Place(0, Main) := local],
          if phase.Some? then map[0 := FirstWriter(phase.value)] else map[], map[],
          if main == 0 then {(Main, 0)} else if main == 1 then {(Main, 0), (Main, 1)} else {(Main, 0), (Main, 1), (Main, 2)},
          map[Place(0, Main) := 0], [Value(0, None), Value(1, Some(0)), Value(2, None)][..main + 1])
  }

  /** The writer publishes its commit, and somebody merges it into the main it was based on. */
  function MergeRun(): seq<Action> {
    [WriteCommit(Commit([0], FirstTree())), Begin(0, FirstWriter(Entered)), LocalCas(0), Recheck(0, true), Push(0, Landed),
     WriteCommit(Commit([0, 1], FirstTree())), PublishMain(2)]
  }

  lemma WriteStep()
    ensures Leads(Stage(1, 0, 0, None), MergeRun()[0], Stage(2, 0, 0, None))
  {
    MergeStoreFacts();
  }

  lemma BeginStep()
    ensures Leads(Stage(2, 0, 0, None), MergeRun()[1], Stage(2, 0, 0, Some(Entered)))
  {
    MergeStoreFacts();
  }

  lemma LocalSteps()
    ensures Leads(Stage(2, 0, 0, Some(Entered)), MergeRun()[2], Stage(2, 0, 1, Some(LocalSet)))
    ensures Leads(Stage(2, 0, 1, Some(LocalSet)), MergeRun()[3], Stage(2, 0, 1, Some(Cleared)))
  {
  }

  lemma PushStep()
    ensures Leads(Stage(2, 0, 1, Some(Cleared)), MergeRun()[4], Stage(2, 1, 1, Some(Returned)))
  {
  }

  lemma MergeStep()
    ensures Leads(Stage(2, 1, 1, Some(Returned)), MergeRun()[5], Stage(3, 1, 1, Some(Returned)))
  {
    MergeStoreFacts();
  }

  lemma PublishStep()
    ensures Leads(Stage(3, 1, 1, Some(Returned)), MergeRun()[6], Stage(3, 2, 1, Some(Returned)))
  {
    MergeStoreFacts();
  }

  ghost predicate Leads(s: World, a: Action, t: World) {
    Enabled(s, a) && Admits(s, a) && Next(s, a) == t
  }

  lemma RunStep(s: World, run: seq<Action>, t: World)
    requires run != [] && Leads(s, run[0], t) && Run(t, run[1..], Admits)
    ensures Run(s, run, Admits) && After(s, run) == After(t, run[1..])
  {
  }

  /** Three steps at the front of a run. */
  lemma ThreeSteps(run: seq<Action>, s: World, t: World, u: World, v: World)
    requires |run| >= 3 && Leads(s, run[0], t) && Leads(t, run[1], u) && Leads(u, run[2], v)
    requires Run(v, run[3..], Admits)
    ensures Run(s, run, Admits) && After(s, run) == After(v, run[3..])
  {
    assert run[2..][1..] == run[3..] && run[1..][1..] == run[2..];
    RunStep(u, run[2..], v);
    RunStep(t, run[1..], u);
    RunStep(s, run, t);
  }

  lemma MergeRunEnds(run: seq<Action>)
    requires run == MergeRun()
    ensures Run(Stage(2, 0, 1, Some(Cleared)), run[4..], Admits)
    ensures After(Stage(2, 0, 1, Some(Cleared)), run[4..]) == Stage(3, 2, 1, Some(Returned))
  {
    PushStep();
    MergeStep();
    PublishStep();
    assert run[4..][3..] == [];
    ThreeSteps(run[4..], Stage(2, 0, 1, Some(Cleared)), Stage(2, 1, 1, Some(Returned)), Stage(3, 1, 1, Some(Returned)),
               Stage(3, 2, 1, Some(Returned)));
  }

  lemma MergeRunLeads(start: World, run: seq<Action>)
    requires start == Stage(1, 0, 0, None) && run == MergeRun()
    ensures Run(start, run, Admits) && After(start, run) == Stage(3, 2, 1, Some(Returned))
  {
    MergeRunEnds(run);
    WriteStep();
    BeginStep();
    LocalSteps();
    assert run[3..][1..] == run[4..];
    RunStep(Stage(2, 0, 1, Some(LocalSet)), run[3..], Stage(2, 0, 1, Some(Cleared)));
    ThreeSteps(run, start, Stage(2, 0, 0, None), Stage(2, 0, 0, Some(Entered)), Stage(2, 0, 1, Some(LocalSet)));
  }

  lemma StartIsInitial(start: World)
    requires start == Stage(1, 0, 0, None)
    ensures Initial(start)
  {
    MergeStoreFacts();
  }

  /** The writer returned normally, main has moved on to the merge, and the envelope is answered IDEMPOTENT there. */
  ghost predicate RepliesAtMerge(end: World) {
    && end.writers == map[0 := FirstWriter(Returned)] && Lookup(end.remote, Main) == Some(2)
    && |end.store| == 3 && Decide(end.store, 2, FirstEnvelope()) == Idempotent(2)
  }

  lemma EndReplies(end: World)
    requires end == Stage(3, 2, 1, Some(Returned))
    ensures RepliesAtMerge(end)
  {
    MergeStoreFacts();
  }

  /** An envelope that was published is answered IDEMPOTENT at a later main. */
  lemma MergeReplayIsAccepted(start: World, run: seq<Action>)
    requires start == Stage(1, 0, 0, None) && run == MergeRun()
    ensures Initial(start) && Run(start, run, Admits) && RepliesAtMerge(After(start, run))
  {
    StartIsInitial(start);
    MergeRunLeads(start, run);
    EndReplies(After(start, run));
  }
}
