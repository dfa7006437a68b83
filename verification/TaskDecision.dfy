/**
 What AUTHOR_TASK answers at one main, in terms of the file main holds for the TASK and the
 fields of the envelope: an independent account of the decision, with which the decision
 procedure is proved to agree on every input.
 */
module TaskDecision {
  import opened Prelude
  import opened Git
  import opened Metadata
  import opened Publication
  import opened AuthorTask

  /** The envelope carries a TASK under its own id and says which main it expects. */
  ghost predicate Formed(e: TaskEnvelope) {
    e.task.Some? && e.task.value.id == e.taskId && e.expectedMain.Some?
  }

  /** The same TASK, field by field; no affinity is the legacy one. */
  ghost predicate SameFields(a: Task, b: Task) {
    && a.id == b.id && a.revision == b.revision && a.currentPolicy == b.currentPolicy && a.body == b.body
    && (a.affinity == b.affinity
        || (a.affinity == None && b.affinity == Some(Legacy)) || (a.affinity == Some(Legacy) && b.affinity == None))
  }

  /** Main holds this very TASK, and is the expected main or has it as first parent. */
  ghost predicate Replays(store: Store, main: Sha, e: TaskEnvelope)
    requires main < |store|
  {
    && Formed(e)
    && (exists held :: BlobAt(store[main].tree, TaskPath(e.taskId)) == Some(TaskFile(held)) && SameFields(held, e.task.value))
    && (e.expectedMain.value == main || (store[main].parents != [] && store[main].parents[0] == e.expectedMain.value))
  }

  /** The next revision, with the affinity of the one before it; the first revision where main holds no such file. */
  ghost predicate NextRevision(held: Option<Document>, t: Task) {
    || (held == None && t.revision == 1)
    || (held.Some? && held.value.TaskFile? && t.revision == held.value.task.revision + 1 &&
        t.affinity == Some(if held.value.task.affinity == None then Legacy else held.value.task.affinity.value))
  }

  /** A mutation of exactly the expected main: one file, at the TASK path, in a place where it fits. */
  ghost predicate Authors(store: Store, main: Sha, e: TaskEnvelope, tree: Tree)
    requires main < |store|
  {
    var before, path := store[main].tree, TaskPath(e.taskId);
    && Formed(e) && e.expectedMain.value == main
    && e.task.value.currentPolicy && e.task.value.affinity.Some? && NextRevision(BlobAt(before, path), e.task.value)
    && (forall p :: p in before ==> !Under(p, path) && !Under(path, p))
    && tree == before[path := Entry(Regular, TaskFile(e.task.value))]
  }

  /** The answer at every main to every envelope: replay, mutation, or refusal, each under exactly its conditions. */
  lemma DecisionTable(store: Store, main: Sha, e: TaskEnvelope)
    requires main < |store|
    ensures forall sha :: Decide(store, main, e) == Idempotent(sha) <==> sha == main && Replays(store, main, e)
    ensures forall tree :: Decide(store, main, e) == Author(tree) <==> Authors(store, main, e, tree)
  {
    var before, path := store[main].tree, TaskPath(e.taskId);
    assert Collides(before, path) <==> !(forall p :: p in before ==> !Under(p, path) && !Under(path, p));
    if Formed(e) {
      var entry := Entry(Regular, TaskFile(e.task.value));
      ChangedExactlyOne(before, before[path := entry], path, entry);
      if BlobAt(before, path).Some? && BlobAt(before, path).value.TaskFile? {
        var held := BlobAt(before, path).value.task;
        assert SameFields(held, e.task.value) <==> SameTask(held, e.task.value);
      }
    }
  }
}
