/**
 The abstract Git every other module shares: an append-only object store, trees as
 maps from full path to entry, and ancestry.

 A commit id is the position at which the commit entered the store, so a parent is
 always older than its child.  Writing a commit that is already stored may hand back
 the old id, as content addressing does, or a new one, as a later time stamp does.
 */
module Git {
  import opened Prelude

  type Sha = nat

  datatype Affinity = Legacy | Origin(handle: string, generation: nat)

  /** A parsed `.ai/tasks/<id>.yaml`; `body` stands for every other field. */
  datatype Task = Task(
    id: string, revision: int, affinity: Option<Affinity>, currentPolicy: bool, body: string)

  datatype TaskReference = TaskReference(id: string, revision: int)

  /** A parsed REPAIR authorization; `body` stands for its action and scope. */
  datatype Repair = Repair(failedRun: string, failedHead: Sha, task: TaskReference, body: string)

  datatype Supersession = Supersession(
    failedRun: string, revision: nat, predecessor: Sha, failureArtifacts: Sha)

  /** A parsed remediation: the finding it answers, how, and at which reviewed commit. */
  datatype Correction = Correction(finding: string, action: string, reviewed: Sha)

  datatype Document =
    | TaskFile(task: Task)
    | RepairFile(repair: Repair)
    | SupersessionFile(supersession: Supersession)
    | Bytes(text: string)

  datatype Mode = Regular | Executable | Symlink | Gitlink

  datatype Entry = Entry(mode: Mode, document: Document)

  type Path = string
  type Tree = map<Path, Entry>

  datatype Commit = Commit(parents: seq<Sha>, tree: Tree)

  type Store = seq<Commit>

  /**
   Parents are stored before their children, no file is also a directory, and a file
   cannot name a commit made after it.
   */
  ghost predicate Sound(store: Store) {
    && (forall i, k :: 0 <= i < |store| && 0 <= k < |store[i].parents| ==> store[i].parents[k] < i)
    && (forall i :: 0 <= i < |store| ==> Consistent(store[i].tree) && NamesOnlyOlder(store[i].tree, i))
  }

  ghost predicate NamesOnlyOlder(tree: Tree, sha: Sha) {
    forall p :: p in tree && tree[p].document.SupersessionFile? ==>
      tree[p].document.supersession.predecessor < sha
  }

  /** `inner` lies in the directory `outer` would be if it were one. */
  predicate Under(inner: Path, outer: Path) {
    |outer| < |inner| && inner[..|outer|] == outer && inner[|outer|] == '/'
  }

  lemma UnderExactly(inner: Path, outer: Path)
    ensures Under(inner, outer) <==> exists rest :: inner == outer + "/" + rest
  {
    if Under(inner, outer) {
      assert inner == outer + "/" + inner[|outer| + 1..];
    }
    if rest :| inner == outer + "/" + rest {
      assert inner[..|outer|] == outer && inner[|outer|] == '/';
    }
  }

  ghost predicate Consistent(tree: Tree) {
    forall p, q :: p in tree && q in tree ==> !Under(p, q)
  }

  /** The blob a tree holds at exactly this path; a submodule link is not a blob. */
  function BlobAt(tree: Tree, path: Path): Option<Document> {
    if path in tree && tree[path].mode != Gitlink then Some(tree[path].document) else None
  }

  /** Where the TASK of this id is kept. */
  function TaskPath(id: string): Path {
    ".ai/tasks/" + id + ".yaml"
  }

  /** Reflexive ancestry along any parent. */
  predicate Ancestor(store: Store, older: Sha, newer: Sha)
    decreases newer
  {
    || older == newer
    || (newer < |store| &&
        exists k :: 0 <= k < |store[newer].parents| && store[newer].parents[k] < newer &&
                    Ancestor(store, older, store[newer].parents[k]))
  }

  lemma {:induction false} AncestorTransitive(store: Store, a: Sha, b: Sha, c: Sha)
    requires Ancestor(store, a, b) && Ancestor(store, b, c)
    ensures Ancestor(store, a, c)
    decreases c
  {
    if b != c {
      var k :| 0 <= k < |store[c].parents| && store[c].parents[k] < c &&
               Ancestor(store, b, store[c].parents[k]);
      AncestorTransitive(store, a, b, store[c].parents[k]);
    }
  }

  /** Commits added later leave the ancestry of the commits already there alone. */
  lemma {:induction false} AncestorStable(store: Store, grown: Store, a: Sha, b: Sha)
    requires store <= grown && b < |store|
    ensures Ancestor(store, a, b) <==> Ancestor(grown, a, b)
    decreases b
  {
    assert store[b] == grown[b];
    forall k | 0 <= k < |store[b].parents| && store[b].parents[k] < b
      ensures Ancestor(store, a, store[b].parents[k]) <==> Ancestor(grown, a, store[b].parents[k])
    {
      AncestorStable(store, grown, a, store[b].parents[k]);
    }
  }

  lemma {:induction false} AncestorIsOlder(store: Store, a: Sha, b: Sha)
    requires Ancestor(store, a, b)
    ensures a <= b
    decreases b
  {
    if a != b {
      var k :| 0 <= k < |store[b].parents| && store[b].parents[k] < b &&
               Ancestor(store, a, store[b].parents[k]);
      AncestorIsOlder(store, a, store[b].parents[k]);
    }
  }
}
