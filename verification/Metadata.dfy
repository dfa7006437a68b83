/**
 Metadata commits: one commit that adds a single regular file to its parent.  The
 builder writes one, the validator recognises one, and both are decoded Git facts.
 */
module Metadata {
  import opened Prelude
  import opened Git

  /** Adding `path` would make some file a directory as well: the index refuses it. */
  predicate Collides(tree: Tree, path: Path) {
    exists p :: p in tree && (Under(p, path) || Under(path, p))
  }

  function TreeWithMetadata(tree: Tree, path: Path, document: Document, replaceExisting: bool): Result<Tree> {
    if !replaceExisting && BlobAt(tree, path).Some? then
      Rejected
    else if Collides(tree, path) then
      Rejected
    else
      Accepted(tree[path := Entry(Regular, document)])
  }

  function ChangedPaths(before: Tree, after: Tree): set<Path> {
    (set p | p in before && (p !in after || after[p] != before[p])) +
    (set p | p in after && p !in before)
  }

  /** The structural test, in the order the source makes it. */
  predicate ValidMetadataCommit(store: Store, sha: Sha, parent: Sha, path: Path, document: Document) {
    && sha < |store|
    && store[sha].parents == [parent]
    && parent < |store|
    && ChangedPaths(store[parent].tree, store[sha].tree) == {path}
    && path in store[sha].tree
    && store[sha].tree[path].mode == Regular
    && BlobAt(store[sha].tree, path) == Some(document)
  }

  lemma ChangedExactlyOne(before: Tree, after: Tree, path: Path, entry: Entry)
    requires path in after && after[path] == entry
    ensures ChangedPaths(before, after) == {path} <==>
            after == before[path := entry] && !(path in before && before[path] == entry)
  {
    var changed := ChangedPaths(before, after);
    if changed == {path} {
      assert path in changed;
      forall p | p in after || p in before
        ensures p != path ==> p in before && p in after && after[p] == before[p]
      {
        assert p in changed <==> p == path;
      }
      assert after.Keys == before[path := entry].Keys;
    }
    if after == before[path := entry] && !(path in before && before[path] == entry) {
      assert path in changed;
    }
  }

  /** What the validator accepts, with no side condition on the parent at all. */
  lemma ValidatorExact(store: Store, sha: Sha, parent: Sha, path: Path, document: Document)
    requires parent < |store|
    ensures ValidMetadataCommit(store, sha, parent, path, document) <==>
            && sha < |store|
            && store[sha].parents == [parent]
            && store[sha].tree == store[parent].tree[path := Entry(Regular, document)]
            && !(path in store[parent].tree && store[parent].tree[path] == Entry(Regular, document))
  {
    if sha < |store| && path in store[sha].tree {
      ChangedExactlyOne(store[parent].tree, store[sha].tree, path, store[sha].tree[path]);
    }
  }

  lemma AddedFileCollidesWithNothing(before: Tree, path: Path, entry: Entry)
    requires Consistent(before)
    ensures Consistent(before[path := entry]) <==> !Collides(before, path)
  {
    var after := before[path := entry];
    if Consistent(after) {
      forall p | p in before
        ensures !Under(p, path) && !Under(path, p)
      {
        assert p in after && path in after;
      }
    }
    if !Collides(before, path) {
      forall p, q | p in after && q in after
        ensures !Under(p, q)
      {
        assert !Under(path, path);
      }
    }
  }

  /**
   With no blob yet at the path, validator and builder agree exactly: a commit is
   accepted if and only if its sole parent is the expected one and its tree is the
   one the builder makes.  The built commit is therefore always accepted, and a
   replay is never recognised in any other commit.
   */
  lemma BuilderAndValidatorAgree(store: Store, sha: Sha, parent: Sha, path: Path, document: Document)
    requires Sound(store) && parent < |store|
    requires BlobAt(store[parent].tree, path).None?
    ensures ValidMetadataCommit(store, sha, parent, path, document) <==>
            && sha < |store|
            && store[sha].parents == [parent]
            && TreeWithMetadata(store[parent].tree, path, document, false) == Accepted(store[sha].tree)
  {
    ValidatorExact(store, sha, parent, path, document);
    if sha < |store| {
      assert Consistent(store[parent].tree) && Consistent(store[sha].tree);
      AddedFileCollidesWithNothing(store[parent].tree, path, Entry(Regular, document));
    }
  }

  /** A commit accepted for one request is accepted for no other content, path or parent. */
  lemma AcceptedRequestIsUnique(store: Store, sha: Sha, parent: Sha, path: Path, document: Document,
                                otherParent: Sha, otherPath: Path, other: Document)
    requires ValidMetadataCommit(store, sha, parent, path, document)
    requires ValidMetadataCommit(store, sha, otherParent, otherPath, other)
    ensures otherParent == parent && otherPath == path && other == document
  {
    assert [parent][0] == [otherParent][0];
    assert path in {otherPath};
  }

  /** Every tree the builder hands out can be stored: no file is also a directory. */
  lemma BuiltTreeIsConsistent(tree: Tree, path: Path, document: Document, replaceExisting: bool)
    requires Consistent(tree) && TreeWithMetadata(tree, path, document, replaceExisting).Accepted?
    ensures Consistent(TreeWithMetadata(tree, path, document, replaceExisting).value)
    ensures BlobAt(TreeWithMetadata(tree, path, document, replaceExisting).value, path) == Some(document)
    ensures forall p :: p != path ==>
              BlobAt(TreeWithMetadata(tree, path, document, replaceExisting).value, p) == BlobAt(tree, p)
  {
    AddedFileCollidesWithNothing(tree, path, Entry(Regular, document));
  }
}
