/**
 The pilot cohort read from Git: the first-parent chain of main, the boundary found by
 walking it back, and the loop that collects members.
 */
module PilotWalk {
  import opened Prelude
  import opened Text
  import opened Git
  import opened PilotCohort

  type Sha = Git.Sha

  const LIMIT: nat := 257

  datatype Pilot = Pilot(boundary: Sha, members: seq<Member>)

  // ----- TASK files -----

  predicate IdChar(c: char) {
    '0' <= c <= '9' || 'A' <= c <= 'Z' || 'a' <= c <= 'z' || c == '_' || c == '-'
  }

  predicate TaskId(id: string) {
    StartsWith(id, "TASK-") && 5 < |id| <= 95 && AllIn(id, IdChar)
  }

  lemma TaskIdExactly(id: string)
    ensures TaskId(id) <==> exists rest :: id == "TASK-" + rest && 1 <= |rest| <= 90 && AllIn(rest, IdChar)
  {
    if TaskId(id) {
      assert id == "TASK-" + id[5..];
    }
  }

  predicate Authored(tree: Tree, id: string) {
    var blob := BlobAt(tree, TaskPath(id));
    blob.Some? && blob.value.TaskFile? && blob.value.task.id == id
  }

  /** What a listing of the TASK directory of each commit says. */
  type Listings = seq<Point>

  ghost predicate Describes(tree: Tree, commit: Sha, p: Point) {
    p.commit == commit && forall id :: Lists(tree, p, id)
  }

  ghost predicate Lists(tree: Tree, p: Point, id: string) {
    && (id in p.ids <==> TaskId(id) && TaskPath(id) in tree)
    && (id in p.revisions <==> id in p.ids && Authored(tree, id))
    && (id in p.revisions ==> p.revisions[id] == BlobAt(tree, TaskPath(id)).value.task.revision)
  }

  ghost predicate Reads(store: Store, read: Listings) {
    |read| == |store| && forall c :: 0 <= c < |store| ==> Describes(store[c].tree, c, read[c])
  }

  function IdAt(p: Path): string {
    if |p| >= 15 then p[10..|p| - 5] else ""
  }

  /** One listing: the paths are matched against the form of a TASK file. */
  method List(tree: Tree, commit: Sha) returns (p: Point)
    ensures Describes(tree, commit, p)
  {
    var ids := set path | path in tree && TaskId(IdAt(path)) && path == TaskPath(IdAt(path)) :: IdAt(path);
    p := Point(commit, ids, map id | id in ids && Authored(tree, id) :: BlobAt(tree, TaskPath(id)).value.task.revision);
    forall id
      ensures Lists(tree, p, id)
    {
      assert IdAt(TaskPath(id)) == id;
    }
  }

  /** Every store has listings, so what the walk below asks of them can be met. */
  method ListAll(store: Store) returns (read: Listings)
    ensures Reads(store, read)
  {
    read := [];
    while |read| < |store|
      invariant |read| <= |store|
      invariant forall c :: 0 <= c < |read| ==> Describes(store[c].tree, c, read[c])
    {
      var p := List(store[|read|].tree, |read|);
      read := read + [p];
    }
  }

  // ----- The first-parent chain -----

  /** Oldest first, ending in the commit itself. */
  function Chain(store: Store, sha: Sha): (c: seq<Sha>)
    ensures c != [] && c[|c| - 1] == sha
    decreases sha
  {
    if sha < |store| && store[sha].parents != [] && store[sha].parents[0] < sha
    then Chain(store, store[sha].parents[0]) + [sha]
    else [sha]
  }

  ghost predicate Stored(store: Store, chain: seq<Sha>) {
    forall i :: 0 <= i < |chain| ==> chain[i] < |store|
  }

  /** Every commit of the chain but the first has its predecessor as first parent. */
  ghost predicate Linear(store: Store, chain: seq<Sha>) {
    Stored(store, chain) && forall i :: 0 < i < |chain| ==> FollowsOn(store, chain, i)
  }

  ghost predicate FollowsOn(store: Store, chain: seq<Sha>, i: nat)
    requires 0 < i < |chain| && chain[i] < |store|
  {
    store[chain[i]].parents != [] && store[chain[i]].parents[0] == chain[i - 1] < chain[i]
  }

  lemma {:induction false} ChainIsLinear(store: Store, sha: Sha)
    requires Sound(store) && sha < |store|
    ensures Linear(store, Chain(store, sha))
    decreases sha
  {
    if store[sha].parents != [] {
      var parent := store[sha].parents[0];
      ChainIsLinear(store, parent);
      var older, chain := Chain(store, parent), Chain(store, sha);
      forall i | 0 < i < |chain|
        ensures FollowsOn(store, chain, i)
      {
        if i < |older| {
          assert FollowsOn(store, older, i);
        }
      }
    }
  }

  /** The chain of a commit on the chain of main is a prefix of it. */
  lemma {:induction false} ChainOfEarlier(store: Store, earlier: Sha, main: Sha)
    requires Sound(store) && main < |store| && earlier in Chain(store, main)
    ensures Chain(store, earlier) <= Chain(store, main)
    decreases main
  {
    if earlier != main {
      ChainOfEarlier(store, earlier, store[main].parents[0]);
    }
  }

  function HistoryOf(read: Listings, chain: seq<Sha>): (h: History)
    requires forall i :: 0 <= i < |chain| ==> chain[i] < |read|
  {
    seq(|chain|, i requires 0 <= i < |chain| => read[chain[i]])
  }

  lemma {:induction false} Older(store: Store, chain: seq<Sha>, i: nat, j: nat)
    requires Linear(store, chain) && i < j < |chain|
    ensures chain[i] < chain[j]
    decreases j
  {
    assert FollowsOn(store, chain, j);
    if i < j - 1 {
      Older(store, chain, i, j - 1);
    }
  }

  lemma HistoryIncreases(store: Store, read: Listings, chain: seq<Sha>)
    requires Reads(store, read) && Linear(store, chain)
    ensures Increasing(HistoryOf(read, chain))
  {
    forall i, j | 0 <= i < j < |chain|
      ensures read[chain[i]].commit < read[chain[j]].commit
    {
      Older(store, chain, i, j);
      assert Describes(store[chain[i]].tree, chain[i], read[chain[i]]);
      assert Describes(store[chain[j]].tree, chain[j], read[chain[j]]);
    }
  }

  // ----- A path with a past -----

  predicate ChangedAt(store: Store, chain: seq<Sha>, i: nat, path: Path)
    requires i < |chain| && forall k :: 0 <= k < |chain| ==> chain[k] < |store|
  {
    var now := store[chain[i]].tree;
    if i == 0 then path in now
    else
      var was := store[chain[i - 1]].tree;
      (path in now) != (path in was) || (path in now && now[path] != was[path])
  }

  /** Some commit of the chain up to index `b` changed the path against its first parent. */
  predicate Touched(store: Store, chain: seq<Sha>, b: nat, path: Path)
    requires b < |chain| && forall k :: 0 <= k < |chain| ==> chain[k] < |store|
  {
    exists i :: 0 <= i <= b && ChangedAt(store, chain, i, path)
  }

  ghost predicate Holds(store: Store, chain: seq<Sha>, i: nat, path: Path)
    requires Stored(store, chain) && i < |chain|
  {
    path in store[chain[i]].tree
  }

  lemma {:induction false} InUntil(store: Store, read: Listings, chain: seq<Sha>, b: nat, id: string)
    requires Reads(store, read) && Stored(store, chain) && b < |chain| && TaskId(id)
    ensures id in Until(HistoryOf(read, chain), b) <==> exists i :: 0 <= i <= b && Holds(store, chain, i, TaskPath(id))
  {
    var h, path := HistoryOf(read, chain), TaskPath(id);
    assert Describes(store[chain[b]].tree, chain[b], read[chain[b]]);
    assert Lists(store[chain[b]].tree, read[chain[b]], id);
    assert id in h[b].ids <==> Holds(store, chain, b, path);
    if b > 0 {
      InUntil(store, read, chain, b - 1, id);
      assert Until(h, b) == Until(h, b - 1) + h[b].ids;
    }
  }

  /** A path that was there at some time is either still there or was changed; a changed path was there. */
  lemma TouchedMeansExisted(store: Store, read: Listings, chain: seq<Sha>, b: nat, id: string)
    requires Reads(store, read) && Stored(store, chain) && b < |chain| && TaskId(id)
    ensures Touched(store, chain, b, TaskPath(id)) <==> id in Until(HistoryOf(read, chain), b)
  {
    InUntil(store, read, chain, b, id);
    TouchedMeansHeld(store, chain, b, TaskPath(id));
  }

  lemma TouchedMeansHeld(store: Store, chain: seq<Sha>, b: nat, path: Path)
    requires Stored(store, chain) && b < |chain|
    ensures Touched(store, chain, b, path) <==> exists i :: 0 <= i <= b && Holds(store, chain, i, path)
  {
    if i :| 0 <= i <= b && Holds(store, chain, i, path) {
      FirstAppearance(store, chain, b, path, i);
    }
    if Touched(store, chain, b, path) {
      var i :| 0 <= i <= b && ChangedAt(store, chain, i, path);
      assert Holds(store, chain, i, path) || (i > 0 && Holds(store, chain, i - 1, path));
    }
  }

  lemma {:induction false} FirstAppearance(store: Store, chain: seq<Sha>, b: nat, path: Path, i: nat)
    requires Stored(store, chain) && i <= b < |chain| && path in store[chain[i]].tree
    ensures Touched(store, chain, b, path)
  {
    if i > 0 && path in store[chain[i - 1]].tree {
      FirstAppearance(store, chain, b, path, i - 1);
    } else {
      assert ChangedAt(store, chain, i, path);
    }
  }

  // ----- The publication boundary -----

  predicate Includes(store: Store, reviewed: Sha, commit: Sha) {
    Ancestor(store, reviewed, commit)
  }

  /** The first commit of the chain that includes the reviewed one. */
  ghost predicate IsBoundary(store: Store, reviewed: Sha, chain: seq<Sha>, b: nat) {
    b < |chain| && Includes(store, reviewed, chain[b]) && (b > 0 ==> !Includes(store, reviewed, chain[b - 1]))
  }

  lemma {:induction false} InclusionLasts(store: Store, reviewed: Sha, chain: seq<Sha>, i: nat, j: nat)
    requires Linear(store, chain) && i <= j < |chain| && Includes(store, reviewed, chain[i])
    ensures Includes(store, reviewed, chain[j])
    decreases j - i
  {
    if i < j {
      assert FollowsOn(store, chain, i + 1);
      var parent := store[chain[i + 1]].parents[0];
      assert parent == chain[i] && Ancestor(store, parent, parent);
      assert Ancestor(store, parent, chain[i + 1]);
      AncestorTransitive(store, reviewed, parent, chain[i + 1]);
      InclusionLasts(store, reviewed, chain, i + 1, j);
    }
  }

  lemma BoundaryIsUnique(store: Store, reviewed: Sha, chain: seq<Sha>, a: nat, b: nat)
    requires Linear(store, chain) && IsBoundary(store, reviewed, chain, a) && IsBoundary(store, reviewed, chain, b)
    ensures a == b
  {
    if a < b {
      InclusionLasts(store, reviewed, chain, a, b - 1);
    } else if b < a {
      InclusionLasts(store, reviewed, chain, b, a - 1);
    }
  }

  /** At most 257 commits are listed, and the walk has to see where inclusion stops. */
  predicate InReach(reviewed: Sha, chain: seq<Sha>, b: nat) {
    b < |chain| && |chain| - b + (if chain[b] == reviewed then 0 else 1) <= LIMIT
  }

  ghost predicate HasBoundary(store: Store, reviewed: Sha, chain: seq<Sha>) {
    exists b: nat :: IsBoundary(store, reviewed, chain, b) && InReach(reviewed, chain, b)
  }

  ghost function BoundaryIndex(store: Store, reviewed: Sha, chain: seq<Sha>): (b: nat)
    requires HasBoundary(store, reviewed, chain)
    ensures IsBoundary(store, reviewed, chain, b) && InReach(reviewed, chain, b)
  {
    var b: nat :| IsBoundary(store, reviewed, chain, b) && InReach(reviewed, chain, b);
    b
  }

  // ----- The cohort of main -----

  ghost function PilotAt(read: Listings, chain: seq<Sha>, b: nat): Result<Pilot>
    requires b < |chain| && forall i :: 0 <= i < |chain| ==> chain[i] < |read|
  {
    match Fold(HistoryOf(read, chain), b, |chain| - 1)
    case None => Rejected
    case Some(s) => Accepted(Pilot(chain[b], s.members))
  }

  ghost function Members(store: Store, read: Listings, reviewed: Sha, main: Sha): Result<Pilot>
    requires Sound(store) && Reads(store, read) && main < |store|
  {
    ChainIsLinear(store, main);
    var chain := Chain(store, main);
    if HasBoundary(store, reviewed, chain) then PilotAt(read, chain, BoundaryIndex(store, reviewed, chain))
    else Rejected
  }

  /** The index behind an accepted pilot. */
  lemma BoundaryOf(store: Store, read: Listings, reviewed: Sha, main: Sha) returns (b: nat)
    requires Sound(store) && Reads(store, read) && main < |store| && Members(store, read, reviewed, main).Accepted?
    ensures Linear(store, Chain(store, main)) && IsBoundary(store, reviewed, Chain(store, main), b)
    ensures Members(store, read, reviewed, main) == PilotAt(read, Chain(store, main), b)
  {
    ChainIsLinear(store, main);
    b := BoundaryIndex(store, reviewed, Chain(store, main));
  }

  /** An accepted pilot names the publication boundary and exactly its cohort. */
  lemma PilotIsExact(store: Store, read: Listings, reviewed: Sha, main: Sha) returns (b: nat)
    requires Sound(store) && Reads(store, read) && main < |store| && Members(store, read, reviewed, main).Accepted?
    ensures Linear(store, Chain(store, main)) && IsBoundary(store, reviewed, Chain(store, main), b)
    ensures Members(store, read, reviewed, main).value.boundary == Chain(store, main)[b]
    ensures IsCohort(HistoryOf(read, Chain(store, main)), b, Members(store, read, reviewed, main).value.members)
  {
    b := BoundaryOf(store, read, reviewed, main);
    HistoryIncreases(store, read, Chain(store, main));
    FoldIsCohort(HistoryOf(read, Chain(store, main)), b);
  }

  /**
   While main grows along its first-parent chain, an accepted cohort keeps its boundary
   and its members; new ones are only appended.
   */
  lemma CohortIsStable(store: Store, read: Listings, reviewed: Sha, main: Sha, later: Sha)
    requires Sound(store) && Reads(store, read) && later < |store| && main < |store| && main in Chain(store, later)
    requires Members(store, read, reviewed, main).Accepted? && Members(store, read, reviewed, later).Accepted?
    ensures Members(store, read, reviewed, main).value.boundary == Members(store, read, reviewed, later).value.boundary
    ensures Members(store, read, reviewed, main).value.members <= Members(store, read, reviewed, later).value.members
  {
    var b := BoundaryOf(store, read, reviewed, main);
    var c := BoundaryOf(store, read, reviewed, later);
    ChainOfEarlier(store, main, later);
    SameBoundary(store, reviewed, Chain(store, main), Chain(store, later), b, c);
    LongerChain(read, Chain(store, main), Chain(store, later), b);
  }

  lemma SameBoundary(store: Store, reviewed: Sha, chain: seq<Sha>, longer: seq<Sha>, b: nat, c: nat)
    requires Linear(store, longer) && chain <= longer
    requires IsBoundary(store, reviewed, chain, b) && IsBoundary(store, reviewed, longer, c)
    ensures b == c && chain[b] == longer[c]
  {
    assert chain[b] == longer[b] && (b > 0 ==> chain[b - 1] == longer[b - 1]);
    BoundaryIsUnique(store, reviewed, longer, b, c);
  }

  lemma LongerChain(read: Listings, chain: seq<Sha>, longer: seq<Sha>, b: nat)
    requires b < |chain| && chain <= longer && forall i :: 0 <= i < |longer| ==> longer[i] < |read|
    requires forall i :: 0 <= i < |chain| ==> chain[i] < |read|
    requires PilotAt(read, chain, b).Accepted? && PilotAt(read, longer, b).Accepted?
    ensures PilotAt(read, chain, b).value.boundary == PilotAt(read, longer, b).value.boundary
    ensures PilotAt(read, chain, b).value.members <= PilotAt(read, longer, b).value.members
  {
    assert chain[b] == longer[b];
    var h, longerHistory := HistoryOf(read, chain), HistoryOf(read, longer);
    assert h <= longerHistory;
    MembersOnlyAppended(h, longerHistory, b);
  }

  // ----- The walk itself -----

  /** Walks back from main over at most 257 commits while they include the reviewed one. */
  method FindBoundary(store: Store, reviewed: Sha, chain: seq<Sha>) returns (b: Option<nat>)
    requires Linear(store, chain) && chain != []
    ensures b.Some? ==> IsBoundary(store, reviewed, chain, b.value) && InReach(reviewed, chain, b.value)
    ensures b.None? ==> !HasBoundary(store, reviewed, chain)
  {
    var n := |chain|;
    var listed := if n < LIMIT then n else LIMIT;
    b := None;
    var i := 0;
    while i < listed
      invariant 0 <= i <= listed
      invariant b == if i == 0 then None else Some(n - i)
      invariant forall k :: n - i <= k < n ==> chain[k] != reviewed && Includes(store, reviewed, chain[k])
    {
      var at: nat := n - 1 - i;
      if chain[at] == reviewed {
        ReviewedIsFirst(store, reviewed, chain, at);
        return Some(at);
      }
      if !Includes(store, reviewed, chain[at]) {
        NotYetIncluded(store, reviewed, chain, at);
        return b;
      }
      b := Some(at);
      i := i + 1;
    }
    if listed == LIMIT {
      OutOfReach(store, reviewed, chain);
      return None;
    }
  }

  lemma ReviewedIsFirst(store: Store, reviewed: Sha, chain: seq<Sha>, at: nat)
    requires Linear(store, chain) && at < |chain| && chain[at] == reviewed
    ensures IsBoundary(store, reviewed, chain, at)
  {
    if at > 0 {
      assert FollowsOn(store, chain, at);
      if Includes(store, reviewed, chain[at - 1]) {
        AncestorIsOlder(store, reviewed, chain[at - 1]);
      }
    }
  }

  lemma NotYetIncluded(store: Store, reviewed: Sha, chain: seq<Sha>, at: nat)
    requires Linear(store, chain) && at < |chain| && !Includes(store, reviewed, chain[at])
    ensures at + 1 == |chain| ==> !HasBoundary(store, reviewed, chain)
  {
    if at + 1 == |chain| && HasBoundary(store, reviewed, chain) {
      InclusionLasts(store, reviewed, chain, BoundaryIndex(store, reviewed, chain), at);
    }
  }

  lemma OutOfReach(store: Store, reviewed: Sha, chain: seq<Sha>)
    requires Linear(store, chain) && |chain| >= LIMIT
    requires forall k :: |chain| - LIMIT <= k < |chain| ==> chain[k] != reviewed && Includes(store, reviewed, chain[k])
    ensures !HasBoundary(store, reviewed, chain)
  {
    forall b: nat
      ensures !(IsBoundary(store, reviewed, chain, b) && InReach(reviewed, chain, b))
    {
      if |chain| - LIMIT < b < |chain| {
        assert Includes(store, reviewed, chain[b - 1]);
      }
    }
  }

  /** The added TASK files whose path some commit up to the boundary changed. */
  method Past(store: Store, read: Listings, chain: seq<Sha>, b: nat, k: nat, added: set<string>) returns (past: set<string>)
    requires Reads(store, read) && Stored(store, chain) && b < k < |chain| && added <= read[chain[k]].ids
    ensures past == added * Until(HistoryOf(read, chain), b)
  {
    past := set id | id in added && Touched(store, chain, b, TaskPath(id));
    forall id | id in added
      ensures id in past <==> id in Until(HistoryOf(read, chain), b)
    {
      assert Describes(store[chain[k]].tree, chain[k], read[chain[k]]);
      assert Lists(store[chain[k]].tree, read[chain[k]], id);
      TouchedMeansExisted(store, read, chain, b, id);
    }
  }

  /** The rows of a set of added files, each once, sorted by name. */
  method Rows(ids: set<string>) returns (rows: seq<string>)
    ensures forall i, j :: 0 <= i < j < |rows| ==> rows[i] != rows[j]
    ensures forall id :: id in rows <==> id in ids
  {
    SortedKeysDistinct(ids);
    rows := SortKeys(ids);
  }

  /** One commit of the walk. */
  method Visit(store: Store, read: Listings, chain: seq<Sha>, b: nat, s: Cohort, k: nat) returns (r: Option<Cohort>)
    requires Reads(store, read) && Stored(store, chain) && b < k < |chain| && |s.members| < QUOTA
    ensures r == Step(HistoryOf(read, chain), b, s, k)
  {
    ghost var h := HistoryOf(read, chain);
    var now, was := read[chain[k]], read[chain[k - 1]];
    var added := set id | id in now.ids && id !in was.ids;
    var rows := Rows(added);
    var past := Past(store, read, chain, b, k, added);
    var seen, entrants := Sift(rows, s.seen, past);
    Sifted(added, s.seen, Entrants(h, b, s.seen, k), seen, entrants);
    r := Conclude(h, b, s, k, now, seen, entrants);
  }

  method Conclude(ghost h: History, b: nat, s: Cohort, k: nat, now: Point, seen: set<string>, entrants: seq<string>)
    returns (r: Option<Cohort>)
    requires b < k < |h| && now == h[k] && |s.members| < QUOTA
    requires seen + Entrants(h, b, s.seen, k) == s.seen + Added(h, k)
    requires |entrants| == |Entrants(h, b, s.seen, k)|
    requires |entrants| == 1 ==> Entrants(h, b, s.seen, k) == {entrants[0]}
    ensures r == Step(h, b, s, k)
  {
    if |entrants| > 1 {
      return None;
    }
    if |entrants| == 0 {
      assert Entrants(h, b, s.seen, k) == {};
      return Some(Cohort(seen, s.members));
    }
    assert Only(Entrants(h, b, s.seen, k)) in {entrants[0]};
    var members := Enter(now, s.members, entrants[0]);
    if members.None? {
      return None;
    }
    r := Some(Cohort(seen + {entrants[0]}, members.value));
  }

  lemma {:induction false} RejectionStays(h: History, b: nat, k: nat)
    requires b <= k < |h| && Fold(h, b, k).None?
    ensures Fold(h, b, |h| - 1).None?
    decreases |h| - k
  {
    if k < |h| - 1 {
      RejectionStays(h, b, k + 1);
    }
  }

  lemma {:induction false} FullStays(h: History, b: nat, k: nat)
    requires b <= k < |h| && Fold(h, b, k).Some? && |Fold(h, b, k).value.members| >= QUOTA
    ensures Fold(h, b, |h| - 1) == Fold(h, b, k)
    decreases |h| - k
  {
    if k < |h| - 1 {
      assert Fold(h, b, k + 1) == Fold(h, b, k);
      FullStays(h, b, k + 1);
    }
  }

  /** From the boundary towards main, until a commit is refused or ten members are found. */
  method Walk(store: Store, read: Listings, chain: seq<Sha>, b: nat) returns (r: Option<seq<Member>>)
    requires Reads(store, read) && Stored(store, chain) && b < |chain|
    ensures PilotAt(read, chain, b) == if r.None? then Rejected else Accepted(Pilot(chain[b], r.value))
  {
    ghost var h := HistoryOf(read, chain);
    var s := Cohort(read[chain[b]].ids + {ACTIVATION}, []);
    var k := b;
    while k + 1 < |chain| && |s.members| < QUOTA
      invariant b <= k < |chain|
      invariant Fold(h, b, k) == Some(s)
    {
      k := k + 1;
      var next := Visit(store, read, chain, b, s, k);
      if next.None? {
        RejectionStays(h, b, k);
        return None;
      }
      s := next.value;
    }
    if |s.members| >= QUOTA {
      FullStays(h, b, k);
    }
    r := Some(s.members);
  }

  /** The cohort of `main`.  The second listing cannot reach its limit, since the boundary is in the first. */
  method PilotMembers(store: Store, read: Listings, reviewed: Sha, main: Sha) returns (r: Result<Pilot>)
    requires Sound(store) && Reads(store, read) && main < |store|
    ensures r == Members(store, read, reviewed, main)
  {
    ChainIsLinear(store, main);
    var chain := Chain(store, main);
    var found := FindBoundary(store, reviewed, chain);
    if found.None? {
      return Rejected;
    }
    var b := found.value;
    assert HasBoundary(store, reviewed, chain);
    BoundaryIsUnique(store, reviewed, chain, b, BoundaryIndex(store, reviewed, chain));
    var members := Walk(store, read, chain, b);
    r := if members.None? then Rejected else Accepted(Pilot(chain[b], members.value));
  }
}
