/**
 The pilot cohort over a history: a line of commits, oldest first, each with the TASK
 files it holds.  After the boundary every TASK that never had a file before becomes
 a member, one per commit, until there are ten.
 */
module PilotCohort {
  import opened Prelude
  import Git

  type Sha = Git.Sha

  const QUOTA: nat := 10
  const ACTIVATION := "TASK-417"

  /** A commit, the TASKs it has files for, and the revision of each file that is a valid TASK. */
  datatype Point = Point(commit: Sha, ids: set<string>, revisions: map<string, int>)
  type History = seq<Point>

  datatype Member = Member(id: string, revision: int, ordinal: nat, commit: Sha)
  datatype Cohort = Cohort(seen: set<string>, members: seq<Member>)

  function Added(h: History, k: nat): set<string>
    requires 0 < k < |h|
  {
    set id | id in h[k].ids && id !in h[k - 1].ids
  }

  /** The TASKs that had a file in some commit up to index `k`. */
  function Until(h: History, k: nat): (ids: set<string>)
    requires k < |h|
    ensures h[k].ids <= ids
  {
    if k == 0 then h[0].ids else Until(h, k - 1) + h[k].ids
  }

  function Entrants(h: History, b: nat, seen: set<string>, k: nat): set<string>
    requires b < k < |h|
  {
    set id | id in Added(h, k) && id !in seen && id !in Until(h, b)
  }

  /** The only element of a set. */
  ghost function Only(s: set<string>): (x: string)
    requires |s| == 1
    ensures s == {x}
  {
    var x :| x in s;
    Singleton(s, x);
    x
  }

  lemma Singleton(s: set<string>, x: string)
    requires x in s && |s| <= 1
    ensures s == {x}
  {
    assert s == {x} + (s - {x});
  }

  function Enter(p: Point, members: seq<Member>, id: string): Option<seq<Member>> {
    if id !in p.revisions then None
    else Some(members + [Member(id, p.revisions[id], |members| + 1, p.commit)])
  }

  /** What the commit at index `k` makes of the cohort so far. */
  ghost function Step(h: History, b: nat, s: Cohort, k: nat): Option<Cohort>
    requires b < k < |h|
  {
    var entrants, seen := Entrants(h, b, s.seen, k), s.seen + Added(h, k);
    if |s.members| >= QUOTA then Some(s)
    else if |entrants| == 0 then Some(Cohort(seen, s.members))
    else if |entrants| > 1 then None
    else
      match Enter(h[k], s.members, Only(entrants))
      case None => None
      case Some(members) => Some(Cohort(seen, members))
  }

  /** The cohort after the commits up to index `k`, with the boundary at `b`. */
  ghost function Fold(h: History, b: nat, k: nat): Option<Cohort>
    requires b <= k < |h|
    decreases k
  {
    if k == b then Some(Cohort(h[b].ids + {ACTIVATION}, []))
    else
      match Fold(h, b, k - 1)
      case None => None
      case Some(s) => Step(h, b, s, k)
  }

  // ----- What the walk keeps -----

  predicate Increasing(h: History) {
    forall i, j :: 0 <= i < j < |h| ==> h[i].commit < h[j].commit
  }

  /** Numbered from one, distinct, and in the order in which they were authored. */
  ghost predicate Numbered(ms: seq<Member>) {
    && (forall i :: 0 <= i < |ms| ==> ms[i].ordinal == i + 1)
    && (forall i, j :: 0 <= i < j < |ms| ==> ms[i].id != ms[j].id && ms[i].commit < ms[j].commit)
  }

  /** The commit at index `i` is the first of the whole history with a file for this TASK. */
  ghost predicate AuthoredAt(h: History, i: nat, m: Member) {
    && 0 < i < |h| && h[i].commit == m.commit && m.id != ACTIVATION
    && m.id in h[i].ids && m.id !in Until(h, i - 1)
    && m.id in h[i].revisions && m.revision == h[i].revisions[m.id]
  }

  ghost predicate FirstAuthored(h: History, b: nat, k: nat, m: Member) {
    exists i :: b < i <= k && AuthoredAt(h, i, m)
  }

  function Ids(ms: seq<Member>): set<string> {
    set m | m in ms :: m.id
  }

  ghost predicate Kept(h: History, b: nat, k: nat, s: Cohort)
    requires b <= k < |h|
  {
    && ACTIVATION in s.seen && s.seen <= Until(h, k) + {ACTIVATION}
    && (|s.members| < QUOTA ==> s.seen + Until(h, b) == Until(h, k) + {ACTIVATION})
    && (|s.members| < QUOTA ==> s.seen <= Until(h, b) + Ids(s.members) + {ACTIVATION})
    && |s.members| <= QUOTA && Numbered(s.members)
    && (forall m :: m in s.members ==> FirstAuthored(h, b, k, m) && m.id in s.seen && m.commit <= h[k].commit)
  }

  lemma {:induction false} UntilGrows(h: History, j: nat, k: nat)
    requires j <= k < |h|
    ensures Until(h, j) <= Until(h, k)
    decreases k
  {
    if j < k {
      UntilGrows(h, j, k - 1);
    }
  }

  lemma MembersStay(h: History, b: nat, k: nat, ms: seq<Member>)
    requires b < k < |h| && forall m :: m in ms ==> FirstAuthored(h, b, k - 1, m)
    ensures forall m :: m in ms ==> FirstAuthored(h, b, k, m)
  {
    forall m | m in ms
      ensures FirstAuthored(h, b, k, m)
    {
      var i :| b < i <= k - 1 && AuthoredAt(h, i, m);
      assert b < i <= k;
    }
  }

  /** A commit without a newcomer, or after the tenth member, adds nothing unaccounted for. */
  lemma QuietStepKeeps(h: History, b: nat, k: nat, s: Cohort, next: Cohort)
    requires b < k < |h| && Increasing(h) && Kept(h, b, k - 1, s)
    requires next.members == s.members
    requires if |s.members| >= QUOTA then next.seen == s.seen
             else next.seen == s.seen + Added(h, k) && Entrants(h, b, s.seen, k) == {}
    ensures Kept(h, b, k, next)
  {
    UntilGrows(h, b, k - 1);
    MembersStay(h, b, k, s.members);
    assert Until(h, k) == Until(h, k - 1) + h[k].ids;
    if |s.members| < QUOTA {
      assert Added(h, k) <= s.seen + Until(h, b);
    }
  }

  /** A newcomer becomes a member that nobody authored before. */
  lemma NewMemberKeeps(h: History, b: nat, k: nat, s: Cohort, m: Member)
    requires b < k < |h| && Increasing(h) && Kept(h, b, k - 1, s) && |s.members| < QUOTA
    requires Entrants(h, b, s.seen, k) == {m.id} && m.id in h[k].revisions
    requires m == Member(m.id, h[k].revisions[m.id], |s.members| + 1, h[k].commit)
    ensures Kept(h, b, k, Cohort(s.seen + Added(h, k), s.members + [m]))
  {
    var next := Cohort(s.seen + Added(h, k), s.members + [m]);
    UntilGrows(h, b, k - 1);
    MembersStay(h, b, k, s.members);
    assert Until(h, k) == Until(h, k - 1) + h[k].ids;
    assert m.id in Entrants(h, b, s.seen, k);
    assert AuthoredAt(h, k, m);
    assert Added(h, k) <= s.seen + Until(h, b) + {m.id};
    OneMore(s.members, m, s.seen, h[k - 1].commit);
  }

  lemma OneMore(ms: seq<Member>, m: Member, seen: set<string>, last: Sha)
    requires Numbered(ms) && m.ordinal == |ms| + 1 && m.id !in seen && last < m.commit
    requires forall x :: x in ms ==> x.id in seen && x.commit <= last
    ensures Numbered(ms + [m]) && Ids(ms + [m]) == Ids(ms) + {m.id}
    ensures forall x :: x in ms + [m] <==> x in ms || x == m
  {
    assert forall i :: 0 <= i < |ms| ==> ms[i] in ms;
    assert forall x :: x in ms + [m] <==> x in ms || x == m;
    assert m in ms + [m];
  }

  lemma StepKeeps(h: History, b: nat, k: nat, s: Cohort)
    requires b < k < |h| && Increasing(h) && Kept(h, b, k - 1, s) && Step(h, b, s, k).Some?
    ensures Kept(h, b, k, Step(h, b, s, k).value)
  {
    var entrants, next := Entrants(h, b, s.seen, k), Step(h, b, s, k).value;
    if |s.members| >= QUOTA || |entrants| == 0 {
      assert Kept(h, b, k, next) by {
        QuietStepKeeps(h, b, k, s, next);
      }
    } else {
      var id := Only(entrants);
      var m := Member(id, h[k].revisions[id], |s.members| + 1, h[k].commit);
      assert next == Cohort(s.seen + Added(h, k), s.members + [m]);
      assert Kept(h, b, k, next) by {
        NewMemberKeeps(h, b, k, s, m);
      }
    }
  }

  lemma {:induction false} FoldKeeps(h: History, b: nat, k: nat)
    requires b <= k < |h| && Increasing(h) && Fold(h, b, k).Some?
    ensures Kept(h, b, k, Fold(h, b, k).value)
    decreases k
  {
    if k > b {
      FoldKeeps(h, b, k - 1);
      StepKeeps(h, b, k, Fold(h, b, k - 1).value);
    } else {
      assert h[b].ids + {ACTIVATION} + Until(h, b) == Until(h, b) + {ACTIVATION};
    }
  }

  // ----- The cohort of a history -----

  /**
   At most ten distinct TASKs, numbered in authoring order, none of which had a file at
   or before the boundary, even one deleted again; below ten members nobody is missing.
   */
  ghost predicate IsCohort(h: History, b: nat, ms: seq<Member>)
    requires b < |h|
  {
    && |ms| <= QUOTA && Numbered(ms)
    && (forall m :: m in ms ==> m.id !in Until(h, b) && FirstAuthored(h, b, |h| - 1, m))
    && (|ms| < QUOTA ==> Ids(ms) == Until(h, |h| - 1) - Until(h, b) - {ACTIVATION})
  }

  lemma FoldIsCohort(h: History, b: nat)
    requires b < |h| && Increasing(h) && Fold(h, b, |h| - 1).Some?
    ensures IsCohort(h, b, Fold(h, b, |h| - 1).value.members)
  {
    FoldKeeps(h, b, |h| - 1);
    KeptIsCohort(h, b, Fold(h, b, |h| - 1).value);
  }

  lemma KeptIsCohort(h: History, b: nat, s: Cohort)
    requires b < |h| && Kept(h, b, |h| - 1, s)
    ensures IsCohort(h, b, s.members)
  {
    var n := |h| - 1;
    forall m | m in s.members
      ensures m.id !in Until(h, b) && m.id in Until(h, n) && m.id != ACTIVATION
    {
      var i :| b < i <= n && AuthoredAt(h, i, m);
      UntilGrows(h, b, i - 1);
      UntilGrows(h, i, n);
    }
    if |s.members| < QUOTA {
      NobodyMissing(Until(h, n), Until(h, b), s.seen, s.members);
    }
  }

  lemma NobodyMissing(all: set<string>, past: set<string>, seen: set<string>, ms: seq<Member>)
    requires seen + past == all + {ACTIVATION} && seen <= past + Ids(ms) + {ACTIVATION}
    requires forall m :: m in ms ==> m.id !in past && m.id in all && m.id != ACTIVATION
    ensures Ids(ms) == all - past - {ACTIVATION}
  {
  }

  lemma StepAppends(h: History, b: nat, s: Cohort, k: nat)
    requires b < k < |h| && Step(h, b, s, k).Some?
    ensures s.members <= Step(h, b, s, k).value.members
    ensures |s.members| >= QUOTA ==> Step(h, b, s, k) == Some(s)
  {
  }

  lemma {:induction false} UntilOfPrefix(h: History, longer: History, k: nat)
    requires h <= longer && k < |h|
    ensures Until(h, k) == Until(longer, k)
  {
    if k > 0 {
      UntilOfPrefix(h, longer, k - 1);
    }
  }

  lemma {:induction false} FoldOfPrefix(h: History, longer: History, b: nat, k: nat)
    requires h <= longer && b <= k < |h|
    ensures Fold(h, b, k) == Fold(longer, b, k)
    decreases k
  {
    if k > b {
      FoldOfPrefix(h, longer, b, k - 1);
      UntilOfPrefix(h, longer, b);
      assert h[k] == longer[k] && h[k - 1] == longer[k - 1];
    }
  }

  lemma {:induction false} FoldAppends(h: History, b: nat, j: nat, k: nat)
    requires b <= j <= k < |h| && Fold(h, b, k).Some?
    ensures Fold(h, b, j).Some? && Fold(h, b, j).value.members <= Fold(h, b, k).value.members
    ensures |Fold(h, b, j).value.members| >= QUOTA ==> Fold(h, b, k) == Fold(h, b, j)
    decreases k
  {
    if j < k {
      FoldAppends(h, b, j, k - 1);
      StepAppends(h, b, Fold(h, b, k - 1).value, k);
    }
  }

  /** While the history grows, members are only appended. */
  lemma MembersOnlyAppended(h: History, longer: History, b: nat)
    requires h <= longer && b < |h| && Fold(longer, b, |longer| - 1).Some?
    ensures Fold(h, b, |h| - 1).Some?
    ensures Fold(h, b, |h| - 1).value.members <= Fold(longer, b, |longer| - 1).value.members
  {
    FoldOfPrefix(h, longer, b, |h| - 1);
    FoldAppends(longer, b, |h| - 1, |longer| - 1);
  }

  // ----- The loop over the history -----

  /** The rows of one commit, each once: identities with a past are noted, new ones collected. */
  method Sift(rows: seq<string>, known: set<string>, past: set<string>)
    returns (seen: set<string>, entrants: seq<string>)
    requires forall i, j :: 0 <= i < j < |rows| ==> rows[i] != rows[j]
    ensures forall id :: id in seen <==> id in known || (id in rows && id in past)
    ensures forall id :: id in entrants <==> id in rows && id !in known && id !in past
    ensures forall i, j :: 0 <= i < j < |entrants| ==> entrants[i] != entrants[j]
  {
    seen, entrants := known, [];
    var i := 0;
    while i < |rows|
      invariant 0 <= i <= |rows|
      invariant forall id :: id in seen <==> id in known || (id in rows[..i] && id in past)
      invariant forall id :: id in entrants <==> id in rows[..i] && id !in known && id !in past
      invariant forall j, k :: 0 <= j < k < |entrants| ==> entrants[j] != entrants[k]
    {
      assert rows[i] !in rows[..i];
      if rows[i] !in seen {
        if rows[i] in past {
          seen := seen + {rows[i]};
        } else {
          entrants := entrants + [rows[i]];
        }
      }
      i := i + 1;
    }
    assert rows[..i] == rows;
  }

  lemma {:induction false} DistinctLength(s: seq<string>)
    requires forall j, k :: 0 <= j < k < |s| ==> s[j] != s[k]
    ensures |set id | id in s| == |s|
  {
    if s != [] {
      DistinctLength(s[1..]);
      assert (set id | id in s) == (set id | id in s[1..]) + {s[0]};
    }
  }

  lemma Sifted(added: set<string>, known: set<string>, all: set<string>, seen: set<string>, entrants: seq<string>)
    requires forall id :: id in seen <==> id in known || (id in added && id !in all)
    requires forall id :: id in entrants <==> id in all
    requires all <= added && forall i, j :: 0 <= i < j < |entrants| ==> entrants[i] != entrants[j]
    ensures seen + all == known + added && |entrants| == |all|
    ensures |entrants| == 1 ==> all == {entrants[0]}
  {
    DistinctLength(entrants);
    assert (set id | id in entrants) == all;
    if |entrants| == 1 {
      Singleton(all, entrants[0]);
    }
  }
}
