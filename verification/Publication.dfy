/**
 The two-level compare-and-swap behind every ingress write, as a state machine: any
 number of writers, in any number of clones, over one remote.  A schedule is any
 sequence of enabled actions.  A writer that is killed is one that is never
 scheduled again, so every statement about all schedules covers crashes.
 */
module Publication {
  import opened Prelude
  import opened Git

  /** `CorrectionRef` is any other ref that is only ever published as missing. */
  datatype Ref =
    | Main
    | RepairRef(run: string, revision: nat)
    | CorrectionRef(name: string)

  /** A local ref of one clone. */
  datatype Place = Place(clone: nat, ref: Ref)

  datatype TaskEnvelope = TaskEnvelope(taskId: string, task: Option<Task>, expectedMain: Option<Sha>)

  datatype RepairEnvelope = RepairEnvelope(
    run: string, repair: Option<Repair>, expectedHead: Option<Sha>,
    expectedCurrent: Option<Sha>, expectedFailure: Option<Sha>)

  datatype Request =
    | AuthorTask(task: TaskEnvelope)
    | AuthorRepair(repair: RepairEnvelope)
    | OtherOperation

  /**
   Entered: inside the publisher, nothing written.  LocalSet: local CAS done.
   Cleared: rechecks passed, about to push.  Undoing: push failed or a recheck raised.
   Returned: the publisher returned normally.  Reread: the TASK postcondition found the
   commit on the remote.  Confirmed and Unconfirmed: the local main agreed too, or one of
   the two reads did not.  Refused: raised before any write.
   Undone and UndoFailed: raised after the local CAS, undo run or undo itself failed.
   */
  datatype Phase =
    | Entered | LocalSet | Cleared | Undoing
    | Returned | Reread | Confirmed | Unconfirmed
    | Refused | Undone | UndoFailed

  /** `lease` is None for a publication that expects the ref to be missing. */
  datatype Writer = Writer(place: Place, lease: Option<Sha>, commit: Sha, request: Request, phase: Phase)

  /** What the Runtime recorded about a failed RUN before anyone repairs it. */
  datatype Failure = Failure(artifacts: Sha, head: Sha, task: TaskReference)

  /** One value of remote main; `author` is the ingress writer that moved it there, if any. */
  datatype Value = Value(sha: Sha, author: Option<nat>)

  /** `canonical`, `startLocals` and `mainLog` are history: what could be read remotely so far, and what was there. */
  datatype World = World(
    store: Store,
    remote: map<Ref, Sha>,
    locals: map<Place, Sha>,
    writers: map<nat, Writer>,
    failures: map<string, Failure>,
    canonical: set<(Ref, Sha)>,
    startLocals: map<Place, Sha>,
    mainLog: seq<Value>)

  /** Lost: the remote moved, the caller saw a failure. */
  datatype PushOutcome = Landed | Lost | Bounced

  datatype Action =
    | WriteCommit(commit: Commit)
    | Begin(id: nat, writer: Writer)
    | Refuse(id: nat)
    | LocalCas(id: nat)
    | Recheck(id: nat, agreed: bool)
    | Push(id: nat, outcome: PushOutcome)
    | Undo(id: nat, ran: bool)
    | ReadMain(id: nat, agreed: bool)
    | Confirm(id: nat, agreed: bool)
    | PublishMain(sha: Sha)
    | Fetch(place: Place)

  predicate InPhase(s: World, id: nat, phase: Phase) {
    id in s.writers && s.writers[id].phase == phase
  }

  /** The server applies the update: the lease matches, or the ref already holds the commit. */
  predicate ServerAccepts(s: World, w: Writer) {
    Lookup(s.remote, w.place.ref) == w.lease || Lookup(s.remote, w.place.ref) == Some(w.commit)
  }

  /** An operation may enter the publisher with a stored commit, leasing what it once read remotely. */
  predicate MayBegin(s: World, w: Writer) {
    && w.phase == Entered
    && w.commit < |s.store|
    && (if w.place.ref == Main
        then w.lease.Some? && (Main, w.lease.value) in s.canonical
        else w.lease == None)
  }

  ghost predicate Enabled(s: World, a: Action) {
    match a
    case WriteCommit(c) =>
      && (forall k :: 0 <= k < |c.parents| ==> c.parents[k] < |s.store|)
      && Consistent(c.tree) && NamesOnlyOlder(c.tree, |s.store|)
    case Begin(id, w) => id !in s.writers && MayBegin(s, w)
    case Refuse(id) => InPhase(s, id, Entered)
    case LocalCas(id) =>
      InPhase(s, id, Entered) && Lookup(s.locals, s.writers[id].place) == s.writers[id].lease
    case Recheck(id, _) => InPhase(s, id, LocalSet)
    case Push(id, outcome) =>
      InPhase(s, id, Cleared) && (outcome != Bounced ==> ServerAccepts(s, s.writers[id]))
    case Undo(id, _) => InPhase(s, id, Undoing)
    case ReadMain(id, agreed) =>
      && InPhase(s, id, Returned) && s.writers[id].place.ref == Main
      && (agreed ==> Lookup(s.remote, Main) == Some(s.writers[id].commit))
    case Confirm(id, agreed) =>
      && InPhase(s, id, Reread)
      && (agreed ==> Lookup(s.locals, s.writers[id].place) == Some(s.writers[id].commit))
    case PublishMain(sha) =>
      sha < |s.store| && Main in s.remote && Ancestor(s.store, s.remote[Main], sha)
    case Fetch(place) => place.ref in s.remote
  }

  function InPhaseOf(s: World, id: nat, phase: Phase): World
    requires id in s.writers
  {
    s.(writers := s.writers[id := s.writers[id].(phase := phase)])
  }

  /** The remote ref takes a value; a value it already has is no move. */
  function MoveRemote(s: World, ref: Ref, sha: Sha, author: Option<nat>): World {
    if Lookup(s.remote, ref) == Some(sha) then
      s
    else
      s.(remote := s.remote[ref := sha],
         canonical := s.canonical + {(ref, sha)},
         mainLog := if ref == Main then s.mainLog + [Value(sha, author)] else s.mainLog)
  }

  /** Delete, or put back the leased value, only while the ref still holds this writer's commit. */
  function Undoed(locals: map<Place, Sha>, w: Writer): map<Place, Sha> {
    if Lookup(locals, w.place) != Some(w.commit) then
      locals
    else if w.lease.None? then
      locals - {w.place}
    else
      locals[w.place := w.lease.value]
  }

  function Next(s: World, a: Action): World {
    match a
    case WriteCommit(c) => s.(store := s.store + [c])
    case Begin(id, w) => s.(writers := s.writers[id := w])
    case Refuse(id) => if id in s.writers then InPhaseOf(s, id, Refused) else s
    case LocalCas(id) =>
      if id in s.writers then
        InPhaseOf(s, id, LocalSet).(locals := s.locals[s.writers[id].place := s.writers[id].commit])
      else s
    case Recheck(id, agreed) =>
      if id in s.writers then InPhaseOf(s, id, if agreed then Cleared else Undoing) else s
    case Push(id, outcome) =>
      if id in s.writers then
        var moved := if outcome == Bounced then s
                     else MoveRemote(s, s.writers[id].place.ref, s.writers[id].commit, Some(id));
        InPhaseOf(moved, id, if outcome == Landed then Returned else Undoing)
      else s
    case Undo(id, ran) =>
      if id in s.writers then
        InPhaseOf(s, id, if ran then Undone else UndoFailed)
        .(locals := if ran then Undoed(s.locals, s.writers[id]) else s.locals)
      else s
    case ReadMain(id, agreed) =>
      if id in s.writers then InPhaseOf(s, id, if agreed then Reread else Unconfirmed) else s
    case Confirm(id, agreed) =>
      if id in s.writers then InPhaseOf(s, id, if agreed then Confirmed else Unconfirmed) else s
    case PublishMain(sha) => MoveRemote(s, Main, sha, None)
    case Fetch(place) =>
      if place.ref in s.remote then s.(locals := s.locals[place := s.remote[place.ref]]) else s
  }

  // ----- Runs -----

  function After(s: World, schedule: seq<Action>): World
    decreases |schedule|
  {
    if schedule == [] then s else After(Next(s, schedule[0]), schedule[1..])
  }

  /** Every action is enabled when its turn comes, and `admits` allows it. */
  ghost predicate Run(s: World, schedule: seq<Action>, admits: (World, Action) -> bool)
    decreases |schedule|
  {
    schedule == [] ||
    (Enabled(s, schedule[0]) && admits(s, schedule[0]) && Run(Next(s, schedule[0]), schedule[1..], admits))
  }

  /** No restriction on the surroundings. */
  function Anything(): (f: (World, Action) -> bool)
    ensures forall s, a :: f(s, a)
  {
    (s: World, a: Action) => true
  }

  lemma {:induction false} RunPrefix(s: World, schedule: seq<Action>, n: nat, admits: (World, Action) -> bool)
    requires n <= |schedule| && Run(s, schedule, admits)
    ensures Run(s, schedule[..n], admits) && Run(After(s, schedule[..n]), schedule[n..], admits)
    ensures After(After(s, schedule[..n]), schedule[n..]) == After(s, schedule)
    decreases |schedule|
  {
    if n > 0 {
      assert schedule[..n][1..] == schedule[1..][..n - 1];
      assert schedule[n..] == schedule[1..][n - 1..];
      RunPrefix(Next(s, schedule[0]), schedule[1..], n - 1, admits);
    } else {
      assert schedule[..n] == [] && schedule[n..] == schedule;
    }
  }

  // ----- Invariants -----

  /** No writer yet; remote main exists; clones hold anything at all. */
  ghost predicate Initial(s: World) {
    && Sound(s.store)
    && s.writers == map[]
    && Main in s.remote
    && (forall r :: r in s.remote ==> s.remote[r] < |s.store|)
    && s.canonical == (set r | r in s.remote :: (r, s.remote[r]))
    && s.startLocals == s.locals
    && s.mainLog == [Value(s.remote[Main], None)]
  }

  /** The writer passed its local CAS and no undo of it has completed. */
  predicate Holding(w: Writer) {
    w.phase in {LocalSet, Cleared, Undoing, UndoFailed}
  }

  ghost predicate Explained(s: World, place: Place, sha: Sha) {
    || (place in s.startLocals && s.startLocals[place] == sha)
    || (place.ref, sha) in s.canonical
    || exists id :: id in s.writers && s.writers[id].place == place && s.writers[id].commit == sha &&
                    Holding(s.writers[id])
  }

  ghost predicate WriterOk(s: World, w: Writer) {
    && w.commit < |s.store|
    && (w.place.ref == Main <==> w.lease.Some?)
    && (w.lease.Some? ==> (w.place.ref, w.lease.value) in s.canonical)
    && (w.phase in {Returned, Reread, Confirmed, Unconfirmed} ==> (w.place.ref, w.commit) in s.canonical)
  }

  ghost predicate WritersOk(s: World) {
    forall id :: id in s.writers ==> WriterOk(s, s.writers[id])
  }

  ghost predicate LocalsOk(s: World) {
    forall place :: place in s.locals ==> Explained(s, place, s.locals[place])
  }

  ghost predicate RemoteOk(s: World) {
    && Sound(s.store)
    && Main in s.remote
    && (forall r :: r in s.remote ==> (r, s.remote[r]) in s.canonical)
    && (forall r, x :: (r, x) in s.canonical ==> x < |s.store|)
  }

  /** A write-once ref never had two values and never lost the one it had. */
  ghost predicate OnceOk(s: World) {
    forall r, x :: (r, x) in s.canonical && r != Main ==> r in s.remote && s.remote[r] == x
  }

  ghost predicate MainLogOk(s: World) {
    && Main in s.remote
    && 0 < |s.mainLog|
    && s.mainLog[|s.mainLog| - 1].sha == s.remote[Main]
    && (forall i :: 0 <= i < |s.mainLog| ==> (Main, s.mainLog[i].sha) in s.canonical)
    && (forall x :: (Main, x) in s.canonical ==> exists i :: 0 <= i < |s.mainLog| && s.mainLog[i].sha == x)
    && (forall i :: 0 <= i < |s.mainLog| && s.mainLog[i].author.Some? ==>
          s.mainLog[i].author.value in s.writers)
  }

  ghost predicate Invariant(s: World) {
    WritersOk(s) && LocalsOk(s) && RemoteOk(s) && OnceOk(s) && MainLogOk(s)
  }

  lemma InitialHolds(s: World)
    requires Initial(s)
    ensures Invariant(s)
  {
  }

  lemma MoveRemoteKeeps(s: World, ref: Ref, sha: Sha, author: Option<nat>)
    requires Invariant(s) && sha < |s.store|
    requires ref != Main ==> Lookup(s.remote, ref) in {None, Some(sha)}
    requires author.Some? ==> author.value in s.writers
    ensures Invariant(MoveRemote(s, ref, sha, author))
    ensures (ref, sha) in MoveRemote(s, ref, sha, author).canonical
  {
    var t := MoveRemote(s, ref, sha, author);
    if t != s {
      assert forall r, x :: (r, x) in s.canonical ==> (r, x) in t.canonical;
      LocalsKept(s, t);
      LogKept(s, ref, sha, author);
    }
  }

  /** The log of main goes on describing main. */
  lemma LogKept(s: World, ref: Ref, sha: Sha, author: Option<nat>)
    requires MainLogOk(s) && RemoteOk(s) && (author.Some? ==> author.value in s.writers)
    ensures MainLogOk(MoveRemote(s, ref, sha, author))
  {
    var t := MoveRemote(s, ref, sha, author);
    if ref == Main && t != s {
      var n := |s.mainLog|;
      assert t.mainLog[n].sha == sha && forall i :: 0 <= i < n ==> t.mainLog[i] == s.mainLog[i];
      forall x | (Main, x) in t.canonical
        ensures exists i :: 0 <= i < |t.mainLog| && t.mainLog[i].sha == x
      {
        if (Main, x) in s.canonical {
          var i :| 0 <= i < n && s.mainLog[i].sha == x;
          assert t.mainLog[i].sha == x;
        } else {
          assert t.mainLog[n].sha == x;
        }
      }
    }
  }

  /** Same locals, same writers, more history: what explained a local value still does. */
  lemma LocalsKept(s: World, t: World)
    requires LocalsOk(s) && t.locals == s.locals && t.writers == s.writers
    requires t.startLocals == s.startLocals && s.canonical <= t.canonical
    ensures LocalsOk(t)
  {
    forall place | place in t.locals
      ensures Explained(t, place, t.locals[place])
    {
      assert Explained(s, place, s.locals[place]);
    }
  }

  /** A phase change that keeps or starts holding, or comes after landing, explains as much. */
  lemma PhaseKeeps(s: World, id: nat, phase: Phase)
    requires Invariant(s) && id in s.writers
    requires Holding(s.writers[id]) ==>
               Holding(s.writers[id].(phase := phase)) || (s.writers[id].place.ref, s.writers[id].commit) in s.canonical
    requires phase in {Returned, Reread, Confirmed, Unconfirmed} ==>
               (s.writers[id].place.ref, s.writers[id].commit) in s.canonical
    ensures Invariant(InPhaseOf(s, id, phase))
  {
    var t := InPhaseOf(s, id, phase);
    forall place | place in t.locals
      ensures Explained(t, place, t.locals[place])
    {
      var v := s.locals[place];
      assert Explained(s, place, v);
      if !(place in s.startLocals && s.startLocals[place] == v) && (place.ref, v) !in s.canonical {
        var k :| k in s.writers && s.writers[k].place == place && s.writers[k].commit == v && Holding(s.writers[k]);
        assert k in t.writers && t.writers[k].place == place && t.writers[k].commit == v && Holding(t.writers[k]);
      }
    }
  }

  lemma LocalCasKeeps(s: World, id: nat)
    requires Invariant(s) && Enabled(s, LocalCas(id))
    ensures Invariant(Next(s, LocalCas(id)))
  {
    var mid := InPhaseOf(s, id, LocalSet);
    PhaseKeeps(s, id, LocalSet);
    var t := Next(s, LocalCas(id));
    forall place | place in t.locals
      ensures Explained(t, place, t.locals[place])
    {
      if place == s.writers[id].place {
        assert Holding(t.writers[id]);
      } else {
        assert Explained(mid, place, mid.locals[place]);
      }
    }
  }

  lemma UndoKeeps(s: World, id: nat, ran: bool)
    requires Invariant(s) && Enabled(s, Undo(id, ran))
    ensures Invariant(Next(s, Undo(id, ran)))
  {
    if ran {
      var w := s.writers[id];
      var t := Next(s, Undo(id, ran));
      forall place | place in t.locals
        ensures Explained(t, place, t.locals[place])
      {
        var v := t.locals[place];
        if place in s.locals && s.locals[place] == v && !(place == w.place && v == w.commit) {
          assert Explained(s, place, v);
          if !(place in s.startLocals && s.startLocals[place] == v) && (place.ref, v) !in s.canonical {
            var k :| k in s.writers && s.writers[k].place == place && s.writers[k].commit == v && Holding(s.writers[k]);
            assert k in t.writers && t.writers[k].place == place && Holding(t.writers[k]);
          }
        } else {
          assert place == w.place && w.lease == Some(v);
        }
      }
    } else {
      PhaseKeeps(s, id, UndoFailed);
    }
  }

  lemma StepKeeps(s: World, a: Action)
    requires Invariant(s) && Enabled(s, a)
    ensures Invariant(Next(s, a))
  {
    match a
    case WriteCommit(c) => WriteCommitKeeps(s, c);
    case Begin(id, w) => BeginKeeps(s, id, w);
    case Refuse(id) => PhaseKeeps(s, id, Refused);
    case LocalCas(id) => LocalCasKeeps(s, id);
    case Recheck(id, agreed) => PhaseKeeps(s, id, if agreed then Cleared else Undoing);
    case Push(id, outcome) =>
      var moved := s;
      if outcome != Bounced {
        MoveRemoteKeeps(s, s.writers[id].place.ref, s.writers[id].commit, Some(id));
        moved := MoveRemote(s, s.writers[id].place.ref, s.writers[id].commit, Some(id));
      }
      PhaseKeeps(moved, id, if outcome == Landed then Returned else Undoing);
    case Undo(id, ran) => UndoKeeps(s, id, ran);
    case ReadMain(id, agreed) => PhaseKeeps(s, id, if agreed then Reread else Unconfirmed);
    case Confirm(id, agreed) => PhaseKeeps(s, id, if agreed then Confirmed else Unconfirmed);
    case PublishMain(sha) => MoveRemoteKeeps(s, Main, sha, None);
    case Fetch(place) => FetchKeeps(s, place);
  }

  lemma WriteCommitKeeps(s: World, c: Commit)
    requires Invariant(s) && Enabled(s, WriteCommit(c))
    ensures Invariant(Next(s, WriteCommit(c)))
  {
    var t := Next(s, WriteCommit(c));
    LocalsKept(s, t);
    assert forall i :: 0 <= i < |s.store| ==> t.store[i] == s.store[i];
  }

  lemma BeginKeeps(s: World, id: nat, w: Writer)
    requires Invariant(s) && Enabled(s, Begin(id, w))
    ensures Invariant(Next(s, Begin(id, w)))
  {
    var t := Next(s, Begin(id, w));
    forall place | place in t.locals
      ensures Explained(t, place, t.locals[place])
    {
      var v := s.locals[place];
      assert Explained(s, place, v);
      if !(place in s.startLocals && s.startLocals[place] == v) && (place.ref, v) !in s.canonical {
        var k :| k in s.writers && s.writers[k].place == place && s.writers[k].commit == v && Holding(s.writers[k]);
        assert k in t.writers && t.writers[k] == s.writers[k];
      }
    }
  }

  lemma FetchKeeps(s: World, place: Place)
    requires Invariant(s) && Enabled(s, Fetch(place))
    ensures Invariant(Next(s, Fetch(place)))
  {
    var t := Next(s, Fetch(place));
    forall p | p in t.locals
      ensures Explained(t, p, t.locals[p])
    {
      if p != place {
        assert Explained(s, p, s.locals[p]);
      }
    }
  }

  // ----- Theorems over every schedule -----

  lemma {:induction false} RunKeeps(s: World, schedule: seq<Action>, admits: (World, Action) -> bool)
    requires Invariant(s) && Run(s, schedule, admits)
    ensures Invariant(After(s, schedule))
    decreases |schedule|
  {
    if schedule != [] {
      StepKeeps(s, schedule[0]);
      RunKeeps(Next(s, schedule[0]), schedule[1..], admits);
    }
  }

  /** History only grows, and a writer never changes anything but its phase. */
  ghost predicate Extends(s: World, t: World) {
    && s.store <= t.store
    && s.canonical <= t.canonical
    && s.mainLog <= t.mainLog
    && t.startLocals == s.startLocals
    && t.failures == s.failures
    && (forall id :: id in s.writers ==> id in t.writers && t.writers[id] == s.writers[id].(phase := t.writers[id].phase))
  }

  lemma StepExtends(s: World, a: Action)
    requires Enabled(s, a)
    ensures Extends(s, Next(s, a))
  {
  }

  lemma ExtendsTransitive(s: World, t: World, u: World)
    requires Extends(s, t) && Extends(t, u)
    ensures Extends(s, u)
  {
  }

  lemma {:induction false} RunExtends(s: World, schedule: seq<Action>, admits: (World, Action) -> bool)
    requires Run(s, schedule, admits)
    ensures Extends(s, After(s, schedule))
    decreases |schedule|
  {
    if schedule != [] {
      var t := Next(s, schedule[0]);
      StepExtends(s, schedule[0]);
      RunExtends(t, schedule[1..], admits);
      ExtendsTransitive(s, t, After(t, schedule[1..]));
    }
  }

  /**
   In every interleaving, pushes that land but are reported failed included: a ref
   that is only published as missing takes at most one remote value and keeps it
   forever, and every writer of it that returns normally pushed exactly that value.
   */
  lemma WriteOnce(start: World, schedule: seq<Action>, n: nat, ref: Ref)
    requires Initial(start) && Run(start, schedule, Anything()) && n <= |schedule| && ref != Main
    ensures var now, later := After(start, schedule[..n]), After(start, schedule);
            && (ref in now.remote ==> ref in later.remote && later.remote[ref] == now.remote[ref])
            && (forall x, y :: (ref, x) in later.canonical && (ref, y) in later.canonical ==> x == y)
            && (forall id :: id in now.writers && now.writers[id].place.ref == ref && now.writers[id].phase == Returned ==>
                  Lookup(later.remote, ref) == Some(now.writers[id].commit))
  {
    InitialHolds(start);
    RunPrefix(start, schedule, n, Anything());
    RunKeeps(start, schedule[..n], Anything());
    var now := After(start, schedule[..n]);
    RunKeeps(now, schedule[n..], Anything());
    RunExtends(now, schedule[n..], Anything());
    var later := After(now, schedule[n..]);
    forall id | id in now.writers && now.writers[id].place.ref == ref && now.writers[id].phase == Returned
      ensures Lookup(later.remote, ref) == Some(now.writers[id].commit)
    {
      assert WriterOk(now, now.writers[id]);
    }
  }

  /**
   In every reachable state each local ref holds what its clone started with, a value
   that was canonical on the remote, or the commit of a writer at that very ref that
   passed its local CAS and whose undo has not completed.
   */
  lemma LocalRefsAreExplained(start: World, schedule: seq<Action>, place: Place)
    requires Initial(start) && Run(start, schedule, Anything())
    ensures var now := After(start, schedule);
            place in now.locals ==>
              || (place in start.locals && start.locals[place] == now.locals[place])
              || (place.ref, now.locals[place]) in now.canonical
              || exists id :: id in now.writers && Holding(now.writers[id]) &&
                              now.writers[id].place == place && now.writers[id].commit == now.locals[place]
  {
    InitialHolds(start);
    RunKeeps(start, schedule, Anything());
    RunExtends(start, schedule, Anything());
    var now := After(start, schedule);
    if place in now.locals {
      assert Explained(now, place, now.locals[place]);
    }
  }

  /**
   Undoing a publication touches one local ref at most, only while it holds this
   writer's own commit, and leaves there a value that was canonical or nothing at
   all.  Remote refs and every other writer stay as they were.
   */
  lemma UndoIsContained(start: World, schedule: seq<Action>, id: nat, ran: bool)
    requires Initial(start) && Run(start, schedule, Anything())
    requires Enabled(After(start, schedule), Undo(id, ran))
    ensures var s, t := After(start, schedule), After(start, schedule + [Undo(id, ran)]);
            var w := s.writers[id];
            && t.remote == s.remote && t.writers - {id} == s.writers - {id}
            && (forall p :: p != w.place || Lookup(s.locals, p) != Some(w.commit) ==>
                  Lookup(t.locals, p) == Lookup(s.locals, p))
            && (Lookup(t.locals, w.place) != Lookup(s.locals, w.place) ==>
                  Lookup(t.locals, w.place) == w.lease &&
                  (w.lease.Some? ==> (w.place.ref, w.lease.value) in s.canonical))
  {
    InitialHolds(start);
    RunKeeps(start, schedule, Anything());
    AfterSnoc(start, schedule, Undo(id, ran));
    var s := After(start, schedule);
    assert WriterOk(s, s.writers[id]);
  }

  lemma {:induction false} AfterSnoc(s: World, schedule: seq<Action>, a: Action)
    ensures After(s, schedule + [a]) == Next(After(s, schedule), a)
    decreases |schedule|
  {
    if schedule == [] {
      assert schedule + [a] == [a];
      assert After(Next(s, a), []) == Next(s, a);
    } else {
      assert (schedule + [a])[1..] == schedule[1..] + [a];
      AfterSnoc(Next(s, schedule[0]), schedule[1..], a);
    }
  }
}
