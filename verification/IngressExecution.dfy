/**
 The ingress operations as they run: one process issuing Git commands one at a time
 while any other process may act in between.  Each method is proved to be a schedule
 of the publication machine, so what holds of every schedule holds of it.
 */
module IngressExecution {
  import opened Prelude
  import opened Git
  import opened Metadata
  import opened Publication
  import AuthorTask
  import AuthorRepair
  import TaskDecision

  /** What the surroundings do to one publication: raise, bounce the push, lose its answer, fail the undo. */
  datatype Conditions = Conditions(admitted: bool, rechecked: bool, push: PushOutcome, undoRuns: bool, confirmed: bool)

  datatype IngressResult =
    | Canonicalized(ref: Ref, sha: Sha)
    | Replayed(ref: Ref, sha: Sha)
    | Raised

  /** True of the actions some other process takes. */
  predicate ByOthers(id: nat, a: Action) {
    match a
    case Begin(k, _) => k != id
    case Refuse(k) => k != id
    case LocalCas(k) => k != id
    case Recheck(k, _) => k != id
    case Push(k, _) => k != id
    case Undo(k, _) => k != id
    case ReadMain(k, _) => k != id
    case Confirm(k, _) => k != id
    case _ => true
  }

  /** An enabled action is taken by others exactly if this writer stays as it is. */
  lemma ByOthersExactly(s: World, a: Action, id: nat)
    requires Enabled(s, a)
    ensures ByOthers(id, a) <==> Lookup(Next(s, a).writers, id) == Lookup(s.writers, id)
  {
    match a
    case Push(k, _) => assert k in s.writers && s.writers[k].phase == Cleared;
    case _ =>
  }

  lemma {:induction false} RunAppend(s: World, first: seq<Action>, second: seq<Action>, admits: (World, Action) -> bool)
    requires Run(s, first, admits) && Run(After(s, first), second, admits)
    ensures Run(s, first + second, admits) && After(s, first + second) == After(After(s, first), second)
    decreases |first|
  {
    if first == [] {
      assert first + second == second;
    } else {
      assert (first + second)[1..] == first[1..] + second;
      RunAppend(Next(s, first[0]), first[1..], second, admits);
    }
  }

  lemma RunOne(s: World, trace: seq<Action>, now: World, a: Action, admits: (World, Action) -> bool)
    requires Run(s, trace, admits) && now == After(s, trace) && Enabled(now, a) && admits(now, a)
    ensures Run(s, trace + [a], admits) && Next(now, a) == After(s, trace + [a])
  {
    assert Run(Next(now, a), [], admits) && [a][1..] == [];
    RunAppend(s, trace, [a], admits);
  }

  /** One remote and every clone of it. `world` is the machine state these fields are part of. */
  class Network {
    var store: Store
    var remote: map<Ref, Sha>
    var locals: map<Place, Sha>
    var failures: map<string, Failure>
    ghost var world: World

    ghost predicate Valid()
      reads this
    {
      world.store == store && world.remote == remote && world.locals == locals && world.failures == failures
    }

    constructor (start: World)
      ensures Valid() && world == start
    {
      store, remote, locals, failures, world := start.store, start.remote, start.locals, start.failures, start;
    }

    /**
     Time passes.  The body does nothing, but callers know only the contract, which
     allows any schedule of the other processes that `admits` lets happen.
     */
    method Elapse(id: nat, ghost admits: (World, Action) -> bool) returns (ghost others: seq<Action>)
      requires Valid()
      modifies this
      ensures Valid()
      ensures Run(old(world), others, admits) && world == After(old(world), others)
      ensures forall k :: 0 <= k < |others| ==> ByOthers(id, others[k])
      ensures (id in world.writers) == (id in old(world).writers)
      ensures id in world.writers ==> world.writers[id] == old(world).writers[id]
      ensures old(world).store <= world.store
    {
      others := [];
    }

    /** `git update-ref` with an expected old value; the zero value for a missing ref. */
    method UpdateRef(place: Place, sha: Sha, expected: Option<Sha>) returns (done: bool)
      modifies this`locals
      ensures done == (Lookup(old(locals), place) == expected)
      ensures locals == if done then old(locals)[place := sha] else old(locals)
    {
      done := Lookup(locals, place) == expected;
      if done {
        locals := locals[place := sha];
      }
    }

    /** `git push --force-with-lease`; a failed answer may still have moved the remote. */
    method PushWithLease(ref: Ref, sha: Sha, lease: Option<Sha>, attempt: PushOutcome) returns (outcome: PushOutcome)
      modifies this`remote
      ensures outcome == if Lookup(old(remote), ref) in {lease, Some(sha)} then attempt else Bounced
      ensures remote == if outcome == Bounced then old(remote) else old(remote)[ref := sha]
    {
      outcome := if Lookup(remote, ref) == lease || Lookup(remote, ref) == Some(sha) then attempt else Bounced;
      if outcome != Bounced {
        remote := remote[ref := sha];
      }
    }

    /** Put the local ref back, keyed on this writer's own commit; Git may refuse even that. */
    method UndoLocal(place: Place, sha: Sha, lease: Option<Sha>, runs: bool)
      modifies this`locals
      ensures locals == if runs && Lookup(old(locals), place) == Some(sha)
                        then (if lease.None? then old(locals) - {place} else old(locals)[place := lease.value])
                        else old(locals)
    {
      if runs {
        if lease.None? {
          if Lookup(locals, place) == Some(sha) {
            locals := locals - {place};
          }
        } else {
          var _ := UpdateRef(place, lease.value, Some(sha));
        }
      }
    }

    /** The machine is where this trace leads, and this process's writer is in this phase. */
    ghost predicate At(start: World, trace: seq<Action>, admits: (World, Action) -> bool, id: nat, w: Writer, phase: Phase)
      reads this
    {
      && Valid()
      && Run(start, trace, admits) && world == After(start, trace)
      && id in world.writers && world.writers[id] == w.(phase := phase)
    }

    /** Advance the machine by one enabled action of this process. */
    ghost method Step(a: Action, start: World, trace: seq<Action>, admits: (World, Action) -> bool)
      returns (longer: seq<Action>)
      requires Enabled(world, a) && admits(world, a)
      requires Run(start, trace, admits) && world == After(start, trace)
      modifies this`world
      ensures world == Next(old(world), a) && longer == trace + [a]
      ensures Run(start, longer, admits) && world == After(start, longer)
    {
      RunOne(start, trace, world, a, admits);
      world := Next(world, a);
      longer := trace + [a];
    }

    /** Let time pass in the middle of a trace. */
    method Pause(id: nat, ghost w: Writer, ghost phase: Phase,
                 ghost start: World, ghost trace: seq<Action>, ghost admits: (World, Action) -> bool)
      returns (ghost longer: seq<Action>)
      requires At(start, trace, admits, id, w, phase)
      modifies this
      ensures At(start, longer, admits, id, w, phase) && old(world).store <= world.store
    {
      ghost var others := Elapse(id, admits);
      RunAppend(start, trace, others, admits);
      longer := trace + others;
    }

    /** The local compare-and-swap, or a check before it that raises. */
    method SetLocal(id: nat, w: Writer, admitted: bool,
                    ghost start: World, ghost trace: seq<Action>, ghost admits: (World, Action) -> bool)
      returns (done: bool, ghost longer: seq<Action>)
      requires At(start, trace, admits, id, w, Entered)
      requires forall s: World, a: Action :: !a.Begin? && !a.PublishMain? ==> admits(s, a)
      modifies this
      ensures old(world).store <= world.store
      ensures At(start, longer, admits, id, w, if done then LocalSet else Refused)
    {
      done := false;
      if admitted {
        done := UpdateRef(w.place, w.commit, w.lease);
      }
      if done {
        longer := Step(LocalCas(id), start, trace, admits);
      } else {
        longer := Step(Refuse(id), start, trace, admits);
      }
    }

    method PushCleared(id: nat, w: Writer, attempt: PushOutcome,
                       ghost start: World, ghost trace: seq<Action>, ghost admits: (World, Action) -> bool)
      returns (landed: bool, ghost longer: seq<Action>)
      requires At(start, trace, admits, id, w, Cleared)
      requires forall s: World, a: Action :: !a.Begin? && !a.PublishMain? ==> admits(s, a)
      modifies this
      ensures old(world).store <= world.store
      ensures At(start, longer, admits, id, w, if landed then Returned else Undoing)
    {
      var outcome := PushWithLease(w.place.ref, w.commit, w.lease, attempt);
      longer := Step(Push(id, outcome), start, trace, admits);
      landed := outcome == Landed;
    }

    method UndoPublication(id: nat, w: Writer, runs: bool,
                           ghost start: World, ghost trace: seq<Action>, ghost admits: (World, Action) -> bool)
      returns (ghost longer: seq<Action>)
      requires At(start, trace, admits, id, w, Undoing)
      requires forall s: World, a: Action :: !a.Begin? && !a.PublishMain? ==> admits(s, a)
      modifies this
      ensures old(world).store <= world.store
      ensures At(start, longer, admits, id, w, if runs then Undone else UndoFailed)
    {
      UndoLocal(w.place, w.commit, w.lease, runs);
      longer := Step(Undo(id, runs), start, trace, admits);
    }

    /** After the local CAS: recheck, push, and undo whatever does not return. */
    method PushLocal(id: nat, w: Writer, c: Conditions,
                     ghost start: World, ghost before: seq<Action>, ghost admits: (World, Action) -> bool)
      returns (returned: bool, ghost trace: seq<Action>)
      requires At(start, before, admits, id, w, LocalSet)
      requires forall s: World, a: Action :: !a.Begin? && !a.PublishMain? ==> admits(s, a)
      modifies this
      ensures old(world).store <= world.store
      ensures At(start, trace, admits, id, w, if returned then Returned else if c.undoRuns then Undone else UndoFailed)
    {
      returned := false;
      trace := Pause(id, w, LocalSet, start, before, admits);
      trace := Step(Recheck(id, c.rechecked), start, trace, admits);
      if c.rechecked {
        trace := Pause(id, w, Cleared, start, trace, admits);
        returned, trace := PushCleared(id, w, c.push, start, trace, admits);
      }
      if !returned {
        trace := Pause(id, w, Undoing, start, trace, admits);
        trace := UndoPublication(id, w, c.undoRuns, start, trace, admits);
      }
    }

    /** The publisher, from entry to its normal return or to whatever it raises. */
    method PublishIngressRef(id: nat, w: Writer, c: Conditions,
                             ghost start: World, ghost before: seq<Action>, ghost admits: (World, Action) -> bool)
      returns (returned: bool, ghost trace: seq<Action>, ghost phase: Phase)
      requires Valid() && Run(start, before, admits) && world == After(start, before)
      requires Enabled(world, Begin(id, w)) && admits(world, Begin(id, w))
      requires forall s: World, a: Action :: !a.Begin? && !a.PublishMain? ==> admits(s, a)
      modifies this
      ensures At(start, trace, admits, id, w, phase) && old(world).store <= world.store
      ensures if returned then phase == Returned else phase in {Refused, Undone, UndoFailed}
    {
      trace := Step(Begin(id, w), start, before, admits);
      trace := Pause(id, w, Entered, start, trace, admits);
      returned, trace := SetLocal(id, w, c.admitted, start, trace, admits);
      phase := Refused;
      if returned {
        returned, trace := PushLocal(id, w, c, start, trace, admits);
        phase := if returned then Returned else if c.undoRuns then Undone else UndoFailed;
      }
    }

    /** The machine is where this trace leads, and this process has not entered the publisher. */
    ghost predicate Outside(start: World, trace: seq<Action>, id: nat)
      reads this
    {
      && Valid() && Invariant(world) && id !in world.writers
      && Run(start, trace, AuthorTask.Admits) && world == After(start, trace)
      && forall k :: 0 <= k < |trace| ==> ByOthers(id, trace[k])
    }

    /** Let time pass before the publisher is entered. */
    method PauseOutside(id: nat, ghost start: World, ghost trace: seq<Action>) returns (ghost longer: seq<Action>)
      requires Outside(start, trace, id)
      modifies this
      ensures Outside(start, longer, id) && Extends(old(world), world)
    {
      ghost var before := world;
      ghost var others := Elapse(id, AuthorTask.Admits);
      RunAppend(start, trace, others, AuthorTask.Admits);
      RunKeeps(before, others, AuthorTask.Admits);
      RunExtends(before, others, AuthorTask.Admits);
      longer := trace + others;
    }

    /** Remote main as it was on entry, if the local main is found equal afterwards. */
    method ResolveMain(id: nat, place: Place) returns (main: Option<Sha>, ghost trace: seq<Action>)
      requires Valid() && Invariant(world) && id !in world.writers && place.ref == Main
      modifies this
      ensures Outside(old(world), trace, id)
      ensures main.Some? ==> main == Lookup(old(remote), Main) && main.value < |store| && (Main, main.value) in world.canonical
    {
      ghost var start := world;
      var read := remote[Main];
      assert (Main, read) in world.canonical;
      assert Run(start, [], AuthorTask.Admits) && After(start, []) == start;
      trace := PauseOutside(id, start, []);
      main := if Lookup(locals, place) == Some(read) then Some(read) else None;
      trace := PauseOutside(id, start, trace);
    }

    /** AUTHOR_TASK: read remote main, then local main, decide, commit, publish, and read both once more. */
    method ExecuteAuthorTask(id: nat, clone: nat, e: TaskEnvelope, c: Conditions)
      returns (r: IngressResult, ghost trace: seq<Action>)
      requires Valid() && Invariant(world) && id !in world.writers
      modifies this
      ensures Valid() && Run(old(world), trace, AuthorTask.Admits) && world == After(old(world), trace)
      ensures r.Replayed? ==> id !in world.writers && forall k :: 0 <= k < |trace| ==> ByOthers(id, trace[k])
      ensures r.Replayed? ==> r.ref == Main && Lookup(old(remote), Main) == Some(r.sha)
      ensures r.Replayed? ==> r.sha < |store| && TaskDecision.Replays(store, r.sha, e)
      ensures r.Canonicalized? ==>
                && id in world.writers && world.writers[id].phase == Confirmed
                && world.writers[id].commit == r.sha && world.writers[id].request == Request.AuthorTask(e)
      ensures r.Canonicalized? ==>
                && r.ref == Main && r.sha < |store| && |store[r.sha].parents| == 1
                && Lookup(old(remote), Main) == Some(store[r.sha].parents[0]) && store[r.sha].parents[0] < |store|
                && TaskDecision.Authors(store, store[r.sha].parents[0], e, store[r.sha].tree)
    {
      ghost var start := world;
      var place := Place(clone, Main);
      var read;
      read, trace := ResolveMain(id, place);
      if read.None? {
        return Raised, trace;
      }
      var main := read.value;
      TaskDecision.DecisionTable(store, main, e);
      match AuthorTask.Decide(store, main, e) {
        case Reject => r := Raised;
        case Idempotent(sha) => r := Replayed(Main, sha);
        case Author(tree) =>
          r, trace := WriteAndPublish(id, place, main, e, tree, c, start, trace);
      }
    }

    /** Store the mutation of a main that was once remote, and publish it. */
    method WriteAndPublish(id: nat, place: Place, main: Sha, e: TaskEnvelope, tree: Tree, c: Conditions,
                           ghost start: World, ghost before: seq<Action>)
      returns (r: IngressResult, ghost trace: seq<Action>)
      requires Outside(start, before, id) && place.ref == Main && (Main, main) in world.canonical && main < |store|
      requires AuthorTask.Decide(store, main, e) == AuthorTask.Author(tree)
      modifies this
      ensures Valid() && Run(start, trace, AuthorTask.Admits) && world == After(start, trace)
      ensures !r.Replayed?
      ensures r.Canonicalized? ==>
                && id in world.writers && world.writers[id].phase == Confirmed
                && world.writers[id].commit == r.sha && world.writers[id].request == Request.AuthorTask(e)
      ensures r.Canonicalized? ==>
                && r.ref == Main && r.sha < |store| && store[r.sha].parents == [main] && main < |store|
                && TaskDecision.Authors(store, main, e, store[r.sha].tree)
    {
      var w := Writer(place, Some(main), |store|, Request.AuthorTask(e), Entered);
      trace := WriteTaskCommit(id, w, tree, start, before);
      ghost var written := store;
      trace := PauseOutside(id, start, trace);
      AuthorTask.AuthoredStable(written, store, w);
      written := store;
      r, trace := PublishTask(id, w, c, start, trace);
      AuthorTask.AuthoredStable(written, store, w);
      TaskDecision.DecisionTable(store, main, e);
    }

    /** Publish a stored TASK commit and confirm it. */
    method PublishTask(id: nat, w: Writer, c: Conditions, ghost start: World, ghost before: seq<Action>)
      returns (r: IngressResult, ghost trace: seq<Action>)
      requires Outside(start, before, id) && w.place.ref == Main && w.request.AuthorTask?
      requires Enabled(world, Begin(id, w)) && AuthorTask.Admits(world, Begin(id, w))
      modifies this
      ensures Valid() && Run(start, trace, AuthorTask.Admits) && world == After(start, trace)
      ensures r.Raised? || (r == Canonicalized(Main, w.commit) && At(start, trace, AuthorTask.Admits, id, w, Confirmed))
      ensures old(world).store <= world.store
    {
      var returned;
      ghost var phase;
      returned, trace, phase := PublishIngressRef(id, w, c, start, before, AuthorTask.Admits);
      if !returned {
        return Raised, trace;
      }
      trace := Pause(id, w, Returned, start, trace, AuthorTask.Admits);
      r, trace := ConfirmMain(id, w, c.confirmed, start, trace);
    }

    /** The postcondition of AUTHOR_TASK: the remote main, and then the local one, is this commit. */
    method ConfirmMain(id: nat, w: Writer, readable: bool, ghost start: World, ghost before: seq<Action>)
      returns (r: IngressResult, ghost trace: seq<Action>)
      requires At(start, before, AuthorTask.Admits, id, w, Returned) && w.place.ref == Main
      modifies this
      ensures At(start, trace, AuthorTask.Admits, id, w, if r.Raised? then Unconfirmed else Confirmed)
      ensures old(world).store <= world.store
      ensures r in {Raised, Canonicalized(Main, w.commit)}
    {
      var agreed := readable && Lookup(remote, Main) == Some(w.commit);
      trace := Step(ReadMain(id, agreed), start, before, AuthorTask.Admits);
      if !agreed {
        return Raised, trace;
      }
      trace := Pause(id, w, Reread, start, trace, AuthorTask.Admits);
      agreed := Lookup(locals, w.place) == Some(w.commit);
      trace := Step(Confirm(id, agreed), start, trace, AuthorTask.Admits);
      r := if agreed then Canonicalized(Main, w.commit) else Raised;
    }

    method WriteTaskCommit(id: nat, w: Writer, tree: Tree, ghost start: World, ghost before: seq<Action>)
      returns (ghost trace: seq<Action>)
      requires Outside(start, before, id)
      requires w.lease.Some? && w.lease.value < |store| && w.commit == |store| && w.request.AuthorTask?
      requires AuthorTask.Decide(store, w.lease.value, w.request.task) == AuthorTask.Author(tree)
      modifies this
      ensures Outside(start, trace, id) && Extends(old(world), world)
      ensures w.commit < |store| && AuthorTask.Authored(store, w)
    {
      ghost var base := store[w.lease.value].tree;
      AddedFileCollidesWithNothing(base, TaskPath(w.request.task.taskId),
                                   Entry(Regular, TaskFile(w.request.task.task.value)));
      assert Consistent(base) && NamesOnlyOlder(base, w.lease.value);
      ghost var now := world;
      store := store + [Commit([w.lease.value], tree)];
      trace := Step(WriteCommit(Commit([w.lease.value], tree)), start, before, AuthorTask.Admits);
      StepKeeps(now, WriteCommit(Commit([w.lease.value], tree)));
    }

    /** One observation of the refs and objects a request is judged on. */
    method Observe() returns (seen: World)
      requires Valid()
      ensures seen.store == world.store && seen.remote == world.remote && seen.failures == world.failures
    {
      seen := World(store, remote, locals, map[], failures, {}, map[], []);
    }

    method WriteRepairCommit(e: RepairEnvelope, revision: nat, commit: Commit, ghost start: World)
      returns (ghost trace: seq<Action>)
      requires Valid() && Invariant(world) && world == start
      requires AuthorRepair.ChainsOk(world) && AuthorRepair.Decide(world, e) == AuthorRepair.Write(revision, commit)
      modifies this
      ensures Valid() && Run(start, trace, AuthorRepair.Admits) && world == After(start, trace)
      ensures world == start.(store := start.store + [commit])
      ensures AuthorRepair.Decide(world, e) == AuthorRepair.Write(revision, commit)
    {
      AuthorRepair.DecidedIsStorable(world, e);
      AuthorRepair.DecideUnmoved(world, e, commit);
      assert Run(start, [], AuthorRepair.Admits) && After(start, []) == start;
      store := store + [commit];
      trace := Step(WriteCommit(commit), start, [], AuthorRepair.Admits);
    }

    /** The read after a failed publication: an identical winner is the answer, anything else raises. */
    method ClassifyLostRace(w: Writer) returns (r: IngressResult)
      requires Valid() && w.place.ref.RepairRef? && w.request.AuthorRepair? && w.commit < |world.store|
      ensures !r.Raised? <==> exists winner :: AuthorRepair.RaceWon(world, w, winner)
      ensures !r.Raised? ==>
              && r.Replayed? && r.ref == w.place.ref && w.request.repair.repair.Some?
              && AuthorRepair.Tip(world, w.place.ref.run, w.place.ref.revision, r.sha, w.request.repair.repair.value)
    {
      var run := w.place.ref.run;
      r := Raised;
      if run in failures {
        var seen := Observe();
        AuthorRepair.SameObservation(seen, world, w.request.repair, run);
        var current := AuthorRepair.ReadAuthorization(seen, run);
        forall winner
          ensures AuthorRepair.RaceWon(world, w, winner) <==> AuthorRepair.RaceWon(seen, w, winner)
          ensures AuthorRepair.RaceWon(world, w, winner) ==> current == Accepted(Some(winner))
        {
        }
        if current.Accepted? && current.value.Some? && AuthorRepair.RaceWon(seen, w, current.value.value) {
          AuthorRepair.RaceWonIsCanonical(seen, w, current.value.value);
          r := Replayed(w.place.ref, current.value.value.sha);
        }
      }
    }

    /** Publish a stored authorization; one more read classifies a failure. */
    method PublishRepair(id: nat, w: Writer, c: Conditions, ghost start: World, ghost before: seq<Action>)
      returns (r: IngressResult, ghost trace: seq<Action>)
      requires Valid() && Run(start, before, AuthorRepair.Admits) && world == After(start, before)
      requires Enabled(world, Begin(id, w)) && AuthorRepair.Admits(world, Begin(id, w))
      requires w.place.ref.RepairRef? && w.request.AuthorRepair?
      modifies this
      ensures Valid() && Run(start, trace, AuthorRepair.Admits) && world == After(start, trace)
      ensures r.Replayed? ==>
                && r.ref == w.place.ref && w.request.repair.repair.Some?
                && AuthorRepair.Tip(world, w.place.ref.run, w.place.ref.revision, r.sha, w.request.repair.repair.value)
      ensures r.Canonicalized? ==>
                && InPhase(world, id, Returned) && world.writers[id] == w.(phase := Returned)
                && r == Canonicalized(w.place.ref, w.commit)
      ensures old(world).store <= world.store
    {
      var returned;
      ghost var phase;
      returned, trace, phase := PublishIngressRef(id, w, c, start, before, AuthorRepair.Admits);
      if returned {
        return Canonicalized(w.place.ref, w.commit), trace;
      }
      trace := Pause(id, w, phase, start, trace, AuthorRepair.Admits);
      r := ClassifyLostRace(w);
    }

    /** AUTHOR_REPAIR: read, decide, commit, publish. */
    method ExecuteAuthorRepair(id: nat, clone: nat, e: RepairEnvelope, c: Conditions)
      returns (r: IngressResult, ghost trace: seq<Action>)
      requires Valid() && Invariant(world) && AuthorRepair.ChainsOk(world) && id !in world.writers
      modifies this
      ensures Valid() && Run(old(world), trace, AuthorRepair.Admits) && world == After(old(world), trace)
      ensures r.Replayed? ==>
                && r.ref.RepairRef? && r.ref.run == e.run && e.repair.Some?
                && AuthorRepair.Tip(world, e.run, r.ref.revision, r.sha, e.repair.value)
      ensures r.Canonicalized? ==>
                && InPhase(world, id, Returned)
                && world.writers[id].place.ref == r.ref && world.writers[id].commit == r.sha
                && world.writers[id].request == Request.AuthorRepair(e)
      ensures var d := AuthorRepair.Decide(old(world), e);
              && (d.Reject? ==> r.Raised? && trace == [])
              && (d.Idempotent? ==> r == Replayed(RepairRef(e.run, d.revision), d.sha) && trace == [])
              && (r.Canonicalized? ==> d.Write? && r.ref == RepairRef(e.run, d.revision))
              && (r.Canonicalized? ==> r.sha < |store| && store[r.sha] == d.commit)
    {
      ghost var start := world;
      trace := [];
      var seen := Observe();
      AuthorRepair.SameObservation(seen, world, e, e.run);
      var decision := AuthorRepair.Decide(seen, e);
      if decision.Reject? {
        return Raised, trace;
      }
      if decision.Idempotent? {
        AuthorRepair.ReplayIsCanonical(world, e);
        return Replayed(RepairRef(e.run, decision.revision), decision.sha), trace;
      }
      var ref := RepairRef(e.run, decision.revision);
      var w := Writer(Place(clone, ref), None, |store|, Request.AuthorRepair(e), Entered);
      trace := WriteRepairCommit(e, decision.revision, decision.commit, start);
      ghost var written := store;
      r, trace := PublishRepair(id, w, c, start, trace);
      assert written <= store;
    }
  }
}
