/**
 The boundary as it runs: the invocation and the feedback seam as imperative code over
 the fields of the frame, with any other thread free to act between two sections.  The
 code of an adapter or of a feedback body is a script of calls back into the boundary.
 Each method is proved to be a run of the boundary's state machine.
 */
module ExecutorFrames {
  import opened Prelude
  import opened ExecutorBoundary

  class LiveInvocation {
    const thread: Thread
    const lease: Lease
    var executing: bool
    var consuming: bool
    var stopped: bool

    constructor (t: Thread, l: Lease)
      ensures thread == t && lease == l && !executing && !consuming && !stopped
    {
      thread, lease, executing, consuming, stopped := t, l, false, false, false;
    }
  }

  /** What foreign code does on its thread: calls whose exceptions it may swallow, and then it may raise. */
  datatype Script = Script(calls: seq<Call>, raises: bool)

  /**
   `begins`: the runtime accepts the invocation.  `first` and `again`: the arguments of
   the seam agree with the frame at the opening and at the closing check.
   */
  datatype Call =
    | Invokes(lease: Lease, begins: bool, adapter: Script)
    | Feeds(first: bool, again: bool, body: Script)

  /** Actions that are not this thread's. */
  predicate ByOthers(a: Action, t: Thread) {
    a.Release? || a.t != t
  }

  lemma {:induction false} RunExtends(w: World, run: seq<Action>, a: Action)
    requires Admits(w, run) && Enabled(StateAt(w, run, |run|), a)
    ensures Admits(w, run + [a]) && StateAt(w, run + [a], |run| + 1) == After(StateAt(w, run, |run|), a)
    decreases |run|
  {
    if run == [] {
      assert run + [a] == [a] && [a][1..] == [];
    } else {
      assert (run + [a])[1..] == run[1..] + [a];
      RunExtends(After(w, run[0]), run[1..], a);
    }
  }

  lemma {:induction false} PrefixState(w: World, run: seq<Action>, longer: seq<Action>, k: nat)
    requires Admits(w, run) && Admits(w, longer) && run <= longer && k <= |run|
    ensures StateAt(w, run, k) == StateAt(w, longer, k)
    decreases |run|
  {
    if k > 0 {
      assert run[1..] <= longer[1..];
      PrefixState(After(w, run[0]), run[1..], longer[1..], k - 1);
    }
  }

  /** No frame appears to stop or start executing to the invocations on this part of a stack. */
  ghost predicate KeepsExecuting(w: World, v: World, base: seq<Activity>) {
    && |v.frames| >= |w.frames|
    && forall f :: 0 <= f < |w.frames| && Invoking(f) in base ==> v.frames[f].executing == w.frames[f].executing
  }

  /** What other threads leave alone: this thread's calls, and whether its invocation is executing. */
  ghost predicate Untouched(w: World, v: World, t: Thread) {
    && |v.stacks| == |w.stacks|
    && (t < |w.stacks| ==> v.stacks[t] == w.stacks[t] && KeepsExecuting(w, v, w.stacks[t]))
  }

  lemma OthersLeave(w: World, a: Action, t: Thread)
    requires Inv(w) && Enabled(w, a) && ByOthers(a, t)
    ensures Untouched(w, After(w, a), t)
  {
    OthersLeaveStack(w, a, t);
    forall f | t < |w.stacks| && 0 <= f < |w.frames| && Invoking(f) in w.stacks[t]
      ensures After(w, a).frames[f].executing == w.frames[f].executing
    {
      var p :| 0 <= p < |w.stacks[t]| && w.stacks[t][p] == Invoking(f);
      assert GoodAt(w, t, p);
      assert a.Execute? || a.Leave? ==> GoodAt(w, a.t, Depth(w, a.t) - 1);
    }
  }

  lemma {:induction false} OthersLeaveAll(w: World, run: seq<Action>, t: Thread, since: nat, until: nat)
    requires Inv(w) && Admits(w, run) && since <= until <= |run|
    requires forall k :: since <= k < until ==> ByOthers(run[k], t)
    ensures Untouched(StateAt(w, run, since), StateAt(w, run, until), t)
    decreases until
  {
    if since < until {
      OthersLeaveAll(w, run, t, since, until - 1);
      RunKeeps(w, run, until - 1);
      StateNext(w, run, until - 1);
      OthersLeave(StateAt(w, run, until - 1), run[until - 1], t);
    }
  }

  /** `made`, `world`, `start` and `trace` are history: the frames, and the run that led to these fields. */
  class Boundary {
    var live: LiveInvocation?
    var leases: set<Lease>
    ghost var made: seq<LiveInvocation>
    ghost var world: World
    ghost const start: World
    ghost const threads: nat
    ghost var trace: seq<Action>

    ghost predicate Valid()
      reads this, made
    {
      && Initial(start) && Admits(start, trace) && world == StateAt(start, trace, |trace|)
      && |world.stacks| == threads && |made| == |world.frames| && leases == world.leases
      && (forall i, j :: 0 <= i < j < |made| ==> made[i] != made[j])
      && (forall i :: 0 <= i < |made| ==> Mirrors(made[i], world.frames[i]))
      && (world.live.Some? ==> world.live.value < |made|)
      && live == CellOf(world.live)
    }

    ghost predicate Mirrors(c: LiveInvocation, f: Frame)
      reads c
    {
      f == Frame(c.thread, c.lease, c.executing, c.consuming, c.stopped)
    }

    ghost function CellOf(f: Option<nat>): LiveInvocation?
      reads this
    {
      if f.Some? && f.value < |made| then made[f.value] else null
    }

    /** The innermost call of the thread is a feedback of this frame at this stage. */
    ghost predicate At(t: Thread, base: seq<Activity>, f: Option<nat>, stage: Stage, frame: LiveInvocation?)
      reads this, made
    {
      && Valid() && t < threads && world.stacks[t] == base + [Feedback(f, stage)]
      && (f.Some? ==> f.value < |made|) && frame == CellOf(f)
    }

    /** Its innermost call is the invocation that made this frame. */
    ghost predicate Invoked(t: Thread, base: seq<Activity>, f: nat, executing: bool, frame: LiveInvocation)
      reads this, made
    {
      && Valid() && t < threads && world.stacks[t] == base + [Invoking(f)]
      && f < |made| && frame == made[f] && frame.executing == executing
    }

    constructor (l: set<Lease>, n: nat)
      ensures Valid() && trace == [] && leases == l && live == null && threads == n
    {
      live, leases, made, trace, threads := null, l, [], [], n;
      start := World([], None, l, seq(n, _ => []));
      world := World([], None, l, seq(n, _ => []));
    }

    /** What any piece of this thread's code leaves as it was, and what it may add. */
    twostate predicate Progress(base: seq<Activity>)
      reads this
    {
      && |old(trace)| <= |trace| && old(trace) <= trace && old(made) <= made
      && KeepsExecuting(old(world), world, base)
      && forall i :: |old(made)| <= i < |made| ==> fresh(made[i])
    }

    /** Advance the run by one enabled action. */
    ghost method Step(a: Action)
      requires Initial(start) && Admits(start, trace) && world == StateAt(start, trace, |trace|) && Enabled(world, a)
      modifies this`world, this`trace
      ensures world == After(old(world), a) && trace == old(trace) + [a]
      ensures Admits(start, trace) && world == StateAt(start, trace, |trace|)
    {
      RunExtends(start, trace, a);
      world := After(world, a);
      trace := trace + [a];
    }

    // ----- Interference -----

    /**
     Time passes.  The body does nothing, but callers know only the contract, which
     allows any run of the other threads and of the lease registry.
     */
    method Elapse(t: Thread)
      requires Valid()
      modifies this, made
      ensures Valid() && old(trace) <= trace && old(made) <= made
      ensures forall k :: |old(trace)| <= k < |trace| ==> ByOthers(trace[k], t)
      ensures forall i :: |old(made)| <= i < |made| ==> fresh(made[i])
    {
    }

    method Pause(t: Thread)
      requires Valid()
      modifies this, made
      ensures Valid() && Untouched(old(world), world, t) && (t < threads ==> Progress(world.stacks[t]))
      ensures old(trace) <= trace && old(made) <= made
    {
      ghost var before := trace;
      Elapse(t);
      InitialHolds(start);
      PrefixState(start, before, trace, |before|);
      OthersLeaveAll(start, trace, t, |before|, |trace|);
    }

    method PauseAt(t: Thread, ghost base: seq<Activity>, ghost f: Option<nat>, ghost stage: Stage, frame: LiveInvocation?)
      requires At(t, base, f, stage, frame)
      modifies this, made
      ensures At(t, base, f, stage, frame) && Progress(base)
    {
      Pause(t);
    }

    method PauseInvoked(t: Thread, ghost base: seq<Activity>, ghost f: nat, ghost executing: bool, frame: LiveInvocation)
      requires Invoked(t, base, f, executing, frame)
      modifies this, made
      ensures Invoked(t, base, f, executing, frame) && Progress(base)
    {
      assert (base + [Invoking(f)])[|base|] == Invoking(f);
      assert Mirrors(made[f], world.frames[f]);
      Pause(t);
      assert Mirrors(made[f], world.frames[f]);
    }

    // ----- The sections of an invocation -----

    /** Under the lock: a second invocation stops the first and is refused, otherwise a frame goes live. */
    method Begin(t: Thread, lease: Lease) returns (frame: LiveInvocation?)
      requires Valid() && CanCall(world, t)
      modifies this, made
      ensures Valid() && trace == old(trace) + [Invoke(t, lease)] && Progress(old(world).stacks[t])
      ensures frame == null <==> old(live) != null
      ensures frame == null ==> made == old(made) && live == old(live) && live.stopped && world.stacks == old(world).stacks
      ensures frame != null ==>
                && fresh(frame) && live == frame && made == old(made) + [frame] && frame.thread == t && frame.lease == lease
                && Invoked(t, old(world).stacks[t], |old(made)|, false, frame)
    {
      if live != null {
        live.stopped := true;
        Step(Invoke(t, lease));
        return null;
      }
      frame := new LiveInvocation(t, lease);
      live := frame;
      made := made + [frame];
      Step(Invoke(t, lease));
    }

    /** No thread is inside the same invocation twice. */
    lemma NotBelow(t: Thread, base: seq<Activity>, f: nat, executing: bool, frame: LiveInvocation)
      requires Invoked(t, base, f, executing, frame)
      ensures Invoking(f) !in base
    {
      InitialHolds(start);
      RunKeeps(start, trace, |trace|);
      var s := world.stacks[t];
      assert GoodAt(world, t, |base|);
      assert forall q :: 0 <= q < |base| ==> s[q] == base[q];
    }

    method StartExecuting(t: Thread, frame: LiveInvocation, ghost base: seq<Activity>, ghost f: nat)
      requires Invoked(t, base, f, false, frame)
      modifies this`world, this`trace, frame`executing
      ensures Invoked(t, base, f, true, frame) && trace == old(trace) + [Execute(t)] && Progress(base)
    {
      NotBelow(t, base, f, false, frame);
      assert Mirrors(made[f], world.frames[f]);
      frame.executing := true;
      Step(Execute(t));
    }

    /** In the finally block, whichever way the adapter came back. */
    method End(t: Thread, frame: LiveInvocation, ghost base: seq<Activity>, ghost f: nat, ghost executing: bool)
      requires Invoked(t, base, f, executing, frame)
      modifies this`live, this`world, this`trace, frame`executing, frame`stopped
      ensures Valid() && trace == old(trace) + [Leave(t)] && Progress(base)
      ensures world.stacks[t] == base
      ensures live == null && frame.stopped && !frame.executing
    {
      NotBelow(t, base, f, executing, frame);
      frame.stopped := true;
      frame.executing := false;
      live := null;
      Step(Leave(t));
      assert world.stacks[t] == base;
    }

    // ----- The sections of a feedback -----

    method Capture(t: Thread) returns (frame: LiveInvocation?)
      requires Valid() && CanCall(world, t)
      modifies this`world, this`trace
      ensures At(t, old(world).stacks[t], old(world).live, Captured, frame)
      ensures frame == live && trace == old(trace) + [Enter(t)] && Progress(old(world).stacks[t])
    {
      frame := live;
      Step(Enter(t));
    }

    method RefuseReentry(t: Thread, frame: LiveInvocation?, ghost base: seq<Activity>, ghost f: Option<nat>)
      returns (refused: bool)
      requires At(t, base, f, Captured, frame)
      modifies this`world, this`trace
      ensures At(t, base, f, if refused then Failing else Screened, frame) && trace == old(trace) + [Test(t)]
      ensures Progress(base)
    {
      assert f.Some? ==> Mirrors(made[f.value], world.frames[f.value]);
      refused := frame != null && frame.consuming;
      Step(Test(t));
      assert world.stacks[t] == base + [Feedback(f, if refused then Failing else Screened)];
    }

    /** The comparisons of `check`; `same` stands for those of the arguments with the frame. */
    method Establish(t: Thread, frame: LiveInvocation?, same: bool, ghost f: Option<nat>) returns (ok: bool)
      requires Valid() && (f.Some? ==> f.value < |made|) && frame == CellOf(f)
      ensures ok <==> Established(world, t, f, same)
    {
      assert f.Some? ==> Mirrors(made[f.value], world.frames[f.value]);
      ok := frame != null && live == frame && !frame.stopped && frame.executing && frame.thread == t && same &&
            frame.lease in leases;
    }

    method OpeningCheck(t: Thread, frame: LiveInvocation?, same: bool, ghost base: seq<Activity>, ghost f: Option<nat>)
      returns (ok: bool)
      requires At(t, base, f, Screened, frame)
      modifies this`world, this`trace
      ensures At(t, base, f, if ok then Checked else Failing, frame) && trace == old(trace) + [Check(t, same)]
      ensures ok ==> same && f.Some?
      ensures Progress(base)
    {
      ok := Establish(t, frame, same, f);
      Step(Check(t, same));
      assert world.stacks[t] == base + [Feedback(f, if ok then Checked else Failing)];
    }

    /** `held` on the way in: the lease object is still the holder. */
    method HoldLease(t: Thread, frame: LiveInvocation, ghost base: seq<Activity>, ghost f: Option<nat>)
      returns (ok: bool)
      requires At(t, base, f, Checked, frame)
      modifies this`world, this`trace
      ensures At(t, base, f, if ok then Held else Failing, frame) && trace == old(trace) + [Hold(t)]
      ensures Progress(base)
    {
      assert Mirrors(made[f.value], world.frames[f.value]);
      ok := frame.lease in leases;
      Step(Hold(t));
      assert world.stacks[t] == base + [Feedback(f, if ok then Held else Failing)];
    }

    method StartConsuming(t: Thread, frame: LiveInvocation, ghost base: seq<Activity>, ghost f: Option<nat>)
      requires At(t, base, f, Held, frame)
      modifies this`world, this`trace, frame`consuming
      ensures At(t, base, f, Body, frame) && trace == old(trace) + [Consume(t)]
      ensures Progress(base)
    {
      frame.consuming := true;
      Step(Consume(t));
      assert world.stacks[t] == base + [Feedback(f, Body)];
    }

    /** After the body: the closing check, and on its failure the inner finally block. */
    method ClosingCheck(t: Thread, frame: LiveInvocation, same: bool, ghost base: seq<Activity>, ghost f: Option<nat>)
      returns (ok: bool)
      requires At(t, base, f, Body, frame)
      modifies this`world, this`trace, frame`consuming
      ensures At(t, base, f, if ok then Rechecked else Failing, frame) && trace == old(trace) + [Recheck(t, same)]
      ensures ok ==> same
      ensures Progress(base)
    {
      ok := Establish(t, frame, same, f);
      if !ok {
        frame.consuming := false;
      }
      Step(Recheck(t, same));
      assert world.stacks[t] == base + [Feedback(f, if ok then Rechecked else Failing)];
    }

    /** The inner finally block, after the closing check or after an exception of the body. */
    method StopConsuming(t: Thread, frame: LiveInvocation, raised: bool, ghost base: seq<Activity>, ghost f: Option<nat>)
      requires At(t, base, f, if raised then Body else Rechecked, frame)
      modifies this`world, this`trace, frame`consuming
      ensures At(t, base, f, if raised then Failing else Cleared, frame)
      ensures trace == old(trace) + [if raised then BodyRaises(t) else Clear(t)]
      ensures Progress(base)
    {
      frame.consuming := false;
      Step(if raised then BodyRaises(t) else Clear(t));
      assert world.stacks[t] == base + [Feedback(f, if raised then Failing else Cleared)];
    }

    /** `held` on the way out. */
    method ReleaseHold(t: Thread, frame: LiveInvocation, ghost base: seq<Activity>, ghost f: Option<nat>)
      returns (ok: bool)
      requires At(t, base, f, Cleared, frame)
      modifies this`world, this`trace
      ensures ok ==> Valid() && world.stacks[t] == base && frame.lease in world.leases
      ensures !ok ==> At(t, base, f, Failing, frame)
      ensures trace == old(trace) + [LetGo(t)]
      ensures Progress(base)
    {
      assert Mirrors(made[f.value], world.frames[f.value]);
      ok := frame.lease in leases;
      Step(LetGo(t));
      if ok {
        assert world.stacks[t] == base;
      } else {
        assert world.stacks[t] == base + [Feedback(f, Failing)];
      }
    }

    /** The outer handler. */
    method StopFrame(t: Thread, frame: LiveInvocation?, ghost base: seq<Activity>, ghost f: Option<nat>)
      requires At(t, base, f, Failing, frame)
      modifies this`world, this`trace, made
      ensures Valid() && made == old(made) && trace == old(trace) + [Fail(t)]
      ensures world.stacks[t] == base
      ensures frame != null ==> frame.stopped
      ensures Progress(base)
    {
      if frame != null {
        frame.stopped := true;
      }
      Step(Fail(t));
      assert world.stacks[t] == base;
    }

    // ----- The operations -----

    /** Code that the boundary does not control runs on the thread. */
    method RunForeign(t: Thread, script: Script)
      requires Valid() && CanCall(world, t)
      modifies this, made
      ensures Valid() && world.stacks[t] == old(world).stacks[t] && Progress(world.stacks[t])
      decreases script, 0
    {
      Pause(t);
      var i := 0;
      while i < |script.calls|
        invariant 0 <= i <= |script.calls| && Valid()
        invariant world.stacks[t] == old(world).stacks[t] && Progress(world.stacks[t])
      {
        match script.calls[i] {
          case Invokes(lease, begins, adapter) =>
            var returned := InvokeProspective(t, lease, begins, adapter);
          case Feeds(first, again, body) =>
            var ok := SameInvocation(t, first, again, body);
        }
        Pause(t);
        i := i + 1;
      }
    }

    method RunInside(t: Thread, frame: LiveInvocation, adapter: Script, ghost base: seq<Activity>, ghost f: nat)
      requires Invoked(t, base, f, true, frame)
      modifies this, made
      ensures Invoked(t, base, f, true, frame) && Progress(base)
      decreases adapter, 1
    {
      assert Mirrors(made[f], world.frames[f]) && (base + [Invoking(f)])[|base|] == Invoking(f);
      RunForeign(t, adapter);
      assert Mirrors(made[f], world.frames[f]);
    }

    /** Between the two locked sections: the runtime may raise, or the adapter runs. */
    method RunInvocation(t: Thread, frame: LiveInvocation, begins: bool, adapter: Script,
                         ghost base: seq<Activity>, ghost f: nat)
      requires Invoked(t, base, f, false, frame)
      modifies this, made
      ensures Invoked(t, base, f, begins, frame) && Progress(base)
      decreases adapter, 2
    {
      PauseInvoked(t, base, f, false, frame);
      if begins {
        StartExecuting(t, frame, base, f);
        RunInside(t, frame, adapter, base, f);
      }
    }

    /**
     An invocation.  It is refused, and stops the frame that is live, or it makes a frame
     and leaves it stopped however the adapter comes back.
     */
    method InvokeProspective(t: Thread, lease: Lease, begins: bool, adapter: Script) returns (returned: bool)
      requires Valid() && CanCall(world, t)
      modifies this, made
      ensures Valid() && world.stacks[t] == old(world).stacks[t] && Progress(world.stacks[t])
      ensures returned <==> old(live) == null && begins && !adapter.raises
      ensures old(live) != null ==>
                trace == old(trace) + [Invoke(t, lease)] && made == old(made) && live == old(live) && live.stopped
      ensures old(live) == null ==>
                && |made| > |old(made)| && made[|old(made)|].thread == t && made[|old(made)|].lease == lease
                && made[|old(made)|].stopped && !made[|old(made)|].executing && live == null
                && old(trace) + [Invoke(t, lease)] <= trace[..|trace| - 1] && trace[|trace| - 1] == Leave(t)
      decreases adapter, 3
    {
      ghost var base, f := world.stacks[t], |made|;
      var frame := Begin(t, lease);
      if frame == null {
        return false;
      }
      RunInvocation(t, frame, begins, adapter, base, f);
      End(t, frame, base, f, begins);
      returned := begins && !adapter.raises;
    }

    method RunBody(t: Thread, frame: LiveInvocation, body: Script, ghost base: seq<Activity>, ghost f: Option<nat>)
      requires At(t, base, f, Held, frame)
      modifies this, made
      ensures At(t, base, f, Body, frame) && Progress(base)
      decreases body, 1
    {
      StartConsuming(t, frame, base, f);
      RunForeign(t, body);
    }

    /** After the body: the closing check unless it raised, and the way out. */
    method CloseBody(t: Thread, frame: LiveInvocation, again: bool, raises: bool,
                     ghost base: seq<Activity>, ghost f: Option<nat>)
      returns (ok: bool)
      requires At(t, base, f, Body, frame)
      modifies this, made
      ensures Progress(base)
      ensures !ok ==> At(t, base, f, Failing, frame)
      ensures ok ==> Valid() && world.stacks[t] == base && again && !raises && frame.lease in world.leases
      ensures ok ==> |trace| > 0 && trace[|trace| - 1] == LetGo(t)
    {
      if raises {
        StopConsuming(t, frame, true, base, f);
        return false;
      }
      ok := ClosingCheck(t, frame, again, base, f);
      if ok {
        PauseAt(t, base, f, Rechecked, frame);
        StopConsuming(t, frame, false, base, f);
        PauseAt(t, base, f, Cleared, frame);
        ok := ReleaseHold(t, frame, base, f);
      }
    }

    /** From the reentry test to the hold of the lease. */
    method Admit(t: Thread, frame: LiveInvocation?, first: bool, ghost base: seq<Activity>, ghost f: Option<nat>)
      returns (ok: bool)
      requires At(t, base, f, Captured, frame)
      modifies this, made
      ensures At(t, base, f, if ok then Held else Failing, frame) && Progress(base)
      ensures ok ==> first && f.Some?
    {
      var refused := RefuseReentry(t, frame, base, f);
      if refused {
        return false;
      }
      PauseAt(t, base, f, Screened, frame);
      ok := OpeningCheck(t, frame, first, base, f);
      if ok {
        PauseAt(t, base, f, Checked, frame);
        ok := HoldLease(t, frame, base, f);
      }
    }

    /** The body of a feedback that holds its lease, up to its normal end or to whatever it raises. */
    method ConsumeOnce(t: Thread, frame: LiveInvocation, again: bool, body: Script,
                       ghost base: seq<Activity>, ghost f: Option<nat>)
      returns (ok: bool)
      requires At(t, base, f, Held, frame)
      modifies this, made
      ensures Progress(base)
      ensures !ok ==> At(t, base, f, Failing, frame)
      ensures ok ==> Valid() && world.stacks[t] == base && again && !body.raises && frame.lease in world.leases
      ensures ok ==> |trace| > 0 && trace[|trace| - 1] == LetGo(t)
      decreases body, 2
    {
      PauseAt(t, base, f, Held, frame);
      RunBody(t, frame, body, base, f);
      ok := CloseBody(t, frame, again, body.raises, base, f);
    }

    lemma HeldAllAlong(lease: Lease)
      requires Valid() && lease in world.leases
      ensures forall k :: 0 <= k <= |trace| ==> lease in StateAt(start, trace, k).leases
    {
      forall k | 0 <= k <= |trace|
        ensures lease in StateAt(start, trace, k).leases
      {
        LeaseHeldExactly(start, trace, k, |trace|, lease);
      }
    }

    /** The handler of a captured feedback that has failed, in its own time. */
    method Withdraw(t: Thread, frame: LiveInvocation?, ghost base: seq<Activity>, ghost f: Option<nat>)
      requires At(t, base, f, Failing, frame)
      modifies this, made
      ensures Valid() && world.stacks[t] == base && Progress(base)
      ensures |trace| > 0 && trace[|trace| - 1] == Fail(t) && (frame != null ==> frame.stopped)
    {
      PauseAt(t, base, f, Failing, frame);
      StopFrame(t, frame, base, f);
    }

    /** A captured feedback up to its normal end or to the handler. */
    method TryOnce(t: Thread, frame: LiveInvocation?, first: bool, again: bool, body: Script,
                   ghost base: seq<Activity>, ghost f: Option<nat>)
      returns (ok: bool)
      requires At(t, base, f, Captured, frame)
      modifies this, made
      ensures Progress(base)
      ensures !ok ==> At(t, base, f, Failing, frame)
      ensures ok ==> Valid() && world.stacks[t] == base && frame != null && frame.lease in world.leases
      ensures ok ==> first && again && !body.raises && |trace| > 0 && trace[|trace| - 1] == LetGo(t)
      decreases body, 3
    {
      ok := Admit(t, frame, first, base, f);
      if ok {
        ok := ConsumeOnce(t, frame, again, body, base, f);
      }
    }

    /** A captured feedback to its end. */
    method FromCapture(t: Thread, frame: LiveInvocation?, first: bool, again: bool, body: Script,
                       ghost base: seq<Activity>, ghost f: Option<nat>)
      returns (ok: bool)
      requires At(t, base, f, Captured, frame)
      modifies this, made
      ensures Valid() && world.stacks[t] == base && Progress(base) && |trace| > 0
      ensures ok ==> first && again && !body.raises && trace[|trace| - 1] == LetGo(t)
      ensures ok ==> frame != null && frame.lease in world.leases
      ensures !ok ==> trace[|trace| - 1] == Fail(t) && (frame != null ==> frame.stopped)
      decreases body, 4
    {
      ok := TryOnce(t, frame, first, again, body, base, f);
      if !ok {
        Withdraw(t, frame, base, f);
      }
    }

    /**
     A feedback.  Only one whose arguments agree twice, in a live frame, around a body that
     does not raise comes back normally, and its lease was held all along; any other raises
     and leaves the frame it captured stopped.
     */
    method SameInvocation(t: Thread, first: bool, again: bool, body: Script) returns (ok: bool)
      requires Valid() && CanCall(world, t)
      modifies this, made
      ensures Valid() && world.stacks[t] == old(world).stacks[t] && Progress(world.stacks[t])
      ensures old(trace) + [Enter(t)] <= trace
      ensures ok ==> first && again && !body.raises && old(live) != null && trace[|trace| - 1] == LetGo(t)
      ensures ok ==> forall k :: 0 <= k <= |trace| ==> old(live).lease in StateAt(start, trace, k).leases
      ensures !ok ==> trace[|trace| - 1] == Fail(t) && (old(live) != null ==> old(live).stopped)
      decreases body, 5
    {
      ghost var base, f := world.stacks[t], world.live;
      var frame := Capture(t);
      PauseAt(t, base, f, Captured, frame);
      ok := FromCapture(t, frame, first, again, body, base, f);
      if ok {
        HeldAllAlong(frame.lease);
      }
    }
  }
}
