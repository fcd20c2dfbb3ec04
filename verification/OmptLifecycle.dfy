// Discovery, activation and finalization of the OMPT tool, and the thread events
// the bridge reports on its behalf.
module OmptLifecycle {
  import opened Wrappers

  // An OS thread; thread-local state is kept per OS thread.
  type Thread = nat

  // What happens to one entry of OMP_TOOL_LIBRARIES.
  datatype Library = LoadFails | NoSymbol | Declines | Starts

  // OMP_TOOL=disabled, the answer of a linked ompt_start_tool if there is one, and
  // the library list.
  datatype Environment = Environment(disabled: bool, linked: Option<bool>, libraries: seq<Library>)

  // Each OMPT_CALL reached; a tool sees those it registered a callback for.
  datatype Event =
    | ThreadBegin(t: Thread)
    | ThreadEnd(t: Thread)
    | InitialTaskBegin(t: Thread)
    | InitialTaskEnd(t: Thread)
    | Construct(t: Thread)      // emitted by XKOMP itself
    | RuntimeEvent(t: Thread)   // tasks and synchronization, forwarded from XKRT
    | ToolFinalize

  // The XKRT callbacks on tasks and synchronization.
  datatype Hook = TaskCreate | TaskSchedule | TaskComplete | TaskAccesses(n: nat) | SyncRegion

  // How many OMPT callbacks a hook makes.
  function Calls(h: Hook): nat {
    match h
    case TaskCreate => 1
    case TaskSchedule => 1
    case TaskComplete => 0
    case TaskAccesses(n) => if n == 0 then 0 else 1
    case SyncRegion => 2
  }

  // What can happen while a program runs. A thread event says whether the thread joins
  // a team and its number in it; Finalize is the tool or XKRT asking for it early.
  datatype Step =
    | ThreadStart(t: Thread, team: bool, tid: nat)
    | ThreadStop(t: Thread, team: bool, tid: nat)
    | Runtime(t: Thread, h: Hook)
    | Emit(t: Thread)
    | Finalize(t: Thread, tls: bool)

  // ---- what a trace must look like ----

  // Whether thread t has begun; None if a begin or an end came out of turn.
  function Begun(trace: seq<Event>, t: Thread): Option<bool> {
    if trace == [] then Some(false)
    else
      var before, e := Begun(trace[..|trace| - 1], t), trace[|trace| - 1];
      if e == ThreadBegin(t) then (if before == Some(false) then Some(true) else None)
      else if e == ThreadEnd(t) then (if before == Some(true) then Some(false) else None)
      else before
  }

  // The tool is finalized at most once and no construct is reported after that.
  predicate FinalizesOnce(trace: seq<Event>) {
    forall i, j :: 0 <= i < j < |trace| && trace[i] == ToolFinalize ==> trace[j] != ToolFinalize && !trace[j].Construct?
  }

  lemma BegunAppend(trace: seq<Event>, e: Event, t: Thread)
    ensures Begun(trace + [e], t) ==
      if e == ThreadBegin(t) then (if Begun(trace, t) == Some(false) then Some(true) else None)
      else if e == ThreadEnd(t) then (if Begun(trace, t) == Some(true) then Some(false) else None)
      else Begun(trace, t)
  {
    assert (trace + [e])[..|trace|] == trace;
  }

  // ---- alternation in plain terms ----

  // Thread t ends between positions i and j.
  predicate EndsBetween(trace: seq<Event>, t: Thread, i: int, j: nat)
    requires -1 <= i && j <= |trace|
  {
    exists k :: i < k < j && trace[k] == ThreadEnd(t)
  }

  // Thread t begins before position j and does not end from there on.
  predicate OpenAt(trace: seq<Event>, t: Thread, j: nat)
    requires j <= |trace|
  {
    exists i :: 0 <= i < j && trace[i] == ThreadBegin(t) && !EndsBetween(trace, t, i, j)
  }

  lemma OneMore(trace: seq<Event>, t: Thread, i: int, n: nat)
    requires -1 <= i < n && n + 1 <= |trace|
    ensures EndsBetween(trace, t, i, n + 1) <==> EndsBetween(trace, t, i, n) || trace[n] == ThreadEnd(t)
  {
    if EndsBetween(trace, t, i, n) {
      var k :| i < k < n && trace[k] == ThreadEnd(t);
      assert i < k < n + 1;
    }
  }

  // A thread has begun by position n when it is open there, and has not when every
  // begin so far was followed by an end.
  lemma {:induction false} LastChange(trace: seq<Event>, t: Thread, n: nat)
    requires n <= |trace| && Begun(trace[..n], t).Some?
    ensures Begun(trace[..n], t) == Some(true) ==> OpenAt(trace, t, n)
    ensures Begun(trace[..n], t) == Some(false) ==>
      forall i :: 0 <= i < n && trace[i] == ThreadBegin(t) ==> EndsBetween(trace, t, i, n)
    decreases n
  {
    hide EndsBetween;
    if n > 0 {
      assert trace[..n][..n - 1] == trace[..n - 1];
      LastChange(trace, t, n - 1);
      forall i | 0 <= i < n - 1
        ensures EndsBetween(trace, t, i, n) <==> EndsBetween(trace, t, i, n - 1) || trace[n - 1] == ThreadEnd(t)
      {
        OneMore(trace, t, i, n - 1);
      }
      if trace[n - 1] == ThreadBegin(t) {
        NothingAfter(trace, t, n - 1);
      }
    }
  }

  lemma NothingAfter(trace: seq<Event>, t: Thread, i: nat)
    requires i < |trace|
    ensures !EndsBetween(trace, t, i, i + 1)
  {
  }

  lemma {:induction false} BegunSoFar(trace: seq<Event>, t: Thread, n: nat)
    requires Begun(trace, t).Some? && n <= |trace|
    ensures Begun(trace[..n], t).Some?
    decreases |trace|
  {
    if n == |trace| {
      assert trace[..n] == trace;
    } else {
      BegunSoFar(trace[..|trace| - 1], t, n);
      assert trace[..|trace| - 1][..n] == trace[..n];
    }
  }

  // Between two begins of a thread lies an end, and each of its ends closes a begin
  // that no other end has closed.
  lemma BegunMeansAlternating(trace: seq<Event>, t: Thread, j: nat)
    requires Begun(trace, t).Some? && j < |trace|
    ensures trace[j] == ThreadBegin(t) ==>
      forall i :: 0 <= i < j && trace[i] == ThreadBegin(t) ==> EndsBetween(trace, t, i, j)
    ensures trace[j] == ThreadEnd(t) ==> OpenAt(trace, t, j)
  {
    hide EndsBetween, OpenAt;
    BegunSoFar(trace, t, j);
    BegunSoFar(trace, t, j + 1);
    assert trace[..j + 1][..j] == trace[..j];
    LastChange(trace, t, j);
  }

  // Index of the first library whose tool starts, or the length of the list.
  function FirstStart(libraries: seq<Library>): (i: nat)
    ensures i <= |libraries|
    ensures i < |libraries| <==> Starts in libraries
  {
    if libraries == [] then 0 else if libraries[0] == Starts then 0 else 1 + FirstStart(libraries[1..])
  }

  // How many of the libraries can be opened.
  function Loads(libraries: seq<Library>): nat {
    if libraries == [] then 0
    else Loads(libraries[..|libraries| - 1]) + (if libraries[|libraries| - 1] == LoadFails then 0 else 1)
  }

  lemma {:induction false} FirstStartIs(libraries: seq<Library>, i: nat)
    requires i < |libraries| && libraries[i] == Starts && forall k :: 0 <= k < i ==> libraries[k] != Starts
    ensures FirstStart(libraries) == i
  {
    if i > 0 { FirstStartIs(libraries[1..], i - 1); }
  }

  // ---- reports after the tool is gone ----

  // A step that reports nothing to a finalized tool, given who has begun: the thread
  // and runtime callbacks stay registered and do not look whether the tool is enabled.
  predicate Silent(step: Step, begun: set<Thread>) {
    match step
    case ThreadStart(t, team, tid) => (team && tid == 0) || t in begun
    case ThreadStop(t, team, tid) => (team && tid == 0) || t !in begun
    case Runtime(_, h) => h == TaskComplete || h == TaskAccesses(0)
    case Emit(_) => true
    case Finalize(_, _) => true
  }

  predicate Quiet(steps: seq<Step>, begun: set<Thread>) {
    forall k :: 0 <= k < |steps| ==> Silent(steps[k], begun)
  }

  // Nothing has been finalized in between: the tool and the initial tasks are as ended
  // as they were.
  ghost predicate SameEnds(before: seq<Event>, after: seq<Event>) {
    && (ToolFinalize in before <==> ToolFinalize in after)
    && forall u :: InitialTaskEnd(u) in before <==> InitialTaskEnd(u) in after
  }

  predicate NeverAsked(steps: seq<Step>) {
    forall k :: 0 <= k < |steps| ==> !steps[k].Finalize?
  }

  // A tool is found and does not decline.
  predicate Activates(env: Environment, answer: Option<bool>) {
    !env.disabled && (env.linked == Some(true) || Starts in env.libraries) && answer != Some(false)
  }

  class Bridge {
    var initialized: bool         // bridge_initialize has run
    var hooked: bool              // the XKRT callbacks are registered
    var enabled: bool             // OMPT_ENABLED
    var tool: bool                // OMPT_TOOL != NULL
    var dlHandle: Option<nat>     // OMPT_TOOL_DLHANDLE
    var done: bool                // the finalizer's once-flag
    var begun: set<Thread>        // TLS_THREAD_BEGUN
    var initialTask: set<Thread>  // TLS_INITIAL_TASK
    var loaded: set<nat>          // handles dlopen'ed and not dlclose'd
    var nextHandle: nat
    var trace: seq<Event>

    // At every step the open handles are exactly the stored one, threads alternate, and
    // nothing XKOMP emits itself follows finalization.
    ghost predicate Valid()
      reads this
    {
      && loaded == (if dlHandle.Some? then {dlHandle.value} else {})
      && (forall h :: h in loaded ==> h < nextHandle)
      && (enabled ==> tool && initialized) && (hooked ==> initialized)
      && (!initialized ==> !hooked && !tool && trace == [] && dlHandle == None)
      && (forall t :: Begun(trace, t) == Some(t in begun))
      && FinalizesOnce(trace)
      && (ToolFinalize in trace ==> done && !enabled)
      && (forall u :: InitialTaskEnd(u) in trace ==> done)
      && (forall u :: InitialTaskEnd(u) !in trace ==> (u in initialTask <==> InitialTaskBegin(u) in trace))
    }

    constructor ()
      ensures Valid() && !initialized && !done && loaded == {}
    {
      initialized, hooked, enabled, tool, dlHandle, done := false, false, false, false, None, false;
      begun, initialTask, loaded, nextHandle, trace := {}, {}, {}, 0, [];
    }

    method Report(e: Event)
      requires Valid() && initialized
      requires e.Construct? ==> ToolFinalize !in trace
      requires e == ToolFinalize ==> ToolFinalize !in trace && done && !enabled
      requires e.ThreadBegin? ==> e.t !in begun
      requires e.ThreadEnd? ==> e.t in begun
      requires e.InitialTaskEnd? ==> done
      modifies this`trace, this`begun, this`initialTask
      ensures Valid() && trace == old(trace) + [e]
      ensures begun == if e.ThreadBegin? then old(begun) + {e.t}
                       else if e.ThreadEnd? then old(begun) - {e.t} else old(begun)
      ensures initialTask == if e.InitialTaskBegin? then old(initialTask) + {e.t}
                             else if e.InitialTaskEnd? then old(initialTask) - {e.t} else old(initialTask)
    {
      forall t ensures Begun(trace + [e], t) ==
        (if e == ThreadBegin(t) then Some(true) else if e == ThreadEnd(t) then Some(false) else Some(t in begun))
      {
        BegunAppend(trace, e, t);
      }
      trace := trace + [e];
      begun := if e.ThreadBegin? then begun + {e.t} else if e.ThreadEnd? then begun - {e.t} else begun;
      initialTask := if e.InitialTaskBegin? then initialTask + {e.t}
                     else if e.InitialTaskEnd? then initialTask - {e.t} else initialTask;
    }

    // on_thread_start: `team` says whether the thread joins a team, tid its number in it
    method OnThreadStart(t: Thread, team: bool, tid: nat)
      requires Valid() && hooked
      modifies this`trace, this`begun, this`initialTask
      ensures Valid()
      ensures begun == old(begun) + (if team && tid == 0 then {} else {t})
      ensures trace == old(trace)
        + (if (team && tid == 0) || t in old(begun) then []
           else if team then [ThreadBegin(t)] else [ThreadBegin(t), InitialTaskBegin(t)])
    {
      if team && tid == 0 { return; }
      if t !in begun {
        Report(ThreadBegin(t));
        if !team {
          Report(InitialTaskBegin(t));
        }
      }
    }

    // on_thread_stop
    method OnThreadStop(t: Thread, team: bool, tid: nat)
      requires Valid() && hooked
      modifies this`trace, this`begun, this`initialTask
      ensures Valid()
      ensures begun == old(begun) - (if team && tid == 0 then {} else {t})
      ensures trace == old(trace) + (if (team && tid == 0) || t !in old(begun) then [] else [ThreadEnd(t)])
    {
      if team && tid == 0 { return; }
      if t in begun {
        Report(ThreadEnd(t));
      }
    }

    // on_task_create to on_taskgroup
    method OnRuntime(t: Thread, h: Hook)
      requires Valid() && hooked
      modifies this`trace, this`begun, this`initialTask
      ensures Valid() && begun == old(begun)
      ensures trace == old(trace) + seq(Calls(h), _ => RuntimeEvent(t))
      // creating and scheduling a task make one callback, listing accesses one if there
      // are any, completing a task none, a synchronization region two
      ensures h == TaskCreate || h == TaskSchedule ==> trace == old(trace) + [RuntimeEvent(t)]
      ensures h.TaskAccesses? && h.n > 0 ==> trace == old(trace) + [RuntimeEvent(t)]
      ensures h == TaskComplete || h == TaskAccesses(0) ==> trace == old(trace)
      ensures h == SyncRegion ==> trace == old(trace) + [RuntimeEvent(t), RuntimeEvent(t)]
    {
      hide Begun, FinalizesOnce;
      for k := 0 to Calls(h)
        invariant Valid() && begun == old(begun)
        invariant trace == old(trace) + seq(k, _ => RuntimeEvent(t))
      {
        Report(RuntimeEvent(t));
      }
    }

    // xkomp_ompt_parallel_begin and the other construct events
    method EmitConstruct(t: Thread)
      requires Valid()
      modifies this`trace, this`begun, this`initialTask
      ensures Valid() && begun == old(begun)
      ensures trace == old(trace) + (if enabled then [Construct(t)] else [])
    {
      if !enabled { return; }
      Report(Construct(t));
    }

    // xkomp_ompt_discover: a linked tool first, then the libraries in order, closing
    // each one that does not provide a tool. Handles are numbered as they are opened.
    method Discover(env: Environment) returns (started: bool)
      requires Valid() && initialized && dlHandle == None
      modifies this`dlHandle, this`loaded, this`nextHandle
      ensures Valid()
      ensures started <==> !env.disabled && (env.linked == Some(true) || Starts in env.libraries)
      ensures dlHandle == if started && env.linked != Some(true)
                          then Some(old(nextHandle) + Loads(env.libraries[..FirstStart(env.libraries)])) else None
    {
      hide Begun, FinalizesOnce;
      started := false;
      if env.disabled { return; }
      if env.linked == Some(true) { return true; }
      for i := 0 to |env.libraries|
        invariant Valid() && dlHandle == None && !started
        invariant forall k :: 0 <= k < i ==> env.libraries[k] != Starts
        invariant nextHandle == old(nextHandle) + Loads(env.libraries[..i])
      {
        assert env.libraries[..i + 1][..i] == env.libraries[..i];
        if env.libraries[i] == LoadFails { continue; }
        var h := nextHandle;
        nextHandle, loaded := nextHandle + 1, loaded + {h};
        if env.libraries[i] == Starts {
          dlHandle := Some(h);
          FirstStartIs(env.libraries, i);
          return true;
        }
        loaded := loaded - {h};
      }
    }

    // xkomp_ompt_do_finalize on thread t. `tls` says whether t has an XKRT thread,
    // `callback` whether the tool has a finalize function.
    method DoFinalize(t: Thread, tls: bool, callback: bool)
      requires Valid() && initialized
      modifies this
      ensures Valid() && initialized && done && tool == old(tool) && hooked == old(hooked)
      ensures old(done) || !old(enabled) ==>
        && trace == old(trace) && loaded == old(loaded) && dlHandle == old(dlHandle)
        && begun == old(begun) && enabled == old(enabled)
      ensures !old(done) && old(enabled) ==>
        && !enabled && loaded == {} && dlHandle == None && begun == old(begun) - {t}
        && trace == old(trace)
             + (if tls && t in old(initialTask) then [InitialTaskEnd(t)] else [])
             + (if t in old(begun) then [ThreadEnd(t)] else [])
             + (if callback then [ToolFinalize] else [])
      // a loaded tool library is closed exactly if finalization got past both guards
      ensures loaded == {} <==> old(loaded) == {} || (!old(done) && old(enabled))
    {
      hide Begun, FinalizesOnce;
      if done { return; }
      done := true;
      if !enabled { return; }
      EndThread(t, tls);
      enabled := false;
      if callback {
        Report(ToolFinalize);
      }
      CloseTool();
    }

    // The finalizing thread ends its initial task and itself.
    method EndThread(t: Thread, tls: bool)
      requires Valid() && initialized && done
      modifies this`trace, this`begun, this`initialTask
      ensures Valid() && begun == old(begun) - {t}
      ensures trace == old(trace)
        + (if tls && t in old(initialTask) then [InitialTaskEnd(t)] else [])
        + (if t in old(begun) then [ThreadEnd(t)] else [])
    {
      hide Begun, FinalizesOnce;
      if tls && t in initialTask {
        Report(InitialTaskEnd(t));
      }
      if t in begun {
        Report(ThreadEnd(t));
      }
    }

    // dlclose of the stored handle, if any
    method CloseTool()
      requires Valid()
      modifies this`loaded, this`dlHandle
      ensures Valid() && loaded == {} && dlHandle == None
    {
      hide Begun, FinalizesOnce;
      if dlHandle.Some? {
        loaded, dlHandle := loaded - {dlHandle.value}, None;
      }
    }

    // xkomp_ompt_bridge_initialize on thread t. `answer` is what the tool's initialize
    // returns, if it has one; `early` that it calls ompt_finalize_tool from inside it.
    method BridgeInitialize(env: Environment, answer: Option<bool>, early: bool, t: Thread, callback: bool)
      returns (active: bool)
      requires Valid() && !initialized
      modifies this
      ensures Valid() && initialized
      ensures active <==> Activates(env, answer)
      ensures active == enabled == tool == hooked
      ensures loaded != {} <==> active && env.linked != Some(true)
      ensures trace == []
      ensures done <==> old(done) || (early && answer.Some? && !env.disabled
                                      && (env.linked == Some(true) || Starts in env.libraries))
    {
      hide Begun, FinalizesOnce;
      initialized := true;
      tool := Discover(env);
      if !tool { return false; }
      var accepted := true;
      if answer.Some? {
        if early { DoFinalize(t, false, callback); }
        accepted := answer.value;
      }
      if !accepted {
        CloseTool();
        tool := false;
        return false;
      }
      enabled, hooked := true, true;
      active := true;
    }

    // One step of a running program; XKRT calls back only once the hooks are registered.
    method Take(step: Step, callback: bool)
      requires Valid() && initialized
      modifies this
      ensures Valid() && initialized && hooked == old(hooked) && tool == old(tool)
      ensures old(trace) <= trace
      // until the tool is finalized it stays enabled and its library open
      ensures old(enabled) && !old(done) && !done ==> enabled && loaded == old(loaded)
      ensures !step.Finalize? ==> done == old(done)
      // finalizing it closes the library
      ensures old(enabled) && !old(done) && done ==>
        !enabled && loaded == {} && (ToolFinalize in trace <==> callback)
      // a used once-flag changes nothing any more
      ensures old(done) ==> done && enabled == old(enabled) && loaded == old(loaded)
                            && SameEnds(old(trace), trace)
      ensures !old(enabled) ==> !enabled && loaded == old(loaded)
                                && SameEnds(old(trace), trace)
      ensures !old(enabled) && old(hooked) ==>
        (trace == old(trace) <==> Silent(step, old(begun))) && (trace == old(trace) ==> begun == old(begun))
    {
      hide Begun, FinalizesOnce;
      match step {
        case ThreadStart(t, team, tid) => if hooked { OnThreadStart(t, team, tid); }
        case ThreadStop(t, team, tid) => if hooked { OnThreadStop(t, team, tid); }
        case Runtime(t, h) => if hooked { OnRuntime(t, h); }
        case Emit(t) => EmitConstruct(t);
        case Finalize(t, tls) => DoFinalize(t, tls, callback);
      }
    }

    method Run(steps: seq<Step>, callback: bool)
      requires Valid() && initialized
      modifies this
      ensures Valid() && initialized && hooked == old(hooked) && tool == old(tool)
      ensures old(trace) <= trace
      ensures old(enabled) && !old(done) && !done ==> enabled && loaded == old(loaded)
      ensures old(enabled) && !old(done) && done ==>
        !enabled && loaded == {} && (ToolFinalize in trace <==> callback)
      ensures old(done) ==> done && enabled == old(enabled) && loaded == old(loaded)
                            && SameEnds(old(trace), trace)
      ensures !old(enabled) ==> !enabled && loaded == old(loaded)
                                && SameEnds(old(trace), trace)
      ensures NeverAsked(steps) ==> done == old(done)
      // a finalized tool hears nothing exactly when every step is silent
      ensures !old(enabled) && old(hooked) ==> (trace == old(trace) <==> Quiet(steps, old(begun)))
    {
      hide Begun, FinalizesOnce, Silent;
      for k := 0 to |steps|
        invariant Valid() && initialized && hooked == old(hooked) && tool == old(tool)
        invariant old(trace) <= trace
        invariant old(enabled) && !old(done) && !done ==> enabled && loaded == old(loaded)
        invariant old(enabled) && !old(done) && done ==>
          !enabled && loaded == {} && (ToolFinalize in trace <==> callback)
        invariant old(done) ==> done && enabled == old(enabled) && loaded == old(loaded)
                                && SameEnds(old(trace), trace)
        invariant !old(enabled) ==> !enabled && loaded == old(loaded)
                                    && SameEnds(old(trace), trace)
        invariant (forall i :: 0 <= i < k ==> !steps[i].Finalize?) ==> done == old(done)
        invariant !old(enabled) && old(hooked) ==>
          && (trace == old(trace) <==> forall i :: 0 <= i < k ==> Silent(steps[i], old(begun)))
          && (trace == old(trace) ==> begun == old(begun))
      {
        Take(steps[k], callback);
      }
    }
  }

  // ---- whole programs ----

  // From start to exit, whatever happens in between. An active tool is finalized and its
  // library closed at exit unless it finalizes itself from inside its initialize
  // function, which uses up the once-flag before the tool is enabled.
  method LifeOfTool(env: Environment, answer: Option<bool>, early: bool, steps: seq<Step>,
                    t: Thread, tls: bool, callback: bool)
    returns (active: bool, trace: seq<Event>, open: set<nat>)
    ensures active <==>
      !env.disabled && (env.linked == Some(true) || Starts in env.libraries) && answer != Some(false)
    ensures active ==> (ToolFinalize in trace <==> callback && !(early && answer.Some?))
    ensures active && env.linked != Some(true) ==> (open == {} <==> !(early && answer.Some?))
    ensures !active || env.linked == Some(true) ==> open == {}
    ensures !active ==> ToolFinalize !in trace
    ensures FinalizesOnce(trace)
    // an initial task that was begun is ended exactly if it is the exiting thread's, that
    // thread still has its runtime thread, and the tool is finalized there
    ensures active && NeverAsked(steps) ==> forall u ::
      InitialTaskEnd(u) in trace <==> InitialTaskBegin(u) in trace && u == t && tls && !(early && answer.Some?)
  {
    hide Begun, FinalizesOnce, Quiet;
    var bridge := new Bridge();
    active := bridge.BridgeInitialize(env, answer, early, t, callback);
    bridge.Run(steps, callback);
    bridge.DoFinalize(t, tls, callback);
    trace, open := bridge.trace, bridge.loaded;
  }

  // What is reported after an active tool has been finalized at exit: nothing, exactly
  // when no later step reports a thread beginning that had not begun, or ending that
  // had, or a task or synchronization event.
  method AfterExit(env: Environment, answer: Option<bool>, steps: seq<Step>, late: seq<Step>,
                   t: Thread, tls: bool, callback: bool)
    returns (closed: seq<Event>, trace: seq<Event>, begun: set<Thread>)
    requires Activates(env, answer)
    ensures forall u :: Begun(closed, u) == Some(u in begun)
    ensures closed <= trace && (trace == closed <==> Quiet(late, begun))
  {
    hide FinalizesOnce, Quiet;
    var bridge := new Bridge();
    var active := bridge.BridgeInitialize(env, answer, false, t, callback);
    bridge.Run(steps, callback);
    bridge.DoFinalize(t, tls, callback);
    closed, begun := bridge.trace, bridge.begun;
    bridge.Run(late, callback);
    trace := bridge.trace;
  }

  // A bridge whose tool, from a library, has just become active.
  method JustActive(t: Thread) returns (bridge: Bridge)
    ensures fresh(bridge) && bridge.Valid() && bridge.initialized && bridge.hooked && bridge.enabled && !bridge.done
    ensures bridge.trace == [] && bridge.begun == {} && bridge.initialTask == {}
  {
    hide FinalizesOnce, FirstStart, Loads;
    bridge := new Bridge();
    var active := bridge.BridgeInitialize(Environment(false, None, [Starts]), Some(true), false, t, true);
    assert forall u: Thread :: Begun(bridge.trace, u) == Some(u in bridge.begun);
    assert forall u: Thread :: u !in bridge.begun;
  }

  // A worker that stops after the tool has been finalized and its library closed still
  // reports its end to it.
  method WorkerEndsAfterClose(t: Thread, worker: Thread) returns (trace: seq<Event>, open: set<nat>)
    requires worker != t
    ensures open == {} && trace == [ThreadBegin(worker), ToolFinalize, ThreadEnd(worker)]
  {
    hide FinalizesOnce, Begun;
    var bridge := JustActive(t);
    bridge.OnThreadStart(worker, true, 1);
    assert bridge.trace == [ThreadBegin(worker)];
    assert t !in bridge.begun && t !in bridge.initialTask;
    bridge.DoFinalize(t, true, true);
    assert bridge.trace == [ThreadBegin(worker), ToolFinalize];
    bridge.OnThreadStop(worker, true, 1);
    trace, open := bridge.trace, bridge.loaded;
  }

  // The initial thread's implicit task stays open when another thread finalizes.
  method InitialTaskStaysOpen(t: Thread, initial: Thread) returns (trace: seq<Event>)
    requires initial != t
    ensures trace == [ThreadBegin(initial), InitialTaskBegin(initial), ToolFinalize]
  {
    hide FinalizesOnce, Begun;
    var bridge := JustActive(t);
    bridge.OnThreadStart(initial, false, 0);
    assert bridge.trace == [ThreadBegin(initial), InitialTaskBegin(initial)];
    assert t !in bridge.begun && t !in bridge.initialTask;
    bridge.DoFinalize(t, true, true);
    trace := bridge.trace;
  }

  // A tool that asks for finalization from inside its initialize function: at exit it is
  // neither finalized nor closed.
  method FinalizingDuringInitializeIsLost(t: Thread) returns (active: bool, trace: seq<Event>, open: set<nat>)
    ensures active && open != {} && ToolFinalize !in trace
  {
    active, trace, open := LifeOfTool(Environment(false, None, [Starts]), Some(true), true, [], t, true, true);
  }
}
