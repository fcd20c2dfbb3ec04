// The properties of parallel regions that users and tools rely on, over all runs.
module ForkJoinTheorems {
  import opened Wrappers
  import opened TeamCache
  import opened Traces
  import opened ForkJoin
  import opened ForkJoinSafety

  // Every member of a region calls its microtask at most once, exactly once by the
  // time the region has ended, and nobody else calls it.
  lemma EveryMemberCallsOnce(acts: seq<Action>, r: nat, t: Thread)
    requires Schedule(acts)
    ensures var s := Reach(acts);
      && Count(s.trace, Called, r, t) <= 1
      && (Count(s.trace, Called, r, t) > 0 ==> r < |s.regions| && t in s.regions[r].members)
      && (r in s.closed && r < |s.regions| && t in s.regions[r].members ==> Count(s.trace, Called, r, t) == 1)
  {
    EveryRunKeeps(acts);
    CountOf(Reach(acts), Called, r, t);
  }

  // Each call is made with the caller's own ids and the region's own arguments, read
  // from live memory.
  lemma CallsGetTheirArguments(acts: seq<Action>, i: nat)
    requires Schedule(acts) && i < |Reach(acts).trace| && Reach(acts).trace[i].kind == Called
    ensures var s, e := Reach(acts), Reach(acts).trace[i];
      && e.region < |s.regions| && e.thread in s.regions[e.region].members
      && e.info == CallInfo(e.thread, IndexIn(s.regions[e.region].members, e.thread),
                            Some(s.regions[e.region].wargs))
  {
    EveryRunKeeps(acts);
  }

  // No implicit task of a region ends before every member's body has returned, none
  // begins before parallel_begin, and parallel_end follows all of them.
  lemma RegionsAreOrdered(acts: seq<Action>, r: nat, t: Thread, m: Thread)
    requires Schedule(acts) && r < |Reach(acts).regions|
    requires t in Reach(acts).regions[r].members && m in Reach(acts).regions[r].members
    ensures var s := Reach(acts);
      && Precedes(s.trace, r, Returned, m, ImplicitEnd, t)
      && Precedes(s.trace, r, ParallelBegin, s.regions[r].members[0], ImplicitBegin, t)
      && Precedes(s.trace, r, ImplicitEnd, t, ParallelEnd, s.regions[r].members[0])
      && (Progress(s, r, t) >= Rank(Leaving) ==> Count(s.trace, Returned, r, m) == 1)
  {
    EveryRunKeeps(acts);
    CountOf(Reach(acts), Returned, r, m);
  }

  // On every thread the trace is well nested, and fully closed whenever the thread
  // is outside every region.
  lemma TraceIsWellNested(acts: seq<Action>, t: Thread)
    requires Schedule(acts)
    ensures var s := Reach(acts);
      && Open(s.trace, t) == Some(StackBrackets(s, t, Stack(s, t)))
      && (Stack(s, t) == [] ==> Open(s.trace, t) == Some([]))
  {
    EveryRunKeeps(acts);
  }

  lemma {:induction false} OpenConcat(x: seq<Event>, y: seq<Event>, t: Thread)
    requires Open(x, t).Some? && Open(y, t).Some?
    ensures Open(x + y, t) == Some(Open(x, t).value + Open(y, t).value)
    decreases |y|
  {
    if y == [] {
      assert x + y == x;
      assert Open(x, t).value + [] == Open(x, t).value;
    } else {
      OpenConcat(x, Front(y), t);
      assert Front(x + y) == x + Front(y) && Last(x + y) == Last(y);
      var below, above, e := Open(x, t).value, Open(Front(y), t).value, Last(y);
      if e.thread == t && Opens(e) {
        assert below + (above + [BracketOf(e)]) == below + above + [BracketOf(e)];
      } else if e.thread == t {
        assert Last(below + above) == Last(above) && Front(below + above) == below + Front(above);
      }
    }
  }

  // A balanced stretch, then a matched pair around another one, is balanced.
  lemma PairIsBalanced(x: seq<Event>, begin: Event, y: seq<Event>, end: Event, t: Thread)
    requires Open(x, t) == Some([]) && Open(y, t) == Some([])
    requires begin.thread == end.thread == t && BracketOf(begin) == BracketOf(end) && Opens(begin) && !Opens(end)
    ensures Open(x + [begin] + y + [end], t) == Some([])
  {
    var q := x + [begin];
    assert Open(q, t) == Some([BracketOf(begin)]) by {
      assert Front(q) == x && Last(q) == begin;
      assert [] + [BracketOf(begin)] == [BracketOf(begin)];
    }
    OpenConcat(q, y, t);
    assert [BracketOf(begin)] + [] == [BracketOf(begin)];
    var all := q + y + [end];
    assert Front(all) == q + y && Last(all) == end;
  }

  // The innermost open bracket: what was open before it, and that all since is balanced.
  lemma {:induction false} TopOpened(trace: seq<Event>, t: Thread)
    returns (before: seq<Event>, begin: Event, after: seq<Event>)
    requires Open(trace, t).Some? && Open(trace, t).value != []
    ensures trace == before + [begin] + after
    ensures begin.thread == t && Opens(begin) && BracketOf(begin) == Last(Open(trace, t).value)
    ensures Open(before, t) == Some(Front(Open(trace, t).value)) && Open(after, t) == Some([])
    decreases |trace|
  {
    hide BracketOf, Opens;
    var front, e := Front(trace), Last(trace);
    assert trace == front + [e];
    if e.thread == t && Opens(e) {
      before, begin, after := front, e, [];
    } else {
      before, begin, after := TopOpened(front, t);
      if e.thread != t {
        OpenAppend(after, e, t);
        after := after + [e];
      } else {
        var outer, first, rest := TopOpened(before, t);
        PairIsBalanced(rest, begin, after, e, t);
        before, begin, after := outer, first, rest + [begin] + after + [e];
      }
    }
  }

  lemma {:induction false} OpenSoFar(trace: seq<Event>, t: Thread, n: nat)
    requires Open(trace, t).Some? && n <= |trace|
    ensures Open(trace[..n], t).Some?
    decreases |trace|
  {
    if n == |trace| {
      assert trace[..n] == trace;
    } else {
      OpenSoFar(Front(trace), t, n);
      assert Front(trace)[..n] == trace[..n];
    }
  }

  // In plain terms: every end a thread reports has a begin of the same region, task or
  // call before it on that thread, and everything it reported in between is matched too.
  lemma EveryEndHasItsBegin(acts: seq<Action>, t: Thread, j: nat)
    requires Schedule(acts) && j < |Reach(acts).trace|
    requires Reach(acts).trace[j].thread == t && !Opens(Reach(acts).trace[j])
    ensures var trace := Reach(acts).trace;
      exists i :: 0 <= i < j && trace[i].thread == t && Opens(trace[i]) && BracketOf(trace[i]) == BracketOf(trace[j])
                  && Open(trace[i + 1..j], t) == Some([])
  {
    var trace := Reach(acts).trace;
    TraceIsWellNested(acts, t);
    OpenSoFar(trace, t, j + 1);
    OpenSoFar(trace, t, j);
    assert Front(trace[..j + 1]) == trace[..j] && Last(trace[..j + 1]) == trace[j];
    var before, begin, after := TopOpened(trace[..j], t);
    var i := |before|;
    assert trace[..j][i] == begin && trace[i] == begin;
    assert trace[i + 1..j] == after;
  }

  // In a region that has ended, every member began and ended its implicit task once,
  // and the forking thread began and ended the region once.
  lemma BeginsMatchEnds(acts: seq<Action>, r: nat, t: Thread)
    requires Schedule(acts) && r in Reach(acts).closed && r < |Reach(acts).regions|
    requires t in Reach(acts).regions[r].members
    ensures var s := Reach(acts);
      && Count(s.trace, ImplicitBegin, r, t) == Count(s.trace, ImplicitEnd, r, t) == 1
      && Count(s.trace, ParallelBegin, r, t) == Count(s.trace, ParallelEnd, r, t)
         == if t == s.regions[r].members[0] then 1 else 0
  {
    hide WellFormed, ArgsKept, Synchronized, Counted, CallsRight, Nests, InOrder, Count;
    EveryRunKeeps(acts);
    var s := Reach(acts);
    CountOf(s, ImplicitBegin, r, t);
    CountOf(s, ImplicitEnd, r, t);
    CountOf(s, ParallelBegin, r, t);
    CountOf(s, ParallelEnd, r, t);
  }

  // While a region is active its team's desc.args point to its own live arguments,
  // whatever nested regions come and go; and only a top-level fork, which needs every
  // thread outside every region, touches the cache or a cached team.
  lemma NestedRegionsAreIsolated(acts: seq<Action>, a: Action)
    requires Schedule(acts) && Enabled(Reach(acts), a)
    ensures var s, s' := Reach(acts), Apply(Reach(acts), a);
      && (!a.ForkTop? ==>
            && s'.keys == s.keys && s'.teams == s.teams
            && forall i :: (Cached(i) in s'.desc <==> Cached(i) in s.desc)
                           && (Cached(i) in s.desc ==> s'.desc[Cached(i)] == s.desc[Cached(i)]))
      && (a.ForkTop? ==> forall u :: Stack(s, u) == [])
      && forall r: nat :: Active(s, r) ==> ReadArgs(s, r) == Some(s.regions[r].wargs)
  {
    EveryRunKeeps(acts);
    if a.ForkTop? {
      AllIdle(Reach(acts));
    }
  }

  // ---- the cache over whole runs ----

  function TopKeys(acts: seq<Action>): seq<int> {
    if acts == [] then []
    else TopKeys(Front(acts)) + (if Last(acts).ForkTop? then [Last(acts).key] else [])
  }

  lemma {:induction false} ServeAppend(keys: seq<int>, requests: seq<int>, key: int)
    ensures Serve(keys, requests + [key]) ==
      match Serve(keys, requests) case None => None case Some(k) => Acquired(k, key)
    decreases |requests|
  {
    if requests != [] {
      assert (requests + [key])[1..] == requests[1..] + [key];
      match Acquired(keys, requests[0]) {
        case None =>
        case Some(k) => ServeAppend(k, requests[1..], key);
      }
    }
  }

  // Over any interleaving, the teams in the cache are those the top-level requests
  // alone would create: pairwise distinct counts, in order of first use.
  lemma {:induction false} CacheFollowsRequests(acts: seq<Action>)
    requires Schedule(acts)
    ensures Serve([], TopKeys(acts)) == Some(Reach(acts).keys)
    ensures Distinct(Reach(acts).keys) && Elements(Reach(acts).keys) == Elements(TopKeys(acts))
    decreases |acts|
  {
    if acts != [] {
      CacheFollowsRequests(Front(acts));
      if Last(acts).ForkTop? {
        ServeAppend([], TopKeys(Front(acts)), Last(acts).key);
      } else {
        assert TopKeys(Front(acts)) + [] == TopKeys(Front(acts));
      }
    }
    ServeKeeps([], TopKeys(acts));
    assert Elements([]) + Elements(TopKeys(acts)) == Elements(TopKeys(acts));
  }

  ghost predicate TeamsAreSized(s: State) {
    && |s.teams| == |s.keys|
    && (forall i :: 0 <= i < |s.keys| && s.keys[i] != 0 ==> |s.teams[i]| == s.keys[i])
    && (forall r :: 0 <= r < |s.regions| ==>
          match s.regions[r].team
          case Cached(i) => i < |s.keys| && s.regions[r].members == s.teams[i]
          case OneShot(_) => |s.regions[r].members| == 1)
  }

  // Every region that shares a cached team has exactly its members, as many as the count
  // the team was created for; a nested region has one.
  lemma {:induction false} RegionsHaveTheirTeams(acts: seq<Action>)
    requires Schedule(acts)
    ensures TeamsAreSized(Reach(acts))
    decreases |acts|
  {
    if acts != [] {
      RegionsHaveTheirTeams(Front(acts));
      if Last(acts).ForkTop? {
        ForkIsSized(Reach(Front(acts)), Last(acts));
      }
    }
  }

  lemma ForkIsSized(s: State, a: Action)
    requires TeamsAreSized(s) && Enabled(s, a) && a.ForkTop?
    ensures TeamsAreSized(Apply(s, a))
  {
    var s' := Apply(s, a);
    var i := IndexOf(s'.keys, a.key);
    assert i < |s'.keys| && s'.teams[i] == a.members by {
      if a.key !in s.keys {
        assert s'.keys[|s.keys|] == a.key && forall j :: 0 <= j < |s.keys| ==> s'.keys[j] == s.keys[j];
      }
    }
    assert s'.regions == s.regions + [Region(Cached(i), a.members, a.block, a.wargs)];
    assert forall j :: 0 <= j < |s.keys| ==> s'.keys[j] == s.keys[j] && s'.teams[j] == s.teams[j];
  }

  // ---- no deadlock ----

  // While a region is active, some thread can move.
  lemma NoDeadlock(acts: seq<Action>) returns (a: Action)
    requires Schedule(acts) && Reach(acts).top.Some?
    ensures Enabled(Reach(acts), a)
  {
    var s := Reach(acts);
    EveryRunKeeps(acts);
    var r := s.top.value;
    if t :| Stack(s, t) != [] && MayMove(s, t) {
      a := MoveOf(s, t);
    } else if t :| t in s.regions[r].members && Last(Stack(s, t)).stage == AtBarrier {
      forall m | m in s.regions[r].members ensures Progress(s, r, m) >= Rank(AtBarrier) {
        OuterOnly(s, m);
      }
      OuterOnly(s, t);
      a := PassBarrier(t);
    } else {
      forall m | m in s.regions[r].members ensures Stack(s, m) == [Frame(r, Left)] {
        OuterOnly(s, m);
      }
      a := JoinTop;
    }
  }

  // A thread whose next step waits for nobody else.
  predicate MayMove(s: State, t: Thread)
    requires Stack(s, t) != []
  {
    var stage := Last(Stack(s, t)).stage;
    |Stack(s, t)| > 1 || (stage != AtBarrier && stage != Left)
  }

  lemma MoveOf(s: State, t: Thread) returns (a: Action)
    requires WellFormed(s) && Stack(s, t) != [] && MayMove(s, t)
    ensures Enabled(s, a)
  {
    ProgressHere(s, t);
    assert FrameOk(s, t, |Stack(s, t)| - 1);
    match Last(Stack(s, t)).stage {
      case Entering => a := BeginTask(t);
      case Calling => a := Invoke(t);
      case InBody => a := Return(t);
      case AtBarrier => a := PassBarrier(t);
      case Leaving => a := EndTask(t);
      case Left => a := JoinNested(t);
    }
  }

  lemma OuterOnly(s: State, t: Thread)
    requires WellFormed(s) && s.top.Some? && t in s.regions[s.top.value].members
    requires !MayMove(s, t)
    ensures Stack(s, t) == [Frame(s.top.value, AtBarrier)] || Stack(s, t) == [Frame(s.top.value, Left)]
    ensures Progress(s, s.top.value, t) >= Rank(AtBarrier)
  {
    assert FrameOk(s, t, 0);
    ProgressHere(s, t);
  }
}
