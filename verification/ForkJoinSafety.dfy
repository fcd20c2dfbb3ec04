// What every interleaving of parallel regions keeps.
module ForkJoinSafety {
  import opened Wrappers
  import opened TeamCache
  import opened Traces
  import opened ForkJoin

  // ---- shape of the stacks ----

  predicate Team(members: seq<Thread>) {
    members != [] && Distinct(members)
  }

  // A region that has been forked and not joined.
  predicate Active(s: State, r: nat) {
    r < |s.regions| && r !in s.closed
  }

  // Frame number k of thread t: the team's region at the bottom, its own one-shot
  // regions above, all but the innermost inside their bodies or at their barriers.
  predicate FrameOk(s: State, t: Thread, k: nat)
    requires k < |Stack(s, t)|
  {
    var f := Stack(s, t)[k];
    && Active(s, f.region) && t in s.regions[f.region].members
    && (k + 1 < |Stack(s, t)| ==> f.stage == InBody || f.stage == AtBarrier)
    && (k == 0 ==> s.top == Some(f.region))
    && (k > 0 ==> s.regions[f.region].team == OneShot(f.region) && s.regions[f.region].members == [t])
  }

  predicate DistinctRegions(q: seq<Frame>) {
    forall j, k :: 0 <= j < k < |q| ==> q[j].region != q[k].region
  }

  ghost predicate WellFormed(s: State) {
    && (forall r :: r in s.closed ==> r < |s.regions|)
    && (forall r :: 0 <= r < |s.regions| ==> Team(s.regions[r].members))
    && (forall r: nat :: Active(s, r) ==> s.top == Some(r) || s.regions[r].team == OneShot(r))
    && (s.top.Some? ==> Active(s, s.top.value) && s.regions[s.top.value].team.Cached?
                        && s.regions[s.top.value].members[0] == MASTER)
    && (s.top.Some? ==> forall m :: m in s.regions[s.top.value].members ==> Stack(s, m) != [])
    && (forall t, k: nat :: k < |Stack(s, t)| ==> FrameOk(s, t, k))
    && (forall t :: DistinctRegions(Stack(s, t)))
    && |s.teams| == |s.keys|
    && (forall i :: 0 <= i < |s.teams| ==> Team(s.teams[i]) && s.teams[i][0] == MASTER)
  }

  // The arguments of every active region can be read through its team, and are its own.
  ghost predicate ArgsKept(s: State) {
    && (forall r: nat :: Active(s, r) ==>
          ReadArgs(s, r) == Some(s.regions[r].wargs) && s.desc[s.regions[r].team] == s.regions[r].block)
    && (forall r: nat, q: nat :: Active(s, r) && Active(s, q) && r != q ==> s.regions[r].block != s.regions[q].block)
  }

  // Threads past the barrier of a region have every member's body behind them.
  ghost predicate Synchronized(s: State) {
    forall r, t, m :: (0 <= r < |s.regions| && t in s.regions[r].members && m in s.regions[r].members
                       && Progress(s, r, t) >= Rank(Leaving)) ==> Progress(s, r, m) >= Rank(AtBarrier)
  }

  // ---- what the trace says ----

  predicate Is(e: Event, kind: Kind, r: nat, t: Thread) {
    e.kind == kind && e.region == r && e.thread == t
  }

  function Count(trace: seq<Event>, kind: Kind, r: nat, t: Thread): nat {
    if trace == [] then 0
    else Count(Front(trace), kind, r, t) + (if Is(Last(trace), kind, r, t) then 1 else 0)
  }

  lemma {:induction false} CountZero(trace: seq<Event>, kind: Kind, r: nat, t: Thread)
    ensures Count(trace, kind, r, t) == 0 <==> forall i :: 0 <= i < |trace| ==> !Is(trace[i], kind, r, t)
    decreases |trace|
  {
    if trace != [] {
      CountZero(Front(trace), kind, r, t);
      assert forall i :: 0 <= i < |Front(trace)| ==> Front(trace)[i] == trace[i];
      assert Last(trace) == trace[|trace| - 1];
    }
  }

  // The count is how many events there are: exactly one when it is 1.
  lemma {:induction false} CountMeans(trace: seq<Event>, kind: Kind, r: nat, t: Thread)
    ensures Count(trace, kind, r, t) == 0 <==> forall i :: 0 <= i < |trace| ==> !Is(trace[i], kind, r, t)
    ensures Count(trace, kind, r, t) == 1 <==> exists i :: OnlyOneAt(trace, kind, r, t, i)
    decreases |trace|
  {
    hide Is;
    CountZero(trace, kind, r, t);
    if trace != [] {
      var front := Front(trace);
      CountZero(front, kind, r, t);
      CountMeans(front, kind, r, t);
      if Is(Last(trace), kind, r, t) {
        if Count(front, kind, r, t) == 0 {
          assert OnlyOneAt(trace, kind, r, t, |front|);
        }
      } else {
        forall i ensures OnlyOneAt(trace, kind, r, t, i) <==> OnlyOneAt(front, kind, r, t, i) {
          OnlyOneInFront(trace, kind, r, t, i);
        }
      }
    }
  }

  lemma OnlyOneInFront(trace: seq<Event>, kind: Kind, r: nat, t: Thread, i: int)
    requires trace != [] && !Is(Last(trace), kind, r, t)
    ensures OnlyOneAt(trace, kind, r, t, i) <==> OnlyOneAt(Front(trace), kind, r, t, i)
  {
    assert Last(trace) == trace[|trace| - 1];
    assert forall j :: 0 <= j < |trace| - 1 ==> Front(trace)[j] == trace[j];
    assert OnlyOneAt(trace, kind, r, t, i) ==> Is(trace[i], kind, r, t);
  }

  predicate OnlyOneAt(trace: seq<Event>, kind: Kind, r: nat, t: Thread, i: int) {
    0 <= i < |trace| && forall j :: 0 <= j < |trace| ==> (Is(trace[j], kind, r, t) <==> j == i)
  }

  // How often thread t must have reported `kind` for region r by now.
  function Expected(s: State, kind: Kind, r: nat, t: Thread): nat {
    if r >= |s.regions| || t !in s.regions[r].members then 0
    else match kind
      case ParallelBegin => if t == s.regions[r].members[0] then 1 else 0
      case ParallelEnd => if t == s.regions[r].members[0] && r in s.closed then 1 else 0
      case ImplicitBegin => if Progress(s, r, t) >= Rank(Calling) then 1 else 0
      case Called => if Progress(s, r, t) >= Rank(InBody) then 1 else 0
      case Returned => if Progress(s, r, t) >= Rank(AtBarrier) then 1 else 0
      case ImplicitEnd => if Progress(s, r, t) >= Rank(Left) then 1 else 0
  }

  ghost predicate Counted(s: State) {
    forall kind, r, t :: Count(s.trace, kind, r, t) == Expected(s, kind, r, t)
  }

  // Each call so far was made with the thread's own ids and its region's arguments.
  ghost predicate CallsRight(s: State) {
    forall i :: 0 <= i < |s.trace| && s.trace[i].kind == Called ==>
      var e := s.trace[i];
      && e.region < |s.regions| && e.thread in s.regions[e.region].members
      && e.info == CallInfo(e.thread, IndexIn(s.regions[e.region].members, e.thread), Some(s.regions[e.region].wargs))
  }

  // ---- nesting ----

  datatype Bracket = Par(region: nat) | Imp(region: nat) | Mic(region: nat)

  function BracketOf(e: Event): Bracket {
    match e.kind
    case ParallelBegin => Par(e.region) case ParallelEnd => Par(e.region)
    case ImplicitBegin => Imp(e.region) case ImplicitEnd => Imp(e.region)
    case Called => Mic(e.region) case Returned => Mic(e.region)
  }

  predicate Opens(e: Event) {
    e.kind == ParallelBegin || e.kind == ImplicitBegin || e.kind == Called
  }

  // The brackets thread t has open after a trace; None if one was closed out of order.
  function Open(trace: seq<Event>, t: Thread): Option<seq<Bracket>> {
    if trace == [] then Some([])
    else
      var e, before := Last(trace), Open(Front(trace), t);
      if e.thread != t || before.None? then before
      else if Opens(e) then Some(before.value + [BracketOf(e)])
      else if before.value != [] && Last(before.value) == BracketOf(e) then Some(Front(before.value))
      else None
  }

  function FrameBrackets(s: State, t: Thread, f: Frame): seq<Bracket> {
    (if f.region < |s.regions| && s.regions[f.region].members != [] && s.regions[f.region].members[0] == t
     then [Par(f.region)] else [])
    + (match f.stage
       case Entering => [] case Calling => [Imp(f.region)] case InBody => [Imp(f.region), Mic(f.region)]
       case AtBarrier => [Imp(f.region)] case Leaving => [Imp(f.region)] case Left => [])
  }

  function StackBrackets(s: State, t: Thread, q: seq<Frame>): seq<Bracket> {
    if q == [] then [] else StackBrackets(s, t, Front(q)) + FrameBrackets(s, t, Last(q))
  }

  // On every thread the events reported so far nest, and exactly the regions, tasks
  // and calls the thread is inside of are still open.
  ghost predicate Nests(s: State) {
    forall t :: Open(s.trace, t) == Some(StackBrackets(s, t, Stack(s, t)))
  }

  // ---- order across threads ----

  // Whenever t2 reports k2 for r, t1 has already reported k1 for r.
  ghost predicate Precedes(trace: seq<Event>, r: nat, k1: Kind, t1: Thread, k2: Kind, t2: Thread) {
    forall j :: 0 <= j < |trace| && Is(trace[j], k2, r, t2) ==>
      exists i :: 0 <= i < j && Is(trace[i], k1, r, t1)
  }

  // parallel_begin comes before any member's implicit task, every member's body
  // ends before any member's implicit task does, and parallel_end comes after all.
  ghost predicate InOrder(s: State) {
    forall r, t, m :: 0 <= r < |s.regions| && t in s.regions[r].members && m in s.regions[r].members ==>
      && Precedes(s.trace, r, ParallelBegin, s.regions[r].members[0], ImplicitBegin, t)
      && Precedes(s.trace, r, Returned, m, ImplicitEnd, t)
      && Precedes(s.trace, r, ImplicitEnd, t, ParallelEnd, s.regions[r].members[0])
  }

  ghost predicate Inv(s: State) {
    WellFormed(s) && ArgsKept(s) && Synchronized(s) && Counted(s) && CallsRight(s) && Nests(s) && InOrder(s)
  }

  // ---- one more event ----

  lemma CountAppend(trace: seq<Event>, e: Event)
    ensures forall kind, r, t :: Count(trace + [e], kind, r, t)
                              == Count(trace, kind, r, t) + (if Is(e, kind, r, t) then 1 else 0)
  {
    assert Front(trace + [e]) == trace;
  }

  lemma {:induction false} CountedMeansReported(trace: seq<Event>, kind: Kind, r: nat, t: Thread)
    ensures Count(trace, kind, r, t) > 0 <==> exists i :: 0 <= i < |trace| && Is(trace[i], kind, r, t)
  {
    if trace != [] {
      CountedMeansReported(Front(trace), kind, r, t);
      if i :| 0 <= i < |trace| && Is(trace[i], kind, r, t) {
        assert i < |trace| - 1 ==> Is(Front(trace)[i], kind, r, t);
      }
    }
  }

  lemma PrecedesAppend(trace: seq<Event>, e: Event, r: nat, k1: Kind, t1: Thread, k2: Kind, t2: Thread)
    requires Precedes(trace, r, k1, t1, k2, t2)
    requires Is(e, k2, r, t2) ==> Count(trace, k1, r, t1) > 0
    ensures Precedes(trace + [e], r, k1, t1, k2, t2)
  {
    CountedMeansReported(trace, k1, r, t1);
    forall j | 0 <= j < |trace + [e]| && Is((trace + [e])[j], k2, r, t2)
      ensures exists i :: 0 <= i < j && Is((trace + [e])[i], k1, r, t1)
    {
      var i :| 0 <= i < |trace| && i < j && Is(trace[i], k1, r, t1);
      assert Is((trace + [e])[i], k1, r, t1);
    }
  }

  lemma OpenAppend(trace: seq<Event>, e: Event, t: Thread)
    ensures Open(trace + [e], t) ==
      var before := Open(trace, t);
      if e.thread != t || before.None? then before
      else if Opens(e) then Some(before.value + [BracketOf(e)])
      else if before.value != [] && Last(before.value) == BracketOf(e) then Some(Front(before.value))
      else None
  {
    assert Front(trace + [e]) == trace;
  }

  // The order across threads survives an event whose causes have been counted.
  lemma OrderAppend(s: State, e: Event)
    requires InOrder(s)
    requires e.region < |s.regions| ==>
      var ms := s.regions[e.region].members;
      forall t, m :: t in ms && m in ms ==>
        && (Is(e, ImplicitBegin, e.region, t) ==> Count(s.trace, ParallelBegin, e.region, ms[0]) > 0)
        && (Is(e, ImplicitEnd, e.region, t) ==> Count(s.trace, Returned, e.region, m) > 0)
        && (Is(e, ParallelEnd, e.region, ms[0]) ==> Count(s.trace, ImplicitEnd, e.region, t) > 0)
    requires forall r :: 0 <= r < |s.regions| ==> s.regions[r].members != []
    ensures InOrder(s.(trace := s.trace + [e]))
  {
    forall r, t, m | 0 <= r < |s.regions| && t in s.regions[r].members && m in s.regions[r].members
      ensures Precedes(s.trace + [e], r, ParallelBegin, s.regions[r].members[0], ImplicitBegin, t)
      ensures Precedes(s.trace + [e], r, Returned, m, ImplicitEnd, t)
      ensures Precedes(s.trace + [e], r, ImplicitEnd, t, ParallelEnd, s.regions[r].members[0])
    {
      PrecedesAppend(s.trace, e, r, ParallelBegin, s.regions[r].members[0], ImplicitBegin, t);
      PrecedesAppend(s.trace, e, r, Returned, m, ImplicitEnd, t);
      PrecedesAppend(s.trace, e, r, ImplicitEnd, t, ParallelEnd, s.regions[r].members[0]);
    }
  }

  // ---- a thread moves on within its innermost region ----

  function Moved(s: State, t: Thread, stage: Stage): State
    requires Stack(s, t) != []
  {
    s.(stacks := s.stacks[t := Front(Stack(s, t)) + [Frame(Last(Stack(s, t)).region, stage)]])
  }

  lemma MoveKeepsShape(s: State, t: Thread, stage: Stage)
    requires WellFormed(s) && ArgsKept(s) && Stack(s, t) != []
    ensures WellFormed(Moved(s, t, stage)) && ArgsKept(Moved(s, t, stage))
  {
    var s' := Moved(s, t, stage);
    assert forall r: nat :: Active(s', r) == Active(s, r) && ReadArgs(s', r) == ReadArgs(s, r);
    forall u, k: nat | k < |Stack(s', u)|
      ensures FrameOk(s', u, k) && |Stack(s', u)| == |Stack(s, u)| && Stack(s', u)[k].region == Stack(s, u)[k].region
    {
      assert FrameOk(s, u, k);
    }
    forall u ensures DistinctRegions(Stack(s', u)) {
      assert DistinctRegions(Stack(s, u));
    }
  }

  lemma MoveProgress(s: State, t: Thread, stage: Stage, r: nat, u: Thread)
    requires WellFormed(s) && Stack(s, t) != []
    ensures Progress(Moved(s, t, stage), r, u)
         == if u == t && r == Last(Stack(s, t)).region then Rank(stage) else Progress(s, r, u)
  {
    assert FrameOk(s, t, |Stack(s, t)| - 1);
    assert Front(Stack(Moved(s, t, stage), t)) == Front(Stack(s, t));
  }

  lemma {:induction false} SameBrackets(s: State, s': State, t: Thread, q: seq<Frame>)
    requires s.regions <= s'.regions && forall f :: f in q ==> f.region < |s.regions|
    ensures StackBrackets(s', t, q) == StackBrackets(s, t, q)
  {
    if q != [] {
      assert Last(q) in q;
      SameBrackets(s, s', t, Front(q));
    }
  }

  // Which event, if any, goes with a thread's move between stages.
  predicate Reports(from: Stage, to: Stage, kind: Kind) {
    || (from == Entering && to == Calling && kind == ImplicitBegin)
    || (from == Calling && to == InBody && kind == Called)
    || (from == InBody && to == AtBarrier && kind == Returned)
    || (from == Leaving && to == Left && kind == ImplicitEnd)
  }

  lemma MoveKeepsBarrier(s: State, t: Thread, stage: Stage)
    requires WellFormed(s) && Synchronized(s) && Stack(s, t) != []
    requires Rank(stage) >= Rank(Last(Stack(s, t)).stage)
    requires var r := Last(Stack(s, t)).region;
      r < |s.regions| && (Rank(stage) >= Rank(Leaving) ==>
        forall m :: m in s.regions[r].members ==> Progress(s, r, m) >= Rank(AtBarrier))
    ensures Synchronized(Moved(s, t, stage))
  {
    var s' := Moved(s, t, stage);
    forall r, u, m | 0 <= r < |s'.regions| && u in s'.regions[r].members && m in s'.regions[r].members
                     && Progress(s', r, u) >= Rank(Leaving)
      ensures Progress(s', r, m) >= Rank(AtBarrier)
    {
      MoveProgress(s, t, stage, r, u);
      MoveProgress(s, t, stage, r, m);
      assert Progress(s, Last(Stack(s, t)).region, t) == Rank(Last(Stack(s, t)).stage) by {
        MoveProgress(s, t, Last(Stack(s, t)).stage, Last(Stack(s, t)).region, t);
        assert Front(Stack(s, t)) + [Frame(Last(Stack(s, t)).region, Last(Stack(s, t)).stage)] == Stack(s, t);
        assert FrameOk(s, t, |Stack(s, t)| - 1);
      }
    }
  }

  lemma ProgressHere(s: State, t: Thread)
    requires WellFormed(s) && Stack(s, t) != []
    ensures var f := Last(Stack(s, t));
      f.region < |s.regions| && t in s.regions[f.region].members && Active(s, f.region)
      && Progress(s, f.region, t) == Rank(f.stage)
  {
    assert FrameOk(s, t, |Stack(s, t)| - 1);
  }

  lemma AdvanceCounts(s: State, t: Thread, stage: Stage, kind: Kind, info: CallInfo)
    requires WellFormed(s) && Counted(s) && Stack(s, t) != []
    requires Reports(Last(Stack(s, t)).stage, stage, kind)
    ensures Counted(Advance(s, t, stage, kind, info))
  {
    var s' := Advance(s, t, stage, kind, info);
    var here := Last(Stack(s, t)).region;
    CountAppend(s.trace, Event(kind, here, t, info));
    ProgressHere(s, t);
    forall k, r, u ensures Count(s'.trace, k, r, u) == Expected(s', k, r, u) {
      MoveProgress(s, t, stage, r, u);
      assert Progress(s', r, u) == Progress(Moved(s, t, stage), r, u);
      assert Count(s.trace, k, r, u) == Expected(s, k, r, u);
    }
  }

  lemma MoveCounts(s: State, t: Thread)
    requires WellFormed(s) && Counted(s) && Busy(s, t, AtBarrier)
    ensures Counted(Moved(s, t, Leaving))
  {
    var s' := Moved(s, t, Leaving);
    ProgressHere(s, t);
    forall k, r, u ensures Count(s'.trace, k, r, u) == Expected(s', k, r, u) {
      MoveProgress(s, t, Leaving, r, u);
      assert Count(s.trace, k, r, u) == Expected(s, k, r, u);
    }
  }

  lemma AdvanceNests(s: State, t: Thread, stage: Stage, kind: Kind, info: CallInfo)
    requires WellFormed(s) && Nests(s) && Stack(s, t) != []
    requires Reports(Last(Stack(s, t)).stage, stage, kind)
    ensures Nests(Advance(s, t, stage, kind, info))
  {
    var s' := Advance(s, t, stage, kind, info);
    var f := Last(Stack(s, t));
    forall u ensures Open(s'.trace, u) == Some(StackBrackets(s', u, Stack(s', u))) {
      OpenAppend(s.trace, Event(kind, f.region, t, info), u);
      assert Open(s.trace, u) == Some(StackBrackets(s, u, Stack(s, u)));
      FramesKnown(s, u);
      if u == t {
        var below := Front(Stack(s, t));
        assert Front(Stack(s', t)) == below;
        SameBrackets(s, s', t, below);
        BracketMoves(s, t, StackBrackets(s, t, below), f, stage, Event(kind, f.region, t, info));
        assert FrameBrackets(s', t, Last(Stack(s', t))) == FrameBrackets(s, t, Frame(f.region, stage));
      } else {
        SameBrackets(s, s', u, Stack(s, u));
      }
    }
  }

  lemma FramesKnown(s: State, t: Thread)
    requires WellFormed(s)
    ensures forall f :: f in Stack(s, t) ==> f.region < |s.regions|
  {
    forall f | f in Stack(s, t) ensures f.region < |s.regions| {
      var k :| 0 <= k < |Stack(s, t)| && Stack(s, t)[k] == f;
      assert FrameOk(s, t, k);
    }
  }

  // Reporting a stage change opens or closes exactly the bracket it should.
  lemma BracketMoves(s: State, t: Thread, below: seq<Bracket>, f: Frame, stage: Stage, e: Event)
    requires Reports(f.stage, stage, e.kind) && e.region == f.region
    ensures var before, after := below + FrameBrackets(s, t, f), below + FrameBrackets(s, t, Frame(f.region, stage));
      if Opens(e) then after == before + [BracketOf(e)]
      else before != [] && Last(before) == BracketOf(e) && after == Front(before)
  {
  }

  lemma MoveNests(s: State, t: Thread)
    requires WellFormed(s) && Nests(s) && Busy(s, t, AtBarrier)
    ensures Nests(Moved(s, t, Leaving))
  {
    hide WellFormed, Open;
    var s' := Moved(s, t, Leaving);
    forall u ensures Open(s'.trace, u) == Some(StackBrackets(s', u, Stack(s', u))) {
      assert Open(s.trace, u) == Some(StackBrackets(s, u, Stack(s, u)));
      FramesKnown(s, u);
      if u == t {
        var below := Front(Stack(s, t));
        assert Front(Stack(s', t)) == below;
        SameBrackets(s, s', t, below);
      } else {
        SameBrackets(s, s', u, Stack(s, u));
      }
    }
  }

  lemma CountOf(s: State, kind: Kind, r: nat, t: Thread)
    requires Counted(s)
    ensures Count(s.trace, kind, r, t) == Expected(s, kind, r, t)
  {
  }

  lemma CallsAppend(s: State, s': State, e: Event)
    requires CallsRight(s) && s.regions <= s'.regions && s'.trace == s.trace + [e]
    requires e.kind == Called ==>
      && e.region < |s'.regions| && e.thread in s'.regions[e.region].members
      && e.info == CallInfo(e.thread, IndexIn(s'.regions[e.region].members, e.thread), Some(s'.regions[e.region].wargs))
    ensures CallsRight(s')
  {
  }

  lemma AdvanceOrder(s: State, t: Thread, stage: Stage, kind: Kind, info: CallInfo)
    requires WellFormed(s) && Synchronized(s) && Counted(s) && InOrder(s)
    requires Stack(s, t) != [] && Reports(Last(Stack(s, t)).stage, stage, kind)
    ensures InOrder(Advance(s, t, stage, kind, info))
  {
    hide Counted, Count;
    var r := Last(Stack(s, t)).region;
    var e := Event(kind, r, t, info);
    ProgressHere(s, t);
    forall u, m | u in s.regions[r].members && m in s.regions[r].members
      ensures Is(e, ImplicitBegin, r, u) ==> Count(s.trace, ParallelBegin, r, s.regions[r].members[0]) > 0
      ensures Is(e, ImplicitEnd, r, u) ==> Count(s.trace, Returned, r, m) > 0
    {
      CountOf(s, ParallelBegin, r, s.regions[r].members[0]);
      CountOf(s, Returned, r, m);
    }
    OrderAppend(s, e);
  }

  // Entering, calling, returning and leaving keep everything.
  lemma AdvanceKeeps(s: State, t: Thread, stage: Stage, kind: Kind, info: CallInfo)
    requires Inv(s) && Stack(s, t) != [] && Reports(Last(Stack(s, t)).stage, stage, kind)
    requires kind == Called ==> var r := Last(Stack(s, t)).region;
      r < |s.regions| && info == CallInfo(t, IndexIn(s.regions[r].members, t), ReadArgs(s, r))
    ensures Inv(Advance(s, t, stage, kind, info))
  {
    hide Counted, Nests, InOrder, CallsRight;
    var s' := Advance(s, t, stage, kind, info);
    ProgressHere(s, t);
    MoveKeepsShape(s, t, stage);
    MoveKeepsBarrier(s, t, stage);
    TraceIsSeparate(Moved(s, t, stage), s'.trace);
    AdvanceCounts(s, t, stage, kind, info);
    AdvanceNests(s, t, stage, kind, info);
    AdvanceOrder(s, t, stage, kind, info);
    CallsAppend(s, s', Event(kind, Last(Stack(s, t)).region, t, info));
  }

  // The shape, argument and barrier invariants do not look at the trace.
  lemma TraceIsSeparate(s: State, trace: seq<Event>)
    ensures WellFormed(s) ==> WellFormed(s.(trace := trace))
    ensures ArgsKept(s) ==> ArgsKept(s.(trace := trace))
    ensures Synchronized(s) ==> Synchronized(s.(trace := trace))
  {
    var s' := s.(trace := trace);
    assert forall t :: Stack(s', t) == Stack(s, t);
    assert forall t, k: nat :: k < |Stack(s, t)| ==> FrameOk(s', t, k) == FrameOk(s, t, k);
    assert forall r: nat :: Active(s', r) == Active(s, r) && ReadArgs(s', r) == ReadArgs(s, r);
  }

  lemma BarrierKeeps(s: State, t: Thread)
    requires Inv(s) && Enabled(s, PassBarrier(t))
    ensures Inv(Apply(s, PassBarrier(t)))
  {
    hide Counted, Nests;
    MoveKeepsShape(s, t, Leaving);
    MoveKeepsBarrier(s, t, Leaving);
    MoveCounts(s, t);
    MoveNests(s, t);
  }

  // ---- nested regions ----

  lemma ForkNestedProgress(s: State, a: Action)
    requires WellFormed(s) && a.ForkNested? && Enabled(s, a)
    ensures forall r: nat, u :: r < |s.regions| ==> Progress(Apply(s, a), r, u) == Progress(s, r, u)
    ensures forall u :: Progress(Apply(s, a), |s.regions|, u) == 0
    ensures forall u :: DistinctRegions(Stack(Apply(s, a), u))
  {
    var s' := Apply(s, a);
    assert Front(Stack(s', a.t)) == Stack(s, a.t);
    forall u ensures DistinctRegions(Stack(s', u)) && Progress(s', |s.regions|, u) == 0 {
      assert DistinctRegions(Stack(s, u));
      FramesKnown(s, u);
      NotInStack(Stack(s, u), |s.regions|);
      assert forall j :: 0 <= j < |Stack(s, u)| ==> Stack(s, u)[j] in Stack(s, u);
    }
  }

  lemma ForkNestedFrames(s: State, a: Action)
    requires WellFormed(s) && a.ForkNested? && Enabled(s, a)
    ensures forall u, k: nat :: k < |Stack(Apply(s, a), u)| ==> FrameOk(Apply(s, a), u, k)
    ensures forall r: nat :: Active(Apply(s, a), r) ==> Active(s, r) || r == |s.regions|
  {
    var s' := Apply(s, a);
    forall u, k: nat | k < |Stack(s', u)| ensures FrameOk(s', u, k) {
      assert k < |Stack(s, u)| ==> FrameOk(s, u, k);
      assert FrameOk(s, a.t, |Stack(s, a.t)| - 1);
    }
  }

  lemma ForkNestedShape(s: State, a: Action)
    requires WellFormed(s) && a.ForkNested? && Enabled(s, a)
    ensures WellFormed(Apply(s, a))
  {
    ForkNestedProgress(s, a);
    ForkNestedFrames(s, a);
  }

  lemma ForkNestedArgs(s: State, a: Action)
    requires WellFormed(s) && ArgsKept(s) && a.ForkNested? && Enabled(s, a)
    ensures ArgsKept(Apply(s, a))
  {
    var s' := Apply(s, a);
    forall r: nat | Active(s', r)
      ensures ReadArgs(s', r) == Some(s'.regions[r].wargs) && s'.desc[s'.regions[r].team] == s'.regions[r].block
      ensures r < |s.regions| ==> s'.regions[r].block != a.block
    {
      assert r < |s.regions| ==> Active(s, r);
    }
  }

  lemma {:induction false} NotInStack(q: seq<Frame>, r: nat)
    requires forall f :: f in q ==> f.region != r
    ensures InStack(q, r) == 0
  {
    if q != [] {
      assert Last(q) in q;
      NotInStack(Front(q), r);
    }
  }

  // A fork opens the new region's bracket on the forking thread and nothing else.
  lemma ForkCounts(s: State, s': State, e: Event)
    requires WellFormed(s) && Counted(s) && s'.trace == s.trace + [e] && s'.closed == s.closed
    requires |s'.regions| == |s.regions| + 1 && s.regions <= s'.regions
    requires Team(s'.regions[|s.regions|].members)
    requires Is(e, ParallelBegin, |s.regions|, s'.regions[|s.regions|].members[0])
    requires forall r: nat, u :: r < |s.regions| ==> Progress(s', r, u) == Progress(s, r, u)
    requires forall u :: Progress(s', |s.regions|, u) == 0
    ensures Counted(s')
  {
    CountAppend(s.trace, e);
    forall k, r, u ensures Count(s'.trace, k, r, u) == Expected(s', k, r, u) {
      CountOf(s, k, r, u);
    }
  }

  lemma ForkOrder(s: State, s': State, e: Event)
    requires InOrder(s) && Counted(s) && WellFormed(s) && s'.trace == s.trace + [e]
    requires |s'.regions| == |s.regions| + 1 && s.regions <= s'.regions
    requires e.kind == ParallelBegin
    ensures InOrder(s')
  {
    var new_ := |s.regions|;
    OrderAppend(s, e);
    forall t, m | t in s'.regions[new_].members && m in s'.regions[new_].members
      ensures Precedes(s'.trace, new_, ParallelBegin, s'.regions[new_].members[0], ImplicitBegin, t)
      ensures Precedes(s'.trace, new_, Returned, m, ImplicitEnd, t)
      ensures Precedes(s'.trace, new_, ImplicitEnd, t, ParallelEnd, s'.regions[new_].members[0])
    {
      NothingReported(s, e, ImplicitBegin, t);
      NothingReported(s, e, ImplicitEnd, t);
      NothingReported(s, e, ParallelEnd, s'.regions[new_].members[0]);
    }
  }

  lemma NothingReported(s: State, e: Event, kind: Kind, t: Thread)
    requires Counted(s) && e.kind == ParallelBegin && kind != ParallelBegin
    ensures forall j :: 0 <= j < |s.trace| + 1 ==> !Is((s.trace + [e])[j], kind, |s.regions|, t)
  {
    CountOf(s, kind, |s.regions|, t);
    CountedMeansReported(s.trace, kind, |s.regions|, t);
  }

  lemma ForkNests(s: State, s': State, e: Event)
    requires WellFormed(s) && Nests(s) && s'.trace == s.trace + [e] && s.regions <= s'.regions
    requires e.kind == ParallelBegin && e.region < |s'.regions|
    requires s'.regions[e.region].members != [] && s'.regions[e.region].members[0] == e.thread
    requires forall u ::
      || (u != e.thread && Stack(s', u) == Stack(s, u))
      || Stack(s', u) == Stack(s, u) + [Frame(e.region, Entering)]
    ensures Nests(s')
  {
    forall u ensures Open(s'.trace, u) == Some(StackBrackets(s', u, Stack(s', u))) {
      OpenAppend(s.trace, e, u);
      assert Open(s.trace, u) == Some(StackBrackets(s, u, Stack(s, u)));
      FramesKnown(s, u);
      SameBrackets(s, s', u, Stack(s, u));
      if Stack(s', u) != Stack(s, u) {
        var f := Frame(e.region, Entering);
        assert Front(Stack(s', u)) == Stack(s, u) && Last(Stack(s', u)) == f;
        assert FrameBrackets(s', u, f) == if u == e.thread then [Par(e.region)] else [];
        assert StackBrackets(s, u, Stack(s, u)) + [] == StackBrackets(s, u, Stack(s, u));
      }
    }
  }

  lemma ForkNestedKeeps(s: State, a: Action)
    requires Inv(s) && a.ForkNested? && Enabled(s, a)
    ensures Inv(Apply(s, a))
  {
    hide Counted, Nests, InOrder, CallsRight, Synchronized;
    var s' := Apply(s, a);
    var e := Event(ParallelBegin, |s.regions|, a.t, NoCall);
    ForkNestedShape(s, a);
    ForkNestedArgs(s, a);
    ForkNestedProgress(s, a);
    ForkCounts(s, s', e);
    ForkOrder(s, s', e);
    ForkNests(s, s', e);
    ForkSynchronized(s, s');
    CallsAppend(s, s', e);
  }

  lemma JoinNestedShape(s: State, t: Thread)
    requires WellFormed(s) && ArgsKept(s) && Enabled(s, JoinNested(t))
    ensures WellFormed(Apply(s, JoinNested(t))) && ArgsKept(Apply(s, JoinNested(t)))
    ensures var r := Last(Stack(s, t)).region;
      && s.regions[r].members == [t] && Active(s, r) && Progress(s, r, t) == Rank(Left)
      && forall q, u :: q != r ==> Progress(Apply(s, JoinNested(t)), q, u) == Progress(s, q, u)
  {
    var s' := Apply(s, JoinNested(t));
    var r := Last(Stack(s, t)).region;
    assert FrameOk(s, t, |Stack(s, t)| - 1);
    forall u, k: nat | k < |Stack(s', u)| ensures FrameOk(s', u, k) {
      assert FrameOk(s, u, k);
      assert DistinctRegions(Stack(s, u));
      assert Stack(s, u)[k].region != r;
    }
    forall q: nat | Active(s', q)
      ensures ReadArgs(s', q) == Some(s'.regions[q].wargs) && s'.desc[s'.regions[q].team] == s'.regions[q].block
    {
      assert Active(s, q) && q != r;
    }
    forall u ensures DistinctRegions(Stack(s', u)) {
      assert DistinctRegions(Stack(s, u));
    }
  }

  lemma JoinCounts(s: State, s': State, e: Event)
    requires WellFormed(s) && Counted(s) && s'.trace == s.trace + [e]
    requires s'.regions == s.regions && s'.closed == s.closed + {e.region}
    requires Active(s, e.region) && Is(e, ParallelEnd, e.region, s.regions[e.region].members[0])
    requires forall u :: u in s.regions[e.region].members ==> Progress(s, e.region, u) == Rank(Left)
    requires forall q, u :: q != e.region ==> Progress(s', q, u) == Progress(s, q, u)
    ensures Counted(s')
  {
    CountAppend(s.trace, e);
    forall k, q, u ensures Count(s'.trace, k, q, u) == Expected(s', k, q, u) {
      CountOf(s, k, q, u);
    }
  }

  lemma JoinOrder(s: State, s': State, e: Event)
    requires WellFormed(s) && Counted(s) && InOrder(s) && s'.trace == s.trace + [e] && s'.regions == s.regions
    requires Active(s, e.region) && e.kind == ParallelEnd
    requires forall u :: u in s.regions[e.region].members ==> Progress(s, e.region, u) == Rank(Left)
    ensures InOrder(s')
  {
    forall u | u in s.regions[e.region].members ensures Count(s.trace, ImplicitEnd, e.region, u) > 0 {
      CountOf(s, ImplicitEnd, e.region, u);
    }
    OrderAppend(s, e);
  }

  // A thread that stays where it was keeps its brackets open.
  lemma StaysNested(s: State, s': State, e: Event, u: Thread)
    requires WellFormed(s) && Nests(s) && s'.trace == s.trace + [e] && s'.regions == s.regions
    requires u != e.thread && Stack(s', u) == Stack(s, u)
    ensures Open(s'.trace, u) == Some(StackBrackets(s', u, Stack(s', u)))
  {
    OpenAppend(s.trace, e, u);
    assert Open(s.trace, u) == Some(StackBrackets(s, u, Stack(s, u)));
    FramesKnown(s, u);
    SameBrackets(s, s', u, Stack(s, u));
  }

  // Leaving a region closes its bracket on the thread that reports the end.
  lemma LeavesNested(s: State, s': State, e: Event, u: Thread)
    requires WellFormed(s) && Nests(s) && s'.trace == s.trace + [e] && s'.regions == s.regions
    requires Active(s, e.region) && Is(e, ParallelEnd, e.region, s.regions[e.region].members[0])
    requires Stack(s, u) != [] && Last(Stack(s, u)) == Frame(e.region, Left) && Stack(s', u) == Front(Stack(s, u))
    ensures Open(s'.trace, u) == Some(StackBrackets(s', u, Stack(s', u)))
  {
    OpenAppend(s.trace, e, u);
    assert Open(s.trace, u) == Some(StackBrackets(s, u, Stack(s, u)));
    FramesKnown(s, u);
    var below := StackBrackets(s, u, Front(Stack(s, u)));
    assert forall f :: f in Front(Stack(s, u)) ==> f in Stack(s, u);
    SameBrackets(s, s', u, Front(Stack(s, u)));
    assert FrameBrackets(s, u, Last(Stack(s, u))) == if u == e.thread then [Par(e.region)] else [];
    if u == e.thread {
      assert Front(below + [Par(e.region)]) == below;
    } else {
      assert below + [] == below;
    }
  }

  // Joining closes the region's bracket on the joining thread.
  lemma JoinNests(s: State, s': State, e: Event)
    requires WellFormed(s) && Nests(s) && s'.trace == s.trace + [e] && s'.regions == s.regions
    requires Active(s, e.region) && Is(e, ParallelEnd, e.region, s.regions[e.region].members[0])
    requires forall u ::
      || (u != e.thread && Stack(s', u) == Stack(s, u))
      || (Stack(s, u) != [] && Last(Stack(s, u)) == Frame(e.region, Left) && Stack(s', u) == Front(Stack(s, u)))
    ensures Nests(s')
  {
    hide WellFormed, Open, StackBrackets;
    forall u ensures Open(s'.trace, u) == Some(StackBrackets(s', u, Stack(s', u))) {
      if u != e.thread && Stack(s', u) == Stack(s, u) {
        StaysNested(s, s', e, u);
      } else {
        LeavesNested(s, s', e, u);
      }
    }
  }

  lemma JoinSynchronized(s: State, s': State, r: nat)
    requires Synchronized(s) && s'.regions == s.regions && s'.closed == s.closed + {r}
    requires forall q, u :: q != r ==> Progress(s', q, u) == Progress(s, q, u)
    ensures Synchronized(s')
  {
  }

  lemma JoinNestedKeeps(s: State, t: Thread)
    requires Inv(s) && Enabled(s, JoinNested(t))
    ensures Inv(Apply(s, JoinNested(t)))
  {
    var s' := Apply(s, JoinNested(t));
    var e := Event(ParallelEnd, Last(Stack(s, t)).region, t, NoCall);
    hide Counted, Nests, InOrder, CallsRight, Synchronized;
    JoinNestedShape(s, t);
    JoinSynchronized(s, s', e.region);
    JoinCounts(s, s', e);
    JoinOrder(s, s', e);
    JoinNests(s, s', e);
    CallsAppend(s, s', e);
  }

  // ---- top-level regions ----

  lemma TopMeansInside(s: State, u: Thread)
    requires WellFormed(s)
    ensures s.top.Some? ==> Stack(s, MASTER) != []
    ensures Stack(s, u) != [] ==> s.top.Some?
  {
    assert s.top.Some? ==> MASTER in s.regions[s.top.value].members;
    assert Stack(s, u) != [] ==> FrameOk(s, u, 0);
  }

  // With the master outside any region, no thread is inside one.
  lemma AllIdle(s: State)
    requires WellFormed(s) && Stack(s, MASTER) == []
    ensures s.top == None && forall u :: Stack(s, u) == []
  {
    forall u ensures s.top == None && Stack(s, u) == [] {
      TopMeansInside(s, u);
    }
  }

  lemma MembersOfTeam(s: State, a: Action)
    requires WellFormed(s) && a.ForkTop? && Enabled(s, a)
    ensures Team(a.members) && a.members[0] == MASTER
    ensures |Apply(s, a).teams| == |Apply(s, a).keys|
    ensures forall i :: 0 <= i < |Apply(s, a).teams| ==> Team(Apply(s, a).teams[i]) && Apply(s, a).teams[i][0] == MASTER
  {
  }

  // Dispatch puts every member, and nobody else, at the start of the new region.
  lemma ForkTopStacks(s: State, a: Action)
    requires WellFormed(s) && a.ForkTop? && Enabled(s, a)
    ensures forall u :: Stack(Apply(s, a), u) == if u in a.members then [Frame(|s.regions|, Entering)] else []
    ensures forall r: nat, u :: r < |s.regions| ==> Progress(Apply(s, a), r, u) == Progress(s, r, u)
    ensures forall u :: Progress(Apply(s, a), |s.regions|, u) == 0
  {
    hide FrameOk, DistinctRegions, TeamFor;
    var s' := Apply(s, a);
    var new_ := |s.regions|;
    AllIdle(s);
    forall u ensures Stack(s', u) == if u in a.members then [Frame(new_, Entering)] else [] {
      assert Stack(s, u) == [];
    }
    forall u, r: nat ensures Progress(s', r, u) == if r < new_ then Progress(s, r, u) else 0 {
      assert Stack(s, u) == [] && Front([Frame(new_, Entering)]) == [];
      assert InStack(Stack(s', u), r) == 0;
    }
  }

  lemma ForkTopShape(s: State, a: Action)
    requires WellFormed(s) && a.ForkTop? && Enabled(s, a)
    ensures WellFormed(Apply(s, a))
  {
    hide InStack, TeamFor;
    var s' := Apply(s, a);
    AllIdle(s);
    MembersOfTeam(s, a);
    ForkTopStacks(s, a);
    forall u, k: nat | k < |Stack(s', u)| ensures FrameOk(s', u, k) {
      assert k == 0;
    }
    forall r: nat | Active(s', r) ensures s'.top == Some(r) || s'.regions[r].team == OneShot(r) {
      assert r < |s.regions| ==> Active(s, r);
    }
  }

  lemma ForkTopArgs(s: State, a: Action)
    requires WellFormed(s) && ArgsKept(s) && a.ForkTop? && Enabled(s, a)
    ensures ArgsKept(Apply(s, a))
  {
    hide InStack, TeamFor, FrameOk, DistinctRegions;
    var s' := Apply(s, a);
    AllIdle(s);
    forall r: nat | Active(s', r)
      ensures ReadArgs(s', r) == Some(s'.regions[r].wargs) && s'.desc[s'.regions[r].team] == s'.regions[r].block
      ensures r < |s.regions| ==> s'.regions[r].block != a.block
    {
      assert r < |s.regions| ==> Active(s, r);
    }
  }

  lemma ForkSynchronized(s: State, s': State)
    requires Synchronized(s) && |s'.regions| == |s.regions| + 1 && s.regions <= s'.regions
    requires forall r: nat, u :: r < |s.regions| ==> Progress(s', r, u) == Progress(s, r, u)
    requires forall u :: Progress(s', |s.regions|, u) == 0
    ensures Synchronized(s')
  {
  }

  lemma ForkTopKeeps(s: State, a: Action)
    requires Inv(s) && a.ForkTop? && Enabled(s, a)
    ensures Inv(Apply(s, a))
  {
    hide Counted, Nests, InOrder, CallsRight, Synchronized;
    var s' := Apply(s, a);
    var e := Event(ParallelBegin, |s.regions|, MASTER, NoCall);
    AllIdle(s);
    MembersOfTeam(s, a);
    ForkTopStacks(s, a);
    ForkTopShape(s, a);
    ForkTopArgs(s, a);
    ForkCounts(s, s', e);
    ForkOrder(s, s', e);
    TopForkNests(s, s', a, e);
    ForkSynchronized(s, s');
    CallsAppend(s, s', e);
  }

  lemma TopForkNests(s: State, s': State, a: Action, e: Event)
    requires WellFormed(s) && Nests(s) && Stack(s, MASTER) == []
    requires a.ForkTop? && Enabled(s, a) && s' == Apply(s, a) && e == Event(ParallelBegin, |s.regions|, MASTER, NoCall)
    requires forall u :: Stack(s', u) == if u in a.members then [Frame(|s.regions|, Entering)] else []
    ensures Nests(s')
  {
    AllIdle(s);
    MembersOfTeam(s, a);
    forall u ensures Stack(s', u) == Stack(s, u) + [Frame(e.region, Entering)]
                     || (u != MASTER && Stack(s', u) == Stack(s, u))
    {
      assert Stack(s, u) == [];
      assert u == MASTER ==> u in a.members;
    }
    ForkNests(s, s', e);
  }

  lemma JoinTopShape(s: State)
    requires WellFormed(s) && ArgsKept(s) && Enabled(s, JoinTop)
    ensures WellFormed(Apply(s, JoinTop)) && ArgsKept(Apply(s, JoinTop))
    ensures forall u :: u in s.regions[s.top.value].members ==> Progress(s, s.top.value, u) == Rank(Left)
    ensures forall q, u :: q != s.top.value ==> Progress(Apply(s, JoinTop), q, u) == Progress(s, q, u)
    ensures forall u :: Stack(Apply(s, JoinTop), u) == []
    ensures forall u :: u !in s.regions[s.top.value].members ==> Stack(s, u) == []
  {
    var s' := Apply(s, JoinTop);
    var r := s.top.value;
    forall u ensures u !in s.regions[r].members ==> Stack(s, u) == [] {
      if Stack(s, u) != [] {
        assert FrameOk(s, u, 0);
      }
    }
    forall q, u | q != r ensures Progress(s', q, u) == Progress(s, q, u) {
      if u in s.regions[r].members {
        assert Stack(s, u) == [Frame(r, Left)];
        assert Front([Frame(r, Left)]) == [];
      }
    }
    forall q: nat | Active(s', q)
      ensures ReadArgs(s', q) == Some(s'.regions[q].wargs) && s'.desc[s'.regions[q].team] == s'.regions[q].block
      ensures s'.regions[q].team == OneShot(q)
    {
      assert Active(s, q) && q != r;
    }
  }

  lemma JoinTopKeeps(s: State)
    requires Inv(s) && Enabled(s, JoinTop)
    ensures Inv(Apply(s, JoinTop))
  {
    var s' := Apply(s, JoinTop);
    var e := Event(ParallelEnd, s.top.value, MASTER, NoCall);
    hide Counted, Nests, InOrder, CallsRight, Synchronized;
    JoinTopShape(s);
    JoinSynchronized(s, s', e.region);
    JoinCounts(s, s', e);
    JoinOrder(s, s', e);
    TopJoinNests(s, s', e);
    CallsAppend(s, s', e);
  }

  lemma TopJoinNests(s: State, s': State, e: Event)
    requires WellFormed(s) && Nests(s) && Enabled(s, JoinTop) && s' == Apply(s, JoinTop)
    requires e == Event(ParallelEnd, s.top.value, MASTER, NoCall)
    requires forall u :: Stack(s', u) == []
    requires forall u :: u !in s.regions[s.top.value].members ==> Stack(s, u) == []
    ensures Nests(s')
  {
    forall u ensures (u != MASTER && Stack(s', u) == Stack(s, u))
      || (Stack(s, u) != [] && Last(Stack(s, u)) == Frame(e.region, Left) && Stack(s', u) == Front(Stack(s, u)))
    {
      assert MASTER in s.regions[s.top.value].members;
      if u in s.regions[s.top.value].members {
        assert Stack(s, u) == [Frame(e.region, Left)];
      }
    }
    JoinNests(s, s', e);
  }

  // ---- every run ----

  lemma ActionKeeps(s: State, a: Action)
    requires Inv(s) && Enabled(s, a)
    ensures Inv(Apply(s, a))
  {
    match a {
      case ForkTop(_, _, _, _) => ForkTopKeeps(s, a);
      case ForkNested(_, _, _) => ForkNestedKeeps(s, a);
      case BeginTask(t) => AdvanceKeeps(s, t, Calling, ImplicitBegin, NoCall);
      case Invoke(t) =>
        ProgressHere(s, t);
        var r := Last(Stack(s, t)).region;
        AdvanceKeeps(s, t, InBody, Called, CallInfo(t, IndexIn(s.regions[r].members, t), ReadArgs(s, r)));
      case Return(t) => AdvanceKeeps(s, t, AtBarrier, Returned, NoCall);
      case PassBarrier(t) => BarrierKeeps(s, t);
      case EndTask(t) => AdvanceKeeps(s, t, Left, ImplicitEnd, NoCall);
      case JoinNested(t) => JoinNestedKeeps(s, t);
      case JoinTop => JoinTopKeeps(s);
    }
  }

  lemma {:induction false} EveryRunKeeps(acts: seq<Action>)
    requires Schedule(acts)
    ensures Inv(Reach(acts))
    decreases |acts|
  {
    if acts != [] {
      EveryRunKeeps(Front(acts));
      ActionKeeps(Reach(Front(acts)), Last(acts));
    }
  }
}
