// Parallel regions, top-level and nested, as threads interleave: the forking
// thread, the wrapper every team member runs, and the OMPT events they emit.
// XKRT is assumed to run the wrapper once on each thread of a team, to hold a
// team barrier until every member has arrived, and to return from the dispatch
// once every member has left the wrapper.
module ForkJoin {
  import opened Wrappers
  import opened TeamCache
  import opened Traces

  type Thread = nat

  const MASTER: Thread := 0

  // A cached team by its index, or the one-shot team of a nested region.
  datatype TeamId = Cached(index: nat) | OneShot(region: nat)

  // The marshalled microtask and its arguments; a block is the malloc'ed wargs_t.
  datatype WArgs = WArgs(f: int, argv: seq<int>)

  datatype Region = Region(team: TeamId, members: seq<Thread>, block: nat, wargs: WArgs)

  // Where a thread is in fork_call_wrapper.
  datatype Stage = Entering | Calling | InBody | AtBarrier | Leaving | Left

  datatype Frame = Frame(region: nat, stage: Stage)

  datatype Kind = ParallelBegin | ParallelEnd | ImplicitBegin | ImplicitEnd | Called | Returned

  // What a call of the microtask received; no arguments if they were read from freed memory.
  datatype CallInfo = NoCall | CallInfo(gtid: Thread, tid: int, wargs: Option<WArgs>)

  datatype Event = Event(kind: Kind, region: nat, thread: Thread, info: CallInfo)

  // desc maps a team to its desc.args, heap the live blocks. regions lists every
  // region ever forked; top is the active top-level one, closed those that ended.
  datatype State = State(
    keys: seq<int>, teams: seq<seq<Thread>>,
    regions: seq<Region>, top: Option<nat>, closed: set<nat>,
    stacks: map<Thread, seq<Frame>>,
    desc: map<TeamId, nat>, heap: map<nat, WArgs>,
    trace: seq<Event>)

  datatype Action =
    | ForkTop(key: int, members: seq<Thread>, block: nat, wargs: WArgs)
    | ForkNested(t: Thread, block: nat, wargs: WArgs)
    | BeginTask(t: Thread)
    | Invoke(t: Thread)
    | Return(t: Thread)
    | PassBarrier(t: Thread)
    | EndTask(t: Thread)
    | JoinNested(t: Thread)
    | JoinTop

  const INIT := State([], [], [], None, {}, map[], map[], map[], [])

  // ---- reading states ----

  function Stack(s: State, t: Thread): seq<Frame> {
    if t in s.stacks then s.stacks[t] else []
  }

  predicate Busy(s: State, t: Thread, stage: Stage) {
    Stack(s, t) != [] && Last(Stack(s, t)).stage == stage
  }

  function Rank(stage: Stage): nat {
    match stage
    case Entering => 0 case Calling => 1 case InBody => 2
    case AtBarrier => 3 case Leaving => 4 case Left => 5
  }

  // How far thread t is in region r: its frame there, or 6 once the region ended.
  function Progress(s: State, r: nat, t: Thread): nat {
    if r in s.closed then 6 else InStack(Stack(s, t), r)
  }

  function InStack(q: seq<Frame>, r: nat): nat {
    if q == [] then 0 else if Last(q).region == r then Rank(Last(q).stage) else InStack(Front(q), r)
  }

  function IndexIn(members: seq<Thread>, t: Thread): (i: int)
    ensures t in members ==> 0 <= i < |members| && members[i] == t
  {
    if members == [] then -1 else if members[0] == t then 0 else 1 + IndexIn(members[1..], t)
  }

  // ---- steps ----

  // The team a top-level region gets: the cached one, or a new one of the size asked.
  predicate TeamFor(s: State, key: int, members: seq<Thread>) {
    if key in s.keys then
      |s.teams| == |s.keys| && members == s.teams[IndexOf(s.keys, key)]
    else
      |members| >= 1 && members[0] == MASTER && Distinct(members) && (key != 0 ==> |members| == key)
  }

  predicate Enabled(s: State, a: Action) {
    match a
    case ForkTop(key, members, block, wargs) =>
      Stack(s, MASTER) == [] && Acquired(s.keys, key).Some? && TeamFor(s, key, members) && block !in s.heap
    // the body, or a deferred task the thread runs while it waits at the barrier, forks
    case ForkNested(t, block, wargs) => (Busy(s, t, InBody) || Busy(s, t, AtBarrier)) && block !in s.heap
    case BeginTask(t) => Busy(s, t, Entering)
    case Invoke(t) => Busy(s, t, Calling)
    case Return(t) => Busy(s, t, InBody)
    case PassBarrier(t) =>
      Busy(s, t, AtBarrier) && Last(Stack(s, t)).region < |s.regions| &&
      forall m :: m in s.regions[Last(Stack(s, t)).region].members ==>
        Progress(s, Last(Stack(s, t)).region, m) >= Rank(AtBarrier)
    case EndTask(t) => Busy(s, t, Leaving)
    case JoinNested(t) => Busy(s, t, Left) && |Stack(s, t)| > 1 && Last(Stack(s, t)).region < |s.regions|
    case JoinTop =>
      s.top.Some? && s.top.value < |s.regions| &&
      forall m :: m in s.regions[s.top.value].members ==> Stack(s, m) == [Frame(s.top.value, Left)]
  }

  // The innermost frame of t moves to a new stage and emits an event.
  function Advance(s: State, t: Thread, stage: Stage, kind: Kind, info: CallInfo): State
    requires Stack(s, t) != []
  {
    var r := Last(Stack(s, t)).region;
    s.(stacks := s.stacks[t := Front(Stack(s, t)) + [Frame(r, stage)]],
       trace := s.trace + [Event(kind, r, t, info)])
  }

  // What the wrapper reads through thread->team->desc.args.
  function ReadArgs(s: State, r: nat): Option<WArgs> {
    if r < |s.regions| && s.regions[r].team in s.desc && s.desc[s.regions[r].team] in s.heap
    then Some(s.heap[s.desc[s.regions[r].team]]) else None
  }

  function Apply(s: State, a: Action): State
    requires Enabled(s, a)
  {
    match a
    case ForkTop(key, members, block, wargs) =>
      var keys := Acquired(s.keys, key).value;
      var team := Cached(IndexOf(keys, key));
      var r := |s.regions|;
      s.(keys := keys, teams := if key in s.keys then s.teams else s.teams + [members],
         regions := s.regions + [Region(team, members, block, wargs)], top := Some(r),
         stacks := s.stacks + map m | m in members :: [Frame(r, Entering)],
         desc := s.desc[team := block], heap := s.heap[block := wargs],
         trace := s.trace + [Event(ParallelBegin, r, MASTER, NoCall)])
    case ForkNested(t, block, wargs) =>
      var r := |s.regions|;
      s.(regions := s.regions + [Region(OneShot(r), [t], block, wargs)],
         stacks := s.stacks[t := Stack(s, t) + [Frame(r, Entering)]],
         desc := s.desc[OneShot(r) := block], heap := s.heap[block := wargs],
         trace := s.trace + [Event(ParallelBegin, r, t, NoCall)])
    case BeginTask(t) => Advance(s, t, Calling, ImplicitBegin, NoCall)
    case Invoke(t) =>
      var r := Last(Stack(s, t)).region;
      var tid := if r < |s.regions| then IndexIn(s.regions[r].members, t) else -1;
      Advance(s, t, InBody, Called, CallInfo(t, tid, ReadArgs(s, r)))
    case Return(t) => Advance(s, t, AtBarrier, Returned, NoCall)
    case PassBarrier(t) =>
      s.(stacks := s.stacks[t := Front(Stack(s, t)) + [Frame(Last(Stack(s, t)).region, Leaving)]])
    case EndTask(t) => Advance(s, t, Left, ImplicitEnd, NoCall)
    case JoinNested(t) =>
      var r := Last(Stack(s, t)).region;
      s.(stacks := s.stacks[t := Front(Stack(s, t))], closed := s.closed + {r},
         desc := s.desc - {OneShot(r)}, heap := s.heap - {s.regions[r].block},
         trace := s.trace + [Event(ParallelEnd, r, t, NoCall)])
    case JoinTop =>
      var r := s.top.value;
      s.(stacks := s.stacks - (set m | m in s.regions[r].members), closed := s.closed + {r}, top := None,
         heap := s.heap - {s.regions[r].block},
         trace := s.trace + [Event(ParallelEnd, r, MASTER, NoCall)])
  }

  ghost predicate Schedule(acts: seq<Action>)
    decreases |acts|, 0
  {
    acts == [] || (Schedule(Front(acts)) && Enabled(Reach(Front(acts)), Last(acts)))
  }

  ghost function Reach(acts: seq<Action>): State
    requires Schedule(acts)
    decreases |acts|, 1
  {
    if acts == [] then INIT else Apply(Reach(Front(acts)), Last(acts))
  }
}
