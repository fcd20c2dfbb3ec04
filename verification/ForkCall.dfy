// __kmpc_push_num_threads and __kmpc_fork_call: the num_threads clause and the
// arguments of a region, from the compiled call to xkomp_parallel. The region's body runs
// on the calling thread before the call returns, and may push and fork itself.
module ForkCall {
  import opened TeamCache
  import opened Traces
  import opened Words
  import opened Wrappers

  const MAX_ARGS: nat := 1024

  function Clamp(n: Signed): Unsigned {
    if n < 0 then 0 else n
  }

  // ---- the calls of one thread, in time order ----

  // A fork enters its region, and returns once the region has ended.
  datatype Op = Push(n: Signed) | Enter | Return

  // pushed_num_threads after these calls: a fork resets it only when it returns.
  function Pushed(ops: seq<Op>): Unsigned {
    if ops == [] then 0
    else match Last(ops)
      case Push(n) => Clamp(n)
      case Enter => Pushed(Front(ops))
      case Return => 0
  }

  // What a region entered next is meant to get: the last count pushed since a region was
  // entered last, or none.
  function Meant(ops: seq<Op>): Unsigned {
    if ops == [] then 0
    else match Last(ops)
      case Push(n) => Clamp(n)
      case Enter => 0
      case Return => Meant(Front(ops))
  }

  // Regions the thread is inside of.
  function Depth(ops: seq<Op>): nat {
    if ops == [] then 0
    else match Last(ops)
      case Push(_) => Depth(Front(ops))
      case Enter => Depth(Front(ops)) + 1
      case Return => if Depth(Front(ops)) > 0 then Depth(Front(ops)) - 1 else 0
  }

  // The counts the entered regions were asked for.
  function Requests(ops: seq<Op>): seq<Unsigned> {
    if ops == [] then []
    else Requests(Front(ops)) + (if Last(ops).Enter? then [Pushed(Front(ops))] else [])
  }

  predicate PositivePushAt(ops: seq<Op>, p: int) {
    0 <= p < |ops| && ops[p].Push? && ops[p].n > 0
  }

  predicate OnlyAfter(ops: seq<Op>, p: int, op: Op)
    requires 0 <= p
  {
    forall k :: p < k < |ops| ==> ops[k] == op
  }

  // A positive count was pushed, and since then the thread has entered one region after
  // the other, at least one, and done nothing else.
  ghost predicate Stale(ops: seq<Op>) {
    exists p :: PositivePushAt(ops, p) && p + 1 < |ops| && OnlyAfter(ops, p, Enter)
  }

  // A positive count was pushed and not used before the region it was pushed in ended.
  ghost predicate Lost(ops: seq<Op>) {
    exists p :: PositivePushAt(ops, p) && p + 1 < |ops| && OnlyAfter(ops, p, Return)
  }

  lemma {:induction false} PushedOnly(ops: seq<Op>)
    ensures Pushed(ops) > 0 <==>
      exists p :: PositivePushAt(ops, p) && OnlyAfter(ops, p, Enter)
    decreases |ops|
  {
    if ops != [] {
      PushedOnly(Front(ops));
      LaterOnly(ops, Enter);
    }
  }

  lemma {:induction false} MeantOnly(ops: seq<Op>)
    ensures Meant(ops) > 0 <==>
      exists p :: PositivePushAt(ops, p) && OnlyAfter(ops, p, Return)
    decreases |ops|
  {
    if ops != [] {
      MeantOnly(Front(ops));
      LaterOnly(ops, Return);
    }
  }

  // Whether only calls of one kind follow a positive push, by the last call.
  lemma LaterOnly(ops: seq<Op>, op: Op)
    requires ops != [] && !op.Push?
    ensures (exists p :: PositivePushAt(ops, p) && OnlyAfter(ops, p, op)) <==>
      || PositivePushAt(ops, |ops| - 1)
      || (Last(ops) == op
          && exists p :: PositivePushAt(Front(ops), p) && OnlyAfter(Front(ops), p, op))
  {
    var f := Front(ops);
    if p :| PositivePushAt(ops, p) && OnlyAfter(ops, p, op) {
      if p < |ops| - 1 {
        assert PositivePushAt(f, p) && OnlyAfter(f, p, op);
      }
    }
    if p :| PositivePushAt(f, p) && OnlyAfter(f, p, op) {
      if Last(ops) == op {
        assert PositivePushAt(ops, p) && OnlyAfter(ops, p, op);
      }
    }
  }

  // A region is asked for the count it is meant to get exactly when the thread has not
  // just entered regions with a count still pushed, nor just left an unused one behind.
  lemma RequestIsExact(ops: seq<Op>)
    ensures Pushed(ops) == Meant(ops) <==> !Stale(ops) && !Lost(ops)
  {
    PushedOnly(ops);
    MeantOnly(ops);
    if ops != [] && Last(ops) == Enter {
      assert Lost(ops) ==> false by { LastIsNot(ops, Return); }
      LaterOnly(ops, Enter);
    } else if ops != [] && Last(ops) == Return {
      LastIsNot(ops, Enter);
      LaterOnly(ops, Return);
    } else if ops != [] {
      LastIsNot(ops, Enter);
      LastIsNot(ops, Return);
    }
  }

  lemma LastIsNot(ops: seq<Op>, op: Op)
    requires ops != [] && Last(ops) != op
    ensures forall p: nat :: p + 1 < |ops| ==> !OnlyAfter(ops, p, op)
  {
    forall p: nat | p + 1 < |ops| ensures !OnlyAfter(ops, p, op) {
      assert ops[|ops| - 1] != op;
    }
  }

  // A region forked first thing inside a region that asked for 4 asks for 4 as well.
  lemma NestedForkAsksAgain()
    ensures Meant([Push(4), Enter]) == 0 && Requests([Push(4), Enter, Enter]) == [4, 4]
  {
    var ops := [Push(4), Enter, Enter];
    assert Front(ops) == [Push(4), Enter] && Front([Push(4), Enter]) == [Push(4)] && Front([Push(4)]) == [];
  }

  // Threads a region runs on: xkomp_parallel gives a nested region a team of one
  // whatever it is asked for.
  function TeamSize(nested: bool, requested: Unsigned, env: Env): Unsigned {
    if nested then 1 else Resolve(requested, env)
  }

  // So a stale count changes no team, since only nested regions can be asked for one; a
  // lost one does when the next region is outside every other and would have been another
  // size with it.
  lemma StaleHasNoEffect(ops: seq<Op>, env: Env)
    ensures Stale(ops) ==> Depth(ops) > 0
    ensures TeamSize(Depth(ops) > 0, Pushed(ops), env) == TeamSize(Depth(ops) > 0, Meant(ops), env)
       <==> Depth(ops) > 0 || !Lost(ops) || Resolve(0, env) == Resolve(Meant(ops), env)
  {
    RequestIsExact(ops);
    if Stale(ops) {
      assert Last(ops) == Enter;
    }
    if Lost(ops) {
      assert Last(ops) == Return;
    }
  }

  // ---- the code ----

  // A parallel construct of the calling thread's code, with the constructs its body
  // executes on that thread. Compiled code pushes right before it forks, or not at all.
  datatype Parallel = Parallel(clause: Option<Signed>, argc: Signed, f: Word, va: seq<Word>, body: seq<Parallel>)

  // What xkomp_parallel is asked to run, and on how many threads it does.
  datatype Region = Region(requested: Unsigned, size: Unsigned, f: Word, argc: Signed, args: seq<Word>)

  function OpsOf(p: Parallel): seq<Op> {
    (if p.clause.Some? then [Push(p.clause.value)] else []) + [Enter] + AllOps(p.body) + [Return]
  }

  function AllOps(ps: seq<Parallel>): seq<Op> {
    if ps == [] then [] else OpsOf(ps[0]) + AllOps(ps[1..])
  }

  // The team sizes the constructs ask for in the source program, in the order entered.
  function Sizes(p: Parallel, nested: bool, env: Env): seq<Unsigned> {
    [TeamSize(nested, if p.clause.Some? then Clamp(p.clause.value) else 0, env)] + AllSizes(p.body, true, env)
  }

  function AllSizes(ps: seq<Parallel>, nested: bool, env: Env): seq<Unsigned> {
    if ps == [] then [] else Sizes(ps[0], nested, env) + AllSizes(ps[1..], nested, env)
  }

  // Only the outermost regions ever get more than one thread.
  lemma {:induction false} NestedSizesAreOne(ps: seq<Parallel>, env: Env)
    ensures forall k :: 0 <= k < |AllSizes(ps, true, env)| ==> AllSizes(ps, true, env)[k] == 1
    decreases ps
  {
    if ps != [] {
      NestedSizesAreOne(ps[0].body, env);
      NestedSizesAreOne(ps[1..], env);
      assert AllSizes(ps, true, env) == [1] + AllSizes(ps[0].body, true, env) + AllSizes(ps[1..], true, env);
    }
  }

  // The first of a construct's sizes is its own: what its clause asks for, if it has one.
  lemma OwnSize(p: Parallel, env: Env)
    ensures |Sizes(p, false, env)| > 0
    ensures var n := Sizes(p, false, env)[0];
      && (p.clause == None ==> n == Resolve(0, env))
      && (p.clause.Some? && p.clause.value >= 0 ==> n == Resolve(p.clause.value, env))
      && (p.clause.Some? && p.clause.value < 0 ==> n == Resolve(0, env))
  {
  }

  predicate WellFormed(p: Parallel) {
    |p.va| == Max(p.argc, 0) && AllWellFormed(p.body)
  }

  predicate AllWellFormed(ps: seq<Parallel>) {
    forall k :: 0 <= k < |ps| ==> WellFormed(ps[k])
  }

  predicate Fits(p: Parallel) {
    p.argc <= MAX_ARGS && AllFit(p.body)
  }

  predicate AllFit(ps: seq<Parallel>) {
    forall k :: 0 <= k < |ps| ==> Fits(ps[k])
  }

  lemma {:induction false} BackToDepth(ops: seq<Op>, ps: seq<Parallel>)
    ensures Depth(ops + AllOps(ps)) == Depth(ops)
    decreases ps
  {
    hide Depth, OpsOf;
    if ps == [] {
      assert ops + AllOps(ps) == ops;
    } else {
      EnterAndReturn(ops, ps[0]);
      BackToDepth(ops + OpsOf(ps[0]), ps[1..]);
      assert ops + AllOps(ps) == ops + OpsOf(ps[0]) + AllOps(ps[1..]);
    }
  }

  lemma {:induction false} EnterAndReturn(ops: seq<Op>, p: Parallel)
    ensures Depth(ops + OpsOf(p)) == Depth(ops)
    decreases p
  {
    hide AllOps;
    var clause := if p.clause.Some? then [Push(p.clause.value)] else [];
    var pushed := ops + clause;
    var ended := pushed + [Enter] + AllOps(p.body);
    if p.clause.Some? {
      OneMore(ops, Push(p.clause.value));
    } else {
      assert pushed == ops;
    }
    OneMore(pushed, Enter);
    BackToDepth(pushed + [Enter], p.body);
    OneMore(ended, Return);
    assert ops + OpsOf(p) == ended + [Return];
  }

  lemma OneMore(ops: seq<Op>, op: Op)
    ensures Front(ops + [op]) == ops && Last(ops + [op]) == op
  {
  }

  class Caller {
    const env: Env
    var pushed: Unsigned            // the thread-local pushed_num_threads
    var depth: nat                  // whether, and how deep, the thread is in a team
    var regions: seq<Region>        // handed to xkomp_parallel so far
    ghost var ops: seq<Op>

    ghost predicate Valid()
      reads this
    {
      pushed == Pushed(ops) && depth == Depth(ops) && Asked(regions) == Requests(ops)
    }

    constructor (env: Env)
      ensures Valid() && this.env == env && regions == [] && ops == [] && depth == 0
    {
      this.env, pushed, depth, regions, ops := env, 0, 0, [], [];
    }

    method PushNumThreads(n: Signed)
      requires Valid()
      modifies this`pushed, this`ops
      ensures Valid() && ops == old(ops) + [Push(n)] && pushed == Clamp(n)
      ensures pushed == if n < 0 then 0 else n
    {
      OneMore(ops, Push(n));
      pushed := if n < 0 then 0 else n;
      ops := ops + [Push(n)];
    }

    // __kmpc_fork_call; false is the failed argument-count assertion, here or inside.
    method ForkCall(p: Parallel) returns (ok: bool)
      requires Valid() && WellFormed(p)
      modifies this
      ensures ok <==> Fits(p)
      ensures p.argc > 1024 ==> !ok
      ensures ok ==> Valid() && pushed == 0 && depth == old(depth)
      ensures ok ==> ops == old(ops) + [Enter] + AllOps(p.body) + [Return]
      // the region gets the count pushed last and all its arguments, before its own
      // regions start
      ensures ok ==> |regions| > |old(regions)| && regions[..|old(regions)|] == old(regions)
      ensures ok ==>
        var r := regions[|old(regions)|];
        && r.requested == old(pushed) && r.size == TeamSize(old(depth) > 0, old(pushed), env)
        && r.f == p.f && r.argc == p.argc && |r.args| == MAX_ARGS && r.args[..|p.va|] == p.va
        // a nested region runs on its own thread alone, whatever it asks for
        && (old(depth) > 0 ==> r.size == 1)
        && (old(depth) == 0 ==> r.size == Resolve(old(pushed), env))
      ensures ok ==>
        SizesOf(regions[|old(regions)|..]) == [TeamSize(old(depth) > 0, old(pushed), env)] + AllSizes(p.body, true, env)
      decreases p, 0
    {
      if p.argc > MAX_ARGS {
        return false;
      }
      var args := CopyArgs(p);
      var region := Region(pushed, TeamSize(depth > 0, pushed, env), p.f, p.argc, args);
      ghost var before := regions;
      OneMore(ops, Enter);
      AskedGrows(regions, region);
      regions, depth := regions + [region], depth + 1;
      ops := ops + [Enter];
      ghost var entered := ops;
      ok := Run(p.body);
      if !ok { return; }
      BackToDepth(entered, p.body);
      OneMore(ops, Return);
      SizesGrow(before, region, regions);
      depth, pushed := depth - 1, 0;
      ops := ops + [Return];
    }

    // One construct: its clause, if it has one, and its region.
    method Execute(p: Parallel) returns (ok: bool)
      requires Valid() && WellFormed(p) && (depth == 0 ==> pushed == 0)
      modifies this
      ensures ok <==> Fits(p)
      ensures ok ==> Valid() && pushed == 0 && depth == old(depth) && ops == old(ops) + OpsOf(p)
      ensures ok ==> |regions| >= |old(regions)| && regions[..|old(regions)|] == old(regions)
      ensures ok ==> SizesOf(regions[|old(regions)|..]) == Sizes(p, old(depth) > 0, env)
      decreases p, 1
    {
      hide Pushed, Depth, Requests, Asked, SizesOf, Fits;
      if p.clause.Some? {
        PushNumThreads(p.clause.value);
      }
      ok := ForkCall(p);
    }

    // The parallel constructs some code of this thread executes, one after the other.
    // Every region gets the team its own clause asks for.
    method Run(ps: seq<Parallel>) returns (ok: bool)
      requires Valid() && AllWellFormed(ps) && (depth == 0 ==> pushed == 0)
      modifies this
      ensures ok <==> AllFit(ps)
      ensures ok ==> Valid() && depth == old(depth) && (depth == 0 ==> pushed == 0)
      ensures ok ==> ops == old(ops) + AllOps(ps)
      ensures ok ==> |regions| >= |old(regions)| && regions[..|old(regions)|] == old(regions)
      ensures ok ==> SizesOf(regions[|old(regions)|..]) == AllSizes(ps, old(depth) > 0, env)
      decreases ps
    {
      hide Pushed, Depth, Requests, Asked, Sizes, OpsOf, Fits, WellFormed;
      if ps == [] {
        assert ops + AllOps(ps) == ops;
        return true;
      }
      ghost var before, was := regions, ops;
      ok := Execute(ps[0]);
      if !ok { return; }
      ghost var middle := regions;
      ok := Run(ps[1..]);
      if !ok {
        assert exists k :: 0 <= k < |ps[1..]| && !Fits(ps[1..][k]);
        return;
      }
      SizesJoin(before, middle, regions);
      assert ops == was + (OpsOf(ps[0]) + AllOps(ps[1..]));
      assert forall k :: 1 <= k < |ps| ==> ps[k] == ps[1..][k - 1];
    }
  }

  method CopyArgs(p: Parallel) returns (args: seq<Word>)
    requires |p.va| == Max(p.argc, 0) && p.argc <= MAX_ARGS
    ensures |args| == MAX_ARGS && args[..|p.va|] == p.va
  {
    var wargs := new Word[MAX_ARGS];
    var i := 0;
    while i < p.argc
      invariant 0 <= i <= |p.va|
      invariant wargs[..i] == p.va[..i]
    {
      wargs[i] := p.va[i];
      i := i + 1;
    }
    args := wargs[..];
  }

  function Asked(regions: seq<Region>): seq<Unsigned> {
    seq(|regions|, i requires 0 <= i < |regions| => regions[i].requested)
  }

  function SizesOf(regions: seq<Region>): seq<Unsigned> {
    seq(|regions|, i requires 0 <= i < |regions| => regions[i].size)
  }

  lemma AskedGrows(regions: seq<Region>, r: Region)
    ensures Asked(regions + [r]) == Asked(regions) + [r.requested]
  {
  }

  lemma SizesGrow(before: seq<Region>, r: Region, after: seq<Region>)
    requires |after| > |before| && after[..|before| + 1] == before + [r]
    ensures after[|before|] == r && after[..|before|] == before
    ensures SizesOf(after[|before|..]) == [r.size] + SizesOf(after[|before| + 1..])
  {
    assert after[|before|] == after[..|before| + 1][|before|];
    assert after[..|before|] == after[..|before| + 1][..|before|];
  }

  lemma SizesJoin(before: seq<Region>, middle: seq<Region>, after: seq<Region>)
    requires |before| <= |middle| <= |after|
    requires middle[..|before|] == before && after[..|middle|] == middle
    ensures after[..|before|] == before
    ensures SizesOf(after[|before|..]) == SizesOf(middle[|before|..]) + SizesOf(after[|middle|..])
  {
    assert after[..|before|] == after[..|middle|][..|before|];
    assert after[|before|..] == middle[|before|..] + after[|middle|..];
  }
}
