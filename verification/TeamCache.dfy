// Thread-count resolution and the cache of persistent teams in xkomp_parallel.
module TeamCache {
  import opened Traces
  import opened Words
  import opened Wrappers

  const MAX_CACHED_TEAMS: nat := 8

  type Unsigned = x: int | 0 <= x < 0x1_0000_0000
  type Signed = x: int | -0x8000_0000 <= x < 0x8000_0000

  function ToUnsigned(x: Signed): Unsigned {
    if x >= 0 then x else x + U32
  }

  function ToSigned(x: Unsigned): Signed {
    if x < 0x8000_0000 then x else x - U32
  }

  datatype Env = Env(numThreads: Signed, threadLimit: Signed)

  // num_threads clause, else OMP_NUM_THREADS, else 0 (the runtime chooses), capped
  // by OMP_THREAD_LIMIT; the comparison is unsigned.
  function Resolve(requested: Unsigned, env: Env): Unsigned {
    var n := if requested != 0 then requested
             else if env.numThreads != 0 then ToUnsigned(env.numThreads) else 0;
    if n > ToUnsigned(env.threadLimit) then ToUnsigned(env.threadLimit) else n
  }

  // OMP_THREAD_LIMIT as the comparison reads it.
  lemma UnsignedLimit(x: Signed)
    ensures x >= 0 ==> ToUnsigned(x) == x
    ensures x < 0 ==> ToUnsigned(x) == x + 0x1_0000_0000
    ensures ToSigned(ToUnsigned(x)) == x
  {
  }

  // What a region is given: never more than the limit, what is asked for within it, else
  // OMP_NUM_THREADS within it, else the limit; the runtime chooses (0) only if nobody
  // asks or the limit is 0.
  lemma ResolveMeaning(requested: Unsigned, env: Env)
    ensures var n, limit, preset := Resolve(requested, env), ToUnsigned(env.threadLimit), ToUnsigned(env.numThreads);
      && n <= limit
      && (requested != 0 && requested <= limit ==> n == requested)
      && (requested > limit ==> n == limit)
      && (requested == 0 && preset <= limit ==> n == preset)
      && (requested == 0 && preset > limit ==> n == limit)
      && (n == 0 <==> (requested == 0 && env.numThreads == 0) || env.threadLimit == 0)
  {
  }

  // ---- specification on values: the keys of the cache, in creation order ----

  function IndexOf(keys: seq<int>, key: int): (i: nat)
    ensures i <= |keys|
    ensures i < |keys| ==> keys[i] == key
    ensures forall j :: 0 <= j < i ==> keys[j] != key
  {
    if keys == [] then 0 else if keys[0] == key then 0 else 1 + IndexOf(keys[1..], key)
  }

  // The keys after one request; None is the failed capacity assertion.
  function Acquired(keys: seq<int>, key: int): Option<seq<int>> {
    if key in keys then Some(keys)
    else if |keys| < MAX_CACHED_TEAMS then Some(keys + [key])
    else None
  }

  // The keys after a whole run of top-level regions.
  function Serve(keys: seq<int>, requests: seq<int>): Option<seq<int>>
    decreases |requests|
  {
    if requests == [] then Some(keys)
    else match Acquired(keys, requests[0])
      case None => None
      case Some(keys') => Serve(keys', requests[1..])
  }

  function Elements(s: seq<int>): set<int> {
    set x | x in s
  }

  lemma {:induction false} DistinctCount(keys: seq<int>)
    requires Distinct(keys)
    ensures |Elements(keys)| == |keys|
  {
    if keys != [] {
      DistinctCount(keys[1..]);
      assert Elements(keys) == {keys[0]} + Elements(keys[1..]);
      assert keys[0] !in Elements(keys[1..]);
    }
  }

  // One request never moves or duplicates an entry, and the key it asked for is
  // found at a fixed position afterwards.
  lemma AcquireKeeps(keys: seq<int>, key: int)
    requires Distinct(keys)
    ensures Acquired(keys, key).Some? ==>
      var keys' := Acquired(keys, key).value;
      && Distinct(keys') && keys <= keys' && key in keys'
      && Elements(keys') == Elements(keys) + {key}
  {
  }

  lemma SubsetCount(a: set<int>, b: set<int>)
    requires a <= b
    ensures |a| <= |b|
  {
    assert b == a + (b - a);
  }

  // Over any run: keys stay pairwise distinct, entries never move, and the teams
  // created are exactly the distinct counts asked for.
  lemma {:induction false} ServeKeeps(keys: seq<int>, requests: seq<int>)
    requires Distinct(keys)
    ensures Serve(keys, requests).Some? ==>
      var final := Serve(keys, requests).value;
      && Distinct(final) && keys <= final
      && Elements(final) == Elements(keys) + Elements(requests)
      && |final| == |Elements(keys) + Elements(requests)|
    decreases |requests|
  {
    if requests == [] {
      assert Elements(keys) + Elements(requests) == Elements(keys);
      DistinctCount(keys);
    } else if Acquired(keys, requests[0]).Some? {
      var keys' := Acquired(keys, requests[0]).value;
      AcquireKeeps(keys, requests[0]);
      ServeKeeps(keys', requests[1..]);
      assert Elements(requests) == {requests[0]} + Elements(requests[1..]);
      assert Elements(keys') + Elements(requests[1..]) == Elements(keys) + Elements(requests);
    }
  }

  // One request more or less does not change which counts are asked for in all.
  lemma CountsAfter(keys: seq<int>, requests: seq<int>)
    requires Distinct(keys) && requests != [] && Acquired(keys, requests[0]).Some?
    ensures var keys' := Acquired(keys, requests[0]).value;
      Elements(keys') + Elements(requests[1..]) == Elements(keys) + Elements(requests)
  {
    AcquireKeeps(keys, requests[0]);
    assert Elements(requests) == {requests[0]} + Elements(requests[1..]);
  }

  // A request that fails the assertion brings the counts above the capacity.
  lemma TooMany(keys: seq<int>, requests: seq<int>)
    requires Distinct(keys) && |keys| == MAX_CACHED_TEAMS && requests != [] && requests[0] !in keys
    ensures |Elements(keys) + Elements(requests)| > MAX_CACHED_TEAMS
  {
    DistinctCount(keys);
    var more := Elements(keys) + {requests[0]};
    assert |more| == |keys| + 1;
    SubsetCount(more, Elements(keys) + Elements(requests));
  }

  // The run survives the capacity assertion exactly when the distinct counts are at
  // most MAX_CACHED_TEAMS.
  lemma {:induction false} CapacityIsExact(keys: seq<int>, requests: seq<int>)
    requires Distinct(keys) && |keys| <= MAX_CACHED_TEAMS
    ensures Serve(keys, requests).Some? <==> |Elements(keys) + Elements(requests)| <= 8
    decreases |requests|
  {
    if requests == [] {
      DistinctCount(keys);
      assert Elements(keys) + Elements(requests) == Elements(keys);
    } else {
      hide Elements;
      match Acquired(keys, requests[0]) {
        case Some(keys') =>
          AcquireKeeps(keys, requests[0]);
          CountsAfter(keys, requests);
          CapacityIsExact(keys', requests[1..]);
        case None =>
          TooMany(keys, requests);
      }
    }
  }

  // Once an entry exists, the same count finds the same team in every later region.
  lemma PositionIsFixed(keys: seq<int>, requests: seq<int>, key: int)
    requires Distinct(keys) && key in keys
    requires Serve(keys, requests).Some?
    ensures IndexOf(Serve(keys, requests).value, key) == IndexOf(keys, key)
  {
    ServeKeeps(keys, requests);
    var final := Serve(keys, requests).value;
    assert final[IndexOf(keys, key)] == key;
  }

  // The (int) cast keeps distinct counts distinct, so caching by key is caching by count.
  lemma CastIsInjective(a: Unsigned, b: Unsigned)
    ensures ToSigned(a) == ToSigned(b) <==> a == b
  {
  }

  // ---- the cache itself ----

  // `members` is how many threads XKRT gave the team; XKRT picks when nthreads is 0.
  datatype Entry = Entry(nthreads: Signed, members: nat)

  class Teams {
    var entries: seq<Entry>

    ghost predicate Valid()
      reads this
    {
      && Distinct(Keys()) && |entries| <= MAX_CACHED_TEAMS
      && forall i :: 0 <= i < |entries| ==>
           && entries[i].members >= 1
           && (entries[i].nthreads != 0 ==> entries[i].members == ToUnsigned(entries[i].nthreads))
    }

    ghost function Keys(): (keys: seq<int>)
      reads this
      ensures |keys| == |entries|
    {
      seq(|entries|, i requires 0 <= i < |entries| reads this => entries[i].nthreads as int)
    }

    constructor ()
      ensures Valid() && Keys() == []
    {
      entries := [];
    }

    // The top-level part of xkomp_parallel up to dispatch. `spawned` is the number
    // of threads XKRT would start for a new team: what was asked, or its own choice.
    method Acquire(requested: Unsigned, env: Env, spawned: nat) returns (team: Option<nat>)
      requires Valid() && spawned >= 1
      requires Resolve(requested, env) != 0 ==> spawned == Resolve(requested, env)
      modifies this
      ensures Valid() && old(entries) <= entries
      ensures team.None? <==> Acquired(old(Keys()), ToSigned(Resolve(requested, env))).None?
      ensures team.None? ==> entries == old(entries)
      ensures team.Some? ==>
        && Some(Keys()) == Acquired(old(Keys()), ToSigned(Resolve(requested, env)))
        && team.value == IndexOf(Keys(), ToSigned(Resolve(requested, env))) < |entries|
        && entries[team.value].nthreads == ToSigned(Resolve(requested, env))
        && (Resolve(requested, env) != 0 ==> entries[team.value].members == Resolve(requested, env))
      // in the terms of the clause and the environment
      ensures team.Some? ==>
        var limit := if env.threadLimit >= 0 then env.threadLimit else env.threadLimit + 0x1_0000_0000;
        var members := entries[team.value].members;
        && members >= 1
        && (0 < requested <= limit ==> members == requested)
        && (0 < limit < requested ==> members == limit)
        && (requested == 0 && 0 < env.numThreads <= limit ==> members == env.numThreads)
        && (requested == 0 && 0 < limit < env.numThreads ==> members == limit)
    {
      ResolveMeaning(requested, env);
      UnsignedLimit(env.threadLimit);
      UnsignedLimit(env.numThreads);
      CastIsInjective(Resolve(requested, env), 0);
      var nthreads := Resolve(requested, env);
      ghost var keys := Keys();
      for i := 0 to |entries|
        invariant forall j :: 0 <= j < i ==> keys[j] != ToSigned(nthreads)
        invariant entries == old(entries)
      {
        if entries[i].nthreads == ToSigned(nthreads) {
          assert keys[i] == ToSigned(nthreads);
          return Some(i);
        }
      }
      assert ToSigned(nthreads) !in keys;
      if |entries| >= MAX_CACHED_TEAMS {
        return None;
      }
      entries := entries + [Entry(ToSigned(nthreads), spawned)];
      assert Keys() == keys + [ToSigned(nthreads) as int];
      AcquireKeeps(keys, ToSigned(nthreads));
      team := Some(|entries| - 1);
    }
  }
}
