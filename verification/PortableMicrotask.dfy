// The two portable backends of __kmp_invoke_microtask: the plain C switch, and
// the libffi call that takes over past 16 arguments.
module PortableMicrotask {
  import opened Words

  const MAX_ARGS := 1024

  // Enough to hold p_argv and the two pointer locals.
  type Memory = WordMemory

  datatype Outcome =
    | Called(args: seq<Word>)   // the microtask ran with these arguments; 1 is returned
    | NotCalled                 // 0 is returned
    | Fatal                     // LOGGER_FATAL

  // (*f)(&gtid, &tid, p[0], ..., p[argc-1]), one case per argument count.
  method InvokeGeneric(gtid: Word, tid: Word, argc: nat, p: Word, m: Memory) returns (out: Outcome)
    requires forall i :: 0 <= i < argc ==> Slot(p, i) in m
    ensures out == if argc <= 16 then Called(MicrotaskArgs(gtid, tid, Argv(m, p, argc))) else Fatal
  {
    var a := Argv(m, p, argc);
    match argc {
      case 0 => out := Called([gtid, tid]);
      case 1 => out := Called([gtid, tid] + [a[0]]);
      case 2 => out := Called([gtid, tid] + [a[0], a[1]]);
      case 3 => out := Called([gtid, tid] + [a[0], a[1], a[2]]);
      case 4 => out := Called([gtid, tid] + [a[0], a[1], a[2], a[3]]);
      case 5 => out := Called([gtid, tid] + [a[0], a[1], a[2], a[3], a[4]]);
      case 6 => out := Called([gtid, tid] + [a[0], a[1], a[2], a[3], a[4], a[5]]);
      case 7 => out := Called([gtid, tid] + [a[0], a[1], a[2], a[3], a[4], a[5], a[6]]);
      case 8 => out := Called([gtid, tid] + [a[0], a[1], a[2], a[3], a[4], a[5], a[6], a[7]]);
      case 9 => out := Called([gtid, tid] + [a[0], a[1], a[2], a[3], a[4], a[5], a[6], a[7], a[8]]);
      case 10 => out := Called([gtid, tid] + [a[0], a[1], a[2], a[3], a[4], a[5], a[6], a[7], a[8], a[9]]);
      case 11 => out := Called([gtid, tid] + [a[0], a[1], a[2], a[3], a[4], a[5], a[6], a[7], a[8], a[9], a[10]]);
      case 12 => out := Called([gtid, tid] + [a[0], a[1], a[2], a[3], a[4], a[5], a[6], a[7], a[8], a[9],
                              a[10], a[11]]);
      case 13 => out := Called([gtid, tid] + [a[0], a[1], a[2], a[3], a[4], a[5], a[6], a[7], a[8], a[9],
                              a[10], a[11], a[12]]);
      case 14 => out := Called([gtid, tid] + [a[0], a[1], a[2], a[3], a[4], a[5], a[6], a[7], a[8], a[9],
                              a[10], a[11], a[12], a[13]]);
      case 15 => out := Called([gtid, tid] + [a[0], a[1], a[2], a[3], a[4], a[5], a[6], a[7], a[8], a[9],
                              a[10], a[11], a[12], a[13], a[14]]);
      case 16 => out := Called([gtid, tid] + [a[0], a[1], a[2], a[3], a[4], a[5], a[6], a[7], a[8], a[9],
                              a[10], a[11], a[12], a[13], a[14], a[15]]);
      case _ => out := Fatal;
    }
  }

  datatype FfiType = FfiVoid | FfiPointer

  // The thread-local argument vectors handed to libffi.
  class FfiBuffer {
    const types: array<FfiType>
    const vals: array<int>

    constructor ()
      ensures types.Length == vals.Length == MAX_ARGS + 2
      ensures fresh(types) && fresh(vals)
    {
      types := new FfiType[MAX_ARGS + 2](_ => FfiVoid);
      vals := new int[MAX_ARGS + 2](_ => 0);
    }

    // ffi_call passes, for each argument, the pointer its value vector points at.
    method Call(nargs: nat, m: Memory) returns (args: seq<Word>)
      requires nargs <= vals.Length == types.Length
      requires forall k :: 0 <= k < nargs ==> types[k] == FfiPointer && vals[k] in m
      ensures |args| == nargs && forall k :: 0 <= k < nargs ==> args[k] == m[vals[k]]
    {
      args := [];
      for k := 0 to nargs
        invariant |args| == k && forall j :: 0 <= j < k ==> args[j] == m[vals[j]]
      {
        args := args + [m[vals[k]]];
      }
    }

    // pGtid and pTid are the addresses of the locals holding &gtid and &tid;
    // prepOk is what ffi_prep_cif answers.
    method Invoke(pGtid: int, pTid: int, argc: nat, p: Word, m: Memory, prepOk: bool) returns (out: Outcome)
      requires types.Length == vals.Length == MAX_ARGS + 2 && types as object != vals
      requires pGtid in m && pTid in m && forall i :: 0 <= i < argc ==> Slot(p, i) in m
      modifies types, vals
      // one call with the same arguments as the plain form, up to 1021 of them
      ensures out == if argc <= 16 || (argc < 1022 && prepOk)
                     then Called(MicrotaskArgs(m[pGtid], m[pTid], Argv(m, p, argc)))
                     else if argc < 1022 then NotCalled
                     else Fatal
    {
      if argc <= 16 {
        out := InvokeGeneric(m[pGtid], m[pTid], argc, p, m);
        return;
      }
      if argc >= MAX_ARGS - 2 { return Fatal; }
      types[0], types[1] := FfiPointer, FfiPointer;
      vals[0], vals[1] := pGtid, pTid;
      for i := 0 to argc
        invariant forall k :: 0 <= k < i + 2 ==> types[k] == FfiPointer
        invariant vals[0] == pGtid && vals[1] == pTid
        invariant forall k :: 2 <= k < i + 2 ==> vals[k] == Slot(p, k - 2)
      {
        types[i + 2] := FfiPointer;
        vals[i + 2] := Slot(p, i);
      }
      if prepOk {
        var args := Call(argc + 2, m);
        assert args == MicrotaskArgs(m[pGtid], m[pTid], Argv(m, p, argc));
        out := Called(args);
      } else {
        out := NotCalled;
      }
    }
  }
}
