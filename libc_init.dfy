/** Start-up of the C library on Ananas: the kernel hands a process its
    arguments and its environment as blocks of NUL-terminated strings, the
    list ended by an empty string, and `libc_initialize_arg` turns such a
    block into the NULL-terminated pointer array that `argv` and `environ`
    are.

    A block is a sequence of characters; a pointer into it is an index. */
module LibcInit {

  /** A `char*`: NULL, or the index of a character of the block. */
  datatype Ptr = Null | At(index: nat)

  /** The block ends with an empty string, so every scan for a NUL that
      starts inside it stays inside it. */
  predicate Terminated(block: seq<char>)
  {
    |block| > 0 && block[|block| - 1] == '\0' && (|block| == 1 || block[|block| - 2] == '\0')
  }

  /** `strchr(p, '\0')`: the index of the first NUL at or after `p`. */
  function StrEnd(block: seq<char>, p: nat): (e: nat)
    requires p < |block| && block[|block| - 1] == '\0'
    ensures p <= e < |block| && block[e] == '\0'
    decreases |block| - p
  {
    if block[p] == '\0' then p else StrEnd(block, p + 1)
  }

  /** The NUL `StrEnd` finds is the first one: none lies between `p` and it. */
  lemma {:induction false} StrEndIsFirst(block: seq<char>, p: nat)
    requires p < |block| && block[|block| - 1] == '\0'
    ensures forall k :: p <= k < StrEnd(block, p) ==> block[k] != '\0'
    decreases |block| - p
  {
    if block[p] != '\0' {
      StrEndIsFirst(block, p + 1);
    }
  }

  /** The start of every non-empty string from `p` up to the first empty
      string: the pointers `libc_initialize_arg` stores. */
  function ArgStarts(block: seq<char>, p: nat): (r: seq<nat>)
    requires Terminated(block) && p < |block|
    ensures forall k :: 0 <= k < |r| ==> p <= r[k] < |block| && block[r[k]] != '\0'
    ensures block[p] == '\0' <==> r == []
    decreases |block| - p
  {
    if block[p] == '\0' then []
    else
      NextInside(block, p);
      [p] + ArgStarts(block, StrEnd(block, p) + 1)
  }

  /** A non-empty string that starts inside a terminated block is followed
      by another string inside it. */
  lemma NextInside(block: seq<char>, p: nat)
    requires Terminated(block) && p < |block| && block[p] != '\0'
    ensures StrEnd(block, p) + 1 < |block|
  {
    StrEndIsFirst(block, p);
  }

  /** One step of the scan: a non-empty string contributes its own start. */
  lemma ArgStartsStep(block: seq<char>, p: nat)
    requires Terminated(block) && p < |block| && block[p] != '\0'
    ensures StrEnd(block, p) + 1 < |block|
    ensures ArgStarts(block, p) == [p] + ArgStarts(block, StrEnd(block, p) + 1)
  {
    NextInside(block, p);
  }

  /** The first pointer is where the scan starts, and each further pointer
      is just past the NUL that ends the string before it. */
  lemma {:induction false} ArgStartsChain(block: seq<char>, p: nat)
    requires Terminated(block) && p < |block|
    ensures ArgStarts(block, p) != [] ==> ArgStarts(block, p)[0] == p
    ensures forall k :: 0 < k < |ArgStarts(block, p)| ==>
      ArgStarts(block, p)[k] == StrEnd(block, ArgStarts(block, p)[k - 1]) + 1
    decreases |block| - p
  {
    if block[p] != '\0' {
      NextInside(block, p);
      var q := StrEnd(block, p) + 1;
      ArgStartsChain(block, q);
      var r := ArgStarts(block, p);
      assert r == [p] + ArgStarts(block, q);
      forall k | 0 < k < |r|
        ensures r[k] == StrEnd(block, r[k - 1]) + 1
      {
        if k > 1 {
          assert r[k] == ArgStarts(block, q)[k - 1] && r[k - 1] == ArgStarts(block, q)[k - 2];
        }
      }
    }
  }

  /** Where the empty string that ends the list starts. */
  function ListEnd(block: seq<char>, p: nat): (q: nat)
    requires Terminated(block) && p < |block|
    ensures p <= q < |block| && block[q] == '\0'
    decreases |block| - p
  {
    if block[p] == '\0' then p
    else
      NextInside(block, p);
      ListEnd(block, StrEnd(block, p) + 1)
  }

  /** Each string followed by its NUL, one after the other. */
  function Joined(strings: seq<seq<char>>): seq<char>
  {
    if strings == [] then [] else strings[0] + ['\0'] + Joined(strings[1..])
  }

  /** The strings the pointers designate. */
  function Strings(block: seq<char>, p: nat): seq<seq<char>>
    requires Terminated(block) && p < |block|
    decreases |block| - p
  {
    if block[p] == '\0' then []
    else
      NextInside(block, p);
      [block[p..StrEnd(block, p)]] + Strings(block, StrEnd(block, p) + 1)
  }

  /** Splitting loses nothing: the strings, each followed by its NUL, and
      then the NUL of the empty string give back the block from `p` up to
      the end of the list. */
  lemma {:induction false} SplitRoundTrip(block: seq<char>, p: nat)
    requires Terminated(block) && p < |block|
    ensures Joined(Strings(block, p)) + ['\0'] == block[p..ListEnd(block, p) + 1]
    decreases |block| - p
  {
    if block[p] != '\0' {
      NextInside(block, p);
      SplitRoundTrip(block, StrEnd(block, p) + 1);
      SplitStep(block, p);
    } else {
      assert block[p..p + 1] == ['\0'];
    }
  }

  /** The inductive step of `SplitRoundTrip`: one non-empty string in front
      of a list that already splits correctly. */
  lemma SplitStep(block: seq<char>, p: nat)
    requires Terminated(block) && p < |block| && block[p] != '\0'
    requires StrEnd(block, p) + 1 < |block|
    requires Joined(Strings(block, StrEnd(block, p) + 1)) + ['\0']
      == block[StrEnd(block, p) + 1..ListEnd(block, StrEnd(block, p) + 1) + 1]
    ensures Joined(Strings(block, p)) + ['\0'] == block[p..ListEnd(block, p) + 1]
  {
    var e := StrEnd(block, p);
    SplitUnfold(block, p);
    JoinedCons(block[p..e], Strings(block, e + 1));
    SliceJoin(block, p, e, ListEnd(block, e + 1), Joined(Strings(block, e + 1)));
  }

  /** One string of the list taken off its front. */
  lemma SplitUnfold(block: seq<char>, p: nat)
    requires Terminated(block) && p < |block| && block[p] != '\0'
    ensures StrEnd(block, p) + 1 < |block|
    ensures Strings(block, p) == [block[p..StrEnd(block, p)]] + Strings(block, StrEnd(block, p) + 1)
    ensures ListEnd(block, p) == ListEnd(block, StrEnd(block, p) + 1)
  {
    NextInside(block, p);
  }

  /** A string, its NUL and the block after that NUL make up the block. */
  lemma SliceJoin(block: seq<char>, p: nat, e: nat, q: nat, rest: seq<char>)
    requires p <= e < q < |block| && block[e] == '\0'
    requires rest + ['\0'] == block[e + 1..q + 1]
    ensures (block[p..e] + ['\0'] + rest) + ['\0'] == block[p..q + 1]
  {
    SeqAssoc(block[p..e] + ['\0'], rest, ['\0']);
    assert block[p..e] + ['\0'] == block[p..e + 1];
    assert block[p..e + 1] + block[e + 1..q + 1] == block[p..q + 1];
  }

  lemma JoinedCons(head: seq<char>, rest: seq<seq<char>>)
    ensures Joined([head] + rest) == head + ['\0'] + Joined(rest)
  {
    assert ([head] + rest)[1..] == rest;
  }

  /** There is one string per pointer, each of them non-empty and free of
      NUL characters. */
  lemma {:induction false} StringsMatchStarts(block: seq<char>, p: nat)
    requires Terminated(block) && p < |block|
    ensures |Strings(block, p)| == |ArgStarts(block, p)|
    ensures forall k :: 0 <= k < |Strings(block, p)| ==>
      Strings(block, p)[k] != [] && '\0' !in Strings(block, p)[k]
    decreases |block| - p
  {
    if block[p] != '\0' {
      var e := StrEnd(block, p);
      NextInside(block, p);
      StringsMatchStarts(block, e + 1);
      var rest := Strings(block, e + 1);
      var all := Strings(block, p);
      assert all == [block[p..e]] + rest;
      StrEndIsFirst(block, p);
      forall k | 0 <= k < |all|
        ensures all[k] != [] && '\0' !in all[k]
      {
        if k > 0 { assert all[k] == rest[k - 1]; }
      }
    }
  }

  lemma SeqAssoc<T>(a: seq<T>, b: seq<T>, c: seq<T>)
    ensures (a + b) + c == a + (b + c)
  {
  }

  /** A block whose first character is NUL holds no argument. */
  lemma EmptyBlock(block: seq<char>)
    requires Terminated(block) && block[0] == '\0'
    ensures ArgStarts(block, 0) == [] && Strings(block, 0) == []
  {
  }

  /** `libc_initialize_arg`: count the strings up to the empty one, allocate
      one slot more, store a pointer to each string and NULL after them, and
      hand back the count when the caller asked for it. */
  method InitializeArg(block: seq<char>, wantCount: bool) returns (dest: array<Ptr>, count: Option<int>)
    requires Terminated(block)
    ensures fresh(dest)
    ensures dest.Length == |ArgStarts(block, 0)| + 1
    ensures forall k :: 0 <= k < |ArgStarts(block, 0)| ==> dest[k] == At(ArgStarts(block, 0)[k])
    ensures dest[dest.Length - 1] == Null
    ensures count == if wantCount then Some(|ArgStarts(block, 0)|) else None
  {
    ghost var starts := ArgStarts(block, 0);
    ArgStartsChain(block, 0);

    // Count the number of arguments.
    var numArgs := 0;
    var cur := 0;
    while true
      invariant cur < |block| && 0 <= numArgs
      invariant numArgs + |ArgStarts(block, cur)| == |starts|
      decreases |block| - cur
    {
      var ptr := StrEnd(block, cur);
      if ptr == cur {
        break;
      }
      ArgStartsStep(block, cur);
      cur := ptr + 1;
      numArgs := numArgs + 1;
    }

    // Copy the argument pointers in place.
    dest := new Ptr[numArgs + 1];
    var curArg := 0;
    cur := 0;
    while true
      invariant cur < |block| && 0 <= curArg
      invariant curArg + |ArgStarts(block, cur)| == |starts|
      invariant curArg < |starts| ==> starts[curArg] == cur
      invariant forall k :: 0 <= k < curArg ==> dest[k] == At(starts[k])
      decreases |block| - cur
    {
      dest[curArg] := At(cur);
      var ptr := StrEnd(block, cur);
      if ptr == cur {
        break;
      }
      ArgStartsStep(block, cur);
      if curArg + 1 < |starts| {
        assert starts[curArg + 1] == StrEnd(block, starts[curArg]) + 1;
      }
      cur := ptr + 1;
      curArg := curArg + 1;
    }
    dest[curArg] := Null;
    assert curArg == numArgs;
    count := if wantCount then Some(numArgs) else None;
  }

  datatype Option<T> = None | Some(value: T)

  /** The part of `struct PROCINFO` the library reads: the argument and the
      environment blocks. */
  datatype ProcInfo = ProcInfo(args: seq<char>, env: seq<char>)

  predicate ValidProcInfo(pi: ProcInfo)
  {
    Terminated(pi.args) && Terminated(pi.env)
  }

  /** The library's globals `ananas_procinfo`, `libc_argc`, `libc_argv` and
      `environ`; `released` lists the environment arrays given back to
      `free`. */
  class Libc {
    var procinfo: Option<ProcInfo>
    var argc: int
    var argv: Option<array<Ptr>>
    var environ: Option<array<Ptr>>
    ghost var released: seq<array<Ptr>>

    constructor ()
      ensures procinfo == None && argc == 0 && argv == None && environ == None && released == []
    {
      procinfo := None;
      argc := 0;
      argv := None;
      environ := None;
      released := [];
    }

    /** `libc_reinit_environ`: free the previous environment array, if any,
        and build a new one from the environment block of the process. */
    method ReinitEnviron()
      requires procinfo.Some? && Terminated(procinfo.value.env)
      modifies this
      ensures procinfo == old(procinfo) && argc == old(argc) && argv == old(argv)
      ensures released == old(released) + (if old(environ).Some? then [old(environ).value] else [])
      ensures environ.Some? && fresh(environ.value)
      ensures EnvironOf(environ.value, procinfo.value.env)
    {
      if environ.Some? {
        released := released + [environ.value];
      }
      var env, _ := InitializeArg(procinfo.value.env, false);
      environ := Some(env);
    }

    /** `libc_init`: remember the process information, build `argv` and
        `argc` from the argument block, then the environment. */
    method Init(pi: ProcInfo)
      requires ValidProcInfo(pi)
      modifies this
      ensures procinfo == Some(pi)
      ensures argv.Some? && fresh(argv.value) && EnvironOf(argv.value, pi.args)
      ensures argc == |ArgStarts(pi.args, 0)|
      ensures environ.Some? && fresh(environ.value) && EnvironOf(environ.value, pi.env)
      ensures released == old(released) + (if old(environ).Some? then [old(environ).value] else [])
    {
      procinfo := Some(pi);
      var args, count := InitializeArg(pi.args, true);
      argv := Some(args);
      argc := count.value;
      ReinitEnviron();
    }
  }

  /** `a` holds a pointer to every string of `block` and then NULL. */
  ghost predicate EnvironOf(a: array<Ptr>, block: seq<char>)
    requires Terminated(block)
    reads a
  {
    && a.Length == |ArgStarts(block, 0)| + 1
    && (forall k :: 0 <= k < |ArgStarts(block, 0)| ==> a[k] == At(ArgStarts(block, 0)[k]))
    && a[a.Length - 1] == Null
  }
}
