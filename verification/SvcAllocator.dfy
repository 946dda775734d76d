/** The register allocator and the layout of one call as the generator computes them
    (tools/svc_generator.py); a failed assertion of the generator is None. */
module SvcAllocator {
  import opened Wrappers
  import opened SvcLayout

  class RegisterAllocator {
    const abi: Abi
    var registers: set<nat>

    constructor (abi: Abi)
      ensures this.abi == abi && registers == {}
    {
      this.abi, registers := abi, {};
    }

    method Allocate(i: nat) returns (r: Option<nat>)
      modifies this
      ensures r == if i in old(registers) then None else Some(i)
      ensures registers == old(registers) + (if r.Some? then {i} else {})
    {
      if i in registers {
        return None;
      }
      registers := registers + {i};
      return Some(i);
    }

    /** The lowest register that is free. */
    method AllocateFirstFree() returns (r: Option<nat>)
      modifies this
      ensures r == FirstFree(old(registers), 0, abi.numRegs)
      ensures registers == old(registers) + (if r.Some? then {r.value} else {})
    {
      for i := 0 to abi.numRegs
        invariant registers == old(registers)
        invariant FirstFree(registers, 0, abi.numRegs) == FirstFree(registers, i, abi.numRegs)
      {
        if i in registers {
          continue;
        }
        r := Allocate(i);
        return;
      }
      return None;
    }

    method AddSingle(ngrn: nat) returns (r: Option<nat>, inc: nat)
      modifies this
      ensures r == Place(abi, old(registers), ngrn) && ngrn + inc == Advance(abi, ngrn)
      ensures registers == old(registers) + (if r.Some? then {r.value} else {})
    {
      if ngrn >= abi.parameterCount {
        r := AllocateFirstFree();
        inc := 0;
      } else {
        r := Allocate(ngrn);
        inc := 1;
      }
    }

    method Add(ngrn: nat, dataSize: nat, align: bool) returns (r: Option<seq<nat>>, inc: nat)
      requires AbiOk(abi)
      modifies this
      ensures Adds(AddRegs(abi, old(registers), ngrn, dataSize, align), old(registers), registers, r, ngrn + inc)
    {
      if dataSize <= abi.byteSize {
        var one, i := AddSingle(ngrn);
        if one.None? {
          return None, 0;
        }
        assert Take(abi, registers, ngrn + i, 0) == Some(([], ngrn + i));
        assert [one.value] + [] == [one.value] && Set([one.value]) == {one.value};
        return Some([one.value]), i;
      }
      inc := if align then ngrn % 2 else 0;
      var more;
      r, more := AddMany(ngrn + inc, dataSize);
      inc := inc + more;
    }

    method AddMany(ngrn: nat, dataSize: nat) returns (r: Option<seq<nat>>, inc: nat)
      requires AbiOk(abi) && dataSize > 0
      modifies this
      ensures Adds(Take(abi, old(registers), ngrn, Need(abi, dataSize)), old(registers), registers, r, ngrn + inc)
    {
      var regs: seq<nat> := [];
      inc := 0;
      var remaining: int := dataSize;
      ghost var used := registers;
      assert used + Set([]) == used;
      ContinueNone(Take(abi, used, ngrn, Need(abi, dataSize)));
      while remaining > 0
        invariant registers == used + Set(regs)
        invariant Take(abi, used, ngrn, Need(abi, dataSize))
          == Continue(regs, Take(abi, registers, ngrn + inc, Left(abi, remaining)))
      {
        var one, i := AddSingle(ngrn + inc);
        if one.None? {
          return None, inc;
        }
        assert used + Set(regs + [one.value]) == registers;
        ContinueMore(regs, one.value, Take(abi, registers, ngrn + inc + i, Left(abi, remaining) - 1));
        regs := regs + [one.value];
        inc := inc + i;
        remaining := remaining - abi.byteSize;
      }
      assert regs + [] == regs;
      return Some(regs), inc;
    }
  }

  /** The registers returned, the register set left and the next position are what `t` says. */
  ghost predicate Adds(t: Option<(seq<nat>, nat)>, before: set<nat>, after: set<nat>, r: Option<seq<nat>>, end: nat) {
    && (r.Some? <==> t.Some?)
    && (t.Some? ==> r.value == t.value.0 && end == t.value.1 && after == before + Set(t.value.0))
  }

  // ---------- one call ----------

  function Returned(ret: Option<nat>): seq<nat> {
    if ret.None? then [] else [ret.value]
  }

  ghost function Preceded(done: seq<seq<nat>>, l: Option<seq<seq<nat>>>): Option<seq<seq<nat>>> {
    if l.None? then None else Some(done + l.value)
  }

  lemma PrecededMore(done: seq<seq<nat>>, regs: seq<nat>, l: Option<seq<seq<nat>>>)
    ensures Preceded(done + [regs], l) == Preceded(done, Preceded([regs], l))
    ensures Preceded([], l) == l
  {
    if l.Some? {
      assert done + [regs] + l.value == done + ([regs] + l.value);
      assert [] + l.value == l.value;
    }
  }

  method LayInputs(abi: Abi, args: seq<Argument>) returns (r: Option<seq<seq<nat>>>)
    requires AbiOk(abi)
    ensures r == InputLayout(abi, {}, 0, args)
  {
    var alloc := new RegisterAllocator(abi);
    var ngrn, inputs := 0, [];
    assert args[0..] == args;
    PrecededMore([], [], InputLayout(abi, {}, 0, args));
    for k := 0 to |args|
      invariant alloc.abi == abi
      invariant InputLayout(abi, {}, 0, args) == Preceded(inputs, InputLayout(abi, alloc.registers, ngrn, args[k..]))
    {
      assert args[k..][0] == args[k] && args[k..][1..] == args[k + 1..];
      if args[k].output {
        ngrn := ngrn + 1;
      } else {
        var regs, inc := alloc.Add(ngrn, args[k].size, true);
        if regs.None? {
          return None;
        }
        ngrn := ngrn + inc;
        PrecededMore(inputs, regs.value, InputLayout(abi, alloc.registers, ngrn, args[k + 1..]));
        inputs := inputs + [regs.value];
      }
    }
    assert args[|args|..] == [] && inputs + [] == inputs;
    return Some(inputs);
  }

  lemma OutputNext(abi: Abi, before: set<nat>, after: set<nat>, pos: nat, end: nat, sizes: seq<nat>,
                   done: seq<seq<nat>>, r: Option<seq<nat>>)
    requires AbiOk(abi) && sizes != [] && Adds(AddRegs(abi, before, pos, sizes[0], false), before, after, r, end)
    ensures Preceded(done, OutputLayout(abi, before, pos, sizes))
         == if r.None? then None else Preceded(done + [r.value], OutputLayout(abi, after, end, sizes[1..]))
  {
    if r.Some? {
      PrecededMore(done, r.value, OutputLayout(abi, after, end, sizes[1..]));
    }
  }

  /** The return value comes before the outputs. */
  method LayReturn(alloc: RegisterAllocator, ret: Option<nat>, ghost rest: seq<nat>)
    returns (writes: Option<seq<seq<nat>>>, ngrn: nat)
    requires AbiOk(alloc.abi) && alloc.registers == {}
    modifies alloc
    ensures OutputLayout(alloc.abi, {}, 0, Returned(ret) + rest)
         == if writes.None? then None else Preceded(writes.value, OutputLayout(alloc.abi, alloc.registers, ngrn, rest))
  {
    ghost var sizes := Returned(ret) + rest;
    PrecededMore([], [], OutputLayout(alloc.abi, {}, 0, sizes));
    if ret.None? {
      assert sizes == rest;
      return Some([]), 0;
    }
    assert sizes[1..] == rest;
    var regs, inc := alloc.Add(0, ret.value, false);
    OutputNext(alloc.abi, {}, alloc.registers, 0, inc, sizes, [], regs);
    if regs.None? {
      return None, 0;
    }
    return Some([] + [regs.value]), inc;
  }

  lemma OutputsFrom(args: seq<Argument>, k: nat)
    requires k < |args|
    ensures args[k].output ==> OutputSizes(args[k..]) != [] && OutputSizes(args[k..])[0] == args[k].size
                               && OutputSizes(args[k..])[1..] == OutputSizes(args[k + 1..])
    ensures !args[k].output ==> OutputSizes(args[k..]) == OutputSizes(args[k + 1..])
  {
    assert args[k..][0] == args[k] && args[k..][1..] == args[k + 1..];
  }

  method LayArguments(alloc: RegisterAllocator, args: seq<Argument>, start: nat, returned: seq<seq<nat>>)
    returns (r: Option<seq<seq<nat>>>)
    requires AbiOk(alloc.abi)
    modifies alloc
    ensures r == old(Preceded(returned, OutputLayout(alloc.abi, alloc.registers, start, OutputSizes(args))))
  {
    ghost var all := Preceded(returned, OutputLayout(alloc.abi, alloc.registers, start, OutputSizes(args)));
    var ngrn, writes := start, returned;
    assert args[0..] == args;
    hide OutputLayout, AddRegs, Adds, OutputSizes, AbiOk;
    for k := 0 to |args|
      invariant all == Preceded(writes, OutputLayout(alloc.abi, alloc.registers, ngrn, OutputSizes(args[k..])))
    {
      OutputsFrom(args, k);
      if !args[k].output {
        continue;
      }
      ghost var before := alloc.registers;
      var regs, inc := alloc.Add(ngrn, args[k].size, false);
      OutputNext(alloc.abi, before, alloc.registers, ngrn, ngrn + inc, OutputSizes(args[k..]), writes, regs);
      if regs.None? {
        return None;
      }
      ngrn := ngrn + inc;
      writes := writes + [regs.value];
    }
    assert args[|args|..] == [] && writes + [] == writes;
    OutputNothing(alloc.abi, alloc.registers, ngrn);
    return Some(writes);
  }

  method LayOutputs(abi: Abi, ret: Option<nat>, args: seq<Argument>) returns (r: Option<seq<seq<nat>>>)
    requires AbiOk(abi)
    ensures r == OutputLayout(abi, {}, 0, Returned(ret) + OutputSizes(args))
  {
    var alloc := new RegisterAllocator(abi);
    var returned, ngrn := LayReturn(alloc, ret, OutputSizes(args));
    if returned.None? {
      return None;
    }
    r := LayArguments(alloc, args, ngrn, returned.value);
  }

  lemma OutputNothing(abi: Abi, used: set<nat>, pos: nat)
    requires AbiOk(abi)
    ensures OutputSizes([]) == [] && OutputLayout(abi, used, pos, []) == Some([])
  {
  }

  /** A call can be laid out exactly if its inputs, and its results, need no more registers than there
      are; then no register is used for two inputs, or for two results. */
  method GetRegisters(abi: Abi, ret: Option<nat>, args: seq<Argument>)
    returns (r: Option<(seq<seq<nat>>, seq<seq<nat>>)>)
    requires AbiOk(abi)
    ensures r.Some? <==> && Demand(abi, InputSizes(args)) <= abi.numRegs
                         && Demand(abi, Returned(ret) + OutputSizes(args)) <= abi.numRegs
    ensures r.Some? ==> && Laid(abi, {}, InputSizes(args), r.value.0)
                        && Laid(abi, {}, Returned(ret) + OutputSizes(args), r.value.1)
  {
    InputsFit(abi, {}, 0, args);
    OutputsFit(abi, {}, 0, Returned(ret) + OutputSizes(args));
    hide Laid, Demand, InputLayout, OutputLayout;
    var inputs := LayInputs(abi, args);
    if inputs.None? {
      return None;
    }
    var outputs := LayOutputs(abi, ret, args);
    if outputs.None? {
      return None;
    }
    return Some((inputs.value, outputs.value));
  }

  /** Registers still to be found for the rest of a value. */
  function Left(abi: Abi, remaining: int): nat
    requires AbiOk(abi)
  {
    if remaining <= 0 then 0 else Need(abi, remaining)
  }

  lemma ContinueNone(t: Option<(seq<nat>, nat)>)
    ensures Continue([], t) == t
  {
    if t.Some? {
      assert [] + t.value.0 == t.value.0;
    }
  }

  lemma ContinueMore(regs: seq<nat>, r: nat, t: Option<(seq<nat>, nat)>)
    ensures Continue(regs, Continue([r], t)) == Continue(regs + [r], t)
  {
    if t.Some? {
      assert regs + ([r] + t.value.0) == regs + [r] + t.value.0;
    }
  }
}
