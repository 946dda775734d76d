/** What the generated wrappers do with the registers (tools/svc_generator.py): values are scattered over
    registers and gathered from them byte by byte, least significant byte first. */
module SvcMarshal {
  import opened Links
  import opened SvcLayout
  import opened SvcAllocator

  type Byte = x: nat | x < 256
  type Bytes = seq<Byte>

  /** The eight 64-bit argument registers. */
  predicate IsFile(file: seq<Bytes>) {
    |file| == 8 && forall r :: 0 <= r < |file| ==> |file[r]| == 8
  }

  function Zeros(n: nat): Bytes {
    seq(n, _ => 0)
  }

  /** A value read as one of another size: cut off, or filled up with zeros. */
  function Convert(value: Bytes, size: nat): (r: Bytes)
    ensures |r| == size
    ensures forall k :: 0 <= k < size ==> r[k] == if k < |value| then value[k] else 0
  {
    if size <= |value| then value[..size] else value + Zeros(size - |value|)
  }

  lemma ConvertTwice(value: Bytes, wide: nat, size: nat)
    requires size <= wide || |value| <= wide
    ensures Convert(Convert(value, wide), size) == Convert(value, size)
  {
  }

  /** The low bytes of a register. */
  function GetArg(file: seq<Bytes>, r: nat, width: nat): Bytes
    requires IsFile(file) && r < 8 && width <= 8
  {
    file[r][..width]
  }

  /** The rest of the register becomes zero. */
  function SetArg(file: seq<Bytes>, r: nat, value: Bytes): (f: seq<Bytes>)
    requires IsFile(file) && r < 8 && |value| <= 8
    ensures IsFile(f)
  {
    file[r := Convert(value, 8)]
  }

  /** The piece of a scattered value that goes to its first register, and so on. */
  function SetAll(file: seq<Bytes>, regs: seq<nat>, value: Bytes, width: nat): (f: seq<Bytes>)
    requires IsFile(file) && 0 < width <= 8 && |value| == |regs| * width
    requires forall k :: 0 <= k < |regs| ==> regs[k] < 8
    ensures IsFile(f)
    decreases |regs|
  {
    if regs == [] then file
    else
      MoreThanOne(|regs|, width);
      SetAll(SetArg(file, regs[0], value[..width]), regs[1..], value[width..], width)
  }

  function GetAll(file: seq<Bytes>, regs: seq<nat>, width: nat): (v: Bytes)
    requires IsFile(file) && 0 < width <= 8 && forall k :: 0 <= k < |regs| ==> regs[k] < 8
    ensures |v| == |regs| * width
    decreases |regs|
  {
    if regs == [] then [] else GetArg(file, regs[0], width) + GetAll(file, regs[1..], width)
  }

  function Scatter(file: seq<Bytes>, regs: seq<nat>, value: Bytes, width: nat): (f: seq<Bytes>)
    requires IsFile(file) && 0 < width <= 8 && forall k :: 0 <= k < |regs| ==> regs[k] < 8
    ensures IsFile(f)
  {
    if |regs| == 1 then SetArg(file, regs[0], Convert(value, width))
    else SetAll(file, regs, Convert(value, |regs| * width), width)
  }

  function Gather(file: seq<Bytes>, regs: seq<nat>, size: nat, width: nat): Bytes
    requires IsFile(file) && 0 < width <= 8 && forall k :: 0 <= k < |regs| ==> regs[k] < 8
  {
    if |regs| == 1 then Convert(GetArg(file, regs[0], width), size)
    else Convert(GetAll(file, regs, width), size)
  }

  lemma MoreThanOne(n: nat, width: nat)
    requires n > 0
    ensures n * width == (n - 1) * width + width
  {
  }

  // ---------- one value ----------

  lemma {:induction false} SetAllElsewhere(file: seq<Bytes>, regs: seq<nat>, value: Bytes, width: nat, r: nat)
    requires IsFile(file) && 0 < width <= 8 && |value| == |regs| * width && r < 8 && r !in regs
    requires forall k :: 0 <= k < |regs| ==> regs[k] < 8
    ensures SetAll(file, regs, value, width)[r] == file[r]
    decreases |regs|
  {
    if regs != [] {
      MoreThanOne(|regs|, width);
      SetAllElsewhere(SetArg(file, regs[0], value[..width]), regs[1..], value[width..], width, r);
    }
  }

  lemma {:induction false} GetAllSame(f: seq<Bytes>, g: seq<Bytes>, regs: seq<nat>, width: nat)
    requires IsFile(f) && IsFile(g) && 0 < width <= 8
    requires forall k :: 0 <= k < |regs| ==> regs[k] < 8 && f[regs[k]] == g[regs[k]]
    ensures GetAll(f, regs, width) == GetAll(g, regs, width)
    decreases |regs|
  {
    if regs != [] {
      GetAllSame(f, g, regs[1..], width);
    }
  }

  lemma {:induction false} SetThenGet(file: seq<Bytes>, regs: seq<nat>, value: Bytes, width: nat)
    requires IsFile(file) && 0 < width <= 8 && |value| == |regs| * width && Distinct(regs)
    requires forall k :: 0 <= k < |regs| ==> regs[k] < 8
    ensures GetAll(SetAll(file, regs, value, width), regs, width) == value
    decreases |regs|
  {
    if regs == [] {
      assert |regs| * width == 0;
    } else {
      MoreThanOne(|regs|, width);
      var g := SetArg(file, regs[0], value[..width]);
      SetAllElsewhere(g, regs[1..], value[width..], width, regs[0]);
      SetThenGet(g, regs[1..], value[width..], width);
      assert g[regs[0]][..width] == value[..width];
      assert value == value[..width] + value[width..];
    }
  }

  /** A value comes back from the registers it was written to, as far as they have room. */
  lemma ScatterThenGather(file: seq<Bytes>, regs: seq<nat>, value: Bytes, size: nat, width: nat)
    requires IsFile(file) && 0 < width <= 8 && Distinct(regs) && forall k :: 0 <= k < |regs| ==> regs[k] < 8
    ensures Gather(Scatter(file, regs, value, width), regs, size, width)
      == Convert(Convert(value, |regs| * width), size)
  {
    if |regs| == 1 {
      assert GetArg(Scatter(file, regs, value, width), regs[0], width) == Convert(value, width);
    } else {
      SetThenGet(file, regs, Convert(value, |regs| * width), width);
    }
  }

  lemma ScatterElsewhere(file: seq<Bytes>, regs: seq<nat>, value: Bytes, width: nat, r: nat)
    requires IsFile(file) && 0 < width <= 8 && r < 8 && r !in regs && forall k :: 0 <= k < |regs| ==> regs[k] < 8
    ensures Scatter(file, regs, value, width)[r] == file[r]
  {
    if |regs| != 1 {
      SetAllElsewhere(file, regs, Convert(value, |regs| * width), width, r);
    }
  }

  // ---------- all values ----------

  ghost predicate LayoutOk(layout: seq<seq<nat>>) {
    Distinct(Flat(layout)) && forall k :: 0 <= k < |Flat(layout)| ==> Flat(layout)[k] < 8
  }

  lemma LayoutSplits(layout: seq<seq<nat>>)
    requires LayoutOk(layout) && layout != []
    ensures LayoutOk(layout[1..]) && Distinct(layout[0]) && forall k :: 0 <= k < |layout[0]| ==> layout[0][k] < 8
    ensures forall r :: r in layout[0] ==> r !in Flat(layout[1..])
  {
    var a, b := layout[0], Flat(layout[1..]);
    assert Flat(layout) == a + b;
    assert forall k :: 0 <= k < |a| ==> (a + b)[k] == a[k];
    assert forall k :: 0 <= k < |b| ==> (a + b)[|a| + k] == b[k];
  }

  /** The values in order, each to its registers. */
  function WriteAll(file: seq<Bytes>, layout: seq<seq<nat>>, values: seq<Bytes>, width: nat): (f: seq<Bytes>)
    requires IsFile(file) && 0 < width <= 8 && LayoutOk(layout) && |values| == |layout|
    ensures IsFile(f)
    decreases |layout|
  {
    if layout == [] then file
    else
      LayoutSplits(layout);
      WriteAll(Scatter(file, layout[0], values[0], width), layout[1..], values[1..], width)
  }

  lemma {:induction false} WriteAllElsewhere(file: seq<Bytes>, layout: seq<seq<nat>>, values: seq<Bytes>, width: nat,
      r: nat)
    requires IsFile(file) && 0 < width <= 8 && LayoutOk(layout) && |values| == |layout|
    requires r < 8 && r !in Flat(layout)
    ensures WriteAll(file, layout, values, width)[r] == file[r]
    decreases |layout|
  {
    if layout != [] {
      LayoutSplits(layout);
      ScatterElsewhere(file, layout[0], values[0], width, r);
      WriteAllElsewhere(Scatter(file, layout[0], values[0], width), layout[1..], values[1..], width, r);
    }
  }

  lemma GatherSame(f: seq<Bytes>, g: seq<Bytes>, regs: seq<nat>, size: nat, width: nat)
    requires IsFile(f) && IsFile(g) && 0 < width <= 8
    requires forall k :: 0 <= k < |regs| ==> regs[k] < 8 && f[regs[k]] == g[regs[k]]
    ensures Gather(f, regs, size, width) == Gather(g, regs, size, width)
  {
    GetAllSame(f, g, regs, width);
  }

  /** Writing all values and gathering any of them gives that value, as far as its registers have room:
      later values do not disturb it. */
  lemma {:induction false} WriteAllThenGather(file: seq<Bytes>, layout: seq<seq<nat>>, values: seq<Bytes>, width: nat,
                                              i: nat, size: nat)
    requires IsFile(file) && 0 < width <= 8 && LayoutOk(layout) && |values| == |layout| && i < |layout|
    ensures forall k :: 0 <= k < |layout[i]| ==> layout[i][k] < 8
    ensures Gather(WriteAll(file, layout, values, width), layout[i], size, width)
         == Convert(Convert(values[i], |layout[i]| * width), size)
    decreases |layout|
  {
    LayoutSplits(layout);
    var g := Scatter(file, layout[0], values[0], width);
    if i > 0 {
      WriteAllThenGather(g, layout[1..], values[1..], width, i - 1, size);
    } else {
      ScatterThenGather(file, layout[0], values[0], size, width);
      var f := WriteAll(g, layout[1..], values[1..], width);
      forall k | 0 <= k < |layout[0]|
        ensures f[layout[0][k]] == g[layout[0][k]]
      {
        WriteAllElsewhere(g, layout[1..], values[1..], width, layout[0][k]);
      }
      GatherSame(f, g, layout[0], size, width);
    }
  }

  lemma LaidIsOk(abi: Abi, sizes: seq<nat>, layout: seq<seq<nat>>)
    requires abi == ABI32 || abi == ABI64
    requires Laid(abi, {}, sizes, layout)
    ensures LayoutOk(layout)
  {
  }

  /** For the layout of any call that has one: what is written for the inputs, or for the return value and
      the outputs, is read back from the same registers.  An address that the wrapper keeps in 64 bits
      loses what its type has no room for. */
  lemma CallRoundTrip(abi: Abi, sizes: seq<nat>, layout: seq<seq<nat>>, file: seq<Bytes>, values: seq<Bytes>, i: nat)
    requires abi == ABI32 || abi == ABI64
    requires Laid(abi, {}, sizes, layout) && IsFile(file) && |values| == |sizes| && i < |sizes|
    ensures LayoutOk(layout) && (forall k :: 0 <= k < |layout[i]| ==> layout[i][k] < 8)
    ensures var back := Gather(WriteAll(file, layout, values, abi.byteSize), layout[i], sizes[i], abi.byteSize);
            back == Convert(values[i], sizes[i]) && (|values[i]| == sizes[i] ==> back == values[i])
  {
    LaidIsOk(abi, sizes, layout);
    WriteAllThenGather(file, layout, values, abi.byteSize, i, sizes[i]);
    if sizes[i] > 0 {
      NeedIsCeiling(abi, sizes[i]);
    }
    ConvertTwice(values[i], |layout[i]| * abi.byteSize, sizes[i]);
  }
}
