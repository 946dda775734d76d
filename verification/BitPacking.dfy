/** Numbers laid out side by side in a bit string, lowest bits first. */
module BitPacking {
  import opened BitMath

  function Sum(widths: seq<nat>): nat {
    if widths == [] then 0 else widths[0] + Sum(widths[1..])
  }

  ghost predicate Fits(widths: seq<nat>, values: seq<nat>) {
    |values| == |widths| && forall k {:trigger values[k]} :: 0 <= k < |values| ==> values[k] < Pow2(widths[k])
  }

  ghost function Pack(widths: seq<nat>, values: seq<nat>): nat
    requires |values| == |widths|
  {
    if widths == [] then 0 else values[0] + Shl(Pack(widths[1..], values[1..]), widths[0])
  }

  ghost function Unpack(widths: seq<nat>, block: nat): (values: seq<nat>)
    ensures |values| == |widths|
  {
    if widths == [] then [] else [Low(block, widths[0])] + Unpack(widths[1..], Shr(block, widths[0]))
  }

  lemma {:induction false} SumTo(widths: seq<nat>, k: nat)
    requires k < |widths|
    ensures Sum(widths[..k + 1]) == Sum(widths[..k]) + widths[k]
  {
    if k == 0 {
      assert widths[..1][1..] == [];
    } else {
      SumTo(widths[1..], k - 1);
      assert widths[1..][..k] == widths[..k + 1][1..] && widths[1..][..k - 1] == widths[..k][1..];
    }
  }

  lemma {:induction false} ShrOfJoin(a: nat, b: nat, k: nat)
    requires a < Pow2(k)
    ensures Shr(a + Shl(b, k), k) == b && Low(a + Shl(b, k), k) == a
  {
    if k > 0 {
      assert (a + Shl(b, k)) / 2 == a / 2 + Shl(b, k - 1);
      ShrOfJoin(a / 2, b, k - 1);
    }
  }

  /** Reading a packed bit string gives back every field. */
  lemma {:induction false} PackThenUnpack(widths: seq<nat>, values: seq<nat>)
    requires Fits(widths, values)
    ensures Unpack(widths, Pack(widths, values)) == values
  {
    if widths != [] {
      assert Fits(widths[1..], values[1..]);
      PackThenUnpack(widths[1..], values[1..]);
      ShrOfJoin(values[0], Pack(widths[1..], values[1..]), widths[0]);
      assert values == [values[0]] + values[1..];
    }
  }

  /** Unpacking loses nothing. */
  lemma {:induction false} UnpackThenPack(widths: seq<nat>, block: nat)
    requires block < Pow2(Sum(widths))
    ensures Pack(widths, Unpack(widths, block)) == block
  {
    if widths != [] {
      var rest := Shr(block, widths[0]);
      ShrBound(block, widths[0], Sum(widths));
      UnpackThenPack(widths[1..], rest);
      SplitsAt(block, widths[0]);
      assert Unpack(widths, block)[1..] == Unpack(widths[1..], rest);
    }
  }

  /** Each field is a slice of the bit string. */
  lemma {:induction false} UnpackedIsSlice(widths: seq<nat>, block: nat, k: nat)
    requires k < |widths|
    ensures Unpack(widths, block)[k] == Slice(block, Sum(widths[..k]), widths[k])
  {
    if k > 0 {
      UnpackedIsSlice(widths[1..], Shr(block, widths[0]), k - 1);
      assert widths[..k][1..] == widths[1..][..k - 1];
      ShrShr(block, widths[0], Sum(widths[1..][..k - 1]));
    }
  }
}
