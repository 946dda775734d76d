/** A 4x4 block of texels written into an image, clipped at its right and bottom edges. */
module TexelGrid {

  /** The block's top left texel is at byte `base`, and at (x0, y0) of a width x height image. */
  datatype Grid = Grid(base: nat, pitch: nat, bpp: nat, x0: nat, y0: nat, width: nat, height: nat)

  function Times(n: nat, k: nat): nat {
    match k
    case 0 => 0
    case 1 => n
    case 2 => 2 * n
    case _ => 3 * n
  }

  predicate InBounds(g: Grid, t: nat) {
    t < 16 && t / 4 + g.y0 < g.height && t % 4 + g.x0 < g.width
  }

  function Start(g: Grid, t: nat): nat {
    g.base + Times(g.pitch, t / 4) + Times(g.bpp, t % 4)
  }

  /** Byte `k` belongs to texel `t` of the image. */
  predicate Covers(g: Grid, t: nat, k: nat) {
    InBounds(g, t) && Start(g, t) <= k < Start(g, t) + g.bpp
  }

  /** The image has room for the visible texels, and its rows do not overlap. */
  ghost predicate Room(g: Grid, size: nat) {
    && (forall t: nat :: InBounds(g, t) ==> Start(g, t) + g.bpp <= size)
    && (forall t: nat :: InBounds(g, t) ==> Times(g.bpp, t % 4) + g.bpp <= g.pitch)
  }

  /** The image after the first `n` texels were written in order. */
  function Painted(image: seq<nat>, g: Grid, texels: seq<seq<nat>>, n: nat): (r: seq<nat>)
    requires n <= |texels| && (forall t :: 0 <= t < |texels| ==> |texels[t]| == g.bpp)
    ensures |r| == |image|
  {
    seq(|image|, k requires 0 <= k < |image| => PaintedByte(image, g, texels, n, k))
  }

  function PaintedByte(image: seq<nat>, g: Grid, texels: seq<seq<nat>>, n: nat, k: nat): nat
    requires n <= |texels| && (forall t :: 0 <= t < |texels| ==> |texels[t]| == g.bpp) && k < |image|
  {
    if n == 0 then image[k]
    else if Covers(g, n - 1, k) then texels[n - 1][k - Start(g, n - 1)]
    else PaintedByte(image, g, texels, n - 1, k)
  }

  /** Visible texels do not share bytes. */
  lemma TexelsAreDisjoint(g: Grid, size: nat, s: nat, t: nat, k: nat)
    requires Room(g, size) && s != t
    ensures !(Covers(g, s, k) && Covers(g, t, k))
  {
  }

  /** Exactly the visible texels are written, each with its own bytes. */
  lemma {:induction false} PaintedExactly(image: seq<nat>, g: Grid, texels: seq<seq<nat>>, n: nat, k: nat)
    requires n <= |texels| && (forall t :: 0 <= t < |texels| ==> |texels[t]| == g.bpp) && k < |image|
    requires Room(g, |image|)
    ensures forall t :: 0 <= t < n && Covers(g, t, k) ==>
      PaintedByte(image, g, texels, n, k) == texels[t][k - Start(g, t)]
    ensures (forall t :: 0 <= t < n ==> !Covers(g, t, k)) ==> PaintedByte(image, g, texels, n, k) == image[k]
  {
    hide Covers, Room;
    if n > 0 {
      PaintedExactly(image, g, texels, n - 1, k);
      forall t | 0 <= t < n - 1 && Covers(g, n - 1, k) ensures !Covers(g, t, k) {
        TexelsAreDisjoint(g, |image|, t, n - 1, k);
      }
    }
  }

  lemma TimesIsProduct(n: nat, k: nat)
    requires k < 4
    ensures Times(n, k) == n * k
  {
  }

  /** An image that stores its rows one after the other has room for a block anywhere inside it. */
  lemma ImageHasRoom(g: Grid)
    requires g.pitch == g.bpp * g.width
    requires g.base == g.pitch * g.y0 + g.bpp * g.x0
    ensures Room(g, g.pitch * g.height)
  {
    forall t: nat | InBounds(g, t)
      ensures Start(g, t) + g.bpp <= g.pitch * g.height && Times(g.bpp, t % 4) + g.bpp <= g.pitch
    {
      var x, y := t % 4, t / 4;
      TimesIsProduct(g.bpp, x);
      TimesIsProduct(g.pitch, y);
      Distribute(g.bpp, g.x0, x + 1, g.width);
      Distribute(g.pitch, g.y0, y + 1, g.height);
      Distribute(g.bpp, 0, x + 1, g.width);
    }
  }

  lemma Distribute(n: nat, a: nat, b: nat, c: nat)
    requires a + b <= c && b > 0
    ensures n * a + n * (b - 1) + n <= n * c
  {
    assert n * c == n * a + n * (b - 1) + n + n * (c - a - b);
  }

  /** Writes texel `n` if it is visible. */
  method Write(dst: array<nat>, g: Grid, ghost image: seq<nat>, ghost texels: seq<seq<nat>>, n: nat, bytes: seq<nat>)
    requires |image| == dst.Length && Room(g, |image|) && |bytes| == g.bpp
    requires n < |texels| && (forall t :: 0 <= t < |texels| ==> |texels[t]| == g.bpp)
    requires dst[..] == Painted(image, g, texels, n)
    requires InBounds(g, n) && bytes == texels[n]
    modifies dst
    ensures dst[..] == Painted(image, g, texels, n + 1)
  {
    var start := Start(g, n);
    ghost var before := dst[..];
    for c := 0 to g.bpp
      invariant forall k :: 0 <= k < dst.Length ==>
        dst[k] == if start <= k < start + c then bytes[k - start] else before[k]
    {
      dst[start + c] := bytes[c];
    }
  }

  lemma HiddenTexel(image: seq<nat>, g: Grid, texels: seq<seq<nat>>, t: nat)
    requires t < |texels| && (forall k :: 0 <= k < |texels| ==> |texels[k]| == g.bpp) && !InBounds(g, t)
    ensures Painted(image, g, texels, t + 1) == Painted(image, g, texels, t)
  {
  }
}
