/** The partition tables of BC6H and BC7 (externals/bc_decoder/bc_decoder.cpp): which subset each of
    the 16 texels belongs to, and which texel of each subset has the shortened index. */
module BptcTables {

  /** A row of a partition table has one hexadecimal digit for each texel, texel 0 first. */
  function Digit(row: bv64, t: nat): bv64 {
    match t
    case 0 => row >> 60
    case 1 => (row >> 56) & 15
    case 2 => (row >> 52) & 15
    case 3 => (row >> 48) & 15
    case 4 => (row >> 44) & 15
    case 5 => (row >> 40) & 15
    case 6 => (row >> 36) & 15
    case 7 => (row >> 32) & 15
    case 8 => (row >> 28) & 15
    case 9 => (row >> 24) & 15
    case 10 => (row >> 20) & 15
    case 11 => (row >> 16) & 15
    case 12 => (row >> 12) & 15
    case 13 => (row >> 8) & 15
    case 14 => (row >> 4) & 15
    case _ => row & 15
  }

  function PartitionTable2(p: nat): bv64 {
    match p
    case 0 => 0x0011001100110011
    case 1 => 0x0001000100010001
    case 2 => 0x0111011101110111
    case 3 => 0x0001001100110111
    case 4 => 0x0000000100010011
    case 5 => 0x0011011101111111
    case 6 => 0x0001001101111111
    case 7 => 0x0000000100110111
    case 8 => 0x0000000000010011
    case 9 => 0x0011011111111111
    case 10 => 0x0000000101111111
    case 11 => 0x0000000000010111
    case 12 => 0x0001011111111111
    case 13 => 0x0000000011111111
    case 14 => 0x0000111111111111
    case 15 => 0x0000000000001111
    case 16 => 0x0000100011101111
    case 17 => 0x0111000100000000
    case 18 => 0x0000000010001110
    case 19 => 0x0111001100010000
    case 20 => 0x0011000100000000
    case 21 => 0x0000100011001110
    case 22 => 0x0000000010001100
    case 23 => 0x0111001100110001
    case 24 => 0x0011000100010000
    case 25 => 0x0000100010001100
    case 26 => 0x0110011001100110
    case 27 => 0x0011011001101100
    case 28 => 0x0001011111101000
    case 29 => 0x0000111111110000
    case 30 => 0x0111000110001110
    case 31 => 0x0011100110011100
    case 32 => 0x0101010101010101
    case 33 => 0x0000111100001111
    case 34 => 0x0101101001011010
    case 35 => 0x0011001111001100
    case 36 => 0x0011110000111100
    case 37 => 0x0101010110101010
    case 38 => 0x0110100101101001
    case 39 => 0x0101101010100101
    case 40 => 0x0111001111001110
    case 41 => 0x0001001111001000
    case 42 => 0x0011001001001100
    case 43 => 0x0011101111011100
    case 44 => 0x0110100110010110
    case 45 => 0x0011110011000011
    case 46 => 0x0110011010011001
    case 47 => 0x0000011001100000
    case 48 => 0x0100111001000000
    case 49 => 0x0010011100100000
    case 50 => 0x0000001001110010
    case 51 => 0x0000010011100100
    case 52 => 0x0110110010010011
    case 53 => 0x0011011011001001
    case 54 => 0x0110001110011100
    case 55 => 0x0011100111000110
    case 56 => 0x0110110011001001
    case 57 => 0x0110001100111001
    case 58 => 0x0111111010000001
    case 59 => 0x0001100011100111
    case 60 => 0x0000111100110011
    case 61 => 0x0011001111110000
    case 62 => 0x0010001011101110
    case _ => 0x0100010001110111
  }

  function PartitionTable3(p: nat): bv64 {
    match p
    case 0 => 0x0011001102212222
    case 1 => 0x0001001122112221
    case 2 => 0x0000200122112211
    case 3 => 0x0222002200110111
    case 4 => 0x0000000011221122
    case 5 => 0x0011001100220022
    case 6 => 0x0022002211111111
    case 7 => 0x0011001122112211
    case 8 => 0x0000000011112222
    case 9 => 0x0000111111112222
    case 10 => 0x0000111122222222
    case 11 => 0x0012001200120012
    case 12 => 0x0112011201120112
    case 13 => 0x0122012201220122
    case 14 => 0x0011011211221222
    case 15 => 0x0011200122002220
    case 16 => 0x0001001101121122
    case 17 => 0x0111001120012200
    case 18 => 0x0000112211221122
    case 19 => 0x0022002200221111
    case 20 => 0x0111011102220222
    case 21 => 0x0001000122212221
    case 22 => 0x0000001101220122
    case 23 => 0x0000110022102210
    case 24 => 0x0122012200110000
    case 25 => 0x0012001211222222
    case 26 => 0x0110122112210110
    case 27 => 0x0000011012211221
    case 28 => 0x0022110211020022
    case 29 => 0x0110011020022222
    case 30 => 0x0011012201220011
    case 31 => 0x0000200022112221
    case 32 => 0x0000000211221222
    case 33 => 0x0222002200120011
    case 34 => 0x0011001200220222
    case 35 => 0x0120012001200120
    case 36 => 0x0000111122220000
    case 37 => 0x0120120120120120
    case 38 => 0x0120201212010120
    case 39 => 0x0011220011220011
    case 40 => 0x0011112222000011
    case 41 => 0x0101010122222222
    case 42 => 0x0000000021212121
    case 43 => 0x0022112200221122
    case 44 => 0x0022001100220011
    case 45 => 0x0220122102201221
    case 46 => 0x0101222222220101
    case 47 => 0x0000212121212121
    case 48 => 0x0101010101012222
    case 49 => 0x0222011102220111
    case 50 => 0x0002111200021112
    case 51 => 0x0000211221122112
    case 52 => 0x0222011101110222
    case 53 => 0x0002111211120002
    case 54 => 0x0110011001102222
    case 55 => 0x0000000021122112
    case 56 => 0x0110011022222222
    case 57 => 0x0022001100110022
    case 58 => 0x0022112211220022
    case 59 => 0x0000000000002112
    case 60 => 0x0002000100020001
    case 61 => 0x0222122202221222
    case 62 => 0x0101222222222222
    case _ => 0x0111201122012220
  }

  function AnchorTable2(p: nat): nat {
    match p
    case 0 => 15
    case 1 => 15
    case 2 => 15
    case 3 => 15
    case 4 => 15
    case 5 => 15
    case 6 => 15
    case 7 => 15
    case 8 => 15
    case 9 => 15
    case 10 => 15
    case 11 => 15
    case 12 => 15
    case 13 => 15
    case 14 => 15
    case 15 => 15
    case 16 => 15
    case 17 => 2
    case 18 => 8
    case 19 => 2
    case 20 => 2
    case 21 => 8
    case 22 => 8
    case 23 => 15
    case 24 => 2
    case 25 => 8
    case 26 => 2
    case 27 => 2
    case 28 => 8
    case 29 => 8
    case 30 => 2
    case 31 => 2
    case 32 => 15
    case 33 => 15
    case 34 => 6
    case 35 => 8
    case 36 => 2
    case 37 => 8
    case 38 => 15
    case 39 => 15
    case 40 => 2
    case 41 => 8
    case 42 => 2
    case 43 => 2
    case 44 => 2
    case 45 => 15
    case 46 => 15
    case 47 => 6
    case 48 => 6
    case 49 => 2
    case 50 => 6
    case 51 => 8
    case 52 => 15
    case 53 => 15
    case 54 => 2
    case 55 => 2
    case 56 => 15
    case 57 => 15
    case 58 => 15
    case 59 => 15
    case 60 => 15
    case 61 => 2
    case 62 => 2
    case _ => 15
  }

  function AnchorTable3a(p: nat): nat {
    match p
    case 0 => 3
    case 1 => 3
    case 2 => 15
    case 3 => 15
    case 4 => 8
    case 5 => 3
    case 6 => 15
    case 7 => 15
    case 8 => 8
    case 9 => 8
    case 10 => 6
    case 11 => 6
    case 12 => 6
    case 13 => 5
    case 14 => 3
    case 15 => 3
    case 16 => 3
    case 17 => 3
    case 18 => 8
    case 19 => 15
    case 20 => 3
    case 21 => 3
    case 22 => 6
    case 23 => 10
    case 24 => 5
    case 25 => 8
    case 26 => 8
    case 27 => 6
    case 28 => 8
    case 29 => 5
    case 30 => 15
    case 31 => 15
    case 32 => 8
    case 33 => 15
    case 34 => 3
    case 35 => 5
    case 36 => 6
    case 37 => 10
    case 38 => 8
    case 39 => 15
    case 40 => 15
    case 41 => 3
    case 42 => 15
    case 43 => 5
    case 44 => 15
    case 45 => 15
    case 46 => 15
    case 47 => 15
    case 48 => 3
    case 49 => 15
    case 50 => 5
    case 51 => 5
    case 52 => 5
    case 53 => 8
    case 54 => 5
    case 55 => 10
    case 56 => 5
    case 57 => 10
    case 58 => 8
    case 59 => 13
    case 60 => 15
    case 61 => 12
    case 62 => 3
    case _ => 3
  }

  function AnchorTable3b(p: nat): nat {
    match p
    case 0 => 15
    case 1 => 8
    case 2 => 8
    case 3 => 3
    case 4 => 15
    case 5 => 15
    case 6 => 3
    case 7 => 8
    case 8 => 15
    case 9 => 15
    case 10 => 15
    case 11 => 15
    case 12 => 15
    case 13 => 15
    case 14 => 15
    case 15 => 8
    case 16 => 15
    case 17 => 8
    case 18 => 15
    case 19 => 3
    case 20 => 15
    case 21 => 8
    case 22 => 15
    case 23 => 8
    case 24 => 3
    case 25 => 15
    case 26 => 6
    case 27 => 10
    case 28 => 15
    case 29 => 15
    case 30 => 10
    case 31 => 8
    case 32 => 15
    case 33 => 3
    case 34 => 15
    case 35 => 10
    case 36 => 10
    case 37 => 8
    case 38 => 9
    case 39 => 10
    case 40 => 6
    case 41 => 15
    case 42 => 8
    case 43 => 15
    case 44 => 3
    case 45 => 6
    case 46 => 6
    case 47 => 8
    case 48 => 15
    case 49 => 3
    case 50 => 15
    case 51 => 15
    case 52 => 15
    case 53 => 15
    case 54 => 15
    case 55 => 15
    case 56 => 15
    case 57 => 15
    case 58 => 15
    case 59 => 15
    case 60 => 3
    case 61 => 15
    case 62 => 15
    case _ => 8
  }

  // ---------- what the decoders rely on ----------

  lemma Anchors2(p: nat)
    requires p < 64
    ensures 0 < AnchorTable2(p) < 16
    ensures Digit(PartitionTable2(p), 0) == 0 && Digit(PartitionTable2(p), AnchorTable2(p)) == 1
  {
    hide AnchorTable2, PartitionTable2, Digit;
    Anchors2c(p);
    if p < 16 {
      Anchors20(p);
    } else if p < 32 {
      Anchors21(p);
    } else if p < 48 {
      Anchors22(p);
    } else if p < 56 {
      Anchors23(p);
    } else {
      Anchors24(p);
    }
  }

  lemma Anchors2c(p: nat)
    requires p < 64
    ensures Digit(PartitionTable2(p), 0) == 0
  {
  }

  lemma Anchors20(p: nat)
    requires 0 <= p < 16
    ensures 0 < AnchorTable2(p) < 16
    ensures Digit(PartitionTable2(p), AnchorTable2(p)) == 1
  {
  }

  lemma Anchors21(p: nat)
    requires 16 <= p < 32
    ensures 0 < AnchorTable2(p) < 16
    ensures Digit(PartitionTable2(p), AnchorTable2(p)) == 1
  {
  }

  lemma Anchors22(p: nat)
    requires 32 <= p < 48
    ensures 0 < AnchorTable2(p) < 16
    ensures Digit(PartitionTable2(p), AnchorTable2(p)) == 1
  {
  }

  lemma Anchors23(p: nat)
    requires 48 <= p < 56
    ensures 0 < AnchorTable2(p) < 16
    ensures Digit(PartitionTable2(p), AnchorTable2(p)) == 1
  {
  }

  lemma Anchors24(p: nat)
    requires 56 <= p < 64
    ensures 0 < AnchorTable2(p) < 16
    ensures Digit(PartitionTable2(p), AnchorTable2(p)) == 1
  {
  }

  lemma Anchors3a(p: nat)
    requires p < 64
    ensures 0 < AnchorTable3a(p) < 16 && Digit(PartitionTable3(p), AnchorTable3a(p)) == 1
  {
    if p < 16 {
      Anchors3a0(p);
    } else if p < 32 {
      Anchors3a1(p);
    } else if p < 48 {
      Anchors3a2(p);
    } else if p < 56 {
      Anchors3a3(p);
    } else {
      Anchors3a4(p);
    }
  }

  lemma Anchors3a0(p: nat)
    requires 0 <= p < 16
    ensures 0 < AnchorTable3a(p) < 16
    ensures Digit(PartitionTable3(p), AnchorTable3a(p)) == 1
  {
  }

  lemma Anchors3a1(p: nat)
    requires 16 <= p < 32
    ensures 0 < AnchorTable3a(p) < 16
    ensures Digit(PartitionTable3(p), AnchorTable3a(p)) == 1
  {
  }

  lemma Anchors3a2(p: nat)
    requires 32 <= p < 48
    ensures 0 < AnchorTable3a(p) < 16
    ensures Digit(PartitionTable3(p), AnchorTable3a(p)) == 1
  {
  }

  lemma Anchors3a3(p: nat)
    requires 48 <= p < 56
    ensures 0 < AnchorTable3a(p) < 16
    ensures Digit(PartitionTable3(p), AnchorTable3a(p)) == 1
  {
  }

  lemma Anchors3a4(p: nat)
    requires 56 <= p < 64
    ensures 0 < AnchorTable3a(p) < 16
    ensures Digit(PartitionTable3(p), AnchorTable3a(p)) == 1
  {
  }

  lemma Anchors3b(p: nat)
    requires p < 64
    ensures 0 < AnchorTable3b(p) < 16 && Digit(PartitionTable3(p), AnchorTable3b(p)) == 2
  {
    if p < 16 {
      Anchors3b0(p);
    } else if p < 32 {
      Anchors3b1(p);
    } else if p < 48 {
      Anchors3b2(p);
    } else if p < 56 {
      Anchors3b3(p);
    } else {
      Anchors3b4(p);
    }
  }

  lemma Anchors3b0(p: nat)
    requires 0 <= p < 16
    ensures 0 < AnchorTable3b(p) < 16
    ensures Digit(PartitionTable3(p), AnchorTable3b(p)) == 2
  {
  }

  lemma Anchors3b1(p: nat)
    requires 16 <= p < 32
    ensures 0 < AnchorTable3b(p) < 16
    ensures Digit(PartitionTable3(p), AnchorTable3b(p)) == 2
  {
  }

  lemma Anchors3b2(p: nat)
    requires 32 <= p < 48
    ensures 0 < AnchorTable3b(p) < 16
    ensures Digit(PartitionTable3(p), AnchorTable3b(p)) == 2
  {
  }

  lemma Anchors3b3(p: nat)
    requires 48 <= p < 56
    ensures 0 < AnchorTable3b(p) < 16
    ensures Digit(PartitionTable3(p), AnchorTable3b(p)) == 2
  {
  }

  lemma Anchors3b4(p: nat)
    requires 56 <= p < 64
    ensures 0 < AnchorTable3b(p) < 16
    ensures Digit(PartitionTable3(p), AnchorTable3b(p)) == 2
  {
  }

  lemma Anchors3c(p: nat)
    requires p < 64
    ensures Digit(PartitionTable3(p), 0) == 0
  {
  }

  lemma BinaryRow(p: nat)
    requires p < 64
    ensures PartitionTable2(p) & 0xeeee_eeee_eeee_eeee == 0
  {
    if p < 16 {
      assert PartitionTable2(p) & 0xeeee_eeee_eeee_eeee == 0;
    } else if p < 32 {
      assert PartitionTable2(p) & 0xeeee_eeee_eeee_eeee == 0;
    } else if p < 48 {
      assert PartitionTable2(p) & 0xeeee_eeee_eeee_eeee == 0;
    } else {
      assert PartitionTable2(p) & 0xeeee_eeee_eeee_eeee == 0;
    }
  }

  lemma BinaryDigit(row: bv64, t: nat)
    requires row & 0xeeee_eeee_eeee_eeee == 0
    ensures Digit(row, t) < 2
  {
  }

  lemma TernaryRow(p: nat)
    requires p < 64
    ensures PartitionTable3(p) & 0xcccc_cccc_cccc_cccc == 0
    ensures PartitionTable3(p) & (PartitionTable3(p) >> 1) & 0x1111_1111_1111_1111 == 0
  {
  }

  lemma TernaryDigit(row: bv64, t: nat)
    requires row & 0xcccc_cccc_cccc_cccc == 0 && row & (row >> 1) & 0x1111_1111_1111_1111 == 0
    ensures Digit(row, t) < 3
  {
  }

  // ---------- a partition as the decoders use it ----------

  /** The subset of each texel and the anchor texel of each subset. */
  datatype Partitioning = Partitioning(subset: seq<nat>, anchors: seq<nat>)

  ghost predicate Sound(part: Partitioning, ns: nat) {
    && |part.subset| == 16 && |part.anchors| == ns > 0
    && part.anchors[0] == 0
    && (forall t :: 0 <= t < 16 ==> part.subset[t] < ns)
    && (forall s :: 0 <= s < ns ==> part.anchors[s] < 16 && part.subset[part.anchors[s]] == s)
  }

  function Small(d: bv64): nat {
    if d == 0 then 0 else if d == 1 then 1 else if d == 2 then 2 else 3
  }

  /** `subsetIndex` for every texel and `anchorIndex` for every subset. */
  function PartitioningOf(ns: nat, p: nat): Partitioning {
    match ns
    case 2 => Partitioning(seq(16, (t: nat) => Small(Digit(PartitionTable2(p), t))), [0, AnchorTable2(p)])
    case 3 => Partitioning(seq(16, (t: nat) => Small(Digit(PartitionTable3(p), t))),
      [0, AnchorTable3a(p), AnchorTable3b(p)])
    case _ => Partitioning(seq(16, _ => 0), [0])
  }

  /** In every partition of the tables each anchor texel lies in the subset it is the anchor of. */
  lemma TablesAreSound(ns: nat, p: nat)
    requires 1 <= ns <= 3 && p < 64
    ensures Sound(PartitioningOf(ns, p), ns)
  {
    var part := PartitioningOf(ns, p);
    if ns == 2 {
      Anchors2(p);
      BinaryRow(p);
      forall t | 0 <= t < 16 ensures part.subset[t] < 2 { BinaryDigit(PartitionTable2(p), t); }
    } else if ns == 3 {
      Anchors3a(p); Anchors3b(p); Anchors3c(p);
      TernaryRow(p);
      forall t | 0 <= t < 16 ensures part.subset[t] < 3 { TernaryDigit(PartitionTable3(p), t); }
    }
  }
}
