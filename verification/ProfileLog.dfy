/** Log entries of MicroProfile (externals/microprofile/microprofile.h): a 64-bit word that packs a type,
    a timer index and the low 48 bits of a tick count. */
module ProfileLog {
  import opened BitMath
  import opened BitPacking

  const TICKS := 0x1_0000_0000_0000  // 2^48

  /** What a word stands for.  Meta and GPU entries are not replayed, but hold 48 bits at the same place. */
  datatype Entry = Enter(timer: nat, tick: int) | Leave(timer: nat, tick: int) | Other(tick: int)

  const LEAVE := 0
  const ENTER := 1
  const META := 2
  const GPU_EXTRA := 3

  /** `MicroProfileMakeLogIndex`. */
  function MakeEntry(begin: nat, token: nat, tick: nat): nat {
    Or(Low(tick, 48), Or(Shl(Low(token, 14), 48), Shl(begin, 62)))
  }

  function LogType(entry: nat): nat {
    Low(Shr(entry, 62), 2)
  }

  function LogTimerIndex(entry: nat): nat {
    Low(Shr(entry, 48), 14)
  }

  function LogTick(entry: nat): nat {
    Low(entry, 48)
  }

  function Decode(word: nat): Entry {
    var t := LogType(word);
    if t == LEAVE then Leave(LogTimerIndex(word), LogTick(word))
    else if t == ENTER then Enter(LogTimerIndex(word), LogTick(word))
    else Other(LogTick(word))
  }

  lemma {:induction false} OrOfShifts(a: nat, b: nat, k: nat)
    ensures Or(Shl(a, k), Shl(b, k)) == Shl(Or(a, b), k)
  {
    if k > 0 {
      OrOfShifts(a, b, k - 1);
      OrEven(Shl(a, k - 1), Shl(b, k - 1));
    }
  }

  lemma OrEven(a: nat, b: nat)
    ensures Or(2 * a, 2 * b) == 2 * Or(a, b)
  {
  }

  /** The three fields lie side by side, whatever their widths. */
  lemma FieldsAreJoined(tick: nat, token: nat, begin: nat, m: nat, n: nat)
    ensures Or(Low(tick, m), Or(Shl(Low(token, n), m), Shl(begin, m + n)))
      == Low(tick, m) + Shl(Low(token, n) + Shl(begin, n), m)
  {
    ShlShl(begin, n, m);
    OrOfShifts(Low(token, n), Shl(begin, n), m);
    OrIsSum(Low(token, n), begin, n);
    OrIsSum(Low(tick, m), Low(token, n) + Shl(begin, n), m);
  }

  lemma FieldsAreReadBack(tick: nat, token: nat, begin: nat, m: nat, n: nat)
    ensures var e := Low(tick, m) + Shl(Low(token, n) + Shl(begin, n), m);
            Low(e, m) == Low(tick, m) && Low(Shr(e, m), n) == Low(token, n) && Shr(e, m + n) == begin
  {
    var rest := Low(token, n) + Shl(begin, n);
    ShrOfJoin(Low(tick, m), rest, m);
    ShrOfJoin(Low(token, n), begin, n);
    ShrShr(Low(tick, m) + Shl(rest, m), m, n);
  }

  /** A packed entry gives back its type, the low 14 bits of its token and the low 48 bits of its tick. */
  lemma EntryRoundTrip(begin: nat, token: nat, tick: nat)
    requires begin < 4
    ensures var e := MakeEntry(begin, token, tick);
            LogType(e) == begin && LogTimerIndex(e) == Low(token, 14) && LogTick(e) == Low(tick, 48)
  {
    hide Low, Or, Shl, Shr;
    FieldsAreJoined(tick, token, begin, 48, 14);
    FieldsAreReadBack(tick, token, begin, 48, 14);
    TwoBits(begin);
  }

  lemma TwoBits(x: nat)
    requires x < 4
    ensures Low(x, 2) == x
  {
  }

  /** A word is read as the entry that was put, its tick as far as 48 bits hold it. */
  lemma EntryIsDecoded(token: nat, tick: nat)
    ensures Decode(MakeEntry(ENTER, token, tick)) == Enter(Low(token, 14), Low(tick, 48))
    ensures Decode(MakeEntry(LEAVE, token, tick)) == Leave(Low(token, 14), Low(tick, 48))
    ensures Decode(MakeEntry(META, token, tick)) == Other(Low(tick, 48))
    ensures Decode(MakeEntry(GPU_EXTRA, token, tick)) == Other(Low(tick, 48))
  {
    hide MakeEntry, LogType, LogTimerIndex, LogTick, Low;
    EntryRoundTrip(ENTER, token, tick);
    EntryRoundTrip(LEAVE, token, tick);
    EntryRoundTrip(META, token, tick);
    EntryRoundTrip(GPU_EXTRA, token, tick);
  }

  /** Timers have 14 bits and ticks 48, whatever the word. */
  lemma DecodedFits(word: nat)
    ensures 0 <= Decode(word).tick < TICKS && (!Decode(word).Other? ==> Decode(word).timer < 0x4000)
  {
    TickRange();
    hide Low;
  }

  lemma TickRange()
    ensures Pow2(14) == 0x4000 && Pow2(48) == TICKS
  {
    assert Pow2(14) == 0x4000;
    assert Pow2(24) == 0x100_0000 by { assert Pow2(24) == 1024 * Pow2(14); }
    assert Pow2(36) == 0x1000 * Pow2(24);
    assert Pow2(48) == 0x1000 * Pow2(36);
  }

  // ---------- ticks ----------

  /** `MicroProfileLogTickDifference`: both words are shifted left by 16 in 64 bits, which drops type and
      timer, subtracted, and the difference is shifted back as a signed number. */
  function WordDifference(start: nat, end: nat): int {
    var shifted := (end * 0x10000 - start * 0x10000) % 0x1_0000_0000_0000_0000;
    var signed := if shifted >= 0x8000_0000_0000_0000 then shifted - 0x1_0000_0000_0000_0000 else shifted;
    signed / 0x10000
  }

  lemma WordDifferenceIsOfTicks(start: nat, end: nat)
    ensures 0 <= LogTick(start) < TICKS && 0 <= LogTick(end) < TICKS
    ensures WordDifference(start, end) == TickDifference(LogTick(start), LogTick(end))
  {
    TickIsRemainder(start);
    TickIsRemainder(end);
    var a, b := start % TICKS, end % TICKS;
    var p, q := start / TICKS, end / TICKS;
    var word := 0x1_0000_0000_0000_0000;
    assert end * 0x10000 - start * 0x10000 == (b * 0x10000 - a * 0x10000) + word * (q - p);
    SameRemainder(b * 0x10000 - a * 0x10000, q - p);
    hide LogTick;
  }

  lemma TickIsRemainder(word: nat)
    ensures LogTick(word) == word % TICKS
  {
    TickRange();
    SplitsAt(word, 48);
    ShlIsProduct(Shr(word, 48), 48);
    hide Low, Shl, Shr;
    RemainderOf(word, Shr(word, 48), Low(word, 48));
  }

  lemma RemainderOf(word: nat, q: nat, r: nat)
    requires word == r + q * TICKS && r < TICKS
    ensures r == word % TICKS
  {
    SameRemainderOf(r, q);
  }

  lemma SameRemainderOf(r: nat, q: nat)
    requires r < TICKS
    ensures (r + q * TICKS) % TICKS == r
  {
    assert (r + q * TICKS) / TICKS == q;
  }

  lemma SameRemainder(x: int, k: int)
    ensures (x + 0x1_0000_0000_0000_0000 * k) % 0x1_0000_0000_0000_0000 == x % 0x1_0000_0000_0000_0000
  {
    var word := 0x1_0000_0000_0000_0000;
    assert x + word * k == word * (x / word + k) + x % word;
  }

  /** The same of two 48-bit ticks. */
  function TickDifference(start: int, end: int): int
    requires 0 <= start < TICKS && 0 <= end < TICKS
  {
    WordDifference(start, end)
  }

  /** The difference is exact for all tick counts less than 2^47 apart, however often the 48 stored
      bits have wrapped around. */
  lemma DifferenceIsExact(a: int, b: int)
    requires -0x8000_0000_0000 <= b - a < 0x8000_0000_0000
    ensures TickDifference(a % TICKS, b % TICKS) == b - a
  {
    var ta, tb := a % TICKS, b % TICKS;
    var d := tb - ta;
    assert (b - a - d) % TICKS == 0;
    assert b - a == d || b - a == d + TICKS || b - a == d - TICKS;
    if d < 0 {
      assert (d * 0x10000) % 0x1_0000_0000_0000_0000 == (d + TICKS) * 0x10000;
    }
  }
}
