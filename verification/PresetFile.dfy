/** The files of the profiler's presets (externals/microprofile/microprofileui.h), byte by byte: a header with the
    scalar settings and the offsets of names, which follow in the file with a terminating NUL. */
module PresetFile {
  import opened Wrappers

  const MAX_GROUPS := 48
  const MAX_THREADS := 32
  const MAX_GRAPHS := 5
  const NAME_MAX := 64
  const MAGIC := 0x28586813
  const VERSION := 0x102
  const NUL := '\0'

  /** 101 words of four bytes. */
  const HEADER_SIZE := 404

  datatype Settings = Settings(allGroupsWanted: nat, allThreadsWanted: nat, aggregateFlip: nat, referenceTime: nat,
                               bars: nat, display: nat, opacityBackground: nat, opacityForeground: nat)

  datatype Header = Header(magic: nat, version: nat, groups: seq<nat>, threads: seq<nat>, graphName: seq<nat>,
                           graphGroup: seq<nat>, settings: Settings, showSpikes: nat)

  predicate NameOk(name: string) {
    |name| < NAME_MAX && NUL !in name
  }

  // ---------- the header in the file ----------

  predicate IsWord(w: nat) {
    w < 0x1_0000_0000
  }

  predicate AreWords(words: seq<nat>) {
    forall i :: 0 <= i < |words| ==> IsWord(words[i])
  }

  function ByteOf(x: nat): char {
    (x % 256) as char
  }

  /** The lowest byte first. */
  function WordBytes(w: nat): string {
    [ByteOf(w), ByteOf(w / 256), ByteOf(w / 256 / 256), ByteOf(w / 256 / 256 / 256)]
  }

  function AllBytes(words: seq<nat>): (r: string)
    ensures |r| == 4 * |words|
  {
    if words == [] then "" else WordBytes(words[0]) + AllBytes(words[1..])
  }

  function Joined(a: nat, b: nat, c: nat, d: nat): nat {
    a + 256 * (b + 256 * (c + 256 * d))
  }

  function WordAt(file: string, k: nat): nat
    requires 4 * k + 4 <= |file|
  {
    Joined(file[4 * k] as nat, file[4 * k + 1] as nat, file[4 * k + 2] as nat, file[4 * k + 3] as nat)
  }

  function WordsAt(file: string, k: nat, n: nat): seq<nat>
    requires 4 * (k + n) <= |file|
  {
    seq<nat>(n, i requires 0 <= i < n => WordAt(file, k + i))
  }

  lemma WordIsRead(w: nat, rest: string)
    requires IsWord(w)
    ensures WordAt(WordBytes(w) + rest, 0) == w
  {
    var b := w / 256;
    var c := b / 256;
    assert w == Joined(w % 256, b % 256, c % 256, c / 256 % 256);
    hide Joined;
    var file := WordBytes(w) + rest;
    assert file[0] == ByteOf(w) && file[1] == ByteOf(b) && file[2] == ByteOf(c) && file[3] == ByteOf(c / 256);
  }

  lemma WordIsLater(word: string, rest: string, k: nat)
    requires |word| == 4 && 4 * k + 4 <= |rest|
    ensures WordAt(word + rest, k + 1) == WordAt(rest, k)
  {
    var file := word + rest;
    assert file[4 * k + 4] == rest[4 * k] && file[4 * k + 5] == rest[4 * k + 1];
    assert file[4 * k + 6] == rest[4 * k + 2] && file[4 * k + 7] == rest[4 * k + 3];
  }

  lemma {:induction false} WordsAreRead(words: seq<nat>, rest: string, k: nat)
    requires AreWords(words) && k < |words|
    ensures WordAt(AllBytes(words) + rest, k) == words[k]
  {
    var more := AllBytes(words[1..]) + rest;
    assert AllBytes(words) + rest == WordBytes(words[0]) + more;
    hide WordAt, ByteOf;
    if k == 0 {
      WordIsRead(words[0], more);
    } else {
      WordsAreRead(words[1..], rest, k - 1);
      WordIsLater(WordBytes(words[0]), more, k - 1);
    }
  }

  function SettingsWords(s: Settings): seq<nat> {
    [s.allGroupsWanted, s.allThreadsWanted, s.aggregateFlip, s.referenceTime, s.bars, s.display,
     s.opacityBackground, s.opacityForeground]
  }

  function HeaderWords(h: Header): seq<nat> {
    [h.magic, h.version] + h.groups + h.threads + h.graphName + h.graphGroup
    + SettingsWords(h.settings) + [h.showSpikes]
  }

  predicate HeaderOk(h: Header) {
    && |h.groups| == MAX_GROUPS && |h.threads| == MAX_THREADS
    && |h.graphName| == MAX_GRAPHS && |h.graphGroup| == MAX_GRAPHS
  }

  const SETTINGS_AT := 2 + MAX_GROUPS + MAX_THREADS + 2 * MAX_GRAPHS

  /** The header that a file starts with. */
  function HeaderOf(file: string): (h: Header)
    requires |file| >= HEADER_SIZE
    ensures HeaderOk(h)
  {
    var s := WordsAt(file, SETTINGS_AT, 9);
    Header(WordAt(file, 0), WordAt(file, 1), WordsAt(file, 2, MAX_GROUPS), WordsAt(file, 2 + MAX_GROUPS, MAX_THREADS),
           WordsAt(file, 2 + MAX_GROUPS + MAX_THREADS, MAX_GRAPHS),
           WordsAt(file, 2 + MAX_GROUPS + MAX_THREADS + MAX_GRAPHS, MAX_GRAPHS),
           Settings(s[0], s[1], s[2], s[3], s[4], s[5], s[6], s[7]), s[8])
  }

  lemma WordsAtAre(file: string, words: seq<nat>, k: nat, part: seq<nat>)
    requires 4 * |words| <= |file| && forall i :: 0 <= i < |words| ==> WordAt(file, i) == words[i]
    requires k + |part| <= |words| && forall i :: 0 <= i < |part| ==> words[k + i] == part[i]
    ensures WordsAt(file, k, |part|) == part
  {
    hide WordAt;
  }

  lemma HeaderPlaces(h: Header)
    requires HeaderOk(h)
    ensures |HeaderWords(h)| == HEADER_SIZE / 4
    ensures forall i :: 0 <= i < MAX_GROUPS ==> HeaderWords(h)[2 + i] == h.groups[i]
    ensures forall i :: 0 <= i < MAX_THREADS ==> HeaderWords(h)[2 + MAX_GROUPS + i] == h.threads[i]
    ensures forall i :: 0 <= i < MAX_GRAPHS ==> HeaderWords(h)[2 + MAX_GROUPS + MAX_THREADS + i] == h.graphName[i]
    ensures forall i :: 0 <= i < MAX_GRAPHS ==>
      HeaderWords(h)[2 + MAX_GROUPS + MAX_THREADS + MAX_GRAPHS + i] == h.graphGroup[i]
    ensures forall i :: 0 <= i < 8 ==> HeaderWords(h)[SETTINGS_AT + i] == SettingsWords(h.settings)[i]
    ensures HeaderWords(h)[0] == h.magic && HeaderWords(h)[1] == h.version && HeaderWords(h)[100] == h.showSpikes
  {
    assert |SettingsWords(h.settings)| == 8;
    hide SettingsWords;
  }

  /** A header that is written is read again. */
  lemma HeaderComesBack(h: Header, rest: string)
    requires HeaderOk(h) && AreWords(HeaderWords(h))
    ensures |AllBytes(HeaderWords(h))| == HEADER_SIZE && HeaderOf(AllBytes(HeaderWords(h)) + rest) == h
  {
    var words := HeaderWords(h);
    var file := AllBytes(words) + rest;
    HeaderPlaces(h);
    forall i | 0 <= i < |words|
      ensures WordAt(file, i) == words[i]
    {
      WordsAreRead(words, rest, i);
    }
    hide AllBytes, WordAt, WordsAt, HeaderWords;
    WordsAtAre(file, words, 2, h.groups);
    WordsAtAre(file, words, 2 + MAX_GROUPS, h.threads);
    WordsAtAre(file, words, 2 + MAX_GROUPS + MAX_THREADS, h.graphName);
    WordsAtAre(file, words, 2 + MAX_GROUPS + MAX_THREADS + MAX_GRAPHS, h.graphGroup);
    WordsAtAre(file, words, SETTINGS_AT, SettingsWords(h.settings) + [h.showSpikes]);
  }

  // ---------- names in the file ----------

  function Lower(c: char): char {
    if 'A' <= c <= 'Z' then (c as int + 32) as char else c
  }

  predicate SameName(a: string, b: string) {
    |a| == |b| && forall k :: 0 <= k < |a| ==> Lower(a[k]) == Lower(b[k])
  }

  datatype Outcome = Same | Differs | PastEnd

  /** The comparison of the string in the file with a name, which ends at the first difference or behind the
      common end; `PastEnd` if it gets to the end of the file before. */
  function CompareFrom(file: string, pos: nat, name: string, k: nat): Outcome
    requires k <= |name|
    decreases |name| - k
  {
    if pos + k >= |file| then PastEnd
    else if k == |name| then if file[pos + k] == NUL then Same else Differs
    else if Lower(file[pos + k]) != Lower(name[k]) then Differs
    else CompareFrom(file, pos, name, k + 1)
  }

  function Compare(file: string, pos: nat, name: string): Outcome {
    CompareFrom(file, pos, name, 0)
  }

  /** What is left of the file is the beginning of the name, or the whole name without its NUL. */
  predicate IsCutOff(file: string, pos: nat, name: string) {
    pos >= |file| || (|file| <= pos + |name| && SameName(file[pos..], name[..|file| - pos]))
  }

  predicate IsNameAt(file: string, pos: nat, name: string) {
    pos + |name| < |file| && SameName(file[pos..pos + |name|], name) && file[pos + |name|] == NUL
  }

  ghost predicate SameFrom(file: string, pos: nat, name: string, k: nat, end: int) {
    forall i :: k <= i < end && pos + i < |file| && i < |name| ==> Lower(file[pos + i]) == Lower(name[i])
  }

  lemma {:induction false} CompareFromIs(file: string, pos: nat, name: string, k: nat)
    requires k <= |name|
    ensures CompareFrom(file, pos, name, k) == PastEnd
       <==> |file| <= pos + |name| && SameFrom(file, pos, name, k, |file| - pos)
    ensures CompareFrom(file, pos, name, k) == Same
       <==> pos + |name| < |file| && SameFrom(file, pos, name, k, |name|) && file[pos + |name|] == NUL
    decreases |name| - k
  {
    hide Lower;
    if pos + k < |file| && k < |name| && Lower(file[pos + k]) == Lower(name[k]) {
      CompareFromIs(file, pos, name, k + 1);
    }
  }

  /** When a comparison is past the end, and when it finds the name. */
  lemma CompareIs(file: string, pos: nat, name: string)
    ensures Compare(file, pos, name) == PastEnd <==> IsCutOff(file, pos, name)
    ensures Compare(file, pos, name) == Same <==> IsNameAt(file, pos, name)
  {
    CompareFromIs(file, pos, name, 0);
    hide Lower, CompareFrom;
    if pos < |file| <= pos + |name| {
      var n := |file| - pos;
      assert forall i :: 0 <= i < n ==> file[pos..][i] == file[pos + i] && name[..n][i] == name[i];
      assert IsCutOff(file, pos, name) <==> SameFrom(file, pos, name, 0, n);
    } else if pos + |name| < |file| {
      var found := file[pos..pos + |name|];
      assert forall i :: 0 <= i < |name| ==> found[i] == file[pos + i];
    }
  }

  /** An offset is given and the string there is this name. */
  predicate Matches(offset: nat, file: string, name: string) {
    offset != 0 && Compare(file, offset, name) == Same
  }

  /** An offset is given and the string there is compared with this name past the end of the file. */
  predicate RunsPast(offset: nat, file: string, name: string) {
    offset != 0 && Compare(file, offset, name) == PastEnd
  }

  /** `name` with its NUL is in the file, behind the header. */
  ghost predicate NameAt(file: string, offset: nat, name: string) {
    && HEADER_SIZE <= offset && offset + |name| < |file|
    && file[offset..offset + |name|] == name && file[offset + |name|] == NUL
  }

  lemma {:induction false} NameMatchesFrom(file: string, offset: nat, name: string, other: string, k: nat)
    requires NameAt(file, offset, name) && NUL !in name && NUL !in other && k <= |name| && k <= |other|
    requires forall i :: 0 <= i < k ==> Lower(name[i]) == Lower(other[i])
    ensures CompareFrom(file, offset, other, k) == if SameName(name, other) then Same else Differs
    decreases |other| - k
  {
    if k < |name| {
      assert file[offset..offset + |name|][k] == name[k] && name[k] in name;
    }
    if k < |other| {
      assert other[k] in other && Lower(other[k]) != NUL;
      if k < |name| && Lower(name[k]) == Lower(other[k]) {
        NameMatchesFrom(file, offset, name, other, k + 1);
      }
    }
  }

  /** A saved name is never compared past the end, and found as every name that is the same ignoring case. */
  lemma NameMatches(file: string, offset: nat, name: string, other: string)
    requires NameAt(file, offset, name) && NUL !in name && NUL !in other
    ensures Compare(file, offset, other) == if SameName(name, other) then Same else Differs
  {
    NameMatchesFrom(file, offset, name, other, 0);
  }

  /** What was behind the header is still there. */
  ghost predicate Extends(file: string, more: string) {
    HEADER_SIZE <= |file| <= |more| && forall i :: HEADER_SIZE <= i < |file| ==> file[i] == more[i]
  }

  lemma NameStays(file: string, more: string, offset: nat, name: string)
    requires NameAt(file, offset, name) && Extends(file, more)
    ensures NameAt(more, offset, name)
  {
    assert more[offset..offset + |name|] == file[offset..offset + |name|];
  }

  lemma ExtendsMore(file: string, more: string, most: string)
    requires Extends(file, more) && Extends(more, most)
    ensures Extends(file, most)
  {
  }

  // ---------- saving ----------

  /** The offset says where a name to be saved is, and is 0 if there is none. */
  ghost predicate Noted(file: string, offset: nat, name: Option<string>) {
    if name.Some? then NameAt(file, offset, name.value) else offset == 0
  }

  ghost predicate AllNoted(file: string, offsets: seq<nat>, saved: seq<Option<string>>) {
    |offsets| == |saved| && forall i :: 0 <= i < |saved| ==> Noted(file, offsets[i], saved[i])
  }

  predicate AllNamesOk(saved: seq<Option<string>>) {
    forall i :: 0 <= i < |saved| && saved[i].Some? ==> NameOk(saved[i].value)
  }

  lemma AllStay(file: string, more: string, offsets: seq<nat>, saved: seq<Option<string>>)
    requires AllNoted(file, offsets, saved) && Extends(file, more)
    ensures AllNoted(more, offsets, saved)
  {
    forall i | 0 <= i < |saved|
      ensures Noted(more, offsets[i], saved[i])
    {
      assert Noted(file, offsets[i], saved[i]);
      if saved[i].Some? {
        NameStays(file, more, offsets[i], saved[i].value);
      }
    }
  }

  lemma NotedNext(file: string, offsets: seq<nat>, saved: seq<Option<string>>, i: nat, offset: nat)
    requires i < |saved| && AllNoted(file, offsets, saved[..i]) && Noted(file, offset, saved[i])
    ensures AllNoted(file, offsets + [offset], saved[..i + 1])
  {
    hide Noted;
  }

  lemma OffsetsAreWords(file: string, offsets: seq<nat>, saved: seq<Option<string>>)
    requires AllNoted(file, offsets, saved) && IsWord(|file|)
    ensures AreWords(offsets)
  {
    forall i | 0 <= i < |offsets|
      ensures IsWord(offsets[i])
    {
      assert Noted(file, offsets[i], saved[i]);
    }
  }

  method WriteName(file: string, name: string) returns (offset: nat, more: string)
    requires |file| >= HEADER_SIZE
    ensures more == file + name + [NUL] && Extends(file, more) && NameAt(more, offset, name)
  {
    offset := |file|;
    more := file + name + [NUL];
    assert more[|file|..|file| + |name|] == name;
  }

  /** The names to be saved, one after the other. */
  method WriteNames(file: string, saved: seq<Option<string>>) returns (offsets: seq<nat>, more: string)
    requires |file| >= HEADER_SIZE && AllNamesOk(saved)
    ensures Extends(file, more) && AllNoted(more, offsets, saved) && |more| <= |file| + NAME_MAX * |saved|
  {
    offsets, more := [], file;
    for i := 0 to |saved|
      invariant Extends(file, more) && AllNoted(more, offsets, saved[..i]) && |more| <= |file| + NAME_MAX * i
    {
      ghost var before := more;
      var offset := 0;
      if saved[i].Some? {
        offset, more := WriteName(more, saved[i].value);
      }
      AllStay(before, more, offsets, saved[..i]);
      NotedNext(more, offsets, saved, i, offset);
      hide AllNoted, Noted;
      offsets := offsets + [offset];
    }
    assert saved[..|saved|] == saved;
  }

  /** A graph's group is written before its timer. */
  method WriteGraphs(file: string, groups: seq<Option<string>>, timers: seq<Option<string>>)
    returns (groupOffsets: seq<nat>, timerOffsets: seq<nat>, more: string)
    requires |file| >= HEADER_SIZE && |groups| == |timers| && AllNamesOk(groups) && AllNamesOk(timers)
    requires forall i :: 0 <= i < |groups| ==> (groups[i].Some? <==> timers[i].Some?)
    ensures Extends(file, more) && AllNoted(more, groupOffsets, groups) && AllNoted(more, timerOffsets, timers)
    ensures |more| <= |file| + 2 * NAME_MAX * |groups|
  {
    groupOffsets, timerOffsets, more := [], [], file;
    for i := 0 to |groups|
      invariant Extends(file, more) && |more| <= |file| + 2 * NAME_MAX * i
      invariant AllNoted(more, groupOffsets, groups[..i]) && AllNoted(more, timerOffsets, timers[..i])
    {
      ghost var before := more;
      var g, t := 0, 0;
      if groups[i].Some? {
        g, more := WriteName(more, groups[i].value);
        ghost var between := more;
        t, more := WriteName(more, timers[i].value);
        NameStays(between, more, g, groups[i].value);
      }
      AllStay(before, more, groupOffsets, groups[..i]);
      AllStay(before, more, timerOffsets, timers[..i]);
      NotedNext(more, groupOffsets, groups, i, g);
      NotedNext(more, timerOffsets, timers, i, t);
      hide AllNoted, Noted;
      groupOffsets, timerOffsets := groupOffsets + [g], timerOffsets + [t];
    }
    assert groups[..|groups|] == groups && timers[..|timers|] == timers;
  }
}
