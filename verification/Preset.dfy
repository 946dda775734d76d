/** Saving and loading the profiler's presets (externals/microprofile/microprofileui.h): the file has the names of
    the selected groups, threads and graphs.  Loading finds the names again among the registered ones, without
    regard to case. */
module Preset {
  import opened Wrappers
  import opened PresetFile

  datatype Timer = Timer(name: string, group: nat)

  /** The names known to the profiler; an unused group has the empty name, an unused thread slot none. */
  datatype Registry = Registry(groups: seq<string>, threads: seq<Option<string>>, timers: seq<Timer>)

  predicate RegistryOk(names: Registry) {
    && |names.groups| == MAX_GROUPS && |names.threads| == MAX_THREADS
    && (forall i :: 0 <= i < MAX_GROUPS ==> NameOk(names.groups[i]))
    && (forall i :: 0 <= i < MAX_THREADS && names.threads[i].Some? ==> NameOk(names.threads[i].value))
    && (forall j :: 0 <= j < |names.timers| ==> NameOk(names.timers[j].name) && names.timers[j].group < MAX_GROUPS)
  }

  // ---------- loading ----------

  /** The groups whose names are in the file. */
  ghost function LoadedGroups(names: Registry, offsets: seq<nat>, file: string): set<nat>
    requires RegistryOk(names) && |offsets| == MAX_GROUPS
  {
    set j | 0 <= j < MAX_GROUPS && exists i :: 0 <= i < MAX_GROUPS && Matches(offsets[i], file, names.groups[j])
  }

  /** Some group's name is compared with a string that the end of the file cuts off. */
  ghost predicate GroupsRunPast(names: Registry, offsets: seq<nat>, file: string)
    requires RegistryOk(names) && |offsets| == MAX_GROUPS
  {
    exists i, j :: 0 <= i < MAX_GROUPS && 0 <= j < MAX_GROUPS && RunsPast(offsets[i], file, names.groups[j])
  }

  ghost predicate LoadedThread(names: Registry, offsets: seq<nat>, file: string, j: nat)
    requires RegistryOk(names) && |offsets| == MAX_THREADS && j < MAX_THREADS
  {
    names.threads[j].Some? && exists i :: 0 <= i < MAX_THREADS && Matches(offsets[i], file, names.threads[j].value)
  }

  /** The same for the threads, as far as they exist. */
  ghost predicate ThreadsRunPast(names: Registry, offsets: seq<nat>, file: string)
    requires RegistryOk(names) && |offsets| == MAX_THREADS
  {
    exists i, j :: 0 <= i < MAX_THREADS && 0 <= j < MAX_THREADS && ThreadRunsPast(names, offsets[i], file, j)
  }

  predicate ThreadRunsPast(names: Registry, offset: nat, file: string, j: nat)
    requires RegistryOk(names) && j < MAX_THREADS
  {
    names.threads[j].Some? && RunsPast(offset, file, names.threads[j].value)
  }

  /** A graph's strings against timer `j`: the group's name is looked at only if the timer's is the same. */
  function CompareTimer(names: Registry, timerOffset: nat, groupOffset: nat, file: string, j: nat): Outcome
    requires RegistryOk(names) && j < |names.timers|
  {
    var timer := Compare(file, timerOffset, names.timers[j].name);
    if timer != Same then timer else Compare(file, groupOffset, names.groups[names.timers[j].group])
  }

  /** The search goes on as long as timers differ. */
  ghost predicate Reaches(names: Registry, timerOffset: nat, groupOffset: nat, file: string, j: nat)
    requires RegistryOk(names)
  {
    j < |names.timers| && forall k :: 0 <= k < j ==> CompareTimer(names, timerOffset, groupOffset, file, k) == Differs
  }

  /** The graph gets the first timer with its name in a group with its group's name. */
  ghost predicate LoadedGraph(names: Registry, timerOffset: nat, groupOffset: nat, file: string, graph: Option<nat>)
    requires RegistryOk(names)
  {
    if timerOffset == 0 || groupOffset == 0 then graph.None?
    else match graph
      case Some(j) =>
        && Reaches(names, timerOffset, groupOffset, file, j)
        && CompareTimer(names, timerOffset, groupOffset, file, j) == Same
      case None =>
        forall j :: 0 <= j < |names.timers| ==> CompareTimer(names, timerOffset, groupOffset, file, j) == Differs
  }

  ghost predicate GraphRunsPast(names: Registry, timerOffset: nat, groupOffset: nat, file: string)
    requires RegistryOk(names)
  {
    && timerOffset != 0 && groupOffset != 0
    && exists j :: && Reaches(names, timerOffset, groupOffset, file, j)
                   && CompareTimer(names, timerOffset, groupOffset, file, j) == PastEnd
  }

  /** There is exactly one outcome of the search. */
  lemma GraphIsDecided(names: Registry, timerOffset: nat, groupOffset: nat, file: string, a: Option<nat>,
                       b: Option<nat>)
    requires RegistryOk(names) && LoadedGraph(names, timerOffset, groupOffset, file, a)
    ensures !GraphRunsPast(names, timerOffset, groupOffset, file)
    ensures LoadedGraph(names, timerOffset, groupOffset, file, b) <==> a == b
  {
    hide RegistryOk, CompareTimer;
  }

  /** All groups are compared, until a comparison is past the end. */
  method LoadGroups(names: Registry, offsets: seq<nat>, file: string) returns (wanted: set<nat>, outside: bool)
    requires RegistryOk(names) && |offsets| == MAX_GROUPS
    ensures outside <==> GroupsRunPast(names, offsets, file)
    ensures !outside ==> wanted == LoadedGroups(names, offsets, file)
  {
    hide Matches, RunsPast, NameOk;
    wanted := {};
    for i := 0 to MAX_GROUPS
      invariant forall j ::
        j in wanted <==> 0 <= j < MAX_GROUPS && exists k :: 0 <= k < i && Matches(offsets[k], file, names.groups[j])
      invariant forall k, j :: 0 <= k < i && 0 <= j < MAX_GROUPS ==> !RunsPast(offsets[k], file, names.groups[j])
    {
      wanted, outside := LoadGroup(names, offsets[i], file, wanted);
      if outside {
        return;
      }
    }
    outside := false;
  }

  /** One string against all groups. */
  method LoadGroup(names: Registry, offset: nat, file: string, before: set<nat>)
    returns (wanted: set<nat>, outside: bool)
    requires RegistryOk(names)
    ensures outside <==> exists j :: 0 <= j < MAX_GROUPS && RunsPast(offset, file, names.groups[j])
    ensures !outside ==>
      forall g :: g in wanted <==> g in before || (0 <= g < MAX_GROUPS && Matches(offset, file, names.groups[g]))
  {
    hide Compare, NameOk;
    wanted := before;
    if offset == 0 {
      return wanted, false;
    }
    for j := 0 to MAX_GROUPS
      invariant forall g :: g in wanted <==> g in before || (0 <= g < j && Matches(offset, file, names.groups[g]))
      invariant forall g :: 0 <= g < j ==> !RunsPast(offset, file, names.groups[g])
    {
      match Compare(file, offset, names.groups[j])
      case Same => wanted := wanted + {j};
      case Differs =>
      case PastEnd =>
        assert RunsPast(offset, file, names.groups[j]);
        return wanted, true;
    }
    outside := false;
  }

  method LoadThreads(names: Registry, offsets: seq<nat>, file: string) returns (active: seq<bool>, outside: bool)
    requires RegistryOk(names) && |offsets| == MAX_THREADS
    ensures outside <==> ThreadsRunPast(names, offsets, file)
    ensures !outside ==> |active| == MAX_THREADS
    ensures !outside ==> forall j :: 0 <= j < MAX_THREADS ==> (active[j] <==> LoadedThread(names, offsets, file, j))
  {
    hide Matches, ThreadRunsPast, NameOk;
    active := seq(MAX_THREADS, _ => false);
    for i := 0 to MAX_THREADS
      invariant |active| == MAX_THREADS
      invariant forall j :: 0 <= j < MAX_THREADS ==>
        (active[j] <==>
         names.threads[j].Some? && exists k :: 0 <= k < i && Matches(offsets[k], file, names.threads[j].value))
      invariant forall k, j :: 0 <= k < i && 0 <= j < MAX_THREADS ==> !ThreadRunsPast(names, offsets[k], file, j)
    {
      active, outside := LoadThread(names, offsets[i], file, active);
      if outside {
        return;
      }
    }
    outside := false;
  }

  /** One string against the threads that exist. */
  method LoadThread(names: Registry, offset: nat, file: string, before: seq<bool>)
    returns (active: seq<bool>, outside: bool)
    requires RegistryOk(names) && |before| == MAX_THREADS
    ensures outside <==> exists j :: 0 <= j < MAX_THREADS && ThreadRunsPast(names, offset, file, j)
    ensures |active| == MAX_THREADS
    ensures !outside ==> forall t :: 0 <= t < MAX_THREADS ==>
      (active[t] <==> before[t] || (names.threads[t].Some? && Matches(offset, file, names.threads[t].value)))
  {
    hide Compare, NameOk;
    active := before;
    if offset == 0 {
      return active, false;
    }
    for j := 0 to MAX_THREADS
      invariant |active| == MAX_THREADS && forall t :: j <= t < MAX_THREADS ==> active[t] == before[t]
      invariant forall t :: 0 <= t < j ==>
        (active[t] <==> before[t] || (names.threads[t].Some? && Matches(offset, file, names.threads[t].value)))
      invariant forall t :: 0 <= t < j ==> !ThreadRunsPast(names, offset, file, t)
    {
      if names.threads[j].Some? {
        match Compare(file, offset, names.threads[j].value)
        case Same => active := active[j := true];
        case Differs =>
        case PastEnd =>
          assert ThreadRunsPast(names, offset, file, j);
          return active, true;
      }
    }
    outside := false;
  }

  method LoadGraph(names: Registry, timerOffset: nat, groupOffset: nat, file: string)
    returns (graph: Option<nat>, outside: bool)
    requires RegistryOk(names)
    ensures outside <==> GraphRunsPast(names, timerOffset, groupOffset, file)
    ensures !outside ==> LoadedGraph(names, timerOffset, groupOffset, file, graph)
  {
    hide Compare, NameOk;
    if timerOffset == 0 || groupOffset == 0 {
      return None, false;
    }
    for j := 0 to |names.timers|
      invariant forall k :: 0 <= k < j ==> CompareTimer(names, timerOffset, groupOffset, file, k) == Differs
    {
      var outcome := Compare(file, timerOffset, names.timers[j].name);
      if outcome == Same {
        outcome := Compare(file, groupOffset, names.groups[names.timers[j].group]);
      }
      assert outcome == CompareTimer(names, timerOffset, groupOffset, file, j);
      if outcome != Differs {
        assert Reaches(names, timerOffset, groupOffset, file, j);
        if outcome == Same {
          GraphIsDecided(names, timerOffset, groupOffset, file, Some(j), None);
        }
        return Some(j), outcome == PastEnd;
      }
    }
    GraphIsDecided(names, timerOffset, groupOffset, file, None, None);
    return None, false;
  }

  // ---------- the profiler ----------

  function GroupNames(names: Registry, wanted: set<nat>): seq<Option<string>>
    requires RegistryOk(names)
  {
    seq(MAX_GROUPS, i requires 0 <= i < MAX_GROUPS => if i in wanted then Some(names.groups[i]) else None)
  }

  function ThreadNames(names: Registry, active: seq<bool>): seq<Option<string>>
    requires RegistryOk(names) && |active| == MAX_THREADS
  {
    seq(MAX_THREADS, i requires 0 <= i < MAX_THREADS => if active[i] then names.threads[i] else None)
  }

  predicate GraphsOk(names: Registry, graphs: seq<Option<nat>>) {
    |graphs| == MAX_GRAPHS && forall i :: 0 <= i < MAX_GRAPHS && graphs[i].Some? ==> graphs[i].value < |names.timers|
  }

  function GraphTimers(names: Registry, graphs: seq<Option<nat>>): seq<Option<string>>
    requires RegistryOk(names) && GraphsOk(names, graphs)
  {
    seq(MAX_GRAPHS, i requires 0 <= i < MAX_GRAPHS =>
      if graphs[i].Some? then Some(names.timers[graphs[i].value].name) else None)
  }

  function GraphGroups(names: Registry, graphs: seq<Option<nat>>): seq<Option<string>>
    requires RegistryOk(names) && GraphsOk(names, graphs)
  {
    seq(MAX_GRAPHS, i requires 0 <= i < MAX_GRAPHS =>
      if graphs[i].Some? then Some(names.groups[names.timers[graphs[i].value].group]) else None)
  }

  datatype Selection = Selection(groups: set<nat>, threads: seq<bool>, graphs: seq<Option<nat>>)

  predicate SelectionOk(names: Registry, s: Selection) {
    |s.threads| == MAX_THREADS && GraphsOk(names, s.graphs)
  }

  /** The file starts with this header and has the names of what is selected. */
  ghost predicate Saved(names: Registry, s: Selection, file: string)
    requires RegistryOk(names) && SelectionOk(names, s)
  {
    |file| >= HEADER_SIZE && SavedAs(names, s, HeaderOf(file), file)
  }

  ghost predicate SavedAs(names: Registry, s: Selection, h: Header, file: string)
    requires RegistryOk(names) && SelectionOk(names, s)
  {
    && AllNoted(file, h.groups, GroupNames(names, s.groups))
    && AllNoted(file, h.threads, ThreadNames(names, s.threads))
    && AllNoted(file, h.graphName, GraphTimers(names, s.graphs))
    && AllNoted(file, h.graphGroup, GraphGroups(names, s.graphs))
  }

  /** Some comparison is past the end of the file. */
  ghost predicate FileRunsPast(names: Registry, h: Header, file: string)
    requires RegistryOk(names) && HeaderOk(h)
  {
    || GroupsRunPast(names, h.groups, file) || ThreadsRunPast(names, h.threads, file)
    || exists i :: 0 <= i < MAX_GRAPHS && GraphRunsPast(names, h.graphName[i], h.graphGroup[i], file)
  }

  predicate IsMagic(file: string) {
    |file| >= 4 && WordAt(file, 0) == MAGIC
  }

  predicate IsPreset(file: string) {
    |file| >= 8 && IsMagic(file) && WordAt(file, 1) == VERSION
  }

  /** The file ends inside the header, as far as it is looked at, or inside a name that is still the same as a
      registered one. */
  ghost predicate EndsEarly(names: Registry, file: string)
    requires RegistryOk(names)
  {
    || 0 < |file| < 4
    || (IsMagic(file) && |file| < 8)
    || (IsPreset(file) && (|file| < HEADER_SIZE || FileRunsPast(names, HeaderOf(file), file)))
  }

  /** What loading a file selects. */
  ghost predicate Loaded(names: Registry, h: Header, file: string, s: Selection)
    requires RegistryOk(names) && HeaderOk(h)
  {
    && s.groups == LoadedGroups(names, h.groups, file)
    && |s.threads| == MAX_THREADS
    && (forall j :: 0 <= j < MAX_THREADS ==> (s.threads[j] <==> LoadedThread(names, h.threads, file, j)))
    && |s.graphs| == MAX_GRAPHS
    && (forall i :: 0 <= i < MAX_GRAPHS ==>
          LoadedGraph(names, h.graphName[i], h.graphGroup[i], file, s.graphs[i]))
  }

  /** The header, written over the zeros. */
  method Finish(names: Registry, s: Selection, h: Header, file: string) returns (done: string)
    requires RegistryOk(names) && SelectionOk(names, s) && SavedAs(names, s, h, file)
    requires HEADER_SIZE <= |file| && IsWord(|file|)
    requires h.magic == MAGIC && h.version == VERSION && AreWords(SettingsWords(h.settings)) && IsWord(h.showSpikes)
    ensures |done| >= HEADER_SIZE && IsPreset(done) && HeaderOf(done) == h && SavedAs(names, s, h, done)
  {
    var head := AllBytes(HeaderWords(h));
    done := head + file[HEADER_SIZE..];
    OffsetsAreWords(file, h.groups, GroupNames(names, s.groups));
    OffsetsAreWords(file, h.threads, ThreadNames(names, s.threads));
    OffsetsAreWords(file, h.graphName, GraphTimers(names, s.graphs));
    OffsetsAreWords(file, h.graphGroup, GraphGroups(names, s.graphs));
    HeaderComesBack(h, file[HEADER_SIZE..]);
    AllStay(file, done, h.groups, GroupNames(names, s.groups));
    AllStay(file, done, h.threads, ThreadNames(names, s.threads));
    AllStay(file, done, h.graphName, GraphTimers(names, s.graphs));
    AllStay(file, done, h.graphGroup, GraphGroups(names, s.graphs));
  }

  /** Groups, threads and graphs in this order, until a comparison is past the end. */
  method LoadSelection(names: Registry, h: Header, file: string) returns (s: Selection, outside: bool)
    requires RegistryOk(names) && HeaderOk(h)
    ensures outside <==> FileRunsPast(names, h, file)
    ensures !outside ==> Loaded(names, h, file, s)
  {
    hide GroupsRunPast, ThreadsRunPast, GraphRunsPast, LoadedGroups, LoadedThread, LoadedGraph, RegistryOk;
    s := Selection({}, [], []);
    var groups, threads;
    groups, outside := LoadGroups(names, h.groups, file);
    if outside {
      return;
    }
    threads, outside := LoadThreads(names, h.threads, file);
    if outside {
      return;
    }
    var graphs: seq<Option<nat>> := [];
    for i := 0 to MAX_GRAPHS
      invariant |graphs| == i
      invariant forall k :: 0 <= k < i ==> LoadedGraph(names, h.graphName[k], h.graphGroup[k], file, graphs[k])
      invariant forall k :: 0 <= k < i ==> !GraphRunsPast(names, h.graphName[k], h.graphGroup[k], file)
    {
      var graph;
      graph, outside := LoadGraph(names, h.graphName[i], h.graphGroup[i], file);
      if outside {
        return;
      }
      graphs := graphs + [graph];
    }
    s, outside := Selection(groups, threads, graphs), false;
  }

  class Profiler {
    const names: Registry
    var settings: Settings
    var showSpikes: bool
    var selection: Selection

    constructor (names: Registry, settings: Settings, showSpikes: bool, selection: Selection)
      ensures this.names == names && this.settings == settings
      ensures this.showSpikes == showSpikes && this.selection == selection
    {
      this.names, this.settings, this.showSpikes, this.selection := names, settings, showSpikes, selection;
    }

    /** The header's place is filled with zeros until the offsets are known. */
    method SavePreset() returns (file: string)
      requires RegistryOk(names) && SelectionOk(names, selection) && AreWords(SettingsWords(settings))
      ensures Saved(names, selection, file) && IsPreset(file)
      ensures HeaderOf(file).settings == settings && HeaderOf(file).showSpikes == if showSpikes then 1 else 0
    {
      var s := selection;
      var blank := seq(HEADER_SIZE, _ => NUL);
      var groups, file1 := WriteNames(blank, GroupNames(names, s.groups));
      var threads, file2 := WriteNames(file1, ThreadNames(names, s.threads));
      var graphGroup, graphName, file3 := WriteGraphs(file2, GraphGroups(names, s.graphs),
        GraphTimers(names, s.graphs));
      var spikes := if showSpikes then 1 else 0;
      var header := Header(MAGIC, VERSION, groups, threads, graphName, graphGroup, settings, spikes);
      ExtendsMore(file1, file2, file3);
      AllStay(file1, file3, groups, GroupNames(names, s.groups));
      AllStay(file2, file3, threads, ThreadNames(names, s.threads));
      file := Finish(names, s, header, file3);
    }

    /** A file that is missing, empty or of another kind changes nothing; if one is read past its end, nothing is
        known. */
    method LoadPreset(file: Option<string>) returns (outside: bool)
      requires RegistryOk(names)
      modifies this
      ensures outside <==> file.Some? && EndsEarly(names, file.value)
      ensures !outside && (file.None? || !IsPreset(file.value)) ==>
        settings == old(settings) && showSpikes == old(showSpikes) && selection == old(selection)
      ensures !outside && file.Some? && IsPreset(file.value) ==>
        var h := HeaderOf(file.value);
        settings == h.settings && (showSpikes <==> h.showSpikes == 1) && Loaded(names, h, file.value, selection)
    {
      if file.None? || file.value == "" {
        return false;
      }
      var bytes := file.value;
      if |bytes| < 4 {
        return true;
      } else if WordAt(bytes, 0) != MAGIC {
        return false;
      } else if |bytes| < 8 {
        return true;
      } else if WordAt(bytes, 1) != VERSION {
        return false;
      } else if |bytes| < HEADER_SIZE {
        return true;
      }
      var h := HeaderOf(bytes);
      settings, showSpikes := h.settings, h.showSpikes == 1;
      hide FileRunsPast, Loaded, RegistryOk, HeaderOf;
      selection, outside := LoadSelection(names, h, bytes);
    }
  }

  // ---------- loading what was saved ----------

  /** A selected group shares its name only with selected groups. */
  predicate GroupsClear(names: Registry, groups: set<nat>)
    requires RegistryOk(names)
  {
    && (forall i :: i in groups ==> i < MAX_GROUPS)
    && (forall i, j ::
          i in groups && i < MAX_GROUPS && 0 <= j < MAX_GROUPS && SameName(names.groups[i], names.groups[j]) ==>
          j in groups)
  }

  predicate SameThread(names: Registry, i: nat, j: nat)
    requires RegistryOk(names) && i < MAX_THREADS && j < MAX_THREADS
  {
    names.threads[i].Some? && names.threads[j].Some? && SameName(names.threads[i].value, names.threads[j].value)
  }

  /** So does a selected thread, which must exist. */
  predicate ThreadsClear(names: Registry, active: seq<bool>)
    requires RegistryOk(names) && |active| == MAX_THREADS
  {
    && (forall i :: 0 <= i < MAX_THREADS && active[i] ==> names.threads[i].Some?)
    && (forall i, j :: 0 <= i < MAX_THREADS && 0 <= j < MAX_THREADS && active[i] && SameThread(names, i, j) ==>
          active[j])
  }

  predicate SameTimer(names: Registry, g: nat, j: nat)
    requires RegistryOk(names) && g < |names.timers| && j < |names.timers|
  {
    && SameName(names.timers[g].name, names.timers[j].name)
    && SameName(names.groups[names.timers[g].group], names.groups[names.timers[j].group])
  }

  /** No earlier timer has the same name in a group of the same name. */
  predicate GraphClear(names: Registry, g: nat)
    requires RegistryOk(names) && g < |names.timers|
  {
    forall j :: 0 <= j < g ==> !SameTimer(names, g, j)
  }

  predicate GraphsClear(names: Registry, graphs: seq<Option<nat>>)
    requires RegistryOk(names) && GraphsOk(names, graphs)
  {
    forall i :: 0 <= i < MAX_GRAPHS && graphs[i].Some? ==> GraphClear(names, graphs[i].value)
  }

  lemma NotedMatches(file: string, offset: nat, name: Option<string>, other: string)
    requires Noted(file, offset, name) && NUL !in other && (name.Some? ==> NUL !in name.value)
    ensures !RunsPast(offset, file, other)
    ensures Matches(offset, file, other) <==> name.Some? && SameName(name.value, other)
  {
    if name.Some? {
      NameMatches(file, offset, name.value, other);
    }
  }

  /** A group has the name of a selected one. */
  ghost predicate IsNamed(names: Registry, groups: set<nat>, j: nat)
    requires RegistryOk(names) && j < MAX_GROUPS
  {
    exists i :: 0 <= i < MAX_GROUPS && i in groups && SameName(names.groups[i], names.groups[j])
  }

  lemma GroupMatches(names: Registry, groups: set<nat>, offsets: seq<nat>, file: string, i: nat, j: nat)
    requires RegistryOk(names) && AllNoted(file, offsets, GroupNames(names, groups)) && i < MAX_GROUPS && j < MAX_GROUPS
    ensures |offsets| == MAX_GROUPS && !RunsPast(offsets[i], file, names.groups[j])
    ensures Matches(offsets[i], file, names.groups[j]) <==> i in groups && SameName(names.groups[i], names.groups[j])
  {
    var saved := GroupNames(names, groups);
    assert Noted(file, offsets[i], saved[i]);
    NotedMatches(file, offsets[i], saved[i], names.groups[j]);
  }

  lemma GroupIsLoaded(names: Registry, groups: set<nat>, offsets: seq<nat>, file: string, j: nat)
    requires RegistryOk(names) && AllNoted(file, offsets, GroupNames(names, groups)) && j < MAX_GROUPS
    ensures |offsets| == MAX_GROUPS
    ensures j in LoadedGroups(names, offsets, file) <==> IsNamed(names, groups, j)
  {
    forall i | 0 <= i < MAX_GROUPS
      ensures |offsets| == MAX_GROUPS
      ensures Matches(offsets[i], file, names.groups[j]) <==> i in groups && SameName(names.groups[i], names.groups[j])
    {
      GroupMatches(names, groups, offsets, file, i, j);
    }
    hide Matches, SameName, NameOk, AllNoted;
  }

  lemma GroupsStayInside(names: Registry, groups: set<nat>, offsets: seq<nat>, file: string)
    requires RegistryOk(names) && AllNoted(file, offsets, GroupNames(names, groups))
    ensures |offsets| == MAX_GROUPS && !GroupsRunPast(names, offsets, file)
  {
    forall i, j | 0 <= i < MAX_GROUPS && 0 <= j < MAX_GROUPS
      ensures !RunsPast(offsets[i], file, names.groups[j])
    {
      GroupMatches(names, groups, offsets, file, i, j);
    }
    hide RunsPast, NameOk, Noted;
  }

  ghost predicate NamesOnly(names: Registry, groups: set<nat>)
    requires RegistryOk(names)
  {
    && (forall i :: i in groups ==> i < MAX_GROUPS)
    && (forall j :: 0 <= j < MAX_GROUPS ==> (j in groups <==> IsNamed(names, groups, j)))
  }

  lemma ClearNamesOnly(names: Registry, groups: set<nat>)
    requires RegistryOk(names)
    ensures NamesOnly(names, groups) <==> GroupsClear(names, groups)
  {
    assert forall i :: 0 <= i < MAX_GROUPS ==> SameName(names.groups[i], names.groups[i]);
    hide SameName, NameOk;
  }

  lemma LoadedIsNamed(names: Registry, groups: set<nat>, loaded: set<nat>)
    requires RegistryOk(names) && forall j :: j in loaded ==> j < MAX_GROUPS
    requires forall j :: 0 <= j < MAX_GROUPS ==> (j in loaded <==> IsNamed(names, groups, j))
    ensures loaded == groups <==> NamesOnly(names, groups)
  {
    hide IsNamed, RegistryOk;
    if NamesOnly(names, groups) {
      assert forall j :: j in loaded <==> j in groups;
    }
  }

  lemma GroupsComeBack(names: Registry, groups: set<nat>, offsets: seq<nat>, file: string)
    requires RegistryOk(names) && AllNoted(file, offsets, GroupNames(names, groups))
    ensures |offsets| == MAX_GROUPS && !GroupsRunPast(names, offsets, file)
    ensures LoadedGroups(names, offsets, file) == groups <==> GroupsClear(names, groups)
  {
    GroupsStayInside(names, groups, offsets, file);
    var loaded := LoadedGroups(names, offsets, file);
    assert forall j :: j in loaded ==> j < MAX_GROUPS;
    hide LoadedGroups, IsNamed, AllNoted, RegistryOk, GroupsClear, NamesOnly, GroupsRunPast;
    forall j | 0 <= j < MAX_GROUPS
      ensures j in loaded <==> IsNamed(names, groups, j)
    {
      GroupIsLoaded(names, groups, offsets, file, j);
    }
    LoadedIsNamed(names, groups, loaded);
    ClearNamesOnly(names, groups);
  }

  lemma ThreadMatches(names: Registry, active: seq<bool>, offsets: seq<nat>, file: string, i: nat, j: nat)
    requires RegistryOk(names) && |active| == MAX_THREADS && AllNoted(file, offsets, ThreadNames(names, active))
    requires i < MAX_THREADS && j < MAX_THREADS && names.threads[j].Some?
    ensures |offsets| == MAX_THREADS && !ThreadRunsPast(names, offsets[i], file, j)
    ensures Matches(offsets[i], file, names.threads[j].value) <==> active[i] && SameThread(names, i, j)
  {
    var saved := ThreadNames(names, active);
    assert Noted(file, offsets[i], saved[i]);
    NotedMatches(file, offsets[i], saved[i], names.threads[j].value);
  }

  lemma ThreadsStayInside(names: Registry, active: seq<bool>, offsets: seq<nat>, file: string)
    requires RegistryOk(names) && |active| == MAX_THREADS && AllNoted(file, offsets, ThreadNames(names, active))
    ensures |offsets| == MAX_THREADS && !ThreadsRunPast(names, offsets, file)
  {
    forall i, j | 0 <= i < MAX_THREADS && 0 <= j < MAX_THREADS
      ensures !ThreadRunsPast(names, offsets[i], file, j)
    {
      if names.threads[j].Some? {
        ThreadMatches(names, active, offsets, file, i, j);
      }
    }
    hide ThreadRunsPast, NameOk, Noted;
  }

  lemma ThreadsComeBack(names: Registry, active: seq<bool>, offsets: seq<nat>, file: string)
    requires RegistryOk(names) && |active| == MAX_THREADS && AllNoted(file, offsets, ThreadNames(names, active))
    ensures |offsets| == MAX_THREADS && !ThreadsRunPast(names, offsets, file)
    ensures (forall j :: 0 <= j < MAX_THREADS ==> (active[j] <==> LoadedThread(names, offsets, file, j)))
       <==> ThreadsClear(names, active)
  {
    ThreadsStayInside(names, active, offsets, file);
    hide NameOk, Matches, SameName, AllNoted, ThreadsRunPast;
    forall i, j | 0 <= i < MAX_THREADS && 0 <= j < MAX_THREADS && names.threads[j].Some?
      ensures Matches(offsets[i], file, names.threads[j].value) <==> active[i] && SameThread(names, i, j)
    {
      ThreadMatches(names, active, offsets, file, i, j);
    }
    forall i | 0 <= i < MAX_THREADS && active[i] && names.threads[i].Some?
      ensures SameThread(names, i, i) && Matches(offsets[i], file, names.threads[i].value)
    {
      SameAsItself(names.threads[i].value);
    }
  }

  lemma SameAsItself(name: string)
    ensures SameName(name, name)
  {
  }

  /** A graph that was saved is compared with timer `j` by both names. */
  lemma GraphMatches(names: Registry, g: nat, timerOffset: nat, groupOffset: nat, file: string, j: nat)
    requires RegistryOk(names) && g < |names.timers| && j < |names.timers|
    requires NameAt(file, timerOffset, names.timers[g].name)
    requires NameAt(file, groupOffset, names.groups[names.timers[g].group])
    ensures CompareTimer(names, timerOffset, groupOffset, file, j) == if SameTimer(names, g, j) then Same else Differs
  {
    var t, u := names.timers[g], names.timers[j];
    NameMatches(file, timerOffset, t.name, u.name);
    NameMatches(file, groupOffset, names.groups[t.group], names.groups[u.group]);
    hide Compare, NameAt, SameName;
  }

  lemma GraphComesBack(names: Registry, graph: Option<nat>, timerOffset: nat, groupOffset: nat, file: string)
    requires RegistryOk(names) && (graph.Some? ==> graph.value < |names.timers|)
    requires graph.Some? ==> && NameAt(file, timerOffset, names.timers[graph.value].name)
                             && NameAt(file, groupOffset, names.groups[names.timers[graph.value].group])
    requires graph.None? ==> timerOffset == 0 && groupOffset == 0
    ensures !GraphRunsPast(names, timerOffset, groupOffset, file)
    ensures LoadedGraph(names, timerOffset, groupOffset, file, graph)
       <==> (graph.Some? ==> GraphClear(names, graph.value))
  {
    if graph.Some? {
      var g := graph.value;
      forall j | 0 <= j < |names.timers|
        ensures CompareTimer(names, timerOffset, groupOffset, file, j)
             == if SameTimer(names, g, j) then Same else Differs
      {
        GraphMatches(names, g, timerOffset, groupOffset, file, j);
      }
      SameAsItself(names.timers[g].name);
      SameAsItself(names.groups[names.timers[g].group]);
      assert SameTimer(names, g, g);
    }
    hide CompareTimer, SameTimer, NameOk;
  }

  predicate Clear(names: Registry, s: Selection)
    requires RegistryOk(names) && SelectionOk(names, s)
  {
    GroupsClear(names, s.groups) && ThreadsClear(names, s.threads) && GraphsClear(names, s.graphs)
  }

  /** Loading what was saved stays inside the file, and selects the same again exactly if the names are clear. */
  lemma PresetComesBack(names: Registry, s: Selection, h: Header, file: string)
    requires RegistryOk(names) && SelectionOk(names, s) && SavedAs(names, s, h, file) && HeaderOk(h)
    ensures !FileRunsPast(names, h, file)
    ensures Loaded(names, h, file, s) <==> Clear(names, s)
  {
    GroupsComeBack(names, s.groups, h.groups, file);
    ThreadsComeBack(names, s.threads, h.threads, file);
    var timers, groups := GraphTimers(names, s.graphs), GraphGroups(names, s.graphs);
    forall i | 0 <= i < MAX_GRAPHS
      ensures !GraphRunsPast(names, h.graphName[i], h.graphGroup[i], file)
      ensures LoadedGraph(names, h.graphName[i], h.graphGroup[i], file, s.graphs[i])
         <==> (s.graphs[i].Some? ==> GraphClear(names, s.graphs[i].value))
    {
      assert Noted(file, h.graphName[i], timers[i]) && Noted(file, h.graphGroup[i], groups[i]);
      GraphComesBack(names, s.graphs[i], h.graphName[i], h.graphGroup[i], file);
    }
    hide LoadedGroups, LoadedThread, LoadedGraph, GroupsClear, ThreadsClear, GraphClear, AllNoted, RegistryOk,
      GroupsRunPast, ThreadsRunPast, GraphRunsPast;
  }

  lemma LoadedOnce(names: Registry, h: Header, file: string, s: Selection, t: Selection)
    requires RegistryOk(names) && HeaderOk(h) && Loaded(names, h, file, s)
    ensures Loaded(names, h, file, t) <==> s == t
  {
    hide LoadedGroups, LoadedThread, LoadedGraph, RegistryOk;
    if Loaded(names, h, file, t) {
      forall i | 0 <= i < MAX_GRAPHS
        ensures s.graphs[i] == t.graphs[i]
      {
        GraphIsDecided(names, h.graphName[i], h.graphGroup[i], file, s.graphs[i], t.graphs[i]);
      }
      assert forall j :: 0 <= j < MAX_THREADS ==> s.threads[j] == t.threads[j];
      assert s.threads == t.threads && s.graphs == t.graphs;
    }
  }

  /** One profiler saves, another one or the same loads: the settings come back, and the selection exactly if
      the names are clear. */
  method SaveAndLoad(p: Profiler, q: Profiler)
    requires p.names == q.names && RegistryOk(p.names) && SelectionOk(p.names, p.selection)
    requires AreWords(SettingsWords(p.settings))
    modifies q
    ensures q.settings == old(p.settings) && q.showSpikes == old(p.showSpikes)
    ensures q.selection == old(p.selection) <==> old(Clear(p.names, p.selection))
  {
    ghost var names, s := p.names, p.selection;
    var file := p.SavePreset();
    ghost var h := HeaderOf(file);
    hide RegistryOk, SavedAs, HeaderOf, FileRunsPast, Loaded, Clear;
    PresetComesBack(names, s, h, file);
    var outside := q.LoadPreset(Some(file));
    LoadedOnce(names, h, file, q.selection, s);
  }

  // ---------- a selection that does not come back ----------

  const TWINS := Registry(seq(MAX_GROUPS, _ => ""), seq(MAX_THREADS, i => if i < 2 then Some("worker") else None), [])
  const ONE_TWIN := Selection({}, seq(MAX_THREADS, i => i == 0), seq(MAX_GRAPHS, _ => None))

  lemma TwinIsLoaded(h: Header, file: string)
    requires RegistryOk(TWINS) && SelectionOk(TWINS, ONE_TWIN) && SavedAs(TWINS, ONE_TWIN, h, file) && HeaderOk(h)
    ensures LoadedThread(TWINS, h.threads, file, 1)
  {
    ThreadMatches(TWINS, ONE_TWIN.threads, h.threads, file, 0, 1);
    SameAsItself("worker");
  }

  /** Two threads have one name and only the first is selected: after saving and loading the second is, too. */
  method SelectTwin(settings: Settings) returns (p: Profiler)
    requires AreWords(SettingsWords(settings))
    ensures |p.selection.threads| == MAX_THREADS && p.selection.threads[1] && !ONE_TWIN.threads[1]
    ensures p.selection != ONE_TWIN
  {
    assert RegistryOk(TWINS) && SelectionOk(TWINS, ONE_TWIN);
    p := new Profiler(TWINS, settings, false, ONE_TWIN);
    var file := p.SavePreset();
    PresetComesBack(TWINS, ONE_TWIN, HeaderOf(file), file);
    TwinIsLoaded(HeaderOf(file), file);
    hide SavedAs, HeaderOf, FileRunsPast, LoadedGroups, LoadedGraph, LoadedThread;
    var outside := p.LoadPreset(Some(file));
  }

  // ---------- files that end early ----------

  lemma HeaderIsInFront(file: string, n: nat)
    requires HEADER_SIZE <= n <= |file|
    ensures HeaderOf(file[..n]) == HeaderOf(file) && (IsPreset(file[..n]) <==> IsPreset(file))
  {
    forall k | 0 <= k < HEADER_SIZE / 4
      ensures WordAt(file[..n], k) == WordAt(file, k)
    {
    }
    hide WordAt;
    assert WordsAt(file[..n], 2, MAX_GROUPS) == WordsAt(file, 2, MAX_GROUPS);
    assert WordsAt(file[..n], 2 + MAX_GROUPS, MAX_THREADS) == WordsAt(file, 2 + MAX_GROUPS, MAX_THREADS);
    assert WordsAt(file[..n], 2 + MAX_GROUPS + MAX_THREADS, MAX_GRAPHS)
        == WordsAt(file, 2 + MAX_GROUPS + MAX_THREADS, MAX_GRAPHS);
    assert WordsAt(file[..n], 2 + MAX_GROUPS + MAX_THREADS + MAX_GRAPHS, MAX_GRAPHS)
        == WordsAt(file, 2 + MAX_GROUPS + MAX_THREADS + MAX_GRAPHS, MAX_GRAPHS);
    assert WordsAt(file[..n], SETTINGS_AT, 9) == WordsAt(file, SETTINGS_AT, 9);
  }

  lemma NameIsCutOff(file: string, offset: nat, name: string, k: nat)
    requires NameAt(file, offset, name) && k <= |name|
    ensures HEADER_SIZE <= offset + k < |file| && RunsPast(offset, file[..offset + k], name)
  {
    var cut := file[..offset + k];
    assert cut[offset..] == file[offset..offset + |name|][..k] == name[..k];
    SameAsItself(name[..k]);
    CompareIs(cut, offset, name);
  }

  /** A saved file that loses its end inside the name of a selected thread, or the NUL behind it, is read past
      its end as long as that thread exists. */
  lemma CutInName(names: Registry, s: Selection, file: string, i: nat, k: nat)
    requires RegistryOk(names) && SelectionOk(names, s) && Saved(names, s, file) && IsPreset(file)
    requires i < MAX_THREADS && s.threads[i] && names.threads[i].Some? && k <= |names.threads[i].value|
    ensures var n := HeaderOf(file).threads[i] + k; n < |file| && EndsEarly(names, file[..n])
  {
    var offset, name := HeaderOf(file).threads[i], names.threads[i].value;
    assert Noted(file, offset, ThreadNames(names, s.threads)[i]);
    assert NameAt(file, offset, name);
    var cut := file[..offset + k];
    hide HeaderOf, AllNoted, NameAt;
    NameIsCutOff(file, offset, name, k);
    HeaderIsInFront(file, offset + k);
    assert ThreadRunsPast(names, HeaderOf(cut).threads[i], cut, i);
  }

  /** Such a file. */
  method LoadCutFile(settings: Settings) returns (outside: bool)
    requires AreWords(SettingsWords(settings))
    ensures outside
  {
    assert RegistryOk(TWINS) && SelectionOk(TWINS, ONE_TWIN);
    var p := new Profiler(TWINS, settings, false, ONE_TWIN);
    var file := p.SavePreset();
    CutInName(TWINS, ONE_TWIN, file, 0, 4);
    outside := p.LoadPreset(Some(file[..HeaderOf(file).threads[0] + 4]));
  }

  predicate Unlike(name: string, c: char) {
    name == "" || Lower(name[0]) != Lower(c)
  }

  /** No offset, or that of the byte behind the header. */
  predicate AtEnd(offsets: seq<nat>) {
    forall i :: 0 <= i < |offsets| ==> offsets[i] == 0 || offsets[i] == HEADER_SIZE
  }

  lemma StrangerDiffers(file: string, offset: nat, name: string, c: char)
    requires |file| == HEADER_SIZE + 1 && file[HEADER_SIZE] == c != NUL && Unlike(name, c)
    requires offset == 0 || offset == HEADER_SIZE
    ensures offset != 0 ==> Compare(file, offset, name) == Differs
  {
  }

  /** A name without end is not read past the end of the file if every registered name differs in the first
      character. */
  lemma StrangerIsRejected(names: Registry, file: string, c: char)
    requires RegistryOk(names) && IsPreset(file) && |file| == HEADER_SIZE + 1 && file[HEADER_SIZE] == c != NUL
    requires var h := HeaderOf(file); AtEnd(h.groups) && AtEnd(h.threads) && AtEnd(h.graphName)
    requires forall j :: 0 <= j < MAX_GROUPS ==> Unlike(names.groups[j], c)
    requires forall j :: 0 <= j < MAX_THREADS && names.threads[j].Some? ==> Unlike(names.threads[j].value, c)
    requires forall j :: 0 <= j < |names.timers| ==> Unlike(names.timers[j].name, c)
    ensures !EndsEarly(names, file)
  {
    var h := HeaderOf(file);
    hide HeaderOf, NameOk, Compare, Unlike;
    forall i, j | 0 <= i < MAX_GROUPS && 0 <= j < MAX_GROUPS
      ensures !RunsPast(h.groups[i], file, names.groups[j])
    {
      StrangerDiffers(file, h.groups[i], names.groups[j], c);
    }
    forall i, j | 0 <= i < MAX_THREADS && 0 <= j < MAX_THREADS
      ensures !ThreadRunsPast(names, h.threads[i], file, j)
    {
      if names.threads[j].Some? {
        StrangerDiffers(file, h.threads[i], names.threads[j].value, c);
      }
    }
    forall i, j | 0 <= i < MAX_GRAPHS && 0 <= j < |names.timers| && h.graphName[i] != 0
      ensures CompareTimer(names, h.graphName[i], h.graphGroup[i], file, j) == Differs
    {
      StrangerDiffers(file, h.graphName[i], names.timers[j].name, c);
    }
    hide RunsPast, ThreadRunsPast, CompareTimer;
  }
}
