/** What a command line means to getopt (externals/getopt/getopt.c), said without any of
    getopt's running state.  A command line is read one argument at a time from the left;
    reading it yields the events handed to the caller, the arguments that were used up
    (options, their arguments and a terminating "--") and the operands that are left. */
module GetoptSpec {
  import opened Wrappers

  datatype Ordering = RequireOrder | Permute | ReturnInOrder

  /** One row of the long-option table; `flag` names the cell the row writes to, if any. */
  datatype LongOption = LongOption(name: string, hasArg: int, flag: Option<int>, val: int)

  datatype Config = Config(optstring: string, ordering: Ordering, longopts: Option<seq<LongOption>>)

  /** What one call reports: its return code, optarg, and the cells it writes.  `None` in
      `optopt`, `longIndex` or `flagWrite` means that the cell keeps its old value. */
  datatype Event = Event(code: int, arg: Option<string>, optopt: Option<int>,
                         longIndex: Option<nat>, flagWrite: Option<(int, int)>)

  datatype Parsed = Parsed(events: seq<Event>, opts: seq<string>, operands: seq<string>)

  const TERMINATOR := "--"

  predicate IsOption(arg: string) {
    |arg| >= 2 && arg[0] == '-'
  }

  /** The option string without the character that selects the ordering. */
  function Strip(optstring: string): string {
    if |optstring| > 0 && (optstring[0] == '-' || optstring[0] == '+') then optstring[1..] else optstring
  }

  function OrderingOf(optstring: string, posixlyCorrect: bool): Ordering {
    if |optstring| > 0 && optstring[0] == '-' then ReturnInOrder
    else if |optstring| > 0 && optstring[0] == '+' then RequireOrder
    else if posixlyCorrect then RequireOrder
    else Permute
  }

  // ---------- short options ----------

  datatype ShortKind = Unknown | NoArg | OptionalArg | RequiredArg

  /** Position of the first `c` in `s`, or |s|. */
  function IndexOf(s: string, c: char): (k: nat)
    ensures k <= |s|
    ensures k < |s| ==> s[k] == c
    ensures forall j :: 0 <= j < k ==> s[j] != c
  {
    if s == "" then 0 else if s[0] == c then 0 else
    var k := IndexOf(s[1..], c);
    assert forall j :: 1 <= j < k + 1 ==> s[j] == s[1..][j - 1];
    k + 1
  }

  function KindAt(optstring: string, k: nat): ShortKind
    requires k < |optstring|
  {
    if k + 1 < |optstring| && optstring[k + 1] == ':' then
      if k + 2 < |optstring| && optstring[k + 2] == ':' then OptionalArg else RequiredArg
    else NoArg
  }

  function KindOf(optstring: string, c: char): ShortKind {
    var k := IndexOf(optstring, c);
    if k == |optstring| || c == ':' || c == ';' then Unknown else KindAt(optstring, k)
  }

  /** The "W;" extension, which this model leaves out. */
  predicate TakesLongAsW(optstring: string) {
    var k := IndexOf(optstring, 'W');
    k + 1 < |optstring| && optstring[k + 1] == ';'
  }

  function MissingCode(optstring: string): int {
    if |optstring| > 0 && optstring[0] == ':' then ':' as int else '?' as int
  }

  function ShortEvent(c: char, arg: Option<string>): Event {
    Event(c as int, arg, None, None, None)
  }

  function Problem(code: int, optopt: int): Event {
    Event(code, None, Some(optopt), None, None)
  }

  /** The event of an option letter that takes no argument or is not known. */
  function FlagEvent(optstring: string, c: char): Event {
    if KindOf(optstring, c).Unknown? then Problem('?' as int, c as int) else ShortEvent(c, None)
  }

  /** The events of the short options `text`, and whether `next` was used as an argument. */
  function Cluster(optstring: string, text: string, next: Option<string>): (r: (seq<Event>, bool))
    requires text != ""
    ensures r.1 ==> next.Some?
  {
    var c, tail := text[0], text[1..];
    match KindOf(optstring, c)
    case OptionalArg => ([ShortEvent(c, if tail == "" then None else Some(tail))], false)
    case RequiredArg =>
      if tail != "" then ([ShortEvent(c, Some(tail))], false)
      else if next.Some? then ([ShortEvent(c, next)], true)
      else ([Problem(MissingCode(optstring), c as int)], false)
    case _ =>
      var first := FlagEvent(optstring, c);
      if tail == "" then ([first], false)
      else var (events, used) := Cluster(optstring, tail, next); ([first] + events, used)
  }

  // ---------- long options ----------

  datatype LookupResult = NotFound | Ambiguous | Found(index: nat)

  predicate Agree(p: LongOption, q: LongOption) {
    p.hasArg == q.hasArg && p.flag == q.flag && p.val == q.val
  }

  ghost predicate IsExact(table: seq<LongOption>, key: string, k: int) {
    0 <= k < |table| && table[k].name == key
  }

  ghost predicate IsAbbreviated(table: seq<LongOption>, key: string, k: int) {
    0 <= k < |table| && key <= table[k].name
  }

  /** Which row a name selects: the first row of exactly that name, or else the first row it
      abbreviates, as long as every row it abbreviates means the same thing. */
  ghost predicate Selects(table: seq<LongOption>, key: string, r: LookupResult) {
    match r
    case NotFound => forall k :: !IsAbbreviated(table, key, k)
    case Found(k) =>
      || (IsExact(table, key, k) && forall j :: j < k ==> !IsExact(table, key, j))
      || (&& IsAbbreviated(table, key, k)
          && (forall j :: !IsExact(table, key, j))
          && (forall j :: j < k ==> !IsAbbreviated(table, key, j))
          && (forall j :: IsAbbreviated(table, key, j) ==> Agree(table[k], table[j])))
    case Ambiguous =>
      && (forall j :: !IsExact(table, key, j))
      && exists j, k :: IsAbbreviated(table, key, j) && IsAbbreviated(table, key, k) && !Agree(table[j], table[k])
  }

  function FirstExact(table: seq<LongOption>, key: string, i: nat): (k: nat)
    requires i <= |table|
    ensures i <= k <= |table|
    ensures k < |table| ==> IsExact(table, key, k)
    ensures forall j :: i <= j < k ==> !IsExact(table, key, j)
    decreases |table| - i
  {
    if i == |table| || table[i].name == key then i else FirstExact(table, key, i + 1)
  }

  function FirstAbbreviated(table: seq<LongOption>, key: string, i: nat): (k: nat)
    requires i <= |table|
    ensures i <= k <= |table|
    ensures k < |table| ==> IsAbbreviated(table, key, k)
    ensures forall j :: i <= j < k ==> !IsAbbreviated(table, key, j)
    decreases |table| - i
  {
    if i == |table| || key <= table[i].name then i else FirstAbbreviated(table, key, i + 1)
  }

  function Lookup(table: seq<LongOption>, key: string): (r: LookupResult)
    ensures Selects(table, key, r)
    ensures r.Found? ==> r.index < |table|
  {
    var e, a := FirstExact(table, key, 0), FirstAbbreviated(table, key, 0);
    if e < |table| then Found(e)
    else if a == |table| then NotFound
    else if forall j :: 0 <= j < |table| && key <= table[j].name ==> Agree(table[a], table[j]) then Found(a)
    else Ambiguous
  }

  /** The rule leaves no choice: a name selects one result only. */
  lemma SelectionIsUnique(table: seq<LongOption>, key: string, r: LookupResult)
    requires Selects(table, key, r)
    ensures r == Lookup(table, key)
  {
    var s := Lookup(table, key);
    assert forall k :: IsExact(table, key, k) ==> IsAbbreviated(table, key, k);
    match r
    case NotFound =>
    case Found(k) =>
      assert IsAbbreviated(table, key, k);
    case Ambiguous =>
      var i, j :| IsAbbreviated(table, key, i) && IsAbbreviated(table, key, j) && !Agree(table[i], table[j]);
  }

  function LongEvent(k: nat, p: LongOption, arg: Option<string>): Event {
    match p.flag
    case Some(cell) => Event(0, arg, None, Some(k), Some((cell, p.val)))
    case None => Event(p.val, arg, None, Some(k), None)
  }

  /** The event of the long option `text` (written after "--"), and whether `next` was used. */
  function Long(optstring: string, table: seq<LongOption>, text: string, next: Option<string>): (r: (Event, bool))
    ensures r.1 ==> next.Some?
  {
    var e := IndexOf(text, '=');
    match Lookup(table, text[..e])
    case NotFound => (Problem('?' as int, 0), false)
    case Ambiguous => (Problem('?' as int, 0), false)
    case Found(k) =>
      var p := table[k];
      if e < |text| then
        if p.hasArg != 0 then (LongEvent(k, p, Some(text[e + 1..])), false)
        else (Problem('?' as int, p.val), false)
      else if p.hasArg == 1 then
        if next.Some? then (LongEvent(k, p, next), true)
        else (Problem(MissingCode(optstring), p.val), false)
      else (LongEvent(k, p, None), false)
  }

  // ---------- whole command lines ----------

  function Head(args: seq<string>, i: nat): Option<string> {
    if i < |args| then Some(args[i]) else None
  }

  predicate IsLong(cfg: Config, arg: string) {
    cfg.longopts.Some? && |arg| >= 2 && arg[1] == '-'
  }

  /** The events of one option argument, and how many arguments it takes up. */
  function Element(cfg: Config, args: seq<string>): (r: (seq<Event>, nat))
    requires args != [] && IsOption(args[0])
    ensures 1 <= r.1 <= |args|
  {
    if IsLong(cfg, args[0]) then
      var (event, used) := Long(cfg.optstring, cfg.longopts.value, args[0][2..], Head(args, 1));
      ([event], if used then 2 else 1)
    else
      var (events, used) := Cluster(cfg.optstring, args[0][1..], Head(args, 1));
      (events, if used then 2 else 1)
  }

  function Operand(arg: string): Event {
    Event(1, Some(arg), None, None, None)
  }

  function Parse(cfg: Config, args: seq<string>): Parsed {
    if args == [] then Parsed([], [], [])
    else if args[0] == TERMINATOR then Parsed([], args[..1], args[1..])
    else if IsOption(args[0]) then
      var (events, n) := Element(cfg, args);
      var p := Parse(cfg, args[n..]);
      Parsed(events + p.events, args[..n] + p.opts, p.operands)
    else match cfg.ordering
      case RequireOrder => Parsed([], [], args)
      case Permute =>
        var p := Parse(cfg, args[1..]);
        Parsed(p.events, p.opts, args[..1] + p.operands)
      case ReturnInOrder =>
        var p := Parse(cfg, args[1..]);
        Parsed([Operand(args[0])] + p.events, args[..1] + p.opts, p.operands)
  }
}
