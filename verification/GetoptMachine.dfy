/** The resumable parser of externals/getopt/getopt.c (the char half): it hands out one option
    per call, keeps its place in fields, and moves operands to the end of argv as it goes. */
module GetoptMachine {
  import opened Wrappers
  import opened GetoptSpec

  datatype Result = End | Yield(event: Event)

  /** What is still to be read when the machine stands at argument `i` with the letters
      `rest` of that argument left (`rest` is empty between arguments). */
  function RemainingAt(cfg: Config, args: seq<string>, i: nat, rest: string): Parsed
    requires i <= |args|
    requires rest != "" ==> i < |args|
  {
    if rest == "" then Parse(cfg, args[i..])
    else
      var (events, used) := Cluster(cfg.optstring, rest, Head(args, i + 1));
      var n := if used then 2 else 1;
      var p := Parse(cfg, args[i + n..]);
      Parsed(events + p.events, args[i..i + n] + p.opts, p.operands)
  }

  /** `s` with the blocks of `len` arguments at `i` and at `j` swapped. */
  function Swapped(s: seq<string>, i: nat, j: nat, len: nat): (t: seq<string>)
    requires i + len <= j && j + len <= |s|
  {
    seq(|s|, m requires 0 <= m < |s| => SwappedAt(s, i, j, len, m))
  }

  function SwappedAt(s: seq<string>, i: nat, j: nat, len: nat, m: nat): string
    requires i + len <= j && j + len <= |s| && m < |s|
  {
    if i <= m < i + len then s[m + (j - i)] else if j <= m < j + len then s[m - (j - i)] else s[m]
  }

  method SwapBlocks(argv: array<string>, i: nat, j: nat, len: nat)
    requires i + len <= j && j + len <= argv.Length
    modifies argv
    ensures argv[..] == Swapped(old(argv[..]), i, j, len)
  {
    ghost var s := argv[..];
    for k := 0 to len
      invariant forall m :: 0 <= m < argv.Length ==> argv[m] == SwappedAt(s, i, j, k, m)
    {
      var tem := argv[i + k];
      argv[i + k] := argv[j + k];
      argv[j + k] := tem;
    }
  }

  /** `s` with the adjacent blocks [bottom, middle) and [middle, top) exchanged. */
  function Rotated(s: seq<string>, bottom: nat, middle: nat, top: nat): seq<string>
    requires bottom <= middle <= top <= |s|
  {
    s[..bottom] + s[middle..top] + s[bottom..middle] + s[top..]
  }

  lemma Regroup(a: seq<string>, b: seq<string>, c: seq<string>, d: seq<string>, e: seq<string>)
    ensures (a + b) + c + d + e == a + b + (c + d) + e && a + c + d + (b + e) == a + (c + d) + b + e
  {
  }

  /** The five parts of argv after a swap. */
  lemma SwappedParts(s: seq<string>, i: nat, j: nat, len: nat)
    requires i + len <= j && j + len <= |s|
    ensures var t := Swapped(s, i, j, len);
            && |t| == |s| && t[..i] == s[..i] && t[i..i + len] == s[j..j + len] && t[i + len..j] == s[i + len..j]
            && t[j..j + len] == s[i..i + len] && t[j + len..] == s[j + len..]
  {
    var t := Swapped(s, i, j, len);
    assert |t| == |s| && forall m :: 0 <= m < |s| ==> t[m] == SwappedAt(s, i, j, len, m);
    hide Swapped;
    SamePart(t, 0, s, 0, i);
    SamePart(t, i, s, j, len);
    SamePart(t, i + len, s, i + len, j - (i + len));
    SamePart(t, j, s, i, len);
    SamePart(t, j + len, s, j + len, |s| - (j + len));
    assert t[..i] == t[0..i] && t[j + len..] == t[j + len..|s|];
  }

  lemma SamePart(t: seq<string>, a: nat, s: seq<string>, b: nat, n: nat)
    requires a + n <= |t| && b + n <= |s| && forall k :: a <= k < a + n ==> t[k] == s[k - a + b]
    ensures t[a..a + n] == s[b..b + n]
  {
  }

  lemma RotatedAs(s: seq<string>, bottom: nat, middle: nat, top: nat, a: seq<string>, b: seq<string>, c: seq<string>,
                  d: seq<string>)
    requires bottom <= middle <= top <= |s|
    requires s[..bottom] == a && s[middle..top] == b && s[bottom..middle] == c && s[top..] == d
    ensures Rotated(s, bottom, middle, top) == a + b + c + d
  {
  }

  lemma Joined(s: seq<string>, a: nat, b: nat, c: nat)
    requires a <= b <= c <= |s|
    ensures s[a..c] == s[a..b] + s[b..c]
  {
  }

  /** One round on the long right block: the left block lands at the top, and rotating the rest
      finishes the job. */
  lemma RoundFromTop(s: seq<string>, t: seq<string>, bottom: nat, middle: nat, top: nat)
    requires bottom <= middle <= top <= |s|
    requires middle - bottom < top - middle
    requires t == Swapped(s, bottom, top - (middle - bottom), middle - bottom)
    ensures Rotated(t, bottom, middle, top - (middle - bottom)) == Rotated(s, bottom, middle, top)
  {
    hide Swapped, Rotated;
    var len := middle - bottom;
    var a, b, c, d, e := s[..bottom], s[bottom..middle], s[middle..top - len], s[top - len..top], s[top..];
    SwappedParts(s, bottom, top - len, len);
    assert t[top - len..] == b + e by {
      Joined(t, top - len, top, |t|);
      assert t[top - len..] == t[top - len..|t|] && t[top..] == t[top..|t|];
    }
    Joined(s, middle, top - len, top);
    RotatedAs(t, bottom, middle, top - len, a, c, d, b + e);
    RotatedAs(s, bottom, middle, top, a, c + d, b, e);
    Regroup(a, b, c, d, e);
  }

  lemma RoundFromBottom(s: seq<string>, t: seq<string>, bottom: nat, middle: nat, top: nat)
    requires bottom <= middle <= top <= |s|
    requires top - middle <= middle - bottom
    requires t == Swapped(s, bottom, middle, top - middle)
    ensures Rotated(t, bottom + (top - middle), middle, top) == Rotated(s, bottom, middle, top)
  {
    hide Swapped, Rotated;
    var len := top - middle;
    var a, b, c, d, e := s[..bottom], s[middle..top], s[bottom..bottom + len], s[bottom + len..middle], s[top..];
    SwappedParts(s, bottom, middle, len);
    assert t[..bottom + len] == a + b by {
      Joined(t, 0, bottom, bottom + len);
      assert t[..bottom + len] == t[0..bottom + len] && t[..bottom] == t[0..bottom];
    }
    Joined(s, bottom, bottom + len, middle);
    RotatedAs(t, bottom + len, middle, top, a + b, c, d, e);
    RotatedAs(s, bottom, middle, top, a, b, c + d, e);
    Regroup(a, b, c, d, e);
  }

  lemma NothingToRotate(s: seq<string>, bottom: nat, middle: nat, top: nat)
    requires bottom <= middle <= top <= |s|
    requires bottom == middle || middle == top
    ensures Rotated(s, bottom, middle, top) == s
  {
  }

  /** One round of the exchange: it brings at least one block to its place. */
  method Round(argv: array<string>, bottom: nat, middle: nat, top: nat) returns (bottom': nat, top': nat)
    requires bottom < middle < top <= argv.Length
    modifies argv
    ensures bottom <= bottom' <= middle <= top' <= top && top' - bottom' < top - bottom
    ensures Rotated(argv[..], bottom', middle, top') == Rotated(old(argv[..]), bottom, middle, top)
  {
    hide Rotated, Swapped;
    ghost var s := argv[..];
    bottom', top' := bottom, top;
    if top - middle > middle - bottom {
      var len := middle - bottom;
      SwapBlocks(argv, bottom, top - len, len);
      RoundFromTop(s, argv[..], bottom, middle, top);
      top' := top - len;
    } else {
      var len := top - middle;
      SwapBlocks(argv, bottom, middle, len);
      RoundFromBottom(s, argv[..], bottom, middle, top);
      bottom' := bottom + len;
    }
  }

  /** The in-place block exchange of `exchange_a`. */
  method Exchange(argv: array<string>, first: nat, last: nat, optind: nat)
    requires first <= last <= optind <= argv.Length
    modifies argv
    ensures argv[..] == Rotated(old(argv[..]), first, last, optind)
  {
    var bottom, middle, top := first, last, optind;
    while top > middle && middle > bottom
      invariant first <= bottom <= middle <= top <= optind
      invariant Rotated(argv[..], bottom, middle, top) == Rotated(old(argv[..]), first, last, optind)
      decreases top - bottom
    {
      bottom, top := Round(argv, bottom, middle, top);
    }
    NothingToRotate(argv[..], bottom, middle, top);
  }

  /** Where everything is after the exchange. */
  lemma RotatedParts(s: seq<string>, start: nat, first: nat, last: nat, i: nat)
    requires start <= first <= last <= i <= |s|
    ensures var t := Rotated(s, first, last, i); var m := first + (i - last);
            && |t| == |s|
            && t[..start] == s[..start]
            && t[start..m] == s[start..first] + s[last..i]
            && t[m..i] == s[first..last]
            && t[i..] == s[i..]
  {
    var t, m := Rotated(s, first, last, i), first + (i - last);
    assert t[..first] == s[..first];
    assert t[first..m] == s[last..i];
    assert t[start..m] == t[..first][start..] + t[first..m];
    assert t[..start] == t[..first][..start];
  }

  // ---------- the loops over the option string and the table ----------

  method StrChr(s: string, c: char) returns (k: nat)
    ensures k == IndexOf(s, c)
  {
    k := 0;
    while k < |s| && s[k] != c
      invariant k <= |s|
      invariant IndexOf(s, c) == k + IndexOf(s[k..], c)
    {
      assert s[k..][1..] == s[k + 1..];
      k := k + 1;
    }
  }

  /** The search of the long-option table, row by row. */
  method FindLong(table: seq<LongOption>, key: string) returns (r: LookupResult)
    ensures r == Lookup(table, key)
  {
    var pfound: Option<nat>, ambiguous := None, false;
    var k := 0;
    while k < |table|
      invariant k <= |table|
      invariant forall j :: j < k ==> !IsExact(table, key, j)
      invariant pfound.None? ==> !ambiguous && forall j :: j < k ==> !IsAbbreviated(table, key, j)
      invariant pfound.Some? ==> pfound.value < k && IsAbbreviated(table, key, pfound.value)
      invariant pfound.Some? ==> forall j :: j < pfound.value ==> !IsAbbreviated(table, key, j)
      invariant pfound.Some? && !ambiguous ==>
        forall j :: j < k && IsAbbreviated(table, key, j) ==> Agree(table[pfound.value], table[j])
      invariant ambiguous ==>
        exists i, j :: IsAbbreviated(table, key, i) && IsAbbreviated(table, key, j) && !Agree(table[i], table[j])
    {
      var p := table[k];
      if key <= p.name {
        assert IsAbbreviated(table, key, k);
        if |key| == |p.name| {
          assert IsExact(table, key, k);
          SelectionIsUnique(table, key, Found(k));
          return Found(k);
        } else if pfound.None? {
          pfound := Some(k);
        } else if !Agree(table[pfound.value], p) {
          ambiguous := true;
        }
      }
      k := k + 1;
    }
    r := if ambiguous then Ambiguous else if pfound.Some? then Found(pfound.value) else NotFound;
    SelectionIsUnique(table, key, r);
  }

  // ---------- reading on from a place in argv ----------

  /** The parse of a whole run: what was read before argument `i` (kept apart as used-up
      arguments and operands) and what reading on from `i` gives. */
  function WholeRun(moved: seq<string>, operands: seq<string>, rest: Parsed): Parsed {
    Parsed(rest.events, moved + rest.opts, operands + rest.operands)
  }

  /** One event that takes up `n` arguments. */
  function Take(cfg: Config, args: seq<string>, i: nat, n: nat, event: Event): Parsed
    requires i + n <= |args|
  {
    var p := Parse(cfg, args[i + n..]);
    Parsed([event] + p.events, args[i..i + n] + p.opts, p.operands)
  }

  /** A parse that begins with `event`. */
  function AfterEvent(event: Event, p: Parsed): Parsed {
    Parsed([event] + p.events, p.opts, p.operands)
  }

  /** The first letter of `rest`: its event, the letters left over, and how many arguments
      are used up (none as long as letters are left over). */
  function Letter(optstring: string, rest: string, next: Option<string>): (r: (Event, string, nat))
    requires rest != ""
    ensures r.2 == 0 <==> r.1 != ""
    ensures r.2 == 2 ==> next.Some?
    ensures r.2 <= 2
  {
    var c, tail := rest[0], rest[1..];
    match KindOf(optstring, c)
    case OptionalArg => (ShortEvent(c, if tail == "" then None else Some(tail)), "", 1)
    case RequiredArg =>
      if tail != "" then (ShortEvent(c, Some(tail)), "", 1)
      else if next.Some? then (ShortEvent(c, next), "", 2)
      else (Problem(MissingCode(optstring), c as int), "", 1)
    case _ => (FlagEvent(optstring, c), tail, if tail == "" then 1 else 0)
  }

  lemma LetterOfCluster(optstring: string, rest: string, next: Option<string>)
    requires rest != ""
    ensures var (event, tail, n) := Letter(optstring, rest, next);
            Cluster(optstring, rest, next)
            == if n > 0 then ([event], n == 2)
              else var (events, used) := Cluster(optstring, tail, next); ([event] + events, used)
  {
    hide KindOf;
  }

  /** Reading an argument letter by letter gives what reading it at once gives. */
  lemma OneLetter(cfg: Config, args: seq<string>, i: nat, rest: string)
    requires i < |args| && rest != ""
    ensures
      var (event, tail, n) := Letter(cfg.optstring, rest, Head(args, i + 1));
      RemainingAt(cfg, args, i, rest)
      == if n == 0 then AfterEvent(event, RemainingAt(cfg, args, i, tail)) else Take(cfg, args, i, n, event)
  {
    hide Letter, Cluster, Parse;
    LetterOfCluster(cfg.optstring, rest, Head(args, i + 1));
    var (event, tail, n) := Letter(cfg.optstring, rest, Head(args, i + 1));
    if n == 0 {
      var (events, used) := Cluster(cfg.optstring, tail, Head(args, i + 1));
      var p := Parse(cfg, args[i + (if used then 2 else 1)..]);
      assert ([event] + events) + p.events == [event] + (events + p.events);
    }
  }

  /** An option argument, read as its letters or as one long option. */
  lemma OneArgument(cfg: Config, args: seq<string>, i: nat)
    requires i < |args| && IsOption(args[i]) && args[i] != TERMINATOR
    ensures !IsLong(cfg, args[i]) ==> Parse(cfg, args[i..]) == RemainingAt(cfg, args, i, args[i][1..])
    ensures IsLong(cfg, args[i]) ==>
              var (event, used) := Long(cfg.optstring, cfg.longopts.value, args[i][2..], Head(args, i + 1));
              Parse(cfg, args[i..]) == Take(cfg, args, i, if used then 2 else 1, event)
  {
    var tail := args[i..];
    assert tail[0] == args[i] && Head(tail, 1) == Head(args, i + 1);
    var n := Element(cfg, tail).1;
    assert tail[..n] == args[i..i + n] && tail[n..] == args[i + n..];
  }

  /** Moving the place past `n` arguments that were used up. */
  lemma TakeIsConserved(cfg: Config, args: seq<string>, moved: seq<string>, operands: seq<string>, last: nat, i: nat,
      n: nat, event: Event)
    requires last <= i && i + n <= |args|
    ensures var p := Parse(cfg, args[i + n..]);
            WholeRun(moved + args[last..i], operands, Take(cfg, args, i, n, event))
            == Parsed([event] + p.events, (moved + args[last..i + n]) + p.opts, operands + p.operands)
  {
    var p := Parse(cfg, args[i + n..]);
    assert (moved + args[last..i]) + (args[i..i + n] + p.opts) == (moved + (args[last..i] + args[i..i + n])) + p.opts;
    assert args[last..i] + args[i..i + n] == args[last..i + n];
  }

  /** Bounds that cut the read part of argv into options, operands and options. */
  ghost predicate Bounds(args: seq<string>, start: nat, first: nat, last: nat, i: nat, rest: string) {
    start <= first <= last <= i <= |args| && (rest != "" ==> i < |args|)
  }

  ghost function TotalAt(cfg: Config, args: seq<string>, start: nat, first: nat, last: nat, i: nat,
      rest: string): Parsed
    requires Bounds(args, start, first, last, i, rest)
  {
    WholeRun(args[start..first] + args[last..i], args[first..last], RemainingAt(cfg, args, i, rest))
  }

  lemma TotalAtStart(cfg: Config, args: seq<string>, i: nat)
    requires i <= |args|
    ensures TotalAt(cfg, args, i, i, i, i, "") == Parse(cfg, args[i..])
  {
    hide Parse;
  }

  /** Handing back one operand. */
  lemma OperandAdvances(cfg: Config, args: seq<string>, start: nat, i: nat)
    requires start <= i < |args| && cfg.ordering.ReturnInOrder? && !IsOption(args[i])
    ensures TotalAt(cfg, args, start, start, start, i, "")
         == AfterEvent(Operand(args[i]), TotalAt(cfg, args, start, start, start, i + 1, ""))
  {
    assert args[i..][1..] == args[i + 1..] && args[i..][..1] == args[i..i + 1];
    assert Parse(cfg, args[i..]) == Take(cfg, args, i, 1, Operand(args[i]));
    hide Parse;
    TakeIsConserved(cfg, args, [], [], start, i, 1, Operand(args[i]));
  }

  /** Skipping one operand in a permuting parse. */
  lemma SkipOperand(cfg: Config, args: seq<string>, start: nat, first: nat, i: nat)
    requires start <= first <= i < |args| && cfg.ordering.Permute? && !IsOption(args[i])
    ensures TotalAt(cfg, args, start, first, i, i, "") == TotalAt(cfg, args, start, first, i + 1, i + 1, "")
  {
    var p := Parse(cfg, args[i + 1..]);
    assert args[i..][1..] == args[i + 1..];
    assert args[first..i] + (args[i..][..1] + p.operands) == args[first..i + 1] + p.operands;
  }

  /** Gathering the used-up arguments in front of the operands changes nothing that counts. */
  lemma SettlingKeeps(cfg: Config, s: seq<string>, t: seq<string>, start: nat, first: nat, last: nat, i: nat,
      first': nat)
    requires Bounds(s, start, first, last, i, "") && |t| == |s| && start <= first' <= i
    requires t[start..first'] == s[start..first] + s[last..i]
    requires t[first'..i] == s[first..last] && t[i..] == s[i..]
    ensures TotalAt(cfg, s, start, first, last, i, "") == TotalAt(cfg, t, start, first', i, i, "")
  {
    assert t[i..i] == [];
  }

  lemma TerminatorEndsIt(cfg: Config, args: seq<string>, start: nat, first: nat, last: nat, i: nat)
    requires Bounds(args, start, first, last, i, "") && i < |args| && args[i] == TERMINATOR
    ensures TotalAt(cfg, args, start, first, last, i, "")
            == Parsed([], args[start..first] + args[last..i + 1], args[first..last] + args[i + 1..])
  {
    assert args[i..][..1] == args[i..i + 1] && args[i..][1..] == args[i + 1..];
    assert (args[start..first] + args[last..i]) + args[i..i + 1] == args[start..first] + args[last..i + 1];
  }

  /** Where everything is once the "--" at `i` has joined the used-up arguments. */
  lemma TerminatorLayout(s: seq<string>, start: nat, first: nat, last: nat, i: nat)
    requires start <= first <= last <= i < |s|
    ensures var t := if first == last then s else Rotated(s, first, last, i + 1);
            var m := if first == last then i + 1 else first + (i + 1 - last);
            && |t| == |s|
            && t[..start] == s[..start]
            && t[start..m] == s[start..first] + s[last..i + 1]
            && t[m..] == s[first..last] + s[i + 1..]
  {
    if first == last {
      assert s[start..i + 1] == s[start..first] + s[last..i + 1];
      assert s[first..last] == [];
    } else {
      RotatedParts(s, start, first, last, i + 1);
      var t, m := Rotated(s, first, last, i + 1), first + (i + 1 - last);
      assert t[m..] == t[m..i + 1] + t[i + 1..];
    }
  }

  /** After the rotation the arguments are those used up and then the operands. */
  lemma TerminatorSplits(cfg: Config, s: seq<string>, start: nat, first: nat, last: nat, i: nat)
    requires Bounds(s, start, first, last, i, "") && i < |s| && s[i] == TERMINATOR
    ensures var t := if first == last then s else Rotated(s, first, last, i + 1);
            var m := if first == last then i + 1 else first + (i + 1 - last);
            var total := TotalAt(cfg, s, start, first, last, i, "");
            && |t| == |s| && t[..start] == s[..start] && start <= m <= |t|
            && total.events == [] && t[start..m] == total.opts && t[m..] == total.operands
  {
    hide Rotated, TotalAt;
    TerminatorEndsIt(cfg, s, start, first, last, i);
    TerminatorLayout(s, start, first, last, i);
  }

  lemma ArgumentBegins(cfg: Config, args: seq<string>, start: nat, first: nat, last: nat, i: nat)
    requires Bounds(args, start, first, last, i, "") && i < |args|
    requires IsOption(args[i]) && args[i] != TERMINATOR && !IsLong(cfg, args[i])
    ensures TotalAt(cfg, args, start, first, last, i, "") == TotalAt(cfg, args, start, first, last, i, args[i][1..])
  {
    OneArgument(cfg, args, i);
  }

  lemma LongAdvances(cfg: Config, args: seq<string>, start: nat, first: nat, last: nat, i: nat)
    requires Bounds(args, start, first, last, i, "") && i < |args|
    requires IsOption(args[i]) && args[i] != TERMINATOR && IsLong(cfg, args[i])
    ensures var (event, used) := Long(cfg.optstring, cfg.longopts.value, args[i][2..], Head(args, i + 1));
            TotalAt(cfg, args, start, first, last, i, "")
            == AfterEvent(event, TotalAt(cfg, args, start, first, last, i + (if used then 2 else 1), ""))
  {
    var (event, used) := Long(cfg.optstring, cfg.longopts.value, args[i][2..], Head(args, i + 1));
    OneArgument(cfg, args, i);
    TakeIsConserved(cfg, args, args[start..first], args[first..last], last, i, if used then 2 else 1, event);
  }

  lemma LetterAdvances(cfg: Config, args: seq<string>, start: nat, first: nat, last: nat, i: nat, rest: string)
    requires Bounds(args, start, first, last, i, rest) && rest != ""
    ensures var (event, tail, n) := Letter(cfg.optstring, rest, Head(args, i + 1));
            TotalAt(cfg, args, start, first, last, i, rest)
            == AfterEvent(event, TotalAt(cfg, args, start, first, last, i + n, tail))
  {
    hide Letter, Parse, Cluster;
    var (event, tail, n) := Letter(cfg.optstring, rest, Head(args, i + 1));
    OneLetter(cfg, args, i, rest);
    if n == 0 {
      hide RemainingAt;
    } else {
      assert RemainingAt(cfg, args, i + n, tail) == Parse(cfg, args[i + n..]);
      hide RemainingAt;
      TakeIsConserved(cfg, args, args[start..first], args[first..last], last, i, n, event);
    }
  }

  // ---------- what is unread ----------

  /** The characters of the arguments, and one more for each that is not an option. */
  function Weight(args: seq<string>): nat {
    if args == [] then 0 else |args[0]| + (if IsOption(args[0]) then 0 else 1) + Weight(args[1..])
  }

  /** What the letters `rest` of argument `i` and the arguments after it weigh. */
  function UnreadAt(args: seq<string>, i: nat, rest: string): nat
    requires i <= |args| && (rest != "" ==> i < |args|)
  {
    if rest == "" then Weight(args[i..]) else |rest| + Weight(args[i + 1..])
  }

  lemma WeightFrom(args: seq<string>, i: nat)
    requires i < |args|
    ensures Weight(args[i..]) == |args[i]| + (if IsOption(args[i]) then 0 else 1) + Weight(args[i + 1..])
  {
    assert args[i..][1..] == args[i + 1..];
  }

  /** An argument that is taken, alone or with the next one, is not unread any more. */
  lemma UnreadAfter(args: seq<string>, i: nat, n: nat)
    requires 1 <= n <= 2 && i + n <= |args|
    ensures UnreadAt(args, i + n, "") < UnreadAt(args, i, "")
    ensures forall rest: string :: rest != "" ==> UnreadAt(args, i + n, "") < UnreadAt(args, i, rest)
  {
    WeightFrom(args, i);
    if n == 2 {
      WeightFrom(args, i + 1);
    }
    hide Weight;
  }

  lemma UnreadLetter(optstring: string, args: seq<string>, i: nat, rest: string)
    requires i < |args| && rest != ""
    ensures var (_, tail, n) := Letter(optstring, rest, Head(args, i + 1));
            i + n <= |args| && UnreadAt(args, i + n, tail) < UnreadAt(args, i, rest)
  {
    var n := Letter(optstring, rest, Head(args, i + 1)).2;
    if n > 0 {
      UnreadAfter(args, i, n);
    }
    hide Weight, KindOf;
  }

  lemma UnreadBegins(args: seq<string>, i: nat)
    requires i < |args| && IsOption(args[i])
    ensures UnreadAt(args, i, args[i][1..]) < UnreadAt(args, i, "")
  {
    WeightFrom(args, i);
    hide Weight;
  }

  function Min(a: nat, b: nat): nat {
    if a > b then b else a
  }

  // ---------- the machine ----------

  class Getopt {
    const argv: array<string>
    const optstring: string
    const longopts: Option<seq<LongOption>>
    const posixlyCorrect: bool
    ghost const start: nat  // where parsing begins

    var optind: nat
    var optopt: int
    var optarg: Option<string>
    var initialized: bool
    var nextchar: string    // "" also stands for the null pointer
    var ordering: Ordering
    var firstNonopt: nat
    var lastNonopt: nat

    ghost function Cfg(): Config {
      Config(Strip(optstring), OrderingOf(optstring, posixlyCorrect), longopts)
    }

    /** The letters of an argument are only ever left over from a short-option argument. */
    ghost predicate PlaceOk()
      reads this, argv
    {
      && start <= optind <= argv.Length
      && (nextchar != "" ==> optind < argv.Length && IsOption(argv[optind]) && !IsLong(Cfg(), argv[optind]))
    }

    ghost predicate Valid()
      reads this, argv
    {
      if initialized then
        && 1 <= start <= firstNonopt <= lastNonopt <= optind
        && PlaceOk()
        && ordering == Cfg().ordering
        && (!ordering.Permute? ==> firstNonopt == lastNonopt == start)
      else
        && nextchar == ""
        && start == (if optind == 0 then 1 else optind)
        && (argv.Length > 0 ==> start <= argv.Length)
    }

    /** Used-up arguments: those already moved to the front and those read since. */
    ghost function Moved(): seq<string>
      requires Valid() && initialized
      reads this, argv
    {
      argv[start..firstNonopt] + argv[lastNonopt..optind]
    }

    /** The parse of the whole run, told from the present state. */
    ghost function Total(): Parsed
      requires Valid() && argv.Length > 0
      reads this, argv
    {
      if initialized then TotalAt(Cfg(), argv[..], start, firstNonopt, lastNonopt, optind, nextchar)
      else Parse(Cfg(), argv[start..])
    }

    /** What is still to be read: every call that yields makes it less. */
    ghost function Unread(): nat
      requires Valid() && argv.Length > 0
      reads this, argv
    {
      if initialized then UnreadAt(argv[..], optind, nextchar) else Weight(argv[start..])
    }

    constructor (argv: array<string>, optstring: string, longopts: Option<seq<LongOption>>, posixlyCorrect: bool,
        optind: nat)
      requires optind <= argv.Length && !TakesLongAsW(Strip(optstring))
      ensures Valid() && !initialized
      ensures this.argv == argv && this.optstring == optstring && this.longopts == longopts
      ensures this.posixlyCorrect == posixlyCorrect && this.optind == optind
    {
      this.argv, this.optstring, this.longopts, this.posixlyCorrect := argv, optstring, longopts, posixlyCorrect;
      this.start := if optind == 0 then 1 else optind;
      this.optind, this.optopt, this.optarg := optind, '?' as int, None;
      this.initialized, this.nextchar := false, "";
      this.ordering, this.firstNonopt, this.lastNonopt := RequireOrder, 0, 0;
    }

    /** `_getopt_initialize_a`, with the guard that comes before it. */
    method Initialize()
      requires Valid() && argv.Length > 0
      modifies this`optind, this`initialized, this`nextchar, this`ordering, this`firstNonopt, this`lastNonopt
      ensures Valid() && initialized && Total() == old(Total()) && Unread() == old(Unread())
    {
      hide TotalAt, Parse, Weight;
      if optind == 0 || !initialized {
        if optind == 0 {
          optind := 1;
        }
        firstNonopt, lastNonopt := optind, optind;
        nextchar := "";
        if |optstring| > 0 && optstring[0] == '-' {
          ordering := ReturnInOrder;
        } else if |optstring| > 0 && optstring[0] == '+' {
          ordering := RequireOrder;
        } else if posixlyCorrect {
          ordering := RequireOrder;
        } else {
          ordering := Permute;
        }
        initialized := true;
        assert argv[..][optind..] == argv[start..];
        TotalAtStart(Cfg(), argv[..], optind);
      }
    }

    /** `exchange_a`: the operands change places with the options read since, and the bounds
        follow them. */
    method ExchangeNonopts()
      requires firstNonopt <= lastNonopt <= optind <= argv.Length
      modifies this`firstNonopt, this`lastNonopt, argv
      ensures argv[..] == Rotated(old(argv[..]), old(firstNonopt), old(lastNonopt), optind)
      ensures firstNonopt == old(firstNonopt) + (optind - old(lastNonopt)) && lastNonopt == optind
    {
      Exchange(argv, firstNonopt, lastNonopt, optind);
      firstNonopt := firstNonopt + (optind - lastNonopt);
      lastNonopt := optind;
    }

    /** Brings the used-up arguments together in front of the operands. */
    method Settle()
      requires Valid() && initialized
      modifies this`firstNonopt, this`lastNonopt, argv
      ensures start <= firstNonopt <= optind
      ensures argv[start..firstNonopt] == old(Moved())
      ensures argv[firstNonopt..optind] == old(argv[firstNonopt..lastNonopt])
      ensures argv[..start] == old(argv[..start]) && argv[optind..] == old(argv[optind..])
    {
      hide Rotated;
      RotatedParts(argv[..], start, firstNonopt, lastNonopt, optind);
      if firstNonopt != lastNonopt && lastNonopt != optind {
        ExchangeNonopts();
        assert argv[start..firstNonopt] == argv[..][start..firstNonopt];
        assert argv[firstNonopt..optind] == argv[..][firstNonopt..optind];
        assert argv[..start] == argv[..][..start];
        assert argv[optind..] == argv[..][optind..];
      } else if lastNonopt != optind {
        firstNonopt := optind;
      }
    }

    /** Moves past the operands in front of the next option argument (permuting order only). */
    method GatherOperands()
      requires Valid() && initialized && nextchar == "" && ordering.Permute? && argv.Length > 0
      modifies this`optind, this`firstNonopt, this`lastNonopt, argv
      ensures Valid() && Total() == old(Total()) && lastNonopt == optind && Unread() <= old(Unread())
      ensures argv[..start] == old(argv[..start])
      ensures optind < argv.Length ==> IsOption(argv[optind])
    {
      hide TotalAt, Weight;
      ghost var before, first := argv[..], firstNonopt;
      ghost var total := Total();
      Settle();
      SettlingKeeps(Cfg(), before, argv[..], start, first, old(lastNonopt), optind, firstNonopt);
      assert argv[..][optind..] == before[optind..];
      while optind < argv.Length && !IsOption(argv[optind])
        modifies this`optind
        invariant start <= firstNonopt <= optind <= argv.Length
        invariant TotalAt(Cfg(), argv[..], start, firstNonopt, optind, optind, "") == total
        invariant UnreadAt(argv[..], optind, "") <= old(Unread())
      {
        SkipOperand(Cfg(), argv[..], start, firstNonopt, optind);
        UnreadAfter(argv[..], optind, 1);
        optind := optind + 1;
      }
      lastNonopt := optind;
    }

    /** The command line is exhausted and everything in it is where it belongs. */
    ghost predicate Exhausted(total: Parsed)
      reads this, argv
    {
      && total.events == []
      && optind == argv.Length
      && start <= FinalOptind() <= argv.Length
      && argv[..][start..FinalOptind()] == total.opts
      && argv[..][FinalOptind()..] == total.operands
    }

    ghost function FinalOptind(): nat
      reads this
    {
      if firstNonopt != lastNonopt then firstNonopt else optind
    }

    /** The "--" joins the used-up arguments. */
    method PassTerminator()
      requires firstNonopt <= lastNonopt <= optind < argv.Length
      modifies this`optind, this`firstNonopt, this`lastNonopt, argv
      ensures argv[..] == old(if firstNonopt == lastNonopt then argv[..]
        else Rotated(argv[..], firstNonopt, lastNonopt, optind + 1))
      ensures firstNonopt == old(if firstNonopt == lastNonopt then optind + 1
        else firstNonopt + (optind + 1 - lastNonopt))
    {
      hide Rotated;
      optind := optind + 1;
      if firstNonopt != lastNonopt && lastNonopt != optind {
        ExchangeNonopts();
      } else if firstNonopt == lastNonopt {
        firstNonopt := optind;
      }
    }

    /** The "--" argument: all that follows is operands (guideline 10 of POSIX.1-2017, section 12.2). */
    method Terminate()
      requires Valid() && initialized && nextchar == ""
      requires ordering.Permute? ==> lastNonopt == optind
      requires optind < argv.Length && argv[optind] == TERMINATOR
      modifies this`optind, this`firstNonopt, this`lastNonopt, argv
      ensures argv[..start] == old(argv[..start])
      ensures Exhausted(old(Total()))
    {
      hide Rotated, TotalAt, Parse;
      ghost var before := argv[..];
      TerminatorSplits(Cfg(), before, start, firstNonopt, lastNonopt, optind);
      PassTerminator();
      assert argv[..][..start] == before[..start];
      lastNonopt := argv.Length;
      optind := argv.Length;
      assert FinalOptind() == firstNonopt;
    }

    /** Looks for the next option argument.  `None`: the machine stands in front of one. */
    method Advance() returns (r: Option<Result>)
      requires Valid() && initialized && nextchar == "" && argv.Length > 0
      modifies this`optind, this`firstNonopt, this`lastNonopt, this`optarg, argv
      ensures argv[..start] == old(argv[..start])
      ensures r.None? ==>
        && Valid() && Total() == old(Total()) && Unread() <= old(Unread()) && optarg == old(optarg)
        && optind < argv.Length && IsOption(argv[optind]) && argv[optind] != TERMINATOR
      ensures r.Some? && r.value.Yield? ==>
        && Valid() && old(Total()) == AfterEvent(r.value.event, Total()) && Unread() < old(Unread())
        && r.value.event.optopt.None? && optarg == r.value.event.arg
      ensures r.Some? && r.value.End? ==> Finished(old(Total()))
    {
      hide TotalAt, AfterEvent, UnreadAt, Weight;
      lastNonopt := Min(lastNonopt, optind);
      firstNonopt := Min(firstNonopt, optind);
      if ordering == Permute {
        GatherOperands();
      }
      if optind != argv.Length && argv[optind] == TERMINATOR {
        Terminate();
      } else if optind == argv.Length {
        NothingLeft();
      }
      if optind == argv.Length {
        if firstNonopt != lastNonopt {
          optind := firstNonopt;
        }
        return Some(End);
      }
      if !IsOption(argv[optind]) {
        if ordering == RequireOrder {
          StopAtOperand();
          return Some(End);
        }
        ReturnOperand();
        return Some(Yield(Operand(optarg.value)));
      }
      return None;
    }

    /** The caller's view when the run is over. */
    ghost predicate Finished(total: Parsed)
      reads this, argv
    {
      && total.events == []
      && start <= optind <= argv.Length
      && argv[..][start..optind] == total.opts
      && argv[..][optind..] == total.operands
    }

    lemma NothingLeft()
      requires Valid() && initialized && nextchar == "" && optind == argv.Length > 0
      requires ordering.Permute? ==> lastNonopt == optind
      ensures Exhausted(Total())
    {
      assert argv[..][optind..] == [];
    }

    lemma StopAtOperand()
      requires Valid() && initialized && nextchar == "" && ordering.RequireOrder?
      requires optind < argv.Length && !IsOption(argv[optind])
      ensures Finished(Total())
    {
      assert argv[..][optind..] == argv[optind..];
    }

    method ReturnOperand()
      requires Valid() && initialized && nextchar == "" && ordering.ReturnInOrder?
      requires optind < argv.Length && !IsOption(argv[optind])
      modifies this`optind, this`optarg
      ensures Valid() && optarg == Some(old(argv[optind]))
      ensures old(Total()) == AfterEvent(Operand(optarg.value), Total()) && Unread() < old(Unread())
    {
      hide TotalAt, AfterEvent, UnreadAt;
      UnreadAfter(argv[..], optind, 1);
      OperandAdvances(Cfg(), argv[..], start, optind);
      optarg := Some(argv[optind]);
      optind := optind + 1;
    }

    /** The state after `event` was read at `place` and took up `n` arguments. */
    twostate predicate Took(event: Event, n: nat, place: nat)
      reads this
    {
      && optind == place + n
      && optarg == event.arg
      && optopt == (if event.optopt.Some? then event.optopt.value else old(optopt))
    }

    /** One long option (lines 187-316). */
    method ReadLong() returns (event: Event)
      requires optind < argv.Length && IsOption(argv[optind]) && IsLong(Cfg(), argv[optind]) && optarg.None?
      modifies this`optind, this`optarg, this`optopt
      ensures var (event', used) := Long(Cfg().optstring, longopts.value, argv[old(optind)][2..],
        Head(argv[..], old(optind) + 1));
              event == event' && Took(event, if used then 2 else 1, old(optind))
    {
      var opts := Strip(optstring);
      var text := argv[optind][2..];
      var nameend := StrChr(text, '=');
      var found := FindLong(longopts.value, text[..nameend]);
      optind := optind + 1;
      match found {
        case NotFound =>
          optopt := 0;
          return Problem('?' as int, 0);
        case Ambiguous =>
          optopt := 0;
          return Problem('?' as int, 0);
        case Found(k) =>
          var p := longopts.value[k];
          if nameend < |text| {
            if p.hasArg != 0 {
              optarg := Some(text[nameend + 1..]);
            } else {
              optopt := p.val;
              return Problem('?' as int, p.val);
            }
          } else if p.hasArg == 1 {
            if optind < argv.Length {
              optarg := Some(argv[optind]);
              optind := optind + 1;
            } else {
              optopt := p.val;
              return Problem(if |opts| > 0 && opts[0] == ':' then ':' as int else '?' as int, p.val);
            }
          }
          return if p.flag.Some? then Event(0, optarg, None, Some(k), Some((p.flag.value, p.val)))
                 else Event(p.val, optarg, None, Some(k), None);
      }
    }

    /** One letter of a short-option argument (lines 317-475). */
    method ReadShort() returns (event: Event)
      requires nextchar != "" && optind < argv.Length && optarg.None?
      modifies this`optind, this`optarg, this`optopt, this`nextchar
      ensures var (event', tail, n) := Letter(Cfg().optstring, old(nextchar), Head(argv[..], old(optind) + 1));
              event == event' && nextchar == tail && Took(event, n, old(optind))
    {
      var opts := Strip(optstring);
      var c := nextchar[0];
      nextchar := nextchar[1..];
      var temp := StrChr(opts, c);
      assert KindOf(opts, c) == if temp == |opts| || c == ':' || c == ';' then Unknown else KindAt(opts, temp);
      hide IndexOf, KindOf;
      if nextchar == "" {
        optind := optind + 1;
      }
      if temp == |opts| || c == ':' || c == ';' {
        optopt := c as int;
        return Problem('?' as int, c as int);
      }
      if temp + 1 < |opts| && opts[temp + 1] == ':' {
        if temp + 2 < |opts| && opts[temp + 2] == ':' {
          if nextchar != "" {
            optarg := Some(nextchar);
            optind := optind + 1;
          } else {
            optarg := None;
          }
          nextchar := "";
        } else {
          var code := c as int;
          if nextchar != "" {
            optarg := Some(nextchar);
            optind := optind + 1;
          } else if optind == argv.Length {
            optopt := c as int;
            nextchar := "";
            return Problem(if |opts| > 0 && opts[0] == ':' then ':' as int else '?' as int, c as int);
          } else {
            optarg := Some(argv[optind]);
            optind := optind + 1;
          }
          nextchar := "";
        }
      }
      return ShortEvent(c, optarg);
    }

    /** The next option: `_getopt_internal_r_a`. */
    method Next() returns (r: Result)
      requires Valid()
      modifies this, argv
      ensures argv.Length == 0 ==> r.End? && optind == old(optind)
      ensures argv.Length > 0 ==> argv[..start] == old(argv[..start])
      ensures argv.Length > 0 && r.End? ==> Finished(old(Total()))
      ensures argv.Length > 0 && r.Yield? ==>
        && Valid() && initialized
        && old(Total()) == AfterEvent(r.event, Total()) && Unread() < old(Unread())
        && optarg == r.event.arg
        && optopt == (if r.event.optopt.Some? then r.event.optopt.value else old(optopt))
    {
      hide TotalAt, AfterEvent, UnreadAt, Weight;
      if argv.Length < 1 {
        return End;
      }
      optarg := None;
      Initialize();
      r := Step();
    }

    /** A call on a machine that has been set up. */
    method Step() returns (r: Result)
      requires Valid() && initialized && argv.Length > 0 && optarg.None?
      modifies this`optind, this`optarg, this`optopt, this`nextchar, this`firstNonopt, this`lastNonopt, argv
      ensures argv[..start] == old(argv[..start])
      ensures r.End? ==> Finished(old(Total()))
      ensures r.Yield? ==>
        && Valid()
        && old(Total()) == AfterEvent(r.event, Total()) && Unread() < old(Unread())
        && optarg == r.event.arg
        && optopt == (if r.event.optopt.Some? then r.event.optopt.value else old(optopt))
    {
      hide TotalAt, AfterEvent, UnreadAt;
      ghost var total := Total();
      if nextchar == "" {
        var a := Advance();
        if a.Some? {
          return a.value;
        }
        assert Total() == total;
        var event := BeginArgument();
        return Yield(event);
      }
      var event := ShortStep();
      return Yield(event);
    }

    method BeginArgument() returns (event: Event)
      requires Valid() && initialized && nextchar == "" && optarg.None?
      requires optind < argv.Length && IsOption(argv[optind]) && argv[optind] != TERMINATOR
      modifies this`optind, this`optarg, this`optopt, this`nextchar
      ensures Valid() && old(Total()) == AfterEvent(event, Total()) && Unread() < old(Unread())
      ensures optarg == event.arg
      ensures optopt == (if event.optopt.Some? then event.optopt.value else old(optopt))
    {
      hide UnreadAt;
      if longopts.Some? && argv[optind][1] == '-' {
        event := LongStep();
      } else {
        ArgumentBegins(Cfg(), argv[..], start, firstNonopt, lastNonopt, optind);
        UnreadBegins(argv[..], optind);
        nextchar := argv[optind][1..];
        event := ShortStep();
      }
    }

    method LongStep() returns (event: Event)
      requires Valid() && initialized && nextchar == "" && optarg.None?
      requires optind < argv.Length && IsOption(argv[optind]) && argv[optind] != TERMINATOR
        && IsLong(Cfg(), argv[optind])
      modifies this`optind, this`optarg, this`optopt
      ensures Valid() && old(Total()) == AfterEvent(event, Total()) && Unread() < old(Unread())
      ensures optarg == event.arg
      ensures optopt == (if event.optopt.Some? then event.optopt.value else old(optopt))
    {
      hide TotalAt, AfterEvent, Long, UnreadAt;
      ghost var used := Long(Cfg().optstring, longopts.value, argv[optind][2..], Head(argv[..], optind + 1)).1;
      UnreadAfter(argv[..], optind, if used then 2 else 1);
      LongAdvances(Cfg(), argv[..], start, firstNonopt, lastNonopt, optind);
      event := ReadLong();
    }

    method ShortStep() returns (event: Event)
      requires Valid() && initialized && nextchar != "" && optarg.None?
      modifies this`optind, this`optarg, this`optopt, this`nextchar
      ensures Valid() && old(Total()) == AfterEvent(event, Total()) && Unread() < old(Unread())
      ensures optarg == event.arg
      ensures optopt == (if event.optopt.Some? then event.optopt.value else old(optopt))
    {
      hide TotalAt, AfterEvent, UnreadAt;
      UnreadLetter(Cfg().optstring, argv[..], optind, nextchar);
      LetterAdvances(Cfg(), argv[..], start, firstNonopt, lastNonopt, optind, nextchar);
      event := ReadShort();
    }
  }
}
