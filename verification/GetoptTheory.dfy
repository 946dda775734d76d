/** What a whole run of getopt does to a command line, for every command line. */
module GetoptTheory {
  import opened Wrappers
  import opened GetoptSpec
  import opened GetoptMachine

  lemma EventTaken(total: Parsed, events: seq<Event>, before: Parsed, event: Event, after: Parsed)
    requires total == Parsed(events + before.events, before.opts, before.operands) && before == AfterEvent(event, after)
    ensures total == Parsed((events + [event]) + after.events, after.opts, after.operands)
  {
    assert events + ([event] + after.events) == (events + [event]) + after.events;
  }

  /** The caller's loop: ask for options until the machine says it is done. */
  method RunToEnd(g: Getopt) returns (events: seq<Event>)
    requires g.Valid() && g.argv.Length > 0
    modifies g, g.argv
    ensures events == old(g.Total().events)
    ensures g.start <= g.optind <= g.argv.Length
    ensures g.argv[..g.start] == old(g.argv[..g.start])
    ensures g.argv[..][g.start..g.optind] == old(g.Total().opts)
    ensures g.argv[..][g.optind..] == old(g.Total().operands)
  {
    assert g.start <= g.argv.Length;
    hide TotalAt, UnreadAt, Weight, AfterEvent, Parse, Getopt.Valid;
    ghost var total := g.Total();
    events := [];
    assert events + total.events == total.events;
    while true
      invariant g.Valid() && g.start <= g.argv.Length
      invariant g.argv[..g.start] == old(g.argv[..g.start])
      invariant total == Parsed(events + g.Total().events, g.Total().opts, g.Total().operands)
      decreases g.Unread()
    {
      ghost var before := g.Total();
      var r := g.Next();
      if r.End? {
        return;
      }
      EventTaken(total, events, before, r.event, g.Total());
      events := events + [r.event];
    }
  }

  /** A whole run: the events are those of the left-to-right parse of the original command line,
      and argv is left as the program name, the used-up arguments and then the operands. */
  method ParseCommandLine(argv: array<string>, optstring: string, longopts: Option<seq<LongOption>>,
                          posixlyCorrect: bool, first: nat) returns (events: seq<Event>, optind: nat)
    requires first <= argv.Length && !TakesLongAsW(Strip(optstring))
    modifies argv
    ensures argv.Length == 0 ==> events == [] && optind == first
    ensures argv.Length > 0 ==>
      var cfg := Config(Strip(optstring), OrderingOf(optstring, posixlyCorrect), longopts);
      var start := if first == 0 then 1 else first;
      var p := Parse(cfg, old(argv[start..]));
      && events == p.events
      && argv[..] == old(argv[..start]) + p.opts + p.operands
      && optind == start + |p.opts|
  {
    hide TotalAt, Parse;
    var g := new Getopt(argv, optstring, longopts, posixlyCorrect, first);
    if argv.Length == 0 {
      var r := g.Next();
      return [], g.optind;
    }
    events := RunToEnd(g);
    optind := g.optind;
    assert argv[..] == argv[..][..g.start] + argv[..][g.start..optind] + argv[..][optind..];
  }

  // ---------- the final argv is a stable partition of the original one ----------

  /** The elements of `s` whose mark is `keep`, in their order. */
  function Select(s: seq<string>, marks: seq<bool>, keep: bool): seq<string>
    requires |s| == |marks|
  {
    if s == [] then []
    else (if marks[0] == keep then s[..1] else []) + Select(s[1..], marks[1..], keep)
  }

  /** Marks the arguments that a run uses up; the others are the operands. */
  function UsedUp(cfg: Config, args: seq<string>): (marks: seq<bool>)
    ensures |marks| == |args|
  {
    if args == [] then []
    else if args[0] == TERMINATOR then [true] + seq(|args| - 1, _ => false)
    else if IsOption(args[0]) then
      var n := Element(cfg, args).1;
      seq(n, _ => true) + UsedUp(cfg, args[n..])
    else match cfg.ordering
      case RequireOrder => seq(|args|, _ => false)
      case Permute => [false] + UsedUp(cfg, args[1..])
      case ReturnInOrder => [true] + UsedUp(cfg, args[1..])
  }

  lemma {:induction false} SelectConstant(s: seq<string>, marks: seq<bool>, keep: bool)
    requires |s| == |marks| && forall k :: 0 <= k < |marks| ==> marks[k] == marks[0]
    ensures s != [] && marks[0] == keep ==> Select(s, marks, keep) == s
    ensures s == [] || marks[0] != keep ==> Select(s, marks, keep) == []
  {
    if s != [] {
      assert forall k :: 0 <= k < |marks[1..]| ==> marks[1..][k] == marks[0];
      SelectConstant(s[1..], marks[1..], keep);
      assert s == s[..1] + s[1..];
    }
  }

  lemma {:induction false} SelectConcat(s: seq<string>, m: seq<bool>, t: seq<string>, n: seq<bool>, keep: bool)
    requires |s| == |m| && |t| == |n|
    ensures Select(s + t, m + n, keep) == Select(s, m, keep) + Select(t, n, keep)
  {
    if s == [] {
      assert s + t == t && m + n == n;
    } else {
      assert (s + t)[1..] == s[1..] + t && (m + n)[1..] == m[1..] + n;
      assert (s + t)[..1] == s[..1];
      SelectConcat(s[1..], m[1..], t, n, keep);
    }
  }

  /** The first arguments belong together, and the parse goes on behind them. */
  lemma FirstPart(cfg: Config, args: seq<string>) returns (n: nat, used: bool)
    requires args != [] && args[0] != TERMINATOR && (IsOption(args[0]) || !cfg.ordering.RequireOrder?)
    ensures 1 <= n <= |args| && (!used ==> cfg.ordering.Permute?)
    ensures UsedUp(cfg, args) == seq(n, _ => used) + UsedUp(cfg, args[n..])
    ensures Parse(cfg, args).opts == (if used then args[..n] else []) + Parse(cfg, args[n..]).opts
    ensures Parse(cfg, args).operands == (if used then [] else args[..n]) + Parse(cfg, args[n..]).operands
  {
    n := if IsOption(args[0]) then Element(cfg, args).1 else 1;
    used := IsOption(args[0]) || cfg.ordering.ReturnInOrder?;
    hide Element;
  }

  lemma SelectPart(s: seq<string>, n: nat, marks: seq<bool>, used: bool, keep: bool)
    requires n <= |s| && n + |marks| == |s|
    ensures |seq(n, _ => used) + marks| == |s|
    ensures Select(s, seq(n, _ => used) + marks, keep)
         == (if used == keep then s[..n] else []) + Select(s[n..], marks, keep)
  {
    assert s == s[..n] + s[n..];
    SelectConcat(s[..n], seq(n, _ => used), s[n..], marks, keep);
    SelectConstant(s[..n], seq(n, _ => used), keep);
    hide Select;
  }

  lemma StoppedPart(cfg: Config, args: seq<string>)
    requires args == [] || args[0] == TERMINATOR || (!IsOption(args[0]) && cfg.ordering.RequireOrder?)
    ensures Parse(cfg, args).opts == Select(args, UsedUp(cfg, args), true)
    ensures Parse(cfg, args).operands == Select(args, UsedUp(cfg, args), false)
  {
    if args != [] && args[0] == TERMINATOR {
      var none := seq(|args| - 1, _ => false);
      assert UsedUp(cfg, args) == seq(1, _ => true) + none;
      SelectPart(args, 1, none, true, true);
      SelectPart(args, 1, none, true, false);
      SelectConstant(args[1..], none, true);
      SelectConstant(args[1..], none, false);
      hide Select;
    } else if args != [] {
      SelectConstant(args, UsedUp(cfg, args), true);
      SelectConstant(args, UsedUp(cfg, args), false);
      hide Select;
    }
  }

  /** Used-up arguments and operands keep their original order, whatever the ordering mode. */
  lemma {:induction false} ParseIsStablePartition(cfg: Config, args: seq<string>)
    ensures Parse(cfg, args).opts == Select(args, UsedUp(cfg, args), true)
    ensures Parse(cfg, args).operands == Select(args, UsedUp(cfg, args), false)
    decreases |args|
  {
    hide Parse, UsedUp, Select, IsOption;
    if args == [] || args[0] == TERMINATOR || (!IsOption(args[0]) && cfg.ordering.RequireOrder?) {
      StoppedPart(cfg, args);
    } else {
      var n, used := FirstPart(cfg, args);
      ParseIsStablePartition(cfg, args[n..]);
      SelectPart(args, n, UsedUp(cfg, args[n..]), used, true);
      SelectPart(args, n, UsedUp(cfg, args[n..]), used, false);
    }
  }

  lemma ParseStops(cfg: Config, args: seq<string>)
    requires args != [] && args[0] != TERMINATOR ==> !IsOption(args[0]) && cfg.ordering.RequireOrder?
    ensures Parse(cfg, args).opts + Parse(cfg, args).operands == args
  {
  }

  /** In the two non-permuting modes a run leaves argv as it was. */
  lemma {:induction false} NothingMovesUnlessPermuting(cfg: Config, args: seq<string>)
    requires !cfg.ordering.Permute?
    ensures Parse(cfg, args).opts + Parse(cfg, args).operands == args
  {
    hide Parse, UsedUp;
    if args == [] || args[0] == TERMINATOR || !(IsOption(args[0]) || cfg.ordering.ReturnInOrder?) {
      ParseStops(cfg, args);
    } else {
      var n, _ := FirstPart(cfg, args);
      NothingMovesUnlessPermuting(cfg, args[n..]);
      var p := Parse(cfg, args[n..]);
      assert (args[..n] + p.opts) + p.operands == args[..n] + (p.opts + p.operands);
    }
  }

  // ---------- a run is bounded by the characters of the command line ----------

  function Characters(args: seq<string>): nat {
    if args == [] then 0 else |args[0]| + Characters(args[1..])
  }

  lemma {:induction false} ClusterIsBounded(optstring: string, text: string, next: Option<string>)
    requires text != ""
    ensures 1 <= |Cluster(optstring, text, next).0| <= |text|
  {
    if text[1..] != "" {
      ClusterIsBounded(optstring, text[1..], next);
    }
  }

  lemma {:induction false} CharactersAfter(args: seq<string>, n: nat)
    requires n <= |args|
    ensures Characters(args) == Characters(args[..n]) + Characters(args[n..])
  {
    if n > 0 {
      CharactersAfter(args[1..], n - 1);
      assert args[1..][..n - 1] == args[..n][1..] && args[1..][n - 1..] == args[n..];
    } else {
      assert args[0..] == args;
    }
  }

  /** Fewer events than unread characters, plus one for each operand that is handed back. */
  lemma {:induction false} EventsAreBounded(cfg: Config, args: seq<string>)
    ensures |Parse(cfg, args).events| <= Characters(args) + |args|
    ensures !cfg.ordering.ReturnInOrder? ==> |Parse(cfg, args).events| <= Characters(args)
  {
    if args != [] && args[0] != TERMINATOR && (IsOption(args[0]) || !cfg.ordering.RequireOrder?) {
      var n := if IsOption(args[0]) then Element(cfg, args).1 else 1;
      CharactersAfter(args, n);
      assert args[..n][0] == args[0];
      EventsAreBounded(cfg, args[n..]);
      if IsOption(args[0]) && !IsLong(cfg, args[0]) {
        ClusterIsBounded(cfg.optstring, args[0][1..], Head(args, 1));
      }
    }
  }

  /** Characters alone do not bound them: an empty operand that is handed back has none. */
  lemma EmptyOperand(optstring: string, longopts: Option<seq<LongOption>>)
    ensures var cfg := Config(optstring, ReturnInOrder, longopts);
            Parse(cfg, [""]).events == [Operand("")] && Characters([""]) == 0 && Weight([""]) == 1
  {
    assert [""][1..] == [];
  }

  // ---------- permuting brings a command line into the strict POSIX form ----------

  /** Whether the option argument `arg` takes the argument after it, when there is one. */
  predicate WantsNext(cfg: Config, arg: string)
    requires IsOption(arg)
  {
    if IsLong(cfg, arg) then Long(cfg.optstring, cfg.longopts.value, arg[2..], Some("")).1
    else Cluster(cfg.optstring, arg[1..], Some("")).1
  }

  /** The last option wants an argument and there is none. */
  predicate Starved(cfg: Config, args: seq<string>) {
    if args == [] || args[0] == TERMINATOR then false
    else if IsOption(args[0]) then
      if |args| == 1 then WantsNext(cfg, args[0]) else Starved(cfg, args[Element(cfg, args).1..])
    else Starved(cfg, args[1..])
  }

  lemma {:induction false} ClusterWants(optstring: string, text: string, next: Option<string>, other: Option<string>)
    requires text != "" && next.Some?
    ensures Cluster(optstring, text, next).1 == Cluster(optstring, text, Some("")).1
    ensures !Cluster(optstring, text, next).1 ==> Cluster(optstring, text, other) == Cluster(optstring, text, next)
  {
    if text[1..] != "" {
      ClusterWants(optstring, text[1..], next, other);
    }
  }

  /** The events of an option argument do not depend on what follows, unless it wants it. */
  lemma ElementLooksAhead(cfg: Config, args: seq<string>, more: seq<string>)
    requires args != [] && IsOption(args[0])
    ensures !WantsNext(cfg, args[0]) ==>
      Element(cfg, args[..1] + more) == Element(cfg, args) && Element(cfg, args).1 == 1
    ensures WantsNext(cfg, args[0]) ==> Element(cfg, args).1 == (if |args| > 1 then 2 else 1)
  {
    var arg, next := args[0], Head(args, 1);
    var after := Head(args[..1] + more, 1);
    if !IsLong(cfg, arg) {
      ClusterWants(cfg.optstring, arg[1..], Some(""), next);
      ClusterWants(cfg.optstring, arg[1..], Some(""), after);
      if next.Some? { ClusterWants(cfg.optstring, arg[1..], next, after); }
    }
  }

  /** The first option argument, read again in front of `more`. */
  lemma RereadElement(cfg: Config, args: seq<string>, more: seq<string>)
    requires cfg.ordering.Permute?
    requires args != [] && IsOption(args[0]) && args[0] != TERMINATOR
    ensures
      var strict := cfg.(ordering := RequireOrder);
      var (events, n) := Element(cfg, args);
      var q := Parse(strict, more);
      if |args| == 1 && WantsNext(cfg, args[0]) && more != [] then
        |Parse(strict, args[..n] + more).opts| >= 2
      else
        Parse(strict, args[..n] + more) == Parsed(events + q.events, args[..n] + q.opts, q.operands)
  {
    var strict := cfg.(ordering := RequireOrder);
    var (events, n) := Element(cfg, args);
    var line := args[..n] + more;
    ElementLooksAhead(cfg, args, more);
    ElementLooksAhead(cfg, line, []);
    assert Element(strict, line) == Element(cfg, line);
    if |args| == 1 && WantsNext(cfg, args[0]) && more != [] {
    } else {
      assert Element(cfg, line) == (events, n) by {
        if n == 2 { assert line[1] == args[1]; } else if |args| == 1 && WantsNext(cfg, args[0]) { assert line == args; }
      }
      assert line[n..] == more && line[..n] == args[..n];
    }
  }

  /** What `args` leaves behind, read again in strict order after the operands `front`. */
  ghost predicate SameWhenStrict(cfg: Config, args: seq<string>, front: seq<string>) {
    var p := Parse(cfg, args);
    Parse(cfg.(ordering := RequireOrder), p.opts + (front + p.operands)) == Parsed(p.events, p.opts, front + p.operands)
  }

  lemma {:induction false} Reread(cfg: Config, args: seq<string>, front: seq<string>)
    requires cfg.ordering.Permute?
    requires front != [] ==> !IsOption(front[0])
    ensures SameWhenStrict(cfg, args, front) <==> !(Starved(cfg, args) && front + Parse(cfg, args).operands != [])
    decreases |args|
  {
    hide Parse, SameWhenStrict, Element, WantsNext;
    if args == [] || args[0] == TERMINATOR {
      RereadEnd(cfg, args, front);
    } else if IsOption(args[0]) {
      OptionParse(cfg, args);
      Reread(cfg, args[Element(cfg, args).1..], front);
      RereadOption(cfg, args, front);
    } else {
      Reread(cfg, args[1..], front + args[..1]);
      RereadOperand(cfg, args, front);
    }
  }

  lemma RereadEnd(cfg: Config, args: seq<string>, front: seq<string>)
    requires args == [] || args[0] == TERMINATOR
    requires front != [] ==> !IsOption(front[0])
    ensures SameWhenStrict(cfg, args, front) && !Starved(cfg, args)
  {
    var p := Parse(cfg, args);
    var operands := front + p.operands;
    if args == [] {
      assert p.opts + operands == front;
    } else {
      assert (p.opts + operands)[1..] == operands && (p.opts + operands)[..1] == p.opts;
    }
  }

  lemma RereadOperand(cfg: Config, args: seq<string>, front: seq<string>)
    requires cfg.ordering.Permute? && args != [] && !IsOption(args[0])
    ensures SameWhenStrict(cfg, args, front) <==> SameWhenStrict(cfg, args[1..], front + args[..1])
    ensures Starved(cfg, args) <==> Starved(cfg, args[1..])
    ensures front + Parse(cfg, args).operands == (front + args[..1]) + Parse(cfg, args[1..]).operands
  {
    var p, q := Parse(cfg, args), Parse(cfg, args[1..]);
    assert p == Parsed(q.events, q.opts, args[..1] + q.operands);
    hide Parse;
    assert front + (args[..1] + q.operands) == (front + args[..1]) + q.operands;
  }

  lemma OptionParse(cfg: Config, args: seq<string>)
    requires args != [] && IsOption(args[0]) && args[0] != TERMINATOR
    ensures var (events, n) := Element(cfg, args);
            var q := Parse(cfg, args[n..]);
            && Parse(cfg, args) == Parsed(events + q.events, args[..n] + q.opts, q.operands)
            && (|args| == 1 ==> args[n..] == [] && q == Parsed([], [], []))
  {
    hide Element;
  }

  lemma RereadOption(cfg: Config, args: seq<string>, front: seq<string>)
    requires cfg.ordering.Permute?
    requires args != [] && IsOption(args[0]) && args[0] != TERMINATOR
    ensures
      var operands := front + Parse(cfg, args).operands;
      SameWhenStrict(cfg, args, front) <==>
        SameWhenStrict(cfg, args[Element(cfg, args).1..], front)
        && !(|args| == 1 && WantsNext(cfg, args[0]) && operands != [])
  {
    hide Parse, Element, WantsNext;
    OptionParse(cfg, args);
    var (events, n) := Element(cfg, args);
    var p, q := Parse(cfg, args), Parse(cfg, args[n..]);
    var operands := front + p.operands;
    var r := Parse(cfg.(ordering := RequireOrder), q.opts + operands);
    if |args| == 1 {
      assert q.opts + operands == operands;
    }
    assert p.opts + operands == args[..n] + (q.opts + operands);
    RereadElement(cfg, args, q.opts + operands);
    SamePrefix(events, r.events, q.events);
    SamePrefix(args[..n], r.opts, q.opts);
  }

  lemma SamePrefix<T>(front: seq<T>, a: seq<T>, b: seq<T>)
    ensures front + a == front + b <==> a == b
  {
    if front + a == front + b {
      assert a == (front + a)[|front|..] && b == (front + b)[|front|..];
    }
  }

  /** Running getopt in permuting order and then reading the argv it leaves in the strict order of
      POSIX gives the same options and operands; this fails exactly when the last option wants an
      argument that is not there although there are operands, because then the first operand has
      been moved behind it. */
  lemma PermutedIsPosix(cfg: Config, args: seq<string>)
    requires cfg.ordering.Permute?
    ensures
      var p := Parse(cfg, args);
      Parse(cfg.(ordering := RequireOrder), p.opts + p.operands) == p
      <==> !(Starved(cfg, args) && p.operands != [])
  {
    Reread(cfg, args, []);
    assert [] + Parse(cfg, args).operands == Parse(cfg, args).operands;
  }

  /** The failing case: "f -o" with the option string "o:" reports a missing argument, but leaves
      "-o f", in which f is the argument of -o. */
  lemma StarvedCommandLine()
    ensures var cfg := Config("o:", Permute, None);
            var p := Parse(cfg, ["f", "-o"]);
            && p == Parsed([Problem('?' as int, 'o' as int)], ["-o"], ["f"])
            && Parse(cfg.(ordering := RequireOrder), p.opts + p.operands)
               == Parsed([ShortEvent('o', Some("f"))], ["-o", "f"], [])
  {
    var cfg := Config("o:", Permute, None);
    assert IndexOf("o:", 'o') == 0;
    assert Cluster("o:", "o", None) == ([Problem('?' as int, 'o' as int)], false);
    assert Element(cfg, ["-o"]) == ([Problem('?' as int, 'o' as int)], 1);
    assert ["f", "-o"][1..] == ["-o"] && ["-o"][1..] == [];
    assert Parse(cfg, ["-o"]) == Parsed([Problem('?' as int, 'o' as int)], ["-o"], []);
    var strict := cfg.(ordering := RequireOrder);
    assert ["-o"] + ["f"] == ["-o", "f"];
    assert Cluster("o:", "o", Some("f")) == ([ShortEvent('o', Some("f"))], true);
    assert Element(strict, ["-o", "f"]) == ([ShortEvent('o', Some("f"))], 2);
    assert ["-o", "f"][2..] == [];
  }
}
