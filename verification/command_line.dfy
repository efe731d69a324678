/**
 * The start-up options of the application: the command line parser, the
 * automatic mode it turns on at initialisation, and the scene switch that
 * resumes or pauses the monitoring of the server.
 *
 * The options are static fields in the application; here they are the fields
 * of one `WallApplication` object. Printing the help and exiting become the
 * `HelpRequested` outcome; the exceptions the parser lets escape become the
 * `MissingValue` and `NotANumber` outcomes, with the options set so far kept.
 */
module CommandLine {
  import opened Wrappers
  import opened JavaInt
  import opened Locator

  // ---------------------------------------------------------------------------
  // `Integer.parseInt`
  // ---------------------------------------------------------------------------

  predicate AllDigits(s: string) {
    forall i :: 0 <= i < |s| ==> IsDigit(s[i])
  }

  /**
   * `Integer.parseInt(s)` on decimal ASCII digits: an optional sign, at least
   * one digit and a value that fits in an `int`; anything else throws.
   */
  function ParseInt(s: string): (r: Option<int>)
    ensures r.Some? ==> IsInt32(r.value)
    ensures s == [] || s == "-" || s == "+" ==> r.None?
  {
    if s == [] then None
    else
      var digits := if s[0] == '-' || s[0] == '+' then s[1..] else s;
      if digits == [] || !AllDigits(digits) then None
      else
        var value: int := if s[0] == '-' then -(DigitsValue(digits) as int) else DigitsValue(digits);
        if IsInt32(value) then Some(value) else None
  }

  /** The decimal notation of an `int`, as `Integer.toString` writes it. */
  function IntToString(n: int): (s: string)
    ensures s != [] && (n >= 0 ==> IsDigit(s[0])) && (n < 0 ==> s[0] == '-')
  {
    if n < 0 then "-" + NatToString(-n) else NatToString(n)
  }

  /** Every `int` written in decimal parses back to itself. */
  lemma ParseIntToString(n: int)
    requires IsInt32(n)
    ensures ParseInt(IntToString(n)) == Some(n)
  {
    var s := IntToString(n);
    if n < 0 {
      NatToStringValue(-n);
      assert s[1..] == NatToString(-n);
    } else {
      NatToStringValue(n);
    }
  }

  /** Values beyond the range of an `int` do not parse. */
  lemma ParseIntOverflow(n: nat)
    requires n > IntMax
    ensures ParseInt(NatToString(n)) == None
  {
    NatToStringValue(n);
    assert IsDigit(NatToString(n)[0]);
  }

  // ---------------------------------------------------------------------------
  // `parseCommandlineArgs` (specification)
  // ---------------------------------------------------------------------------

  /** The options the command line sets; `configPath` none is the default configuration file. */
  datatype Options = Options(doRunAppAutomatically: bool, startMaximized: bool, screenIndex: int, configPath: Option<string>)

  /** How parsing ends: at the end of the arguments, at `--help`, or with an exception. */
  datatype Outcome = Parsed | HelpRequested | MissingValue | NotANumber(value: string)

  /** The options when nothing is given. */
  const Defaults: Options := Options(false, false, 0, None)

  /**
   * The parse from argument `i` on with options `o`: `--help` stops,
   * `--config` and `--screen` take the next argument as their value (none
   * left, or a screen that is not a number, throws), `--auto` and
   * `--maximized` set their flag, any other argument is skipped.
   */
  function ParseFrom(args: seq<string>, i: nat, o: Options): (Outcome, Options)
    decreases |args| - i
  {
    if i >= |args| then (Parsed, o)
    else if args[i] == "--help" then (HelpRequested, o)
    else if args[i] == "--config" then
      if i + 1 >= |args| then (MissingValue, o)
      else ParseFrom(args, i + 2, o.(configPath := Some(args[i + 1])))
    else if args[i] == "--auto" then ParseFrom(args, i + 1, o.(doRunAppAutomatically := true))
    else if args[i] == "--maximized" then ParseFrom(args, i + 1, o.(startMaximized := true))
    else if args[i] == "--screen" then
      if i + 1 >= |args| then (MissingValue, o)
      else match ParseInt(args[i + 1])
        case None => (NotANumber(args[i + 1]), o)
        case Some(n) => ParseFrom(args, i + 2, o.(screenIndex := n))
    else ParseFrom(args, i + 1, o)
  }

  /** The parse of a whole command line. */
  function Parse(args: seq<string>, o: Options): (Outcome, Options) {
    ParseFrom(args, 0, o)
  }

  /** Arguments already read do not matter to the rest of the parse. */
  lemma {:induction false} ParseShift(pre: seq<string>, args: seq<string>, i: nat, o: Options)
    ensures ParseFrom(pre + args, |pre| + i, o) == ParseFrom(args, i, o)
    decreases |args| - i
  {
    var all := pre + args;
    if i < |args| {
      assert all[|pre| + i] == args[i];
      if i + 1 < |args| {
        assert all[|pre| + i + 1] == args[i + 1];
      }
      if args[i] == "--config" || args[i] == "--screen" {
        if i + 1 < |args| {
          ParseShift(pre, args, i + 2, o.(configPath := Some(args[i + 1])));
          var n := ParseInt(args[i + 1]);
          if n.Some? {
            ParseShift(pre, args, i + 2, o.(screenIndex := n.value));
          }
        }
      } else {
        ParseShift(pre, args, i + 1, o.(doRunAppAutomatically := true));
        ParseShift(pre, args, i + 1, o.(startMaximized := true));
        ParseShift(pre, args, i + 1, o);
      }
    }
  }

  /**
   * A command line that parses to its end leaves the arguments after it to
   * be parsed from the options it set; one that stops (help or a bad screen
   * number) stops the same way whatever follows.
   */
  lemma {:induction false} ParseAppend(p: seq<string>, q: seq<string>, i: nat, o: Options)
    requires i <= |p|
    ensures var (outcome, o') := ParseFrom(p, i, o);
            (outcome == Parsed ==> ParseFrom(p + q, i, o) == ParseFrom(q, 0, o')) &&
            (outcome == HelpRequested || outcome.NotANumber? ==> ParseFrom(p + q, i, o) == (outcome, o'))
    decreases |p| - i
  {
    var all := p + q;
    if i == |p| {
      ParseShift(p, q, 0, o);
    } else {
      assert all[i] == p[i];
      if i + 1 < |p| {
        assert all[i + 1] == p[i + 1];
      }
      if p[i] == "--config" || p[i] == "--screen" {
        if i + 1 < |p| {
          ParseAppend(p, q, i + 2, o.(configPath := Some(p[i + 1])));
          var n := ParseInt(p[i + 1]);
          if n.Some? {
            ParseAppend(p, q, i + 2, o.(screenIndex := n.value));
          }
        }
      } else {
        ParseAppend(p, q, i + 1, o.(doRunAppAutomatically := true));
        ParseAppend(p, q, i + 1, o.(startMaximized := true));
        ParseAppend(p, q, i + 1, o);
      }
    }
  }

  /**
   * The value of `--config` is never read as an option: `--config --auto`
   * takes `--auto` as the file name and does not set the automatic mode.
   */
  lemma ConfigTakesValue(value: string, rest: seq<string>, o: Options)
    ensures Parse(["--config", value] + rest, o) == Parse(rest, o.(configPath := Some(value)))
    ensures Parse(["--config", "--auto"], o) == (Parsed, o.(configPath := Some("--auto")))
  {
    ParseShift(["--config", value], rest, 0, o.(configPath := Some(value)));
  }

  /** A later `--config` or `--screen` overrides an earlier one. */
  lemma LaterOverrides(a: string, b: string, o: Options)
    ensures Parse(["--config", a, "--config", b], o) == (Parsed, o.(configPath := Some(b)))
    ensures ParseInt(a).Some? && ParseInt(b).Some? ==>
              Parse(["--screen", a, "--screen", b], o) == (Parsed, o.(screenIndex := ParseInt(b).value))
  {
    ConfigTakesValue(a, ["--config", b], o);
    ConfigTakesValue(b, [], o.(configPath := Some(a)));
    assert ["--config", a, "--config", b] == ["--config", a] + ["--config", b];
    assert ["--config", b] + [] == ["--config", b];
    if ParseInt(a).Some? && ParseInt(b).Some? {
      var o1 := o.(screenIndex := ParseInt(a).value);
      ParseShift(["--screen", a], ["--screen", b], 0, o1);
      ParseShift(["--screen", b], [], 0, o1.(screenIndex := ParseInt(b).value));
      assert ["--screen", a, "--screen", b] == ["--screen", a] + ["--screen", b];
    }
  }

  /** `--help` stops the parse: nothing after it is read. */
  lemma HelpStops(p: seq<string>, rest: seq<string>, o: Options)
    requires Parse(p, o).0 == Parsed
    ensures Parse(p + ["--help"] + rest, o) == (HelpRequested, Parse(p, o).1)
  {
    ParseAppend(p, ["--help"] + rest, 0, o);
    assert p + ["--help"] + rest == p + (["--help"] + rest);
  }

  /** An option that needs a value throws at the end of the command line. */
  lemma ValueMissing(p: seq<string>, option: string, o: Options)
    requires Parse(p, o).0 == Parsed && (option == "--config" || option == "--screen")
    ensures Parse(p + [option], o) == (MissingValue, Parse(p, o).1)
  {
    var o' := Parse(p, o).1;
    ParseShift(p, [option], 0, o');
    ParseAppend(p, [option], 0, o);
  }

  /** An argument that is no option is skipped. */
  lemma UnknownSkipped(x: string, rest: seq<string>, o: Options)
    requires x !in {"--help", "--config", "--auto", "--maximized", "--screen"}
    ensures Parse([x] + rest, o) == Parse(rest, o)
  {
    ParseShift([x], rest, 0, o);
  }

  /** A set flag stays set, and the flags are set only by their own options. */
  lemma {:induction false} FlagsOnlySet(args: seq<string>, i: nat, o: Options)
    ensures o.doRunAppAutomatically ==> ParseFrom(args, i, o).1.doRunAppAutomatically
    ensures o.startMaximized ==> ParseFrom(args, i, o).1.startMaximized
    ensures ParseFrom(args, i, o).1.doRunAppAutomatically ==> o.doRunAppAutomatically || "--auto" in args[i..]
    ensures ParseFrom(args, i, o).1.startMaximized ==> o.startMaximized || "--maximized" in args[i..]
    decreases |args| - i
  {
    if i < |args| {
      assert args[i..] == [args[i]] + args[i + 1..];
      if args[i] == "--config" || args[i] == "--screen" {
        if i + 1 < |args| {
          assert args[i + 1..] == [args[i + 1]] + args[i + 2..];
          FlagsOnlySet(args, i + 2, o.(configPath := Some(args[i + 1])));
          var n := ParseInt(args[i + 1]);
          if n.Some? {
            FlagsOnlySet(args, i + 2, o.(screenIndex := n.value));
          }
        }
      } else if args[i] == "--auto" {
        FlagsOnlySet(args, i + 1, o.(doRunAppAutomatically := true));
      } else if args[i] == "--maximized" {
        FlagsOnlySet(args, i + 1, o.(startMaximized := true));
      } else if args[i] != "--help" {
        FlagsOnlySet(args, i + 1, o);
      }
    }
  }

  // ---------------------------------------------------------------------------
  // The application
  // ---------------------------------------------------------------------------

  datatype SceneKind = ConfigurationScene | WallScene

  class WallApplication {
    var doRunAppAutomatically: bool
    var startMaximized: bool
    var screenIndex: int
    /** The configuration file; none is the default one. */
    var configPath: Option<string>
    /** The configuration's automatic connection and switch to the wall. */
    var doAutoServerConnect: bool
    var doAutoSwitchToWall: bool
    /** Whether the monitoring service was last activated rather than paused. */
    var monitoringActive: bool
    var scene: Option<SceneKind>

    function Current(): Options
      reads this
    {
      Options(doRunAppAutomatically, startMaximized, screenIndex, configPath)
    }

    /** The monitoring runs exactly while the wall is shown. */
    ghost predicate MonitoringFollowsScene()
      reads this
    {
      scene.Some? ==> (monitoringActive <==> scene.value == WallScene)
    }

    constructor (doAutoServerConnect: bool, doAutoSwitchToWall: bool)
      ensures Current() == Defaults && scene == None && !monitoringActive
      ensures this.doAutoServerConnect == doAutoServerConnect && this.doAutoSwitchToWall == doAutoSwitchToWall
      ensures MonitoringFollowsScene()
    {
      doRunAppAutomatically := false;
      startMaximized := false;
      screenIndex := 0;
      configPath := None;
      this.doAutoServerConnect := doAutoServerConnect;
      this.doAutoSwitchToWall := doAutoSwitchToWall;
      monitoringActive := false;
      scene := None;
    }

    /**
     * `parseCommandlineArgs`: the loop reads the arguments in order, and an
     * option with a value moves the index past its value.
     */
    method ParseCommandlineArgs(args: seq<string>) returns (outcome: Outcome)
      modifies this
      ensures (outcome, Current()) == Parse(args, old(Current()))
      ensures doAutoServerConnect == old(doAutoServerConnect) && doAutoSwitchToWall == old(doAutoSwitchToWall)
      ensures monitoringActive == old(monitoringActive) && scene == old(scene)
    {
      var i := 0;
      while i < |args|
        invariant 0 <= i
        invariant ParseFrom(args, i, Current()) == Parse(args, old(Current()))
        invariant doAutoServerConnect == old(doAutoServerConnect) && doAutoSwitchToWall == old(doAutoSwitchToWall)
        invariant monitoringActive == old(monitoringActive) && scene == old(scene)
        decreases |args| - i
      {
        if args[i] == "--help" {
          return HelpRequested;
        } else if args[i] == "--config" {
          i := i + 1;
          if i >= |args| {
            return MissingValue;
          }
          configPath := Some(args[i]);
        } else if args[i] == "--auto" {
          doRunAppAutomatically := true;
        } else if args[i] == "--maximized" {
          startMaximized := true;
        } else if args[i] == "--screen" {
          i := i + 1;
          if i >= |args| {
            return MissingValue;
          }
          var n := ParseInt(args[i]);
          if n.None? {
            return NotANumber(args[i]);
          }
          screenIndex := n.value;
        }
        i := i + 1;
      }
      outcome := Parsed;
    }

    /** `init`: the automatic mode turns on both the automatic connection and the switch to the wall. */
    method Init()
      modifies this
      ensures doAutoServerConnect == (old(doAutoServerConnect) || doRunAppAutomatically)
      ensures doAutoSwitchToWall == (old(doAutoSwitchToWall) || doRunAppAutomatically)
      ensures Current() == old(Current()) && monitoringActive == old(monitoringActive) && scene == old(scene)
    {
      if doRunAppAutomatically {
        doAutoServerConnect := true;
        doAutoSwitchToWall := true;
      }
    }

    /**
     * `start`: the window opens maximized or not as asked, on the screen of
     * the chosen index (an index outside the `screenCount` screens throws),
     * and the configuration scene is requested first, which pauses the
     * monitoring.
     */
    method Start(screenCount: nat) returns (screen: Option<int>, maximized: bool)
      modifies this
      ensures maximized == startMaximized
      ensures screen.Some? <==> 0 <= screenIndex < screenCount
      ensures screen.Some? ==> screen.value == screenIndex && scene == Some(ConfigurationScene) && !monitoringActive
      ensures screen.None? ==> scene == old(scene) && monitoringActive == old(monitoringActive)
      ensures MonitoringFollowsScene() || screen.None?
      ensures Current() == old(Current())
      ensures doAutoServerConnect == old(doAutoServerConnect) && doAutoSwitchToWall == old(doAutoSwitchToWall)
    {
      maximized := startMaximized;
      if !(0 <= screenIndex < screenCount) {
        return None, maximized;
      }
      screen := Some(screenIndex);
      RequestScene(ConfigurationScene);
    }

    /** `requestScene`: showing the wall activates the monitoring, any other scene pauses it. */
    method RequestScene(kind: SceneKind)
      modifies this
      ensures scene == Some(kind) && monitoringActive == (kind == WallScene)
      ensures MonitoringFollowsScene()
      ensures Current() == old(Current())
      ensures doAutoServerConnect == old(doAutoServerConnect) && doAutoSwitchToWall == old(doAutoSwitchToWall)
    {
      scene := Some(kind);
      if kind == WallScene {
        monitoringActive := true;
      } else {
        monitoringActive := false;
      }
    }
  }
}
