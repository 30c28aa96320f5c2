/** The tokens that end a parse with an error, wherever they stand. */
module CliRefusals {
  import opened Common
  import opened Numerals
  import opened Cli
  import opened CliWriter

  // ---------------------------------------------------------------- the words

  predicate ValuedFlag(t: string) { t == "--opt-level" || t == "--verification" || t == "--max-expr-depth" }

  predicate Retired(t: string) {
    t == "--no-verify" || t == "--strict-verification" || t == "--repl" || t == "--safe" || t == "--no-memory-safety"
  }

  predicate PlainFlag(t: string) {
    || t == "--allow-inconclusive" || t == "--strict-ive" || t == "--debug" || t == "--debug-info" || t == "--sections"
    || t == "--bench" || t == "-v" || t == "--verbose" || t == "-q" || t == "--quiet" || t == "--telemetry"
  }

  predicate AsksHelp(t: string) { t == "--help" || t == "-h" }
  predicate AsksVersion(t: string) { t == "--version" || t == "-V" }

  /** The options of a subcommand that take a value. */
  predicate OptionWord(cmd: Cmd, t: string) {
    || ((t == "-o" || t == "--output") && (cmd.CBuild? || cmd.CEmit? || cmd.CCompile? || cmd.CLink?))
    || (t == "--target" && (cmd.CBuild? || cmd.CCompile?))
    || (t == "--isa" && (cmd.CBuild? || cmd.CRun? || cmd.CDisasm? || cmd.CLink?))
    || (t == "--format" && cmd.CCompile?)
    || (t == "--base-addr" && cmd.CDisasm?)
  }

  predicate SwitchWord(cmd: Cmd, t: string) { t == "--run" && cmd.CLink? }

  /** The word of a subcommand that can stand here. */
  predicate Selects(place: Option<Cmd>, t: string) {
    if place == Some(CPkg) then t == "init" || t == "build" || t == "add"
    else
      || t == "build" || t == "run" || t == "check" || t == "emit" || t == "compile" || t == "disasm" || t == "link"
      || t == "verify" || t == "repl" || t == "lsp" || t == "pkg"
  }

  /** A decimal depth from 1 to 4294967295, with or without a plus sign. */
  predicate DepthText(v: string) {
    DepthDigits(v) || (v != "" && v[0] == '+' && DepthDigits(v[1..]))
  }

  // ---------------------------------------------------------------- what is refused

  /** A token that is refused by itself; `last` says that nothing follows it. */
  predicate RefusedAlone(place: Option<Cmd>, t: string, last: bool, e: ParseError) {
    || (AsksHelp(t) && e == Help)
    || (AsksVersion(t) && e == Version)
    || (Retired(t) && e == Removed(t))
    || (last && (ValuedFlag(t) || (place.Some? && OptionWord(place.value, t))) && e == MissingValue(t))
    || (!Undashed(t) && !AsksHelp(t) && !AsksVersion(t) && !Retired(t) && !ValuedFlag(t) && !PlainFlag(t)
        && (place.Some? ==> !OptionWord(place.value, t) && !SwitchWord(place.value, t)) && e == Unexpected(t))
    || (Undashed(t) && (place == None || place == Some(CPkg)) && !Selects(place, t)
        && e == if t == "help" then Help else UnknownSubcommand(t))
    || (Undashed(t) && (place == Some(CRepl) || place == Some(CLsp) || place == Some(CPkgBuild)) && e == Unexpected(t))
  }

  /** An option whose value is refused. */
  predicate RefusedValue(place: Option<Cmd>, t: string, v: string) {
    || (t == "--opt-level" && v != "O3")
    || (t == "--verification" && v != "pmt")
    || (t == "--max-expr-depth" && !DepthText(v))
    || (place == Some(CBuild) && t == "--target" && v != "linux")
    || (place == Some(CCompile) && t == "--format" && forall f: Format :: v != FormatName(f))
    || (place.Some? && OptionWord(place.value, t) && (t == "--isa" || (t == "--target" && place.value.CCompile?))
        && forall isa: Isa :: v != IsaName(isa))
  }

  ghost predicate Offends(place: Option<Cmd>, bad: seq<string>, last: bool, e: ParseError) {
    || (|bad| == 1 && RefusedAlone(place, bad[0], last, e))
    || (|bad| == 2 && RefusedValue(place, bad[0], bad[1]) && e == InvalidValue(bad[0], bad[1]))
  }

  // ---------------------------------------------------------------- proofs

  lemma ShapeOfFlag(t: string)
    ensures GlobalShape(t).Valued? <==> ValuedFlag(t)
    ensures GlobalShape(t).Gone? <==> Retired(t)
    ensures GlobalShape(t).Plain? <==> PlainFlag(t)
  {
  }

  lemma ShapeOfOption(cmd: Cmd, t: string)
    ensures LocalShape(cmd, t).Takes? <==> OptionWord(cmd, t)
    ensures LocalShape(cmd, t).Switch? <==> SwitchWord(cmd, t)
  {
  }

  lemma OptionIsNoFlag(cmd: Cmd, t: string)
    requires OptionWord(cmd, t)
    ensures !ValuedFlag(t) && !Retired(t) && !PlainFlag(t) && !AsksHelp(t) && !AsksVersion(t)
  {
  }

  lemma FlagIsNoHelp(t: string)
    requires ValuedFlag(t) || Retired(t) || PlainFlag(t)
    ensures !AsksHelp(t) && !AsksVersion(t) && !Undashed(t)
    ensures Retired(t) ==> !ValuedFlag(t) && !PlainFlag(t)
    ensures ValuedFlag(t) ==> !PlainFlag(t)
  {
  }

  lemma UndashedIsNothing(cmd: Cmd, t: string)
    requires Undashed(t)
    ensures !ValuedFlag(t) && !Retired(t) && !PlainFlag(t) && !AsksHelp(t) && !AsksVersion(t)
    ensures !OptionWord(cmd, t) && !SwitchWord(cmd, t)
  {
  }

  lemma HelpIsNotVersion(t: string)
    ensures !(AsksHelp(t) && AsksVersion(t))
  {
  }

  lemma DepthTextExact(v: string)
    ensures GlobalValue("--max-expr-depth", v).Some? <==> DepthText(v)
  {
    hide Magnitude;
    if v != "" && v[0] == '+' {
      assert !AllDigits(v);
    }
  }

  lemma SelectsExact(place: Option<Cmd>, t: string)
    ensures place == Some(CPkg) ==> (PkgNamed(t).Some? <==> Selects(place, t))
    ensures place != Some(CPkg) ==> (CommandNamed(t).Some? <==> Selects(place, t))
  {
  }

  /** Help, the version, and the global flags that end a parse. */
  lemma FlagTurn(place: Option<Cmd>, xs: seq<Item>, t: string, tail: seq<string>)
    ensures AsksHelp(t) ==> OneTurn(ModeOf(place, xs), [t] + tail) == Failed(Help)
    ensures AsksVersion(t) ==> OneTurn(ModeOf(place, xs), [t] + tail) == Failed(Version)
    ensures Retired(t) ==> OneTurn(ModeOf(place, xs), [t] + tail) == Failed(Removed(t))
    ensures ValuedFlag(t) && tail == [] ==> OneTurn(ModeOf(place, xs), [t] + tail) == Failed(MissingValue(t))
  {
    assert ([t] + tail)[0] == t;
    ShapeOfFlag(t);
    HelpIsNotVersion(t);
    if ValuedFlag(t) || Retired(t) {
      FlagIsNoHelp(t);
    }
    hide GlobalShape, LocalTurn, SubcommandTurn, GlobalValue, LocalsOf, ValuedFlag, Retired, PlainFlag;
  }

  /** What is no flag reaches the subcommand, or selects one. */
  lemma OtherTurn(place: Option<Cmd>, xs: seq<Item>, t: string, tail: seq<string>)
    requires !AsksHelp(t) && !AsksVersion(t) && !Retired(t) && !ValuedFlag(t) && !PlainFlag(t)
    ensures OneTurn(ModeOf(place, xs), [t] + tail)
         == if place.None? then SubcommandTurn(t) else LocalTurn(place.value, LocalsOf(xs), [t] + tail)
  {
    assert ([t] + tail)[0] == t;
    ShapeOfFlag(t);
    hide GlobalShape, LocalTurn, SubcommandTurn, GlobalValue, LocalsOf, ValuedFlag, Retired, PlainFlag;
  }

  lemma DashedTurn(cmd: Cmd, l: Locals, t: string, tail: seq<string>)
    ensures OptionWord(cmd, t) && tail == [] ==> LocalTurn(cmd, l, [t] + tail) == Failed(MissingValue(t))
    ensures !Undashed(t) && !OptionWord(cmd, t) && !SwitchWord(cmd, t) ==>
              LocalTurn(cmd, l, [t] + tail) == Failed(Unexpected(t)) && SubcommandTurn(t) == Failed(Unexpected(t))
  {
    assert ([t] + tail)[0] == t && Dashed(t) == !Undashed(t);
    ShapeOfOption(cmd, t);
    hide LocalShape, WithOption, CommandNamed, Dashed, Undashed, OptionWord, SwitchWord;
  }

  lemma DashedAtTop(t: string)
    requires !Undashed(t)
    ensures SubcommandTurn(t) == Failed(Unexpected(t))
  {
  }

  lemma UnknownCommand(t: string)
    requires Undashed(t) && !Selects(None, t)
    ensures SubcommandTurn(t) == Failed(if t == "help" then Help else UnknownSubcommand(t))
  {
    SelectsExact(None, t);
    UndashedIs(t);
    hide CommandNamed, Selects, Dashed, Undashed;
  }

  lemma UndashedIs(t: string)
    ensures Undashed(t) <==> !Dashed(t)
  {
  }

  lemma UnknownPkgCommand(l: Locals, t: string, tail: seq<string>)
    requires Undashed(t) && !Selects(Some(CPkg), t)
    ensures LocalTurn(CPkg, l, [t] + tail) == Failed(if t == "help" then Help else UnknownSubcommand(t))
  {
    assert ([t] + tail)[0] == t;
    ShapeOfOption(CPkg, t);
    UndashedIsNothing(CPkg, t);
    SelectsExact(Some(CPkg), t);
    UndashedIs(t);
    hide LocalShape, WithOption, PkgNamed, Selects, Dashed, Undashed, OptionWord, SwitchWord;
  }

  lemma NoWordTaken(cmd: Cmd, l: Locals, t: string, tail: seq<string>)
    requires Undashed(t) && (cmd.CRepl? || cmd.CLsp? || cmd.CPkgBuild?)
    ensures LocalTurn(cmd, l, [t] + tail) == Failed(Unexpected(t))
  {
    assert ([t] + tail)[0] == t;
    ShapeOfOption(cmd, t);
    UndashedIsNothing(cmd, t);
    hide LocalShape, WithOption, Positional, Dashed, Undashed, OptionWord, SwitchWord;
  }

  lemma WordTurn(place: Option<Cmd>, xs: seq<Item>, t: string, tail: seq<string>, e: ParseError)
    requires Undashed(t) && RefusedAlone(place, t, tail == [], e)
    ensures OneTurn(ModeOf(place, xs), [t] + tail) == Failed(e)
  {
    var cmd, l := (if place.Some? then place.value else CPkg), LocalsOf(xs);
    UndashedIsNothing(cmd, t);
    hide OneTurn, ModeOf, LocalsOf, LocalTurn, SubcommandTurn;
    hide AsksHelp, AsksVersion, ValuedFlag, Retired, PlainFlag, OptionWord, SwitchWord, Undashed, Selects;
    OtherTurn(place, xs, t, tail);
    if place == None {
      UnknownCommand(t);
    } else if place == Some(CPkg) {
      UnknownPkgCommand(l, t, tail);
    } else {
      NoWordTaken(cmd, l, t, tail);
    }
  }

  lemma AloneTurn(place: Option<Cmd>, xs: seq<Item>, t: string, tail: seq<string>, e: ParseError)
    requires RefusedAlone(place, t, tail == [], e)
    ensures OneTurn(ModeOf(place, xs), [t] + tail) == Failed(e)
  {
    var cmd, l := (if place.Some? then place.value else CPkg), LocalsOf(xs);
    hide OneTurn, LocalsOf, LocalTurn, SubcommandTurn;
    hide ModeOf, AsksHelp, AsksVersion, ValuedFlag, Retired, PlainFlag, OptionWord, SwitchWord, Undashed, Selects;
    FlagTurn(place, xs, t, tail);
    if Undashed(t) {
      WordTurn(place, xs, t, tail, e);
    } else if !AsksHelp(t) && !AsksVersion(t) && !Retired(t) && !ValuedFlag(t) {
      if place.Some? && OptionWord(cmd, t) {
        OptionIsNoFlag(cmd, t);
      }
      OtherTurn(place, xs, t, tail);
      DashedTurn(cmd, l, t, tail);
      DashedAtTop(t);
    } else if ValuedFlag(t) || Retired(t) {
      FlagIsNoHelp(t);
      if place.Some? && OptionWord(cmd, t) {
        OptionIsNoFlag(cmd, t);
      }
    } else {
      HelpIsNotVersion(t);
      if place.Some? && OptionWord(cmd, t) {
        OptionIsNoFlag(cmd, t);
      }
    }
  }

  lemma ValueTurn(place: Option<Cmd>, xs: seq<Item>, t: string, v: string, tail: seq<string>)
    requires RefusedValue(place, t, v)
    ensures OneTurn(ModeOf(place, xs), [t, v] + tail) == Failed(InvalidValue(t, v))
  {
    var all := [t, v] + tail;
    assert all[0] == t && all[1] == v;
    ShapeOfFlag(t);
    if ValuedFlag(t) {
      FlagIsNoHelp(t);
      BadFlagValue(place, t, v);
      hide GlobalShape, GlobalValue, ValuedFlag, LocalsOf, LocalTurn;
    } else {
      var cmd := place.value;
      assert OptionWord(cmd, t) && !ValuedFlag(t);
      ShapeOfOption(cmd, t);
      OptionIsNoFlag(cmd, t);
      BadOptionValue(cmd, LocalsOf(xs), t, v);
      hide GlobalShape, GlobalValue, LocalShape, WithOption, LocalsOf, ValuedFlag, OptionWord, Retired, PlainFlag;
    }
  }

  lemma BadFlagValue(place: Option<Cmd>, t: string, v: string)
    requires RefusedValue(place, t, v) && ValuedFlag(t)
    ensures GlobalValue(t, v) == None
  {
    DepthTextExact(v);
    hide DepthText;
  }

  lemma BadOptionValue(cmd: Cmd, l: Locals, t: string, v: string)
    requires RefusedValue(Some(cmd), t, v) && !ValuedFlag(t)
    ensures WithOption(cmd, l, t, v) == None
  {
    if IsaNamed(v).Some? {
      IsaNames(IsaNamed(v).value, v);
    }
    if FormatNamed(v).Some? {
      FormatNames(FormatNamed(v).value, v);
    }
    hide IsaNamed, FormatNamed, IsaName, FormatName, DepthText;
  }

  lemma Refuses(place: Option<Cmd>, xs: seq<Item>, f: Flags, bad: seq<string>, tail: seq<string>, e: ParseError)
    requires Offends(place, bad, tail == [], e)
    ensures ParseFrom(ModeOf(place, xs), f, bad + tail) == Rejected(e)
  {
    if |bad| == 1 {
      assert bad == [bad[0]];
      AloneTurn(place, xs, bad[0], tail, e);
    } else {
      assert bad == [bad[0], bad[1]];
      ValueTurn(place, xs, bad[0], bad[1], tail);
    }
    hide OneTurn, ModeOf, RefusedAlone, RefusedValue;
  }

  /** Before a subcommand, whatever flags came first. */
  lemma RefusedBefore(pre: seq<Item>, bad: seq<string>, tail: seq<string>, e: ParseError)
    requires AllAllowed(None, pre) && Offends(None, bad, tail == [], e)
    ensures ParseCli(Tokens(pre) + (bad + tail)) == Rejected(e)
  {
    hide Offends, ParseCli, AllAllowed, FlagsOf;
    FlagsRead(pre, bad + tail);
    Refuses(None, pre, FlagsOf(pre), bad, tail, e);
  }

  /** Inside a subcommand, whatever was said before and whatever follows. */
  lemma RefusedInside(i: Invocation, bad: seq<string>, tail: seq<string>, e: ParseError)
    requires i.Valid() && Room(Some(i.cmd), i.Everything()) && Offends(Some(i.cmd), bad, tail == [], e)
    ensures ParseCli(i.Text() + (bad + tail)) == Rejected(e)
  {
    hide Offends, ParseCli, FlagsOf, ModeOf, Room;
    InvocationReads(i, bad + tail);
    Refuses(Some(i.cmd), i.Everything(), FlagsOf(i.Everything()), bad, tail, e);
  }
}
