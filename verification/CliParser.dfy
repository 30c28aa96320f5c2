/** The command line parser as it runs: a peekable iterator and a `Cli` that the loops update. */
module CliParser {
  import opened Common
  import opened Cli

  /** The peekable argument iterator. */
  class ArgIter {
    const args: seq<string>
    var pos: nat

    constructor (args: seq<string>)
      ensures this.args == args && pos == 0
    {
      this.args := args;
      pos := 0;
    }

    function Rest(): seq<string>
      reads this
    {
      if pos <= |args| then args[pos..] else []
    }

    method Next() returns (r: Option<string>)
      modifies this
      ensures if old(Rest()) == [] then r == None && Rest() == []
              else r == Some(old(Rest())[0]) && Rest() == old(Rest())[1..]
    {
      if pos < |args| {
        r := Some(args[pos]);
        pos := pos + 1;
      } else {
        r := None;
      }
    }

    method TakeValue(option: string) returns (r: Result<string, ParseError>)
      modifies this
      ensures if old(Rest()) == [] then r == Failure(MissingValue(option))
              else r == Success(old(Rest())[0]) && Rest() == old(Rest())[1..]
    {
      var v := Next();
      r := if v.Some? then Success(v.value) else Failure(MissingValue(option));
    }
  }

  /** The part of `Cli` that flags update. */
  class Settings {
    var flags: Flags

    constructor ()
      ensures flags == DEFAULTS
    {
      flags := DEFAULTS;
    }
  }

  method TryConsumeGlobalFlag(arg: string, iter: ArgIter, cli: Settings) returns (r: Result<bool, ParseError>)
    requires iter.Rest() != [] && iter.Rest()[0] == arg
    modifies iter, cli
    ensures match TryGlobal(old(iter.Rest()))
            case NotGlobal => r == Success(false) && iter.Rest() == old(iter.Rest()) && cli.flags == old(cli.flags)
            case Took(s, n) =>
              r == Success(true) && iter.Rest() == old(iter.Rest())[n..] && cli.flags == Apply(old(cli.flags), s)
            case Bad(e) => r == Failure(e)
  {
    hide GlobalShape, GlobalValue, Apply;
    match GlobalShape(arg)
    case Gone => return Failure(Removed(arg));
    case NoFlag => return Success(false);
    case Plain(s) =>
      var _ := iter.Next();
      cli.flags := Apply(cli.flags, s);
      return Success(true);
    case Valued =>
      var _ := iter.Next();
      var val :- iter.TakeValue(arg);
      var s := GlobalValue(arg, val);
      if s.None? {
        return Failure(InvalidValue(arg, val));
      }
      cli.flags := Apply(cli.flags, s.value);
      return Success(true);
  }

  /** What `r`, with these flags, means as the outcome of a parse. */
  ghost function Meaning(r: Result<Option<Command>, ParseError>, flags: Flags): Outcome {
    match r
    case Success(c) => Accepted(flags, c)
    case Failure(e) => Rejected(e)
  }

  /** One turn inside a subcommand, unfolded. */
  lemma InsideTurn(cmd: Cmd, l: Locals, flags: Flags, args: seq<string>)
    requires args != []
    ensures IsHelp(args[0]) ==> ParseFrom(In(cmd, l), flags, args) == Rejected(Help)
    ensures !IsHelp(args[0]) && IsVersion(args[0]) ==>
              ParseFrom(In(cmd, l), flags, args) == Rejected(Version)
    ensures !IsHelp(args[0]) && !IsVersion(args[0]) && TryGlobal(args).Bad? ==>
              ParseFrom(In(cmd, l), flags, args) == Rejected(TryGlobal(args).error)
    ensures !IsHelp(args[0]) && !IsVersion(args[0]) && TryGlobal(args).Took? ==>
              ParseFrom(In(cmd, l), flags, args)
              == ParseFrom(In(cmd, l), Apply(flags, TryGlobal(args).setting), args[TryGlobal(args).count..])
    ensures !IsHelp(args[0]) && !IsVersion(args[0]) && TryGlobal(args).NotGlobal? && LocalTurn(cmd, l, args).Failed? ==>
              ParseFrom(In(cmd, l), flags, args) == Rejected(LocalTurn(cmd, l, args).error)
    ensures !IsHelp(args[0]) && !IsVersion(args[0]) && TryGlobal(args).NotGlobal? && LocalTurn(cmd, l, args).Local? ==>
              ParseFrom(In(cmd, l), flags, args)
              == ParseFrom(LocalTurn(cmd, l, args).mode, flags, args[LocalTurn(cmd, l, args).count..])
  {
    hide TryGlobal, LocalTurn, Apply;
  }

  predicate IsHelp(arg: string) { arg == "--help" || arg == "-h" }
  predicate IsVersion(arg: string) { arg == "--version" || arg == "-V" }

  /** A token that is not a global flag: one of the subcommand's own options, with its value, or a positional. */
  method ConsumeLocal(cmd: Cmd, l: Locals, arg: string, iter: ArgIter) returns (r: Result<Mode, ParseError>)
    requires iter.Rest() != [] && iter.Rest()[0] == arg
    modifies iter
    ensures var t := LocalTurn(cmd, l, old(iter.Rest()));
            && (t.Failed? ==> r == Failure(t.error))
            && (t.Local? ==> r == Success(t.mode) && iter.Rest() == old(iter.Rest())[t.count..])
  {
    hide LocalShape, WithOption, PkgNamed, Dashed;
    match LocalShape(cmd, arg)
    case Switch =>
      var _ := iter.Next();
      return Success(In(cmd, l.(run := true)));
    case Takes =>
      var _ := iter.Next();
      var val :- iter.TakeValue(arg);
      var next := WithOption(cmd, l, arg, val);
      if next.None? {
        return Failure(InvalidValue(arg, val));
      }
      return Success(In(cmd, next.value));
    case NoOption =>
      if cmd.CRepl? || cmd.CLsp? || cmd.CPkgBuild? || Dashed(arg) {
        return Failure(Unexpected(arg));
      }
      var turn := Positional(cmd, l, arg);
      if turn.Failed? {
        return Failure(turn.error);
      }
      var _ := iter.Next();
      return Success(turn.mode);
  }

  /**
   The subcommand loops. They share one shape: help and version, global flags, the subcommand's own options,
   then positionals; `pkg` continues as one of its own subcommands, and `run` drains everything after its file.
   */
  method ParseSubcommand(name: Cmd, iter: ArgIter, cli: Settings) returns (r: Result<Option<Command>, ParseError>)
    modifies iter, cli
    ensures Meaning(r, cli.flags) == ParseFrom(In(name, START), old(cli.flags), old(iter.Rest()))
    ensures r.Success? ==> iter.Rest() == []
  {
    hide TryGlobal, LocalTurn, Apply, FinishCommand, ParseFrom;
    var cmd, l := name, START;
    while iter.Rest() != []
      invariant ParseFrom(In(cmd, l), cli.flags, iter.Rest()) == ParseFrom(In(name, START), old(cli.flags), old(iter.Rest()))
      decreases |iter.Rest()|
    {
      ghost var rest := iter.Rest();
      InsideTurn(cmd, l, cli.flags, rest);
      var arg := iter.Rest()[0];
      if IsHelp(arg) {
        return Failure(Help);
      }
      if IsVersion(arg) {
        return Failure(Version);
      }
      var consumed :- TryConsumeGlobalFlag(arg, iter, cli);
      if consumed {
        continue;
      }
      var mode :- ConsumeLocal(cmd, l, arg, iter);
      match mode
      case Trailing(isa, file, _) =>
        FileLeaves(cmd, l, rest);
        var trailing := Drain(iter);
        TrailingRest(mode, cli.flags, trailing);
        return Success(Some(Run(isa, file, trailing)));
      case In(next, l') =>
        cmd, l := next, l';
    }
    assert ParseFrom(In(cmd, l), cli.flags, []) == Finish(In(cmd, l), cli.flags) by { AtEnd(In(cmd, l), cli.flags); }
    match FinishCommand(cmd, l)
    case Done(c) => return Success(Some(c));
    case Short(e) => return Failure(e);
  }

  lemma AtEnd(mode: Mode, flags: Flags)
    ensures ParseFrom(mode, flags, []) == Finish(mode, flags)
  {
  }

  lemma FileLeaves(cmd: Cmd, l: Locals, args: seq<string>)
    requires args != [] && LocalTurn(cmd, l, args).Local? && LocalTurn(cmd, l, args).mode.Trailing?
    ensures LocalTurn(cmd, l, args).count == 1 && LocalTurn(cmd, l, args).mode.args == []
  {
    hide LocalShape, WithOption, PkgNamed, Dashed;
  }

  /** Everything that is left, unread. */
  method Drain(iter: ArgIter) returns (trailing: seq<string>)
    modifies iter
    ensures trailing == old(iter.Rest()) && iter.Rest() == []
  {
    trailing := [];
    ghost var all := iter.Rest();
    while iter.Rest() != []
      invariant |trailing| <= |all| && iter.Rest() == all[|trailing|..] && trailing == all[..|trailing|]
      decreases |iter.Rest()|
    {
      ghost var k := |trailing|;
      assert all[k..][0] == all[k] && all[k..][1..] == all[k + 1..] && all[..k] + [all[k]] == all[..k + 1];
      var a := iter.Next();
      trailing := trailing + [a.value];
    }
  }

  /** `parse_cli_from`: index 0 is the program name. */
  method ParseCliFrom(argv: seq<string>) returns (out: Outcome)
    ensures out == ParseCli(if argv == [] then [] else argv[1..])
  {
    hide TryGlobal, SubcommandTurn, Apply;
    var iter := new ArgIter(if argv == [] then [] else argv[1..]);
    var cli := new Settings();
    assert iter.Rest() == iter.args;
    while iter.Rest() != []
      invariant fresh(iter) && fresh(cli)
      invariant ParseFrom(Top, cli.flags, iter.Rest()) == ParseCli(iter.args)
      decreases |iter.Rest()|
    {
      ghost var rest := iter.Rest();
      var arg := iter.Rest()[0];
      if IsHelp(arg) {
        return Rejected(Help);
      }
      if IsVersion(arg) {
        return Rejected(Version);
      }
      var consumed := TryConsumeGlobalFlag(arg, iter, cli);
      if consumed.Failure? {
        return Rejected(consumed.error);
      }
      if consumed.value {
        continue;
      }
      match SubcommandTurn(arg)
      case Failed(e) => return Rejected(e);
      case Local(mode, _) =>
        var _ := iter.Next();
        SubcommandStarts(arg);
        var r := ParseSubcommand(mode.cmd, iter, cli);
        out := match r case Success(c) => Accepted(cli.flags, c) case Failure(e) => Rejected(e);
        return;
    }
    return Accepted(cli.flags, None);
  }

  lemma SubcommandStarts(arg: string)
    requires SubcommandTurn(arg).Local?
    ensures SubcommandTurn(arg).mode.In? && SubcommandTurn(arg).mode.locals == START
  {
  }
}
