/** What each argument vector means to the command line parser. */
module Cli {
  import opened Common
  import opened Numerals

  // ---------------------------------------------------------------- results

  datatype OptLevel = O3
  datatype Verification = Pmt

  datatype Isa =
    | Aarch64 | X86_64 | Riscv64 | Wasm32 | Loongarch64 | Arm32 | Mips64 | Ppc64 | Ppc64le | Sparc64 | S390x
    | Alpha | Hppa | M68k | Riscv32 | X86_32

  datatype Platform = Linux
  datatype Format = Elf | Obj | Raw | Wasm

  /** The global settings of a `Cli`. */
  datatype Flags = Flags(
    optLevel: OptLevel, verification: Verification, allowInconclusive: bool, strictIve: bool, debug: bool,
    sections: bool, bench: bool, verbose: bool, quiet: bool, telemetry: bool, maxExprDepth: u32)

  const DEFAULTS := Flags(O3, Pmt, false, false, false, false, false, false, false, false, 1024)

  datatype Command =
    | Build(file: string, output: Option<string>, target: Platform, isaOpt: Option<Isa>)
    | Run(isaOpt: Option<Isa>, file: string, args: seq<string>)
    | Check(file: string)
    | Emit(isa: Isa, file: string, output: Option<string>)
    | Compile(file: string, output: Option<string>, isa: Isa, format: Format)
    | Disasm(file: string, isa: Isa, baseAddr: string)
    | Link(files: seq<string>, output: Option<string>, isaOpt: Option<Isa>, run: bool)
    | Verify(file: string)
    | Repl
    | Lsp
    | PkgInit(name: string)
    | PkgBuild
    | PkgAdd(dep: string, version: string)

  /** Which of the source's errors; the wording of messages is not modelled. */
  datatype ParseError =
    | Help
    | Version
    | MissingValue(option: string)
    | InvalidValue(option: string, value: string)
    | Removed(flag: string)
    | Unexpected(arg: string)
    | MissingArgument
    | UnknownSubcommand(name: string)

  datatype Outcome = Accepted(flags: Flags, command: Option<Command>) | Rejected(error: ParseError)

  // ---------------------------------------------------------------- global flags

  datatype Setting =
    | SetOptLevel | SetVerification | SetAllowInconclusive | SetStrictIve | SetDebug | SetSections | SetBench
    | SetMaxDepth(n: u32) | SetVerbose | SetQuiet | SetTelemetry

  function Apply(f: Flags, s: Setting): Flags {
    match s
    case SetOptLevel => f.(optLevel := O3)
    case SetVerification => f.(verification := Pmt)
    case SetAllowInconclusive => f.(allowInconclusive := true)
    case SetStrictIve => f.(strictIve := true)
    case SetDebug => f.(debug := true)
    case SetSections => f.(sections := true)
    case SetBench => f.(bench := true)
    case SetMaxDepth(n) => f.(maxExprDepth := n)
    case SetVerbose => f.(verbose := true)
    case SetQuiet => f.(quiet := true)
    case SetTelemetry => f.(telemetry := true)
  }

  /** What a token is as a global flag: one without a value, one that takes the next token, or a removed one. */
  datatype FlagShape = Plain(setting: Setting) | Valued | Gone | NoFlag

  function GlobalShape(arg: string): FlagShape {
    if arg == "--opt-level" || arg == "--verification" || arg == "--max-expr-depth" then Valued
    else if arg == "--no-verify" || arg == "--strict-verification" || arg == "--repl" || arg == "--safe"
            || arg == "--no-memory-safety" then Gone
    else if arg == "--allow-inconclusive" then Plain(SetAllowInconclusive)
    else if arg == "--strict-ive" then Plain(SetStrictIve)
    else if arg == "--debug" || arg == "--debug-info" then Plain(SetDebug)
    else if arg == "--sections" then Plain(SetSections)
    else if arg == "--bench" then Plain(SetBench)
    else if arg == "-v" || arg == "--verbose" then Plain(SetVerbose)
    else if arg == "-q" || arg == "--quiet" then Plain(SetQuiet)
    else if arg == "--telemetry" then Plain(SetTelemetry)
    else NoFlag
  }

  /** `str::parse::<u32>`: an optional plus sign, then at least one digit, no overflow. */
  function ReadU32(s: string): Option<u32> {
    var digits := if s != "" && s[0] == '+' then s[1..] else s;
    match DecimalValue(digits)
    case Some(n) => if n < 0x1_0000_0000 then Some(n) else None
    case None => None
  }

  /** The setting a value gives its flag, if the value is valid. */
  function GlobalValue(flag: string, value: string): Option<Setting> {
    if flag == "--opt-level" then (if value == "O3" then Some(SetOptLevel) else None)
    else if flag == "--verification" then (if value == "pmt" then Some(SetVerification) else None)
    else
      match ReadU32(value)
      case Some(n) => if n > 0 then Some(SetMaxDepth(n)) else None
      case None => None
  }

  datatype Taken = NotGlobal | Took(setting: Setting, count: nat) | Bad(error: ParseError)

  /** `try_consume_global_flag` on the remaining arguments. */
  function TryGlobal(args: seq<string>): (t: Taken)
    requires args != []
    ensures t.Took? ==> 1 <= t.count <= 2 && t.count <= |args|
  {
    match GlobalShape(args[0])
    case NoFlag => NotGlobal
    case Gone => Bad(Removed(args[0]))
    case Plain(s) => Took(s, 1)
    case Valued =>
      if |args| < 2 then Bad(MissingValue(args[0]))
      else
        match GlobalValue(args[0], args[1])
        case Some(s) => Took(s, 2)
        case None => Bad(InvalidValue(args[0], args[1]))
  }

  // ---------------------------------------------------------------- subcommands

  datatype Cmd =
    | CBuild | CRun | CCheck | CEmit | CCompile | CDisasm | CLink | CVerify | CRepl | CLsp
    | CPkg | CPkgInit | CPkgBuild | CPkgAdd

  /** The local variables of the subcommand parsers. */
  datatype Locals = Locals(
    positionals: seq<string>, output: Option<string>, isa: Option<Isa>, format: Format, baseAddr: string, run: bool)

  const START := Locals([], None, None, Obj, "0x400000", false)

  function CommandNamed(name: string): Option<Cmd> {
    if name == "build" then Some(CBuild)
    else if name == "run" then Some(CRun)
    else if name == "check" then Some(CCheck)
    else if name == "emit" then Some(CEmit)
    else if name == "compile" then Some(CCompile)
    else if name == "disasm" then Some(CDisasm)
    else if name == "link" then Some(CLink)
    else if name == "verify" then Some(CVerify)
    else if name == "repl" then Some(CRepl)
    else if name == "lsp" then Some(CLsp)
    else if name == "pkg" then Some(CPkg)
    else None
  }

  function PkgNamed(name: string): Option<Cmd> {
    if name == "init" then Some(CPkgInit)
    else if name == "build" then Some(CPkgBuild)
    else if name == "add" then Some(CPkgAdd)
    else None
  }

  function IsaNamed(s: string): Option<Isa> {
    if s == "aarch64" then Some(Aarch64) else if s == "x86_64" then Some(X86_64)
    else if s == "riscv64" then Some(Riscv64) else if s == "wasm32" then Some(Wasm32)
    else if s == "loongarch64" then Some(Loongarch64) else if s == "arm32" then Some(Arm32)
    else if s == "mips64" then Some(Mips64) else if s == "ppc64" then Some(Ppc64)
    else if s == "ppc64le" then Some(Ppc64le) else if s == "sparc64" then Some(Sparc64)
    else if s == "s390x" then Some(S390x) else if s == "alpha" then Some(Alpha)
    else if s == "hppa" then Some(Hppa) else if s == "m68k" then Some(M68k)
    else if s == "riscv32" then Some(Riscv32) else if s == "x86_32" then Some(X86_32)
    else None
  }

  function FormatNamed(s: string): Option<Format> {
    if s == "elf" then Some(Elf) else if s == "obj" then Some(Obj)
    else if s == "raw" then Some(Raw) else if s == "wasm" then Some(Wasm)
    else None
  }

  /** A subcommand's own options. */
  datatype OptionShape = Takes | Switch | NoOption

  function LocalShape(cmd: Cmd, arg: string): OptionShape {
    if arg == "-o" || arg == "--output" then
      (if cmd.CBuild? || cmd.CEmit? || cmd.CCompile? || cmd.CLink? then Takes else NoOption)
    else if arg == "--target" then (if cmd.CBuild? || cmd.CCompile? then Takes else NoOption)
    else if arg == "--isa" then (if cmd.CBuild? || cmd.CRun? || cmd.CDisasm? || cmd.CLink? then Takes else NoOption)
    else if arg == "--format" then (if cmd.CCompile? then Takes else NoOption)
    else if arg == "--base-addr" then (if cmd.CDisasm? then Takes else NoOption)
    else if arg == "--run" then (if cmd.CLink? then Switch else NoOption)
    else NoOption
  }

  /** The locals after an option with a value, if the value is valid. */
  function WithOption(cmd: Cmd, l: Locals, option: string, value: string): Option<Locals> {
    if option == "-o" || option == "--output" then Some(l.(output := Some(value)))
    else if option == "--base-addr" then Some(l.(baseAddr := value))
    else if option == "--format" then
      (if FormatNamed(value).Some? then Some(l.(format := FormatNamed(value).value)) else None)
    else if option == "--target" && cmd.CBuild? then (if value == "linux" then Some(l) else None)
    else if IsaNamed(value).Some? then Some(l.(isa := IsaNamed(value)))
    else None
  }

  // ---------------------------------------------------------------- one turn

  /** Where the parser is: before the subcommand, inside one, or past the file of `run`. */
  datatype Mode = Top | In(cmd: Cmd, locals: Locals) | Trailing(isa: Option<Isa>, file: string, args: seq<string>)

  datatype Turn =
    | Failed(error: ParseError)
    | Global(setting: Setting, count: nat)
    | Local(mode: Mode, count: nat)

  predicate Dashed(arg: string) { arg != "" && arg[0] == '-' && arg != "-" }

  /** A token that is neither a flag nor an option. */
  function Positional(cmd: Cmd, l: Locals, arg: string): Turn {
    match cmd
    case CRun => Local(Trailing(l.isa, arg, []), 1)
    case CPkg =>
      (match PkgNamed(arg)
       case Some(sub) => Local(In(sub, START), 1)
       case None => Failed(if arg == "help" then Help else UnknownSubcommand(arg)))
    case CEmit => Local(In(cmd, l.(positionals := l.positionals + [arg])), 1)
    case CLink => Local(In(cmd, l.(positionals := l.positionals + [arg])), 1)
    case CPkgAdd => Local(In(cmd, l.(positionals := l.positionals + [arg])), 1)
    case _ => if l.positionals == [] then Local(In(cmd, l.(positionals := [arg])), 1) else Failed(Unexpected(arg))
  }

  /** A token that is not global, inside a subcommand. */
  function LocalTurn(cmd: Cmd, l: Locals, args: seq<string>): (t: Turn)
    requires args != []
    ensures t.Local? ==> 1 <= t.count <= |args| && !t.mode.Top?
    ensures !t.Global?
  {
    var arg := args[0];
    match LocalShape(cmd, arg)
    case Switch => Local(In(cmd, l.(run := true)), 1)
    case Takes =>
      if |args| < 2 then Failed(MissingValue(arg))
      else
        (match WithOption(cmd, l, arg, args[1])
         case Some(l') => Local(In(cmd, l'), 2)
         case None => Failed(InvalidValue(arg, args[1])))
    case NoOption =>
      if cmd.CRepl? || cmd.CLsp? || cmd.CPkgBuild? || Dashed(arg) then Failed(Unexpected(arg))
      else Positional(cmd, l, arg)
  }

  function SubcommandTurn(arg: string): (t: Turn)
    ensures !t.Global? && (t.Local? ==> t.count == 1)
  {
    if Dashed(arg) then Failed(Unexpected(arg))
    else
      match CommandNamed(arg)
      case Some(cmd) => Local(In(cmd, START), 1)
      case None => Failed(if arg == "help" then Help else UnknownSubcommand(arg))
  }

  /** One turn of whichever loop is running. */
  function OneTurn(mode: Mode, args: seq<string>): (t: Turn)
    requires args != []
    ensures t.Global? || t.Local? ==> 1 <= t.count <= |args|
  {
    if mode.Trailing? then Local(mode.(args := mode.args + args), |args|)
    else if args[0] == "--help" || args[0] == "-h" then Failed(Help)
    else if args[0] == "--version" || args[0] == "-V" then Failed(Version)
    else
      match TryGlobal(args)
      case Bad(e) => Failed(e)
      case Took(s, n) => Global(s, n)
      case NotGlobal => if mode.Top? then SubcommandTurn(args[0]) else LocalTurn(mode.cmd, mode.locals, args)
  }

  // ---------------------------------------------------------------- the end of the arguments

  datatype Finished = Done(command: Command) | Short(error: ParseError)

  /** What a subcommand parser returns after its loop. */
  function FinishCommand(cmd: Cmd, l: Locals): Finished {
    var ps := l.positionals;
    if cmd.CRepl? then Done(Repl)
    else if cmd.CLsp? then Done(Lsp)
    else if cmd.CPkgBuild? then Done(PkgBuild)
    else if cmd.CRun? || cmd.CPkg? || ps == [] then Short(MissingArgument)
    else if cmd.CEmit? then
      if |ps| < 2 then Short(MissingArgument)
      else if |ps| > 2 then Short(Unexpected(ps[2]))
      else if IsaNamed(ps[0]).None? then Short(InvalidValue("--isa", ps[0]))
      else Done(Emit(IsaNamed(ps[0]).value, ps[1], l.output))
    else if cmd.CPkgAdd? then
      if |ps| > 2 then Short(Unexpected(ps[2]))
      else Done(PkgAdd(ps[0], if |ps| == 2 then ps[1] else "*"))
    else if cmd.CBuild? then Done(Build(ps[0], l.output, Linux, l.isa))
    else if cmd.CCompile? then Done(Compile(ps[0], l.output, if l.isa.Some? then l.isa.value else Aarch64, l.format))
    else if cmd.CDisasm? then Done(Disasm(ps[0], if l.isa.Some? then l.isa.value else Aarch64, l.baseAddr))
    else if cmd.CLink? then Done(Link(ps, l.output, l.isa, l.run))
    else if cmd.CVerify? then Done(Verify(ps[0]))
    else if cmd.CPkgInit? then Done(PkgInit(ps[0]))
    else Done(Check(ps[0]))
  }

  function Finish(mode: Mode, flags: Flags): Outcome {
    match mode
    case Top => Accepted(flags, None)
    case Trailing(isa, file, args) => Accepted(flags, Some(Run(isa, file, args)))
    case In(cmd, l) =>
      match FinishCommand(cmd, l)
      case Done(c) => Accepted(flags, Some(c))
      case Short(e) => Rejected(e)
  }

  // ---------------------------------------------------------------- the whole parse

  function ParseFrom(mode: Mode, flags: Flags, args: seq<string>): Outcome
    decreases |args|
  {
    if args == [] then Finish(mode, flags)
    else
      match OneTurn(mode, args)
      case Failed(e) => Rejected(e)
      case Global(s, n) => ParseFrom(mode, Apply(flags, s), args[n..])
      case Local(next, n) => ParseFrom(next, flags, args[n..])
  }

  /** `parse_cli_from`, without the program name. */
  function ParseCli(args: seq<string>): Outcome {
    ParseFrom(Top, DEFAULTS, args)
  }

  // ---------------------------------------------------------------- groups of tokens

  /** The tokens one turn consumes, with the setting when the turn is a global flag. */
  datatype Group = Group(tokens: seq<string>, setting: Option<Setting>)

  function Flatten(gs: seq<Group>): seq<string> {
    if gs == [] then [] else gs[0].tokens + Flatten(gs[1..])
  }

  /** The mode after a group. */
  function After(mode: Mode, g: Group): Mode
    requires g.tokens != []
  {
    if g.setting.Some? then mode
    else
      match OneTurn(mode, g.tokens)
      case Local(next, _) => next
      case _ => mode
  }

  /** The group is exactly what one turn consumes in this mode. Past the file of `run` no global flag is recognised. */
  predicate Fits(mode: Mode, g: Group) {
    && g.tokens != []
    && match OneTurn(mode, g.tokens)
       case Failed(_) => false
       case Global(s, n) => g.setting == Some(s) && n == |g.tokens|
       case Local(_, n) => g.setting == None && n == |g.tokens|
  }

  /** A division of an argument vector into the turns of a parse. */
  predicate Legal(mode: Mode, gs: seq<Group>)
    decreases |gs|
  {
    gs == [] || (
      && Fits(mode, gs[0])
      && Legal(After(mode, gs[0]), gs[1..])
      && (mode.Trailing? ==> |gs| == 1))
  }

  function ModeAfter(mode: Mode, gs: seq<Group>): Mode
    requires Legal(mode, gs)
    decreases |gs|
  {
    if gs == [] then mode else ModeAfter(After(mode, gs[0]), gs[1..])
  }

  function Settings(gs: seq<Group>): seq<Setting> {
    if gs == [] then []
    else if gs[0].setting.Some? then [gs[0].setting.value] + Settings(gs[1..])
    else Settings(gs[1..])
  }

  /** The groups that are not global flags. */
  function Plains(gs: seq<Group>): seq<Group> {
    if gs == [] then []
    else if gs[0].setting.Some? then Plains(gs[1..])
    else [gs[0]] + Plains(gs[1..])
  }

  function ApplyAll(f: Flags, ss: seq<Setting>): Flags
    decreases |ss|
  {
    if ss == [] then f else ApplyAll(Apply(f, ss[0]), ss[1..])
  }

  // ---------------------------------------------------------------- a turn looks no further than its tokens

  lemma GlobalStable(tokens: seq<string>, rest: seq<string>)
    requires tokens != []
    ensures TryGlobal(tokens).Took? && TryGlobal(tokens).count == |tokens| ==> TryGlobal(tokens + rest) == TryGlobal(tokens)
    ensures TryGlobal(tokens).NotGlobal? <==> TryGlobal(tokens + rest).NotGlobal?
  {
    hide GlobalShape, GlobalValue;
    assert (tokens + rest)[0] == tokens[0];
    if |tokens| >= 2 {
      assert (tokens + rest)[1] == tokens[1];
    }
  }

  lemma LocalStable(cmd: Cmd, l: Locals, tokens: seq<string>, rest: seq<string>)
    requires tokens != [] && LocalTurn(cmd, l, tokens).Local? && LocalTurn(cmd, l, tokens).count == |tokens|
    ensures LocalTurn(cmd, l, tokens + rest) == LocalTurn(cmd, l, tokens)
  {
    hide LocalShape, WithOption, PkgNamed, Dashed;
    assert (tokens + rest)[0] == tokens[0];
    if |tokens| >= 2 {
      assert (tokens + rest)[1] == tokens[1];
    }
  }

  lemma TurnStable(mode: Mode, g: Group, rest: seq<string>)
    requires Fits(mode, g) && !mode.Trailing?
    ensures OneTurn(mode, g.tokens + rest) == OneTurn(mode, g.tokens)
  {
    hide TryGlobal, LocalTurn, SubcommandTurn;
    assert (g.tokens + rest)[0] == g.tokens[0];
    GlobalStable(g.tokens, rest);
    if mode.In? && TryGlobal(g.tokens).NotGlobal? {
      LocalStable(mode.cmd, mode.locals, g.tokens, rest);
    }
  }

  // ---------------------------------------------------------------- parsing is determined by the groups

  /** A parse runs the plain groups through the modes and the settings through the flags, separately. */
  lemma {:induction false} ParseOfGroups(mode: Mode, flags: Flags, gs: seq<Group>)
    requires Legal(mode, gs)
    ensures ParseFrom(mode, flags, Flatten(gs)) == Finish(ModeAfter(mode, gs), ApplyAll(flags, Settings(gs)))
    decreases |gs|
  {
    hide OneTurn, Finish, Apply;
    if gs != [] {
      var g, rest := gs[0], Flatten(gs[1..]);
      assert OneTurn(mode, g.tokens + rest) == OneTurn(mode, g.tokens) by {
        if mode.Trailing? {
          assert gs[1..] == [] && rest == [];
          assert g.tokens + rest == g.tokens;
        } else {
          TurnStable(mode, g, rest);
        }
      }
      assert (g.tokens + rest)[|g.tokens|..] == rest;
      if g.setting.Some? {
        ParseOfGroups(mode, Apply(flags, g.setting.value), gs[1..]);
        assert Settings(gs)[1..] == Settings(gs[1..]);
      } else {
        ParseOfGroups(After(mode, g), flags, gs[1..]);
      }
    }
  }

  /** A turn gives the same result on just the tokens it consumes. */
  lemma TurnShrinks(mode: Mode, args: seq<string>)
    requires args != [] && !OneTurn(mode, args).Failed?
    ensures OneTurn(mode, args[..OneTurn(mode, args).count]) == OneTurn(mode, args)
  {
    hide GlobalShape, GlobalValue, LocalShape, WithOption, PkgNamed, Dashed, CommandNamed;
    var n := OneTurn(mode, args).count;
    var few := args[..n];
    if mode.Trailing? {
      assert few == args;
    } else {
      assert few[0] == args[0] && (n >= 2 ==> few[1] == args[1]);
    }
  }

  lemma LegalNothing(mode: Mode, gs: seq<Group>)
    requires Legal(mode, gs) && Flatten(gs) == []
    ensures gs == []
  {
    hide OneTurn;
    if gs != [] {
      FlattenSome(mode, gs);
    }
  }

  lemma FlattenSome(mode: Mode, gs: seq<Group>)
    requires Legal(mode, gs) && gs != []
    ensures Flatten(gs) != []
  {
    hide OneTurn;
  }

  /** The division of an argument vector into the turns of its parse, as far as the parse goes. */
  function Division(mode: Mode, args: seq<string>): seq<Group>
    decreases |args|
  {
    if args == [] then []
    else
      match OneTurn(mode, args)
      case Failed(_) => []
      case Global(s, n) => [Group(args[..n], Some(s))] + Division(mode, args[n..])
      case Local(next, n) => [Group(args[..n], None)] + Division(next, args[n..])
  }

  /** Every accepted argument vector is consumed to its last token, group by group. */
  lemma {:induction false} AcceptedHasGroups(mode: Mode, flags: Flags, args: seq<string>)
    requires ParseFrom(mode, flags, args).Accepted?
    ensures Legal(mode, Division(mode, args)) && Flatten(Division(mode, args)) == args
    decreases |args|
  {
    hide OneTurn, Finish, Apply;
    if args != [] {
      var t := OneTurn(mode, args);
      var tokens, rest := args[..t.count], args[t.count..];
      var g := Group(tokens, if t.Global? then Some(t.setting) else None);
      var next := if t.Global? then mode else t.mode;
      TurnShrinks(mode, args);
      assert Fits(mode, g) && After(mode, g) == next;
      AcceptedHasGroups(next, if t.Global? then Apply(flags, t.setting) else flags, rest);
      var gs, more := Division(mode, args), Division(next, rest);
      if mode.Trailing? {
        TrailingTakesAll(mode, args);
        LegalNothing(next, more);
      }
      assert gs == [g] + more && gs[0] == g && gs[1..] == more;
      assert args == tokens + rest;
    }
  }

  lemma TrailingTakesAll(mode: Mode, args: seq<string>)
    requires mode.Trailing? && args != []
    ensures OneTurn(mode, args) == Local(mode.(args := mode.args + args), |args|)
  {
  }

  // ---------------------------------------------------------------- the order of global flags

  /** The values given to `--max-expr-depth`, the one global setting whose repetitions can disagree. */
  function Depths(ss: seq<Setting>): seq<u32> {
    if ss == [] then []
    else if ss[0].SetMaxDepth? then [ss[0].n] + Depths(ss[1..])
    else Depths(ss[1..])
  }

  /** Whether a switch is on. */
  predicate On(f: Flags, s: Setting) {
    match s
    case SetAllowInconclusive => f.allowInconclusive
    case SetStrictIve => f.strictIve
    case SetDebug => f.debug
    case SetSections => f.sections
    case SetBench => f.bench
    case SetVerbose => f.verbose
    case SetQuiet => f.quiet
    case SetTelemetry => f.telemetry
    case SetOptLevel => f.optLevel == O3
    case SetVerification => f.verification == Pmt
    case SetMaxDepth(_) => true
  }

  lemma ApplyOn(f: Flags, x: Setting, s: Setting)
    ensures On(Apply(f, x), s) <==> On(f, s) || s == x
    ensures Apply(f, x).maxExprDepth == if x.SetMaxDepth? then x.n else f.maxExprDepth
  {
  }

  /** The flags left by a list of settings: each switch is on if it was on or set, and the last depth wins. */
  lemma {:induction false} FlagsOfSettings(f: Flags, ss: seq<Setting>, s: Setting)
    ensures On(ApplyAll(f, ss), s) <==> On(f, s) || s in ss
    ensures ApplyAll(f, ss).maxExprDepth == if Depths(ss) == [] then f.maxExprDepth else Depths(ss)[|Depths(ss)| - 1]
    decreases |ss|
  {
    hide Apply, On;
    if ss != [] {
      ApplyOn(f, ss[0], s);
      FlagsOfSettings(Apply(f, ss[0]), ss[1..], s);
      assert ss == [ss[0]] + ss[1..];
    }
  }

  /** Flags with the same switches and the same depth are the same. */
  lemma SameFlags(f: Flags, g: Flags)
    requires f.maxExprDepth == g.maxExprDepth
    requires On(f, SetAllowInconclusive) == On(g, SetAllowInconclusive) && On(f, SetStrictIve) == On(g, SetStrictIve)
    requires On(f, SetDebug) == On(g, SetDebug) && On(f, SetSections) == On(g, SetSections)
    requires On(f, SetBench) == On(g, SetBench) && On(f, SetVerbose) == On(g, SetVerbose)
    requires On(f, SetQuiet) == On(g, SetQuiet) && On(f, SetTelemetry) == On(g, SetTelemetry)
    ensures f == g
  {
  }

  /** The order of settings matters only among depths. */
  lemma SettingsCommute(f: Flags, ss: seq<Setting>, ts: seq<Setting>)
    requires (forall s :: s in ss <==> s in ts) && Depths(ss) == Depths(ts)
    ensures ApplyAll(f, ss) == ApplyAll(f, ts)
  {
    hide On, ApplyAll, Depths;
    forall s: Setting ensures On(ApplyAll(f, ss), s) == On(ApplyAll(f, ts), s) {
      FlagsOfSettings(f, ss, s);
      FlagsOfSettings(f, ts, s);
    }
    FlagsOfSettings(f, ss, SetDebug);
    FlagsOfSettings(f, ts, SetDebug);
    SameFlags(ApplyAll(f, ss), ApplyAll(f, ts));
  }

  /** Two divisions with the same plain groups end in the same mode. */
  lemma {:induction false} SamePlainsSameMode(mode: Mode, gs: seq<Group>)
    requires Legal(mode, gs)
    ensures ModeAfter(mode, gs) == Drive(mode, Plains(gs))
    decreases |gs|
  {
    hide OneTurn;
    if gs != [] {
      SamePlainsSameMode(After(mode, gs[0]), gs[1..]);
      if gs[0].setting.None? {
        assert Plains(gs)[1..] == Plains(gs[1..]);
      }
    }
  }

  /** The mode the plain groups alone lead to. */
  function Drive(mode: Mode, ps: seq<Group>): Mode
    decreases |ps|
  {
    if ps == [] || ps[0].tokens == [] then mode else Drive(After(mode, ps[0]), ps[1..])
  }

  /**
   Where the global flags stand does not matter. Any two argument vectors whose divisions have the same
   subcommand groups in the same order, mention the same global settings, and give the same sequence of
   depths are parsed alike, whether accepted or rejected.
   */
  lemma GlobalsAnywhere(gs: seq<Group>, hs: seq<Group>)
    requires Legal(Top, gs) && Legal(Top, hs) && Plains(gs) == Plains(hs)
    requires (forall s :: s in Settings(gs) <==> s in Settings(hs)) && Depths(Settings(gs)) == Depths(Settings(hs))
    ensures ParseCli(Flatten(gs)) == ParseCli(Flatten(hs))
  {
    hide OneTurn, Finish, Legal, ModeAfter, Plains, Settings, Flatten, ApplyAll, ParseFrom, Depths;
    ParseOfGroups(Top, DEFAULTS, gs);
    ParseOfGroups(Top, DEFAULTS, hs);
    SamePlainsSameMode(Top, gs);
    SamePlainsSameMode(Top, hs);
    SettingsCommute(DEFAULTS, Settings(gs), Settings(hs));
  }

  // ---------------------------------------------------------------- moving one flag

  /** A complete global flag, with its value if it takes one. */
  predicate GlobalGroup(g: Group) {
    g.setting.Some? && Fits(Top, g)
  }

  lemma GlobalFitsAnywhere(mode: Mode, g: Group)
    requires GlobalGroup(g) && !mode.Trailing?
    ensures Fits(mode, g)
  {
    hide TryGlobal, LocalTurn, SubcommandTurn;
  }

  function Inserted(hs: seq<Group>, k: nat, g: Group): seq<Group>
    requires k <= |hs|
  {
    hs[..k] + [g] + hs[k..]
  }

  /** Not past the file of `run`. */
  predicate Reachable(mode: Mode, hs: seq<Group>, k: nat)
    requires k <= |hs|
    decreases k
  {
    !mode.Trailing? && (k == 0 || (hs[0].tokens != [] && Reachable(After(mode, hs[0]), hs[1..], k - 1)))
  }

  lemma {:induction false} InsertGlobal(mode: Mode, hs: seq<Group>, k: nat, g: Group)
    requires k <= |hs| && Legal(mode, hs) && Reachable(mode, hs, k) && GlobalGroup(g)
    ensures Legal(mode, Inserted(hs, k, g))
    decreases k
  {
    hide OneTurn, Fits, After;
    var all := Inserted(hs, k, g);
    if k == 0 {
      GlobalKeepsMode(mode, g);
      assert all == [g] + hs && all[1..] == hs;
    } else {
      InsertGlobal(After(mode, hs[0]), hs[1..], k - 1, g);
      assert all[0] == hs[0] && all[1..] == Inserted(hs[1..], k - 1, g);
    }
  }

  lemma GlobalKeepsMode(mode: Mode, g: Group)
    requires GlobalGroup(g) && !mode.Trailing?
    ensures Fits(mode, g) && g.tokens != [] && After(mode, g) == mode
  {
    hide OneTurn;
    GlobalFitsAnywhere(mode, g);
  }

  lemma {:induction false} InsertedParts(hs: seq<Group>, k: nat, g: Group)
    requires k <= |hs| && g.setting.Some?
    ensures Plains(Inserted(hs, k, g)) == Plains(hs)
    ensures Settings(Inserted(hs, k, g)) == Settings(hs[..k]) + [g.setting.value] + Settings(hs[k..])
  {
    OneGroup(g);
    hide Plains, Settings;
    PlainsConcat(hs[..k] + [g], hs[k..]);
    PlainsConcat(hs[..k], [g]);
    PlainsConcat(hs[..k], hs[k..]);
    assert hs[..k] + hs[k..] == hs;
    assert Plains(hs[..k]) + [] == Plains(hs[..k]);
    SettingsConcat(hs[..k] + [g], hs[k..]);
    SettingsConcat(hs[..k], [g]);
  }

  lemma OneGroup(g: Group)
    requires g.setting.Some?
    ensures Plains([g]) == [] && Settings([g]) == [g.setting.value]
  {
    assert [g][1..] == [];
  }

  lemma PlainsStep(gs: seq<Group>)
    ensures Plains([]) == []
    ensures gs != [] ==> Plains(gs) == (if gs[0].setting.Some? then [] else [gs[0]]) + Plains(gs[1..])
  {
  }

  lemma {:induction false} PlainsConcat(a: seq<Group>, b: seq<Group>)
    ensures Plains(a + b) == Plains(a) + Plains(b)
  {
    hide Plains;
    PlainsStep(a);
    if a == [] {
      NothingAndMore(b);
      NothingAndMore(Plains(b));
    } else {
      PlainsStep(a + b);
      FirstOfConcat(a, b);
      PlainsConcat(a[1..], b);
      Regroup(if a[0].setting.Some? then [] else [a[0]], Plains(a[1..]), Plains(b));
    }
  }

  lemma SettingsStep(gs: seq<Group>)
    ensures Settings([]) == []
    ensures gs != [] ==>
              Settings(gs) == (if gs[0].setting.Some? then [gs[0].setting.value] else []) + Settings(gs[1..])
  {
  }

  lemma {:induction false} SettingsConcat(a: seq<Group>, b: seq<Group>)
    ensures Settings(a + b) == Settings(a) + Settings(b)
  {
    hide Settings;
    SettingsStep(a);
    if a == [] {
      NothingAndMore(b);
      NothingAndMore(Settings(b));
    } else {
      SettingsStep(a + b);
      FirstOfConcat(a, b);
      SettingsConcat(a[1..], b);
      Regroup(if a[0].setting.Some? then [a[0].setting.value] else [], Settings(a[1..]), Settings(b));
    }
  }

  lemma DepthsStep(ss: seq<Setting>)
    ensures Depths([]) == []
    ensures ss != [] ==> Depths(ss) == (if ss[0].SetMaxDepth? then [ss[0].n] else []) + Depths(ss[1..])
  {
  }

  lemma {:induction false} DepthsConcat(a: seq<Setting>, b: seq<Setting>)
    ensures Depths(a + b) == Depths(a) + Depths(b)
  {
    hide Depths;
    DepthsStep(a);
    if a == [] {
      NothingAndMore(b);
      NothingAndMore(Depths(b));
    } else {
      DepthsStep(a + b);
      FirstOfConcat(a, b);
      DepthsConcat(a[1..], b);
      Regroup(if a[0].SetMaxDepth? then [a[0].n] else [], Depths(a[1..]), Depths(b));
    }
  }

  /**
   Moving one complete global flag from any token boundary to any later one, before or after the
   subcommand but not past the file of `run`, does not change the parse. Only a depth may not be moved across
   another depth.
   */
  lemma MoveGlobal(hs: seq<Group>, i: nat, j: nat, g: Group)
    requires i <= j <= |hs| && Legal(Top, hs) && Reachable(Top, hs, i) && Reachable(Top, hs, j) && GlobalGroup(g)
    requires g.setting.value.SetMaxDepth? ==> Depths(Settings(hs[i..j])) == []
    ensures ParseCli(Flatten(Inserted(hs, i, g))) == ParseCli(Flatten(Inserted(hs, j, g)))
  {
    hide Legal, Plains, Settings, Flatten, ParseFrom, Reachable, Fits, Depths;
    InsertGlobal(Top, hs, i, g);
    InsertGlobal(Top, hs, j, g);
    InsertedParts(hs, i, g);
    InsertedParts(hs, j, g);
    var a, m, b, s := Settings(hs[..i]), Settings(hs[i..j]), Settings(hs[j..]), [g.setting.value];
    SettingsConcat(hs[..i], hs[i..j]);
    SettingsConcat(hs[i..j], hs[j..]);
    assert hs[..i] + hs[i..j] == hs[..j] && hs[i..j] + hs[j..] == hs[i..];
    MovedDepths(a, m, b, g.setting.value);
    GlobalsAnywhere(Inserted(hs, i, g), Inserted(hs, j, g));
  }

  function Without(gs: seq<Group>, i: nat): seq<Group>
    requires i < |gs|
  {
    gs[..i] + gs[i + 1..]
  }

  /** Taking a global flag out leaves a legal division, and its place can be reached. */
  lemma {:induction false} RemoveGlobal(mode: Mode, gs: seq<Group>, i: nat)
    requires i < |gs| && Legal(mode, gs) && gs[i].setting.Some?
    ensures Legal(mode, Without(gs, i)) && Reachable(mode, Without(gs, i), i) && GlobalGroup(gs[i])
    ensures gs == Inserted(Without(gs, i), i, gs[i])
    decreases i
  {
    hide OneTurn, GlobalGroup, Fits, After;
    var hs := Without(gs, i);
    if i == 0 {
      assert hs == gs[1..];
      GlobalIsGlobal(mode, gs[0]);
    } else {
      NotTrailing(mode, gs);
      RemoveGlobal(After(mode, gs[0]), gs[1..], i - 1);
      assert hs[0] == gs[0] && hs[1..] == Without(gs[1..], i - 1);
    }
  }

  /** A group with a setting is a complete global flag wherever it stands. */
  lemma GlobalIsGlobal(mode: Mode, g: Group)
    requires Fits(mode, g) && g.setting.Some?
    ensures !mode.Trailing? && GlobalGroup(g) && g.tokens != [] && After(mode, g) == mode
  {
    hide TryGlobal, LocalTurn, SubcommandTurn;
  }

  lemma NotTrailing(mode: Mode, gs: seq<Group>)
    requires Legal(mode, gs) && |gs| > 1
    ensures !mode.Trailing? && gs[0].tokens != []
  {
    hide OneTurn;
  }

  /**
   In an accepted argument vector, any complete global flag may be moved to any other token boundary that is not past the file
   of `run`; the result is the same. Only a depth may not be moved across another depth.
   */
  lemma MoveFlag(args: seq<string>, i: nat, j: nat)
    requires ParseCli(args).Accepted?
    requires var gs := Division(Top, args);
             && i < |gs| && gs[i].setting.Some? && j < |gs|
             && Reachable(Top, Without(gs, i), j)
             && (gs[i].setting.value.SetMaxDepth? ==>
                   Depths(Settings(if i <= j then Without(gs, i)[i..j] else Without(gs, i)[j..i])) == [])
    ensures var gs := Division(Top, args);
            Flatten(gs) == args && ParseCli(Flatten(Inserted(Without(gs, i), j, gs[i]))) == ParseCli(args)
  {
    hide Legal, Settings, Flatten, ParseFrom, Reachable, Depths, Division, GlobalGroup;
    var gs := Division(Top, args);
    AcceptedHasGroups(Top, DEFAULTS, args);
    RemoveGlobal(Top, gs, i);
    if i <= j {
      MoveGlobal(Without(gs, i), i, j, gs[i]);
    } else {
      MoveGlobal(Without(gs, i), j, i, gs[i]);
    }
  }

  lemma MovedDepths(a: seq<Setting>, m: seq<Setting>, b: seq<Setting>, s: Setting)
    requires s.SetMaxDepth? ==> Depths(m) == []
    ensures Depths(a + [s] + (m + b)) == Depths((a + m) + [s] + b)
  {
    assert !s.SetMaxDepth? ==> Depths([s]) == [] by { assert [s][1..] == []; }
    hide Depths;
    DepthsConcat(a + [s], m + b);
    DepthsConcat(a, [s]);
    DepthsConcat(m, b);
    DepthsConcat((a + m) + [s], b);
    DepthsConcat(a + m, [s]);
    DepthsConcat(a, m);
    var da, dm, db, ds := Depths(a), Depths(m), Depths(b), Depths([s]);
    if s.SetMaxDepth? {
      assert dm + db == db && da + dm == da;
    } else {
      assert da + ds == da && da + dm + ds == da + dm;
    }
    assert da + (dm + db) == da + dm + db;
  }

  // ---------------------------------------------------------------- program arguments

  /** A turn is not affected by tokens it does not consume. */
  lemma TurnLocal(mode: Mode, args: seq<string>, other: seq<string>)
    requires args != [] && !mode.Trailing? && !OneTurn(mode, args).Failed?
    ensures OneTurn(mode, args[..OneTurn(mode, args).count] + other) == OneTurn(mode, args)
  {
    hide OneTurn;
    var t := OneTurn(mode, args);
    TurnShrinks(mode, args);
    TurnStable(mode, Group(args[..t.count], if t.Global? then Some(t.setting) else None), other);
  }

  /** A parse goes on from what follows the tokens of its first turn, whatever that is. */
  lemma ParseOn(mode: Mode, flags: Flags, args: seq<string>, tail: seq<string>)
    requires args != [] && !mode.Trailing? && !OneTurn(mode, args).Failed?
    ensures var t := OneTurn(mode, args);
            && (t.Global? ==> ParseFrom(mode, flags, args[..t.count] + tail) == ParseFrom(mode, Apply(flags, t.setting), tail))
            && (t.Local? ==> ParseFrom(mode, flags, args[..t.count] + tail) == ParseFrom(t.mode, flags, tail))
  {
    hide OneTurn, Apply;
    var t := OneTurn(mode, args);
    TurnLocal(mode, args, tail);
    assert (args[..t.count] + tail)[t.count..] == tail;
  }

  /**
   The program arguments of `run` are the tokens after the file, whatever they look like: the file stands at some
   position, the arguments are the rest of the vector, and any other rest would have been passed on the same way.
   */
  lemma {:induction false} RunArguments(mode: Mode, flags: Flags, args: seq<string>) returns (k: nat)
    requires !mode.Trailing? && ParseFrom(mode, flags, args).Accepted?
    requires ParseFrom(mode, flags, args).command.Some? && ParseFrom(mode, flags, args).command.value.Run?
    ensures var c := ParseFrom(mode, flags, args).command.value;
            && k < |args| && args[k] == c.file && args[k + 1..] == c.args
            && forall other :: ParseFrom(mode, flags, args[..k + 1] + other)
                            == Accepted(ParseFrom(mode, flags, args).flags, Some(c.(args := other)))
    decreases |args|
  {
    hide OneTurn, Apply, ParseFrom;
    assert args != [] by { NoRunWithoutFile(mode, flags); }
    var t := OneTurn(mode, args);
    assert !t.Failed? by { FailedTurn(mode, flags, args); }
    var n := t.count;
    assert args[..n] + args[n..] == args;
    ParseOn(mode, flags, args, args[n..]);
    if t.Local? && t.mode.Trailing? {
      FileTurn(mode, args);
      k := 0;
      TrailingRest(t.mode, flags, args[1..]);
      forall other ensures ParseFrom(mode, flags, args[..1] + other)
                        == Accepted(flags, Some(Run(t.mode.isa, t.mode.file, other)))
      {
        ParseOn(mode, flags, args, other);
        TrailingRest(t.mode, flags, other);
      }
    } else {
      var next, fs := (if t.Global? then mode else t.mode), (if t.Global? then Apply(flags, t.setting) else flags);
      var m := RunArguments(next, fs, args[n..]);
      k := n + m;
      assert args[n..][m] == args[k] && args[n..][m + 1..] == args[k + 1..];
      var c := ParseFrom(next, fs, args[n..]).command.value;
      forall other ensures ParseFrom(mode, flags, args[..k + 1] + other)
                        == Accepted(ParseFrom(next, fs, args[n..]).flags, Some(c.(args := other)))
      {
        assert args[..k + 1] + other == args[..n] + (args[n..][..m + 1] + other);
        ParseOn(mode, flags, args, args[n..][..m + 1] + other);
      }
    }
  }

  lemma FailedTurn(mode: Mode, flags: Flags, args: seq<string>)
    ensures args != [] && OneTurn(mode, args).Failed? ==> !ParseFrom(mode, flags, args).Accepted?
  {
    hide OneTurn;
  }

  lemma NoRunWithoutFile(mode: Mode, flags: Flags)
    requires !mode.Trailing?
    ensures var r := ParseFrom(mode, flags, []);
            r.Accepted? && r.command.Some? ==> !r.command.value.Run?
  {
  }

  lemma FileTurn(mode: Mode, args: seq<string>)
    requires args != [] && !mode.Trailing? && OneTurn(mode, args).Local? && OneTurn(mode, args).mode.Trailing?
    ensures OneTurn(mode, args).count == 1
    ensures OneTurn(mode, args).mode.file == args[0] && OneTurn(mode, args).mode.args == []
  {
    hide TryGlobal, LocalShape, WithOption, PkgNamed, CommandNamed, Dashed;
  }

  lemma TrailingRest(mode: Mode, flags: Flags, rest: seq<string>)
    requires mode.Trailing? && mode.args == []
    ensures ParseFrom(mode, flags, rest) == Accepted(flags, Some(Run(mode.isa, mode.file, rest)))
  {
    if rest != [] {
      TrailingTakesAll(mode, rest);
      assert rest[|rest|..] == [] && [] + rest == rest;
    }
  }
}
