/** Writing flags and a command as an argument vector, and parsing it back. */
module CliRoundTrip {
  import opened Common
  import opened Numerals
  import opened Cli
  import opened CliWriter

  // ---------------------------------------------------------------- the writer

  function Switched(on: bool, token: string): seq<string> { if on then [token] else [] }

  function CheckTokens(f: Flags): seq<string> {
    Switched(f.allowInconclusive, "--allow-inconclusive") + Switched(f.strictIve, "--strict-ive")
    + Switched(f.debug, "--debug") + Switched(f.sections, "--sections")
  }

  function LoudTokens(f: Flags): seq<string> {
    CheckTokens(f) + Switched(f.bench, "--bench") + Switched(f.verbose, "-v")
  }

  function RunTokens(f: Flags): seq<string> {
    LoudTokens(f) + Switched(f.quiet, "-q") + Switched(f.telemetry, "--telemetry")
  }

  /** Every flag that is on, and the depth. */
  function FlagTokens(f: Flags): seq<string> {
    RunTokens(f) + ["--max-expr-depth", Decimal(f.maxExprDepth)]
  }

  function OutputTokens(output: Option<string>): seq<string> {
    match output
    case Some(path) => ["-o", path]
    case None => []
  }

  function IsaTokens(isa: Option<Isa>): seq<string> {
    match isa
    case Some(i) => ["--isa", IsaName(i)]
    case None => []
  }

  function CommandTokens(c: Command): seq<string> {
    match c
    case Build(file, output, _, isa) => ["build", file] + OutputTokens(output) + IsaTokens(isa)
    case Run(isa, file, args) => ["run"] + IsaTokens(isa) + [file] + args
    case Check(file) => ["check", file]
    case Emit(isa, file, output) => ["emit", IsaName(isa), file] + OutputTokens(output)
    case Compile(file, output, isa, format) =>
      ["compile", file] + OutputTokens(output) + ["--target", IsaName(isa), "--format", FormatName(format)]
    case Disasm(file, isa, addr) => ["disasm", file, "--isa", IsaName(isa), "--base-addr", addr]
    case Link(files, output, isa, run) => ["link"] + files + OutputTokens(output) + IsaTokens(isa) + Switched(run, "--run")
    case Verify(file) => ["verify", file]
    case Repl => ["repl"]
    case Lsp => ["lsp"]
    case PkgInit(name) => ["pkg", "init", name]
    case PkgBuild => ["pkg", "build"]
    case PkgAdd(dep, version) => ["pkg", "add", dep, version]
  }

  /** No word looks like an option, and `link` has something to link. */
  predicate Writable(c: Command) {
    match c
    case Build(file, _, _, _) => Undashed(file)
    case Run(_, file, _) => Undashed(file)
    case Check(file) => Undashed(file)
    case Emit(_, file, _) => Undashed(file)
    case Compile(file, _, _, _) => Undashed(file)
    case Disasm(file, _, _) => Undashed(file)
    case Link(files, _, _, _) => files != [] && forall k :: 0 <= k < |files| ==> Undashed(files[k])
    case Verify(file) => Undashed(file)
    case PkgInit(name) => Undashed(name)
    case PkgAdd(dep, version) => Undashed(dep) && Undashed(version)
    case _ => true
  }

  // ---------------------------------------------------------------- the same as items

  function Items(on: bool, x: Item): seq<Item> { if on then [x] else [] }

  function CheckItems(f: Flags): seq<Item> {
    Items(f.allowInconclusive, InconclusiveItem) + Items(f.strictIve, StrictIveItem) + Items(f.debug, DebugItem(false))
    + Items(f.sections, SectionsItem)
  }

  function LoudItems(f: Flags): seq<Item> {
    CheckItems(f) + Items(f.bench, BenchItem) + Items(f.verbose, VerboseItem(false))
  }

  function RunItems(f: Flags): seq<Item> {
    LoudItems(f) + Items(f.quiet, QuietItem(false)) + Items(f.telemetry, TelemetryItem)
  }

  function FlagItems(f: Flags): seq<Item> {
    RunItems(f) + [DepthItem(false, Decimal(f.maxExprDepth))]
  }

  function OutputItems(output: Option<string>): seq<Item> {
    match output
    case Some(path) => [OutputItem(false, path)]
    case None => []
  }

  function IsaItems(isa: Option<Isa>): seq<Item> {
    match isa
    case Some(i) => [IsaItem(i)]
    case None => []
  }

  function WordItems(ws: seq<string>): seq<Item> {
    if ws == [] then [] else WordItems(ws[..|ws| - 1]) + [Word(ws[|ws| - 1])]
  }

  lemma TokensOne(x: Item)
    ensures Tokens([x]) == Written(x) && Tokens([]) == []
  {
    hide Written;
    assert [x][1..] == [] && Written(x) + [] == Written(x);
  }

  lemma {:induction false} TokensConcat(a: seq<Item>, b: seq<Item>)
    ensures Tokens(a + b) == Tokens(a) + Tokens(b)
  {
    hide Written;
    if a == [] {
      assert a + b == b && [] + Tokens(b) == Tokens(b);
    } else {
      TokensConcat(a[1..], b);
      FirstOfConcat(a, b);
      Regroup(Written(a[0]), Tokens(a[1..]), Tokens(b));
    }
  }

  lemma TokensMore(a: seq<Item>, x: Item)
    ensures Tokens(a + [x]) == Tokens(a) + Written(x)
  {
    TokensConcat(a, [x]);
    TokensOne(x);
  }

  // ---------------------------------------------------------------- flags

  /** The items are written as these tokens and say exactly these flags. */
  ghost predicate Says(xs: seq<Item>, tokens: seq<string>, f: Flags) {
    AllAllowed(None, xs) && DepthsFit(xs) && Tokens(xs) == tokens && FlagsOf(xs) == f
  }

  function Turned(f: Flags, on: bool, s: Setting): Flags { if on then Apply(f, s) else f }

  lemma SwitchItem(xs: seq<Item>, tokens: seq<string>, f: Flags, on: bool, x: Item, token: string)
    requires Says(xs, tokens, f) && IsGlobal(x) && !x.DepthItem? && Written(x) == [token]
    ensures Says(xs + Items(on, x), tokens + Switched(on, token), Turned(f, on, SettingOf(x)))
  {
    assert on ==> AllAllowed(None, [x]);
    hide Tokens, FlagsOf, Apply, SettingOf, Written, DepthsFit, AllAllowed, IsGlobal, Allowed;
    if on {
      AllowedConcat(None, xs, [x]);
      FlagsSnoc(xs, x);
      TokensMore(xs, x);
    } else {
      assert xs + [] == xs && Tokens(xs) + [] == Tokens(xs);
    }
  }

  lemma DepthLast(xs: seq<Item>, tokens: seq<string>, f: Flags, n: u32)
    requires n > 0 && Says(xs, tokens, f)
    ensures Says(xs + [DepthItem(false, Decimal(n))], tokens + ["--max-expr-depth", Decimal(n)], Apply(f, SetMaxDepth(n)))
  {
    var x := DepthItem(false, Decimal(n));
    DepthAllowed(n);
    hide Tokens, FlagsOf, DepthsFit, AllAllowed, Allowed, DepthDigits, Apply, Decimal, Magnitude, AllDigits;
    AllowedConcat(None, xs, [x]);
    FlagsSnoc(xs, x);
    TokensMore(xs, x);
  }

  lemma DepthAllowed(n: u32)
    requires n > 0
    ensures DepthDigits(Decimal(n)) && AllAllowed(None, [DepthItem(false, Decimal(n))]) && Magnitude(Decimal(n)) == n
  {
    DecimalReadsBack(n);
    hide Decimal, Magnitude, AllDigits;
    assert DepthDigits(Decimal(n));
    hide DepthDigits;
  }

  lemma NothingSaid()
    ensures Says([], [], DEFAULTS)
  {
  }

  /** Turning on a switch that is off, or not. */
  lemma TurnOne(g: Flags, on: bool, s: Setting)
    ensures s.SetAllowInconclusive? && !g.allowInconclusive ==> Turned(g, on, s) == g.(allowInconclusive := on)
    ensures s.SetStrictIve? && !g.strictIve ==> Turned(g, on, s) == g.(strictIve := on)
    ensures s.SetDebug? && !g.debug ==> Turned(g, on, s) == g.(debug := on)
    ensures s.SetSections? && !g.sections ==> Turned(g, on, s) == g.(sections := on)
    ensures s.SetBench? && !g.bench ==> Turned(g, on, s) == g.(bench := on)
    ensures s.SetVerbose? && !g.verbose ==> Turned(g, on, s) == g.(verbose := on)
    ensures s.SetQuiet? && !g.quiet ==> Turned(g, on, s) == g.(quiet := on)
    ensures s.SetTelemetry? && !g.telemetry ==> Turned(g, on, s) == g.(telemetry := on)
  {
    match s
    case SetAllowInconclusive =>
    case SetStrictIve =>
    case SetDebug =>
    case SetSections =>
    case SetBench =>
    case SetVerbose =>
    case SetQuiet =>
    case SetTelemetry =>
    case _ =>
  }

  lemma CheckItemsSay(f: Flags)
    ensures Says(CheckItems(f), CheckTokens(f),
                 Flags(O3, Pmt, f.allowInconclusive, f.strictIve, f.debug, f.sections, false, false, false, false, 1024))
  {
    hide Says, Items, Switched, Turned;
    NothingSaid();
    SwitchItem([], [], DEFAULTS, f.allowInconclusive, InconclusiveItem, "--allow-inconclusive");
    TurnOne(DEFAULTS, f.allowInconclusive, SetAllowInconclusive);
    NothingAndMore(Items(f.allowInconclusive, InconclusiveItem));
    NothingAndMore(Switched(f.allowInconclusive, "--allow-inconclusive"));
    var a1, t1 := Items(f.allowInconclusive, InconclusiveItem), Switched(f.allowInconclusive, "--allow-inconclusive");
    var f1 := DEFAULTS.(allowInconclusive := f.allowInconclusive);
    SwitchItem(a1, t1, f1, f.strictIve, StrictIveItem, "--strict-ive");
    TurnOne(f1, f.strictIve, SetStrictIve);
    var a2, t2 := a1 + Items(f.strictIve, StrictIveItem), t1 + Switched(f.strictIve, "--strict-ive");
    var f2 := f1.(strictIve := f.strictIve);
    SwitchItem(a2, t2, f2, f.debug, DebugItem(false), "--debug");
    TurnOne(f2, f.debug, SetDebug);
    var a3, t3, f3 := a2 + Items(f.debug, DebugItem(false)), t2 + Switched(f.debug, "--debug"), f2.(debug := f.debug);
    SwitchItem(a3, t3, f3, f.sections, SectionsItem, "--sections");
    TurnOne(f3, f.sections, SetSections);
  }

  function WithDepth(f: Flags, n: u32): Flags {
    Flags(O3, Pmt, f.allowInconclusive, f.strictIve, f.debug, f.sections, f.bench, f.verbose, f.quiet, f.telemetry, n)
  }

  /** There is one optimisation level and one verification. */
  lemma OnlyValues(f: Flags)
    ensures f == WithDepth(f, f.maxExprDepth)
  {
  }

  lemma SwitchNames()
    ensures IsGlobal(BenchItem) && Written(BenchItem) == ["--bench"] && SettingOf(BenchItem) == SetBench
    ensures IsGlobal(VerboseItem(false)) && Written(VerboseItem(false)) == ["-v"] && SettingOf(VerboseItem(false)) == SetVerbose
    ensures IsGlobal(QuietItem(false)) && Written(QuietItem(false)) == ["-q"] && SettingOf(QuietItem(false)) == SetQuiet
    ensures IsGlobal(TelemetryItem) && Written(TelemetryItem) == ["--telemetry"] && SettingOf(TelemetryItem) == SetTelemetry
  {
  }

  lemma LoudItemsSay(f: Flags)
    ensures Says(LoudItems(f), LoudTokens(f),
                 Flags(O3, Pmt, f.allowInconclusive, f.strictIve, f.debug, f.sections, f.bench, f.verbose, false, false, 1024))
  {
    SwitchNames();
    CheckItemsSay(f);
    hide Says, Items, Switched, Turned, CheckItems, CheckTokens, Apply, IsGlobal, Written, SettingOf;
    var f4 := Flags(O3, Pmt, f.allowInconclusive, f.strictIve, f.debug, f.sections, false, false, false, false, 1024);
    SwitchItem(CheckItems(f), CheckTokens(f), f4, f.bench, BenchItem, "--bench");
    TurnOne(f4, f.bench, SetBench);
    var a5, t5 := CheckItems(f) + Items(f.bench, BenchItem), CheckTokens(f) + Switched(f.bench, "--bench");
    var f5 := f4.(bench := f.bench);
    SwitchItem(a5, t5, f5, f.verbose, VerboseItem(false), "-v");
    TurnOne(f5, f.verbose, SetVerbose);
  }

  lemma RunItemsSay(f: Flags)
    ensures Says(RunItems(f), RunTokens(f), WithDepth(f, 1024))
  {
    SwitchNames();
    LoudItemsSay(f);
    hide Says, Items, Switched, Turned, LoudItems, LoudTokens, Apply, IsGlobal, Written, SettingOf;
    var f6 := Flags(O3, Pmt, f.allowInconclusive, f.strictIve, f.debug, f.sections, f.bench, f.verbose, false, false, 1024);
    SwitchItem(LoudItems(f), LoudTokens(f), f6, f.quiet, QuietItem(false), "-q");
    TurnOne(f6, f.quiet, SetQuiet);
    var a7, t7 := LoudItems(f) + Items(f.quiet, QuietItem(false)), LoudTokens(f) + Switched(f.quiet, "-q");
    var f7 := f6.(quiet := f.quiet);
    SwitchItem(a7, t7, f7, f.telemetry, TelemetryItem, "--telemetry");
    TurnOne(f7, f.telemetry, SetTelemetry);
  }

  /** The flags are written as items that say exactly them. */
  lemma FlagItemsSay(f: Flags)
    requires f.maxExprDepth > 0
    ensures Says(FlagItems(f), FlagTokens(f), f)
  {
    RunItemsSay(f);
    hide Says, RunItems, RunTokens, Decimal;
    DepthLast(RunItems(f), RunTokens(f), WithDepth(f, 1024), f.maxExprDepth);
    OnlyValues(f);
  }

  // ---------------------------------------------------------------- commands

  predicate NoGlobals(xs: seq<Item>) { forall k :: 0 <= k < |xs| ==> !IsGlobal(xs[k]) }

  /** What a list of items leaves in the locals of a subcommand that takes them all. */
  ghost predicate Leaves(cmd: Cmd, xs: seq<Item>, tokens: seq<string>, l: Locals) {
    AllAllowed(Some(cmd), xs) && NoGlobals(xs) && Tokens(xs) == tokens && LocalsOf(xs) == l
  }

  lemma NothingLeft(cmd: Cmd)
    ensures Leaves(cmd, [], [], START)
  {
  }

  lemma NoGlobalsMore(xs: seq<Item>, x: Item)
    requires NoGlobals(xs) && !IsGlobal(x)
    ensures NoGlobals(xs + [x])
  {
    hide IsGlobal;
  }

  lemma OneMore(cmd: Cmd, xs: seq<Item>, tokens: seq<string>, l: Locals, x: Item)
    requires Leaves(cmd, xs, tokens, l) && Fitting(cmd, x) && !IsGlobal(x)
    ensures Leaves(cmd, xs + [x], tokens + Written(x), LocalsOf(xs + [x]))
  {
    assert AllAllowed(Some(cmd), [x]);
    NoGlobalsMore(xs, x);
    hide AllAllowed, Tokens, LocalsOf, Allowed, Written, NoGlobals, Fitting, IsGlobal;
    AllowedConcat(Some(cmd), xs, [x]);
    TokensMore(xs, x);
  }

  lemma WordLeft(cmd: Cmd, xs: seq<Item>, tokens: seq<string>, l: Locals, text: string)
    requires Leaves(cmd, xs, tokens, l) && Fitting(cmd, Word(text))
    ensures Leaves(cmd, xs + [Word(text)], tokens + [text], l.(positionals := l.positionals + [text]))
  {
    OneMore(cmd, xs, tokens, l, Word(text));
    LocalsSnoc(xs, Word(text));
    PositionalsAreWords(xs);
  }

  lemma OutputLeft(cmd: Cmd, xs: seq<Item>, tokens: seq<string>, l: Locals, output: Option<string>)
    requires Leaves(cmd, xs, tokens, l) && Fitting(cmd, OutputItem(false, "")) && l.output == None
    ensures Leaves(cmd, xs + OutputItems(output), tokens + OutputTokens(output), l.(output := output))
  {
    if output.Some? {
      OneMore(cmd, xs, tokens, l, OutputItem(false, output.value));
      LocalsSnoc(xs, OutputItem(false, output.value));
    } else {
      assert xs + [] == xs && tokens + [] == tokens;
    }
  }

  lemma IsaLeft(cmd: Cmd, xs: seq<Item>, tokens: seq<string>, l: Locals, isa: Option<Isa>)
    requires Leaves(cmd, xs, tokens, l) && Fitting(cmd, IsaItem(Aarch64)) && l.isa == None
    ensures Leaves(cmd, xs + IsaItems(isa), tokens + IsaTokens(isa), l.(isa := isa))
  {
    if isa.Some? {
      OneMore(cmd, xs, tokens, l, IsaItem(isa.value));
      LocalsSnoc(xs, IsaItem(isa.value));
    } else {
      assert xs + [] == xs && tokens + [] == tokens;
    }
  }

  lemma {:induction false} WordsLeft(cmd: Cmd, ws: seq<string>)
    requires cmd.CLink? && forall k :: 0 <= k < |ws| ==> Undashed(ws[k])
    ensures Leaves(cmd, WordItems(ws), ws, START.(positionals := ws))
  {
    if ws == [] {
      NothingLeft(cmd);
    } else {
      var init, last := ws[..|ws| - 1], ws[|ws| - 1];
      assert Undashed(last);
      WordsLeft(cmd, init);
      assert init + [last] == ws;
      hide Leaves;
      WordLeft(cmd, WordItems(init), init, START.(positionals := init), last);
    }
  }

  // ---------------------------------------------------------------- the round trip

  lemma {:induction false} LocalsAfterFlags(pre: seq<Item>, xs: seq<Item>)
    requires AllAllowed(None, pre)
    ensures LocalsOf(pre + xs) == LocalsOf(xs)
    decreases |xs|
  {
    if xs == [] {
      assert pre + xs == pre;
      GlobalsOnly(pre);
      assert LocalsOf([]) == START;
    } else {
      var init, x := xs[..|xs| - 1], xs[|xs| - 1];
      LocalsAfterFlags(pre, init);
      assert init + [x] == xs && pre + init + [x] == pre + xs;
      LocalsSnoc(init, x);
      LocalsSnoc(pre + init, x);
    }
  }

  lemma {:induction false} FlagsBeforeItems(pre: seq<Item>, xs: seq<Item>)
    requires DepthsFit(pre) && NoGlobals(xs)
    ensures DepthsFit(pre + xs) && FlagsOf(pre + xs) == FlagsOf(pre)
    decreases |xs|
  {
    if xs == [] {
      assert pre + xs == pre;
    } else {
      var init, x := xs[..|xs| - 1], xs[|xs| - 1];
      assert !IsGlobal(x);
      FlagsBeforeItems(pre, init);
      assert init + [x] == xs && pre + init + [x] == pre + xs;
      hide FlagsOf, DepthsFit;
      FlagsSnoc(pre + init, x);
    }
  }

  function PkgWords(cmd: Cmd): seq<string> { if OfPkg(cmd) then ["pkg"] else [] }

  /** Flags, then a command whose items are known. */
  lemma ItemsReadBack(f: Flags, cmd: Cmd, xs: seq<Item>, tokens: seq<string>, l: Locals)
    requires f.maxExprDepth > 0 && Leaves(cmd, xs, tokens, l)
    requires !ManyWords(cmd) ==> |l.positionals| <= 1
    ensures ParseCli(FlagTokens(f) + (PkgWords(cmd) + [CommandWord(cmd)] + tokens)) == Finish(In(cmd, l), f)
  {
    hide FlagTokens, FlagItems, LocalsOf, FlagsOf, Tokens, ParseFrom, NoGlobals, AllAllowed, Finish, CommandWord, OfPkg, ManyWords;
    FlagItemsSay(f);
    var pre := FlagItems(f);
    var i := Invocation(pre, cmd, [], xs);
    assert AllAllowed(None, []) by { NothingAllowed(); }
    assert pre + [] == pre;
    LocalsAfterFlags(pre, xs);
    FlagsBeforeItems(pre, xs);
    PositionalsAreWords(pre + xs);
    InvocationReads(i, []);
    AtEnd(In(cmd, l), f);
    TextOf(i);
  }

  lemma NothingAllowed()
    ensures AllAllowed(None, [])
  {
  }

  lemma TextOf(i: Invocation)
    requires i.mid == []
    ensures i.Text() + [] == Tokens(i.pre) + (PkgWords(i.cmd) + [CommandWord(i.cmd)] + Tokens(i.items))
  {
    hide CommandWord;
    var w := [CommandWord(i.cmd)];
    assert Tokens(i.mid) + w == w;
    assert PkgWords(i.cmd) + w == if OfPkg(i.cmd) then ["pkg"] + w else w;
    hide Tokens;
  }

  /** One word, after which the locals are known. */
  lemma FirstWord(cmd: Cmd, text: string)
    requires Fitting(cmd, Word(text))
    ensures Leaves(cmd, [Word(text)], [text], START.(positionals := [text]))
  {
    hide Leaves, Fitting;
    NothingLeft(cmd);
    WordLeft(cmd, [], [], START, text);
    NothingAndMore([Word(text)]);
    NothingAndMore([text]);
  }

  lemma BuildFinishes(f: Flags, c: Command)
    requires c.Build?
    ensures Finish(In(CBuild, Locals([c.file], c.output, c.isaOpt, Obj, "0x400000", false)), f) == Accepted(f, Some(c))
  {
    assert c.target.Linux?;
  }

  lemma BuildReadsBack(f: Flags, c: Command)
    requires f.maxExprDepth > 0 && Writable(c) && c.Build?
    ensures ParseCli(FlagTokens(f) + CommandTokens(c)) == Accepted(f, Some(c))
  {
    hide Leaves, FlagTokens, ParseCli, OutputTokens, IsaTokens, OutputItems, IsaItems;
    var w, o, t := [Word(c.file)], OutputTokens(c.output), IsaTokens(c.isaOpt);
    FirstWord(CBuild, c.file);
    OutputLeft(CBuild, w, [c.file], START.(positionals := [c.file]), c.output);
    var xs, l := w + OutputItems(c.output), START.(positionals := [c.file], output := c.output);
    IsaLeft(CBuild, xs, [c.file] + o, l, c.isaOpt);
    ItemsReadBack(f, CBuild, xs + IsaItems(c.isaOpt), [c.file] + o + t, l.(isa := c.isaOpt));
    assert PkgWords(CBuild) + [CommandWord(CBuild)] + ([c.file] + o + t) == CommandTokens(c);
    assert l.(isa := c.isaOpt) == Locals([c.file], c.output, c.isaOpt, Obj, "0x400000", false);
    BuildFinishes(f, c);
  }

  lemma EmitFinishes(f: Flags, c: Command)
    requires c.Emit?
    ensures Finish(In(CEmit, Locals([IsaName(c.isa), c.file], c.output, None, Obj, "0x400000", false)), f) == Accepted(f, Some(c))
  {
    IsaNames(c.isa, IsaName(c.isa));
    hide IsaName, IsaNamed;
  }

  function EmitItems(c: Command): seq<Item>
    requires c.Emit?
  {
    [Word(IsaName(c.isa)), Word(c.file)] + OutputItems(c.output)
  }

  lemma EmitLeaves(c: Command)
    requires c.Emit? && Writable(c)
    ensures Leaves(CEmit, EmitItems(c), [IsaName(c.isa), c.file] + OutputTokens(c.output),
                   Locals([IsaName(c.isa), c.file], c.output, None, Obj, "0x400000", false))
  {
    PlainName(c.isa);
    hide Leaves, OutputTokens, OutputItems, IsaName;
    var name := IsaName(c.isa);
    FirstWord(CEmit, name);
    WordLeft(CEmit, [Word(name)], [name], START.(positionals := [name]), c.file);
    assert [Word(name)] + [Word(c.file)] == [Word(name), Word(c.file)] && [name] + [c.file] == [name, c.file];
    OutputLeft(CEmit, [Word(name), Word(c.file)], [name, c.file], START.(positionals := [name, c.file]), c.output);
  }

  lemma EmitTokens(c: Command)
    requires c.Emit?
    ensures PkgWords(CEmit) + [CommandWord(CEmit)] + ([IsaName(c.isa), c.file] + OutputTokens(c.output)) == CommandTokens(c)
  {
    hide IsaName, OutputTokens;
  }

  lemma EmitReadsBack(f: Flags, c: Command)
    requires f.maxExprDepth > 0 && Writable(c) && c.Emit?
    ensures ParseCli(FlagTokens(f) + CommandTokens(c)) == Accepted(f, Some(c))
  {
    EmitLeaves(c);
    EmitTokens(c);
    EmitFinishes(f, c);
    var l := Locals([IsaName(c.isa), c.file], c.output, None, Obj, "0x400000", false);
    assert ManyWords(CEmit);
    hide *;
    ItemsReadBack(f, CEmit, EmitItems(c), [IsaName(c.isa), c.file] + OutputTokens(c.output), l);
  }

  lemma PlainName(isa: Isa)
    ensures Undashed(IsaName(isa))
  {
  }

  lemma CompileReadsBack(f: Flags, c: Command)
    requires f.maxExprDepth > 0 && Writable(c) && c.Compile?
    ensures ParseCli(FlagTokens(f) + CommandTokens(c)) == Accepted(f, Some(c))
  {
    hide Leaves, FlagTokens, ParseCli, OutputTokens, OutputItems, IsaName, FormatName, LocalsOf;
    var w, o := [Word(c.file)], OutputTokens(c.output);
    var x, y := TargetItem(c.isa), FormatItem(c.format);
    FirstWord(CCompile, c.file);
    OutputLeft(CCompile, w, [c.file], START.(positionals := [c.file]), c.output);
    var xs, l := w + OutputItems(c.output), START.(positionals := [c.file], output := c.output);
    OneMore(CCompile, xs, [c.file] + o, l, x);
    LeavesLocals(CCompile, xs, [c.file] + o, l);
    LocalsSnoc(xs, x);
    var l' := l.(isa := Some(c.isa));
    OneMore(CCompile, xs + [x], [c.file] + o + Written(x), l', y);
    LocalsSnoc(xs + [x], y);
    ItemsReadBack(f, CCompile, xs + [x] + [y], [c.file] + o + Written(x) + Written(y), l'.(format := c.format));
    assert [] + ["compile"] + ([c.file] + o + Written(x) + Written(y)) == CommandTokens(c);
  }

  lemma LeavesLocals(cmd: Cmd, xs: seq<Item>, tokens: seq<string>, l: Locals)
    requires Leaves(cmd, xs, tokens, l)
    ensures LocalsOf(xs) == l
  {
  }

  lemma DisasmFinishes(f: Flags, c: Command)
    requires c.Disasm?
    ensures Finish(In(CDisasm, Locals([c.file], None, Some(c.isa), Obj, c.baseAddr, false)), f) == Accepted(f, Some(c))
  {
  }

  lemma DisasmReadsBack(f: Flags, c: Command)
    requires f.maxExprDepth > 0 && Writable(c) && c.Disasm?
    ensures ParseCli(FlagTokens(f) + CommandTokens(c)) == Accepted(f, Some(c))
  {
    hide Leaves, FlagTokens, ParseCli, IsaName, LocalsOf, Finish;
    var w := [Word(c.file)];
    var x, y := IsaItem(c.isa), BaseItem(c.baseAddr);
    FirstWord(CDisasm, c.file);
    var l := START.(positionals := [c.file]);
    OneMore(CDisasm, w, [c.file], l, x);
    LeavesLocals(CDisasm, w, [c.file], l);
    LocalsSnoc(w, x);
    var l' := l.(isa := Some(c.isa));
    OneMore(CDisasm, w + [x], [c.file] + Written(x), l', y);
    LocalsSnoc(w + [x], y);
    ItemsReadBack(f, CDisasm, w + [x] + [y], [c.file] + Written(x) + Written(y), l'.(baseAddr := c.baseAddr));
    assert PkgWords(CDisasm) + [CommandWord(CDisasm)] + ([c.file] + Written(x) + Written(y)) == CommandTokens(c);
    DisasmFinishes(f, c);
  }

  lemma RunSwitchLeft(xs: seq<Item>, tokens: seq<string>, l: Locals, run: bool)
    requires Leaves(CLink, xs, tokens, l) && !l.run
    ensures Leaves(CLink, xs + Items(run, RunItem), tokens + Switched(run, "--run"), l.(run := run))
  {
    if run {
      OneMore(CLink, xs, tokens, l, RunItem);
      LocalsSnoc(xs, RunItem);
    } else {
      assert xs + [] == xs && tokens + [] == tokens;
    }
  }

  lemma LinkFinishes(f: Flags, c: Command)
    requires c.Link? && c.files != []
    ensures Finish(In(CLink, Locals(c.files, c.output, c.isaOpt, Obj, "0x400000", c.run)), f) == Accepted(f, Some(c))
  {
  }

  lemma LinkReadsBack(f: Flags, c: Command)
    requires f.maxExprDepth > 0 && Writable(c) && c.Link?
    ensures ParseCli(FlagTokens(f) + CommandTokens(c)) == Accepted(f, Some(c))
  {
    hide Leaves, FlagTokens, ParseCli, OutputTokens, IsaTokens, OutputItems, IsaItems, Switched, Items, WordItems;
    var w, o, t, r := WordItems(c.files), OutputTokens(c.output), IsaTokens(c.isaOpt), Switched(c.run, "--run");
    WordsLeft(CLink, c.files);
    var l := START.(positionals := c.files);
    OutputLeft(CLink, w, c.files, l, c.output);
    IsaLeft(CLink, w + OutputItems(c.output), c.files + o, l.(output := c.output), c.isaOpt);
    var xs, l' := w + OutputItems(c.output) + IsaItems(c.isaOpt), l.(output := c.output, isa := c.isaOpt);
    RunSwitchLeft(xs, c.files + o + t, l', c.run);
    ItemsReadBack(f, CLink, xs + Items(c.run, RunItem), c.files + o + t + r, l'.(run := c.run));
    assert [] + ["link"] + (c.files + o + t + r) == CommandTokens(c);
    assert PkgWords(CLink) + [CommandWord(CLink)] + (c.files + o + t + r) == CommandTokens(c);
    assert l'.(run := c.run) == Locals(c.files, c.output, c.isaOpt, Obj, "0x400000", c.run);
    assert ParseCli(FlagTokens(f) + CommandTokens(c)) == Finish(In(CLink, l'.(run := c.run)), f);
    LinkFinishes(f, c);
  }

  /** The subcommands with one word and no options. */
  lemma OneWordReadsBack(f: Flags, c: Command)
    requires f.maxExprDepth > 0 && Writable(c) && (c.Check? || c.Verify? || c.PkgInit?)
    ensures ParseCli(FlagTokens(f) + CommandTokens(c)) == Accepted(f, Some(c))
  {
    hide Leaves, FlagTokens, ParseCli;
    var cmd, word := (if c.Check? then CCheck else if c.Verify? then CVerify else CPkgInit), if c.PkgInit? then c.name else c.file;
    FirstWord(cmd, word);
    ItemsReadBack(f, cmd, [Word(word)], [word], START.(positionals := [word]));
    assert PkgWords(cmd) + [CommandWord(cmd)] + [word] == CommandTokens(c);
  }

  lemma NoWordReadsBack(f: Flags, c: Command)
    requires f.maxExprDepth > 0 && (c.Repl? || c.Lsp? || c.PkgBuild?)
    ensures ParseCli(FlagTokens(f) + CommandTokens(c)) == Accepted(f, Some(c))
  {
    hide Leaves, FlagTokens, ParseCli;
    var cmd := if c.Repl? then CRepl else if c.Lsp? then CLsp else CPkgBuild;
    NothingLeft(cmd);
    ItemsReadBack(f, cmd, [], [], START);
    assert PkgWords(cmd) + [CommandWord(cmd)] + [] == CommandTokens(c);
  }

  lemma PkgAddReadsBack(f: Flags, c: Command)
    requires f.maxExprDepth > 0 && Writable(c) && c.PkgAdd?
    ensures ParseCli(FlagTokens(f) + CommandTokens(c)) == Accepted(f, Some(c))
  {
    hide Leaves, FlagTokens, ParseCli;
    FirstWord(CPkgAdd, c.dep);
    WordLeft(CPkgAdd, [Word(c.dep)], [c.dep], START.(positionals := [c.dep]), c.version);
    var l := START.(positionals := [c.dep] + [c.version]);
    ItemsReadBack(f, CPkgAdd, [Word(c.dep)] + [Word(c.version)], [c.dep] + [c.version], l);
    assert ["pkg"] + ["add"] + ([c.dep] + [c.version]) == CommandTokens(c);
  }

  lemma RunReadsBack(f: Flags, c: Command)
    requires f.maxExprDepth > 0 && Writable(c) && c.Run?
    ensures ParseCli(FlagTokens(f) + CommandTokens(c)) == Accepted(f, Some(c))
  {
    hide FlagTokens, ParseCli, IsaTokens, IsaItems, FlagItems, FlagsOf, LastIsa, Tokens, AllAllowed, NoGlobals, DepthsFit;
    var pre, xs := FlagItems(f), IsaItems(c.isaOpt);
    FlagItemsSay(f);
    NothingLeft(CRun);
    IsaLeft(CRun, [], [], START, c.isaOpt);
    NothingAndMore(xs);
    NothingAndMore(IsaTokens(c.isaOpt));
    LeavesLocals(CRun, xs, IsaTokens(c.isaOpt), START.(isa := c.isaOpt));
    LocalsAfterFlags(pre, xs);
    FlagsBeforeItems(pre, xs);
    RunReads(pre, xs, c.file, c.args);
    assert FlagTokens(f) + (["run"] + IsaTokens(c.isaOpt)) + ([c.file] + c.args) == FlagTokens(f) + CommandTokens(c);
  }

  /**
   Every command and every setting of the flags can be written as an argument vector, and parsing the vector gives
   back exactly that command and those flags.
   */
  lemma CommandReadsBack(f: Flags, c: Command)
    requires f.maxExprDepth > 0 && Writable(c)
    ensures ParseCli(FlagTokens(f) + CommandTokens(c)) == Accepted(f, Some(c))
  {
    hide *;
    match c
    case Build(_, _, _, _) => BuildReadsBack(f, c);
    case Run(_, _, _) => RunReadsBack(f, c);
    case Emit(_, _, _) => EmitReadsBack(f, c);
    case Compile(_, _, _, _) => CompileReadsBack(f, c);
    case Disasm(_, _, _) => DisasmReadsBack(f, c);
    case Link(_, _, _, _) => LinkReadsBack(f, c);
    case PkgAdd(_, _) => PkgAddReadsBack(f, c);
    case Check(_) => OneWordReadsBack(f, c);
    case Verify(_) => OneWordReadsBack(f, c);
    case PkgInit(_) => OneWordReadsBack(f, c);
    case _ => NoWordReadsBack(f, c);
  }

  /** Without a command, the flags alone. */
  lemma FlagsReadBack(f: Flags)
    requires f.maxExprDepth > 0
    ensures ParseCli(FlagTokens(f)) == Accepted(f, None)
  {
    hide FlagTokens, FlagItems, FlagsOf, Tokens, AllAllowed, ParseCli;
    FlagItemsSay(f);
    FlagsAlone(FlagItems(f));
  }

  // ---------------------------------------------------------------- every outcome can be written

  predicate AllUndashed(ws: seq<string>) { forall k :: 0 <= k < |ws| ==> Undashed(ws[k]) }

  /** No word kept so far looks like an option. */
  predicate Tidy(mode: Mode) {
    match mode
    case Top => true
    case In(_, l) => AllUndashed(l.positionals)
    case Trailing(_, file, _) => Undashed(file)
  }

  lemma UndashedMore(ws: seq<string>, w: string)
    requires AllUndashed(ws) && Undashed(w)
    ensures AllUndashed(ws + [w]) && AllUndashed([w])
  {
    hide Undashed;
  }

  lemma UndashedIs(t: string)
    ensures Undashed(t) <==> !Dashed(t)
  {
  }

  lemma OptionKeepsWords(cmd: Cmd, l: Locals, option: string, value: string)
    ensures var r := WithOption(cmd, l, option, value); r.Some? ==> r.value.positionals == l.positionals
  {
    hide IsaNamed, FormatNamed;
  }

  lemma PositionalTidy(cmd: Cmd, l: Locals, arg: string)
    requires AllUndashed(l.positionals) && Undashed(arg)
    ensures Positional(cmd, l, arg).Local? ==> Tidy(Positional(cmd, l, arg).mode)
  {
    UndashedMore(l.positionals, arg);
    hide Undashed, AllUndashed, PkgNamed;
    assert AllUndashed([]) by { NoneUndashed(); }
  }

  lemma NoneUndashed()
    ensures AllUndashed([])
  {
  }

  lemma LocalTurnTidy(cmd: Cmd, l: Locals, args: seq<string>)
    requires AllUndashed(l.positionals) && args != []
    ensures LocalTurn(cmd, l, args).Local? ==> Tidy(LocalTurn(cmd, l, args).mode)
  {
    UndashedIs(args[0]);
    if Undashed(args[0]) {
      PositionalTidy(cmd, l, args[0]);
    }
    if |args| > 1 {
      OptionKeepsWords(cmd, l, args[0], args[1]);
    }
    hide Undashed, AllUndashed, LocalShape, WithOption, Positional, Dashed;
  }

  /** A turn keeps words tidy, and never sets the depth to zero. */
  lemma TurnTidy(mode: Mode, args: seq<string>)
    requires args != [] && Tidy(mode)
    ensures var t := OneTurn(mode, args);
            && (t.Local? ==> Tidy(t.mode))
            && (t.Global? && t.setting.SetMaxDepth? ==> t.setting.n > 0)
  {
    DepthSetPositive(args);
    if mode.In? {
      LocalTurnTidy(mode.cmd, mode.locals, args);
    }
    NoneUndashed();
    hide LocalTurn, TryGlobal, CommandNamed, AllUndashed, Undashed, Dashed;
  }

  lemma DepthSetPositive(args: seq<string>)
    requires args != []
    ensures var t := TryGlobal(args); t.Took? && t.setting.SetMaxDepth? ==> t.setting.n > 0
  {
    hide ReadU32;
  }

  lemma FinishWritable(mode: Mode, flags: Flags)
    requires Tidy(mode)
    ensures var r := Finish(mode, flags); r.Accepted? ==> r.flags == flags && (r.command.Some? ==> Writable(r.command.value))
  {
    assert Undashed("*");
    hide IsaNamed, Undashed;
  }

  lemma ParseStep(mode: Mode, flags: Flags, args: seq<string>)
    requires args != []
    ensures var t := OneTurn(mode, args);
            && (t.Failed? ==> ParseFrom(mode, flags, args) == Rejected(t.error))
            && (t.Global? ==> ParseFrom(mode, flags, args) == ParseFrom(mode, Apply(flags, t.setting), args[t.count..]))
            && (t.Local? ==> ParseFrom(mode, flags, args) == ParseFrom(t.mode, flags, args[t.count..]))
  {
    hide OneTurn, Apply;
  }

  lemma ApplyKeepsDepth(f: Flags, s: Setting)
    requires f.maxExprDepth > 0 && (s.SetMaxDepth? ==> s.n > 0)
    ensures Apply(f, s).maxExprDepth > 0
  {
    hide Apply, On;
    ApplyOn(f, s, SetDebug);
  }

  lemma {:induction false} OutcomeWritable(mode: Mode, flags: Flags, args: seq<string>)
    requires flags.maxExprDepth > 0 && Tidy(mode)
    ensures var r := ParseFrom(mode, flags, args);
            r.Accepted? ==> r.flags.maxExprDepth > 0 && (r.command.Some? ==> Writable(r.command.value))
    decreases |args|
  {
    hide *;
    if args == [] {
      AtEnd(mode, flags);
      FinishWritable(mode, flags);
    } else {
      TurnTidy(mode, args);
      ParseStep(mode, flags, args);
      var t := OneTurn(mode, args);
      if t.Global? {
        ApplyKeepsDepth(flags, t.setting);
        OutcomeWritable(mode, Apply(flags, t.setting), args[t.count..]);
      } else if t.Local? {
        OutcomeWritable(t.mode, flags, args[t.count..]);
      }
    }
  }

  /** Whatever an accepted vector says can be said by the writer: its outcome, written and parsed, comes back. */
  lemma OutcomeReadsBack(args: seq<string>)
    requires ParseCli(args).Accepted?
    ensures var r := ParseCli(args);
            && r.flags.maxExprDepth > 0
            && (r.command.Some? ==> Writable(r.command.value))
            && ParseCli(FlagTokens(r.flags) + (if r.command.Some? then CommandTokens(r.command.value) else [])) == r
  {
    var r := ParseCli(args);
    OutcomeWritable(Top, DEFAULTS, args);
    hide *;
    if r.command.Some? {
      CommandReadsBack(r.flags, r.command.value);
    } else {
      FlagsReadBack(r.flags);
      assert FlagTokens(r.flags) + [] == FlagTokens(r.flags);
    }
  }
}
