/** Argument vectors written from literal tokens, and what they parse to. */
module CliWriter {
  import opened Common
  import opened Numerals
  import opened Cli

  // ---------------------------------------------------------------- names

  function IsaName(isa: Isa): string {
    match isa
    case Aarch64 => "aarch64"
    case X86_64 => "x86_64"
    case Riscv64 => "riscv64"
    case Wasm32 => "wasm32"
    case Loongarch64 => "loongarch64"
    case Arm32 => "arm32"
    case Mips64 => "mips64"
    case Ppc64 => "ppc64"
    case Ppc64le => "ppc64le"
    case Sparc64 => "sparc64"
    case S390x => "s390x"
    case Alpha => "alpha"
    case Hppa => "hppa"
    case M68k => "m68k"
    case Riscv32 => "riscv32"
    case X86_32 => "x86_32"
  }

  function FormatName(format: Format): string {
    match format
    case Elf => "elf"
    case Obj => "obj"
    case Raw => "raw"
    case Wasm => "wasm"
  }

  lemma NameOfIsa(isa: Isa)
    ensures IsaNamed(IsaName(isa)) == Some(isa)
  {
    match isa
    case Aarch64 =>
    case X86_64 =>
    case Riscv64 =>
    case Wasm32 =>
    case Loongarch64 =>
    case Arm32 =>
    case Mips64 =>
    case Ppc64 =>
    case Ppc64le =>
    case Sparc64 =>
    case S390x =>
    case Alpha =>
    case Hppa =>
    case M68k =>
    case Riscv32 =>
    case X86_32 =>
  }

  lemma IsaOfName(s: string)
    ensures IsaNamed(s).Some? ==> s == IsaName(IsaNamed(s).value)
  {
  }

  /** The sixteen names, and nothing else, select an instruction set. */
  lemma IsaNames(isa: Isa, s: string)
    ensures IsaNamed(s) == Some(isa) <==> s == IsaName(isa)
  {
    hide IsaNamed, IsaName;
    NameOfIsa(isa);
    IsaOfName(s);
  }

  lemma FormatNames(format: Format, s: string)
    ensures FormatNamed(s) == Some(format) <==> s == FormatName(format)
  {
  }

  /** The word that selects a subcommand; those of `pkg` follow that word. */
  function CommandWord(cmd: Cmd): string {
    match cmd
    case CBuild => "build"
    case CRun => "run"
    case CCheck => "check"
    case CEmit => "emit"
    case CCompile => "compile"
    case CDisasm => "disasm"
    case CLink => "link"
    case CVerify => "verify"
    case CRepl => "repl"
    case CLsp => "lsp"
    case CPkg => "pkg"
    case CPkgInit => "init"
    case CPkgBuild => "build"
    case CPkgAdd => "add"
  }

  predicate OfPkg(cmd: Cmd) { cmd.CPkgInit? || cmd.CPkgBuild? || cmd.CPkgAdd? }

  lemma CommandWords(cmd: Cmd, s: string)
    ensures !OfPkg(cmd) ==> (CommandNamed(s) == Some(cmd) <==> s == CommandWord(cmd))
    ensures OfPkg(cmd) ==> (PkgNamed(s) == Some(cmd) <==> s == CommandWord(cmd))
  {
  }

  // ---------------------------------------------------------------- items

  /** One thing a caller may say: a global flag, an option of a subcommand, or a word. */
  datatype Item =
    | OptLevelItem | VerificationItem | InconclusiveItem | StrictIveItem | DebugItem(info: bool) | SectionsItem
    | BenchItem | VerboseItem(long: bool) | QuietItem(long: bool) | TelemetryItem | DepthItem(plus: bool, digits: string)
    | OutputItem(long: bool, path: string) | LinuxItem | TargetItem(isa: Isa) | IsaItem(isa: Isa)
    | FormatItem(format: Format) | BaseItem(addr: string) | RunItem
    | Word(text: string)

  function Written(x: Item): seq<string> {
    match x
    case OptLevelItem => ["--opt-level", "O3"]
    case VerificationItem => ["--verification", "pmt"]
    case InconclusiveItem => ["--allow-inconclusive"]
    case StrictIveItem => ["--strict-ive"]
    case DebugItem(info) => [if info then "--debug-info" else "--debug"]
    case SectionsItem => ["--sections"]
    case BenchItem => ["--bench"]
    case VerboseItem(long) => [if long then "--verbose" else "-v"]
    case QuietItem(long) => [if long then "--quiet" else "-q"]
    case TelemetryItem => ["--telemetry"]
    case DepthItem(plus, digits) => ["--max-expr-depth", if plus then "+" + digits else digits]
    case OutputItem(long, path) => [if long then "--output" else "-o", path]
    case LinuxItem => ["--target", "linux"]
    case TargetItem(isa) => ["--target", IsaName(isa)]
    case IsaItem(isa) => ["--isa", IsaName(isa)]
    case FormatItem(format) => ["--format", FormatName(format)]
    case BaseItem(addr) => ["--base-addr", addr]
    case RunItem => ["--run"]
    case Word(text) => [text]
  }

  function Tokens(xs: seq<Item>): seq<string> {
    if xs == [] then [] else Written(xs[0]) + Tokens(xs[1..])
  }

  predicate IsGlobal(x: Item) {
    || x.OptLevelItem? || x.VerificationItem? || x.InconclusiveItem? || x.StrictIveItem? || x.DebugItem? || x.SectionsItem?
    || x.BenchItem? || x.VerboseItem? || x.QuietItem? || x.TelemetryItem? || x.DepthItem?
  }

  /** A depth that fits 32 bits and is not zero, in decimal. */
  predicate DepthDigits(digits: string) {
    digits != "" && AllDigits(digits) && 0 < Magnitude(digits) < 0x1_0000_0000
  }

  /** A word that does not look like an option. */
  predicate Undashed(text: string) { text == "" || text == "-" || text[0] != '-' }

  /** Whether a subcommand takes an option; `run` takes its file after its options. */
  predicate Fitting(cmd: Cmd, x: Item) {
    match x
    case OutputItem(_, _) => cmd.CBuild? || cmd.CEmit? || cmd.CCompile? || cmd.CLink?
    case LinuxItem => cmd.CBuild?
    case TargetItem(_) => cmd.CCompile?
    case IsaItem(_) => cmd.CBuild? || cmd.CRun? || cmd.CDisasm? || cmd.CLink?
    case FormatItem(_) => cmd.CCompile?
    case BaseItem(_) => cmd.CDisasm?
    case RunItem => cmd.CLink?
    case Word(text) =>
      !cmd.CRun? && !cmd.CPkg? && !cmd.CRepl? && !cmd.CLsp? && !cmd.CPkgBuild? && Undashed(text)
    case DepthItem(_, digits) => DepthDigits(digits)
    case _ => true
  }

  /** What may be said before a subcommand, and inside one. */
  predicate Allowed(place: Option<Cmd>, x: Item) {
    if place.Some? then Fitting(place.value, x) else IsGlobal(x) && (x.DepthItem? ==> DepthDigits(x.digits))
  }

  predicate AllAllowed(place: Option<Cmd>, xs: seq<Item>) {
    forall k :: 0 <= k < |xs| ==> Allowed(place, xs[k])
  }

  /** The subcommands that keep every word; the others take one. */
  predicate ManyWords(cmd: Cmd) { cmd.CEmit? || cmd.CLink? || cmd.CPkgAdd? }

  // ---------------------------------------------------------------- what was said

  function Words(xs: seq<Item>): seq<string> {
    if xs == [] then []
    else
      var last, init := xs[|xs| - 1], Words(xs[..|xs| - 1]);
      if last.Word? then init + [last.text] else init
  }

  /** The last output path, if any. */
  function LastOutput(xs: seq<Item>): Option<string> {
    if xs == [] then None
    else
      var last := xs[|xs| - 1];
      if last.OutputItem? then Some(last.path) else LastOutput(xs[..|xs| - 1])
  }

  function LastIsa(xs: seq<Item>): Option<Isa> {
    if xs == [] then None
    else
      match xs[|xs| - 1]
      case IsaItem(isa) => Some(isa)
      case TargetItem(isa) => Some(isa)
      case _ => LastIsa(xs[..|xs| - 1])
  }

  function LastFormat(xs: seq<Item>): Format {
    if xs == [] then Obj
    else
      var last := xs[|xs| - 1];
      if last.FormatItem? then last.format else LastFormat(xs[..|xs| - 1])
  }

  function LastBase(xs: seq<Item>): string {
    if xs == [] then "0x400000"
    else
      var last := xs[|xs| - 1];
      if last.BaseItem? then last.addr else LastBase(xs[..|xs| - 1])
  }

  predicate DepthsFit(xs: seq<Item>) {
    forall k :: 0 <= k < |xs| && xs[k].DepthItem? ==> DepthDigits(xs[k].digits)
  }

  function LastDepth(xs: seq<Item>): (n: u32)
    requires DepthsFit(xs)
    ensures n > 0
  {
    if xs == [] then 1024
    else
      var last := xs[|xs| - 1];
      if last.DepthItem? then Magnitude(last.digits) else LastDepth(xs[..|xs| - 1])
  }

  predicate Said(xs: seq<Item>, x: Item) { x in xs }

  /** Every flag is off unless it was said, and the last depth wins. */
  function FlagsOf(xs: seq<Item>): Flags
    requires DepthsFit(xs)
  {
    Flags(
      O3, Pmt, Said(xs, InconclusiveItem), Said(xs, StrictIveItem), Said(xs, DebugItem(false)) || Said(xs, DebugItem(true)),
      Said(xs, SectionsItem), Said(xs, BenchItem), Said(xs, VerboseItem(false)) || Said(xs, VerboseItem(true)),
      Said(xs, QuietItem(false)) || Said(xs, QuietItem(true)), Said(xs, TelemetryItem), LastDepth(xs))
  }

  function LocalsOf(xs: seq<Item>): Locals {
    Locals(Words(xs), LastOutput(xs), LastIsa(xs), LastFormat(xs), LastBase(xs), Said(xs, RunItem))
  }

  function ModeOf(place: Option<Cmd>, xs: seq<Item>): Mode {
    match place
    case None => Top
    case Some(cmd) => In(cmd, LocalsOf(xs))
  }

  // ---------------------------------------------------------------- one item

  function SettingOf(x: Item): Setting
    requires IsGlobal(x) && (x.DepthItem? ==> DepthDigits(x.digits))
  {
    match x
    case OptLevelItem => SetOptLevel
    case VerificationItem => SetVerification
    case InconclusiveItem => SetAllowInconclusive
    case StrictIveItem => SetStrictIve
    case DebugItem(_) => SetDebug
    case SectionsItem => SetSections
    case BenchItem => SetBench
    case VerboseItem(_) => SetVerbose
    case QuietItem(_) => SetQuiet
    case TelemetryItem => SetTelemetry
    case DepthItem(_, digits) => SetMaxDepth(Magnitude(digits))
  }

  /** A flag is recognised with its value, whatever follows. */
  lemma GlobalItem(x: Item, tail: seq<string>)
    requires IsGlobal(x) && (x.DepthItem? ==> DepthDigits(x.digits))
    ensures TryGlobal(Written(x) + tail) == Took(SettingOf(x), |Written(x)|)
  {
    hide GlobalValue;
    var all := Written(x) + tail;
    assert all[0] == Written(x)[0];
    GlobalItemShape(x);
    if |Written(x)| == 2 {
      assert all[1] == Written(x)[1];
      GlobalItemValue(x);
    }
  }

  lemma GlobalItemShape(x: Item)
    requires IsGlobal(x) && (x.DepthItem? ==> DepthDigits(x.digits))
    ensures GlobalShape(Written(x)[0]) == if |Written(x)| == 2 then Valued else FlagShape.Plain(SettingOf(x))
    ensures |Written(x)| <= 2
  {
    match x
    case OptLevelItem =>
    case VerificationItem =>
    case InconclusiveItem =>
    case StrictIveItem =>
    case DebugItem(_) =>
    case SectionsItem =>
    case BenchItem =>
    case VerboseItem(_) =>
    case QuietItem(_) =>
    case TelemetryItem =>
    case DepthItem(_, _) =>
  }

  lemma GlobalItemValue(x: Item)
    requires IsGlobal(x) && (x.DepthItem? ==> DepthDigits(x.digits)) && |Written(x)| == 2
    ensures GlobalValue(Written(x)[0], Written(x)[1]) == Some(SettingOf(x))
  {
    if x.DepthItem? {
      DepthReads(x.plus, x.digits);
    }
  }

  lemma DepthReads(plus: bool, digits: string)
    requires DepthDigits(digits)
    ensures ReadU32(if plus then "+" + digits else digits) == Some(Magnitude(digits))
  {
    if plus {
      assert ("+" + digits)[1..] == digits;
    } else {
      assert '0' <= digits[0] <= '9';
    }
  }

  lemma SaidSnoc(xs: seq<Item>, x: Item, y: Item)
    ensures Said(xs + [x], y) <==> Said(xs, y) || y == x
  {
  }

  lemma DepthSnoc(xs: seq<Item>, x: Item)
    requires DepthsFit(xs) && (x.DepthItem? ==> DepthDigits(x.digits))
    ensures DepthsFit(xs + [x])
    ensures LastDepth(xs + [x]) == if x.DepthItem? then Magnitude(x.digits) else LastDepth(xs)
  {
    hide DepthDigits, AllDigits;
    var ys := xs + [x];
    forall k | 0 <= k < |ys| && ys[k].DepthItem? ensures DepthDigits(ys[k].digits) {
      assert k < |xs| ==> ys[k] == xs[k];
    }
    assert ys[..|xs|] == xs && ys[|xs|] == x;
  }

  lemma SwitchOf(xs: seq<Item>, s: Setting)
    requires DepthsFit(xs)
    ensures s.SetAllowInconclusive? ==> On(FlagsOf(xs), s) == Said(xs, InconclusiveItem)
    ensures s.SetStrictIve? ==> On(FlagsOf(xs), s) == Said(xs, StrictIveItem)
    ensures s.SetDebug? ==> On(FlagsOf(xs), s) == (Said(xs, DebugItem(false)) || Said(xs, DebugItem(true)))
    ensures s.SetSections? ==> On(FlagsOf(xs), s) == Said(xs, SectionsItem)
    ensures s.SetBench? ==> On(FlagsOf(xs), s) == Said(xs, BenchItem)
    ensures s.SetVerbose? ==> On(FlagsOf(xs), s) == (Said(xs, VerboseItem(false)) || Said(xs, VerboseItem(true)))
    ensures s.SetQuiet? ==> On(FlagsOf(xs), s) == (Said(xs, QuietItem(false)) || Said(xs, QuietItem(true)))
    ensures s.SetTelemetry? ==> On(FlagsOf(xs), s) == Said(xs, TelemetryItem)
    ensures s.SetOptLevel? || s.SetVerification? || s.SetMaxDepth? ==> On(FlagsOf(xs), s)
  {
    hide Said, DepthsFit, LastDepth;
  }

  /** Saying one more thing turns on its own switch and no other. */
  lemma SwitchSnoc(xs: seq<Item>, x: Item, s: Setting)
    requires DepthsFit(xs) && (x.DepthItem? ==> DepthDigits(x.digits)) && DepthsFit(xs + [x])
    ensures On(FlagsOf(xs + [x]), s) <==> On(FlagsOf(xs), s) || (IsGlobal(x) && s == SettingOf(x))
  {
    hide Said, DepthsFit, DepthDigits, FlagsOf, On;
    SwitchOf(xs, s);
    SwitchOf(xs + [x], s);
    match s
    case SetAllowInconclusive => SaidSnoc(xs, x, InconclusiveItem);
    case SetStrictIve => SaidSnoc(xs, x, StrictIveItem);
    case SetDebug =>
      SaidSnoc(xs, x, DebugItem(false));
      SaidSnoc(xs, x, DebugItem(true));
    case SetSections => SaidSnoc(xs, x, SectionsItem);
    case SetBench => SaidSnoc(xs, x, BenchItem);
    case SetVerbose =>
      SaidSnoc(xs, x, VerboseItem(false));
      SaidSnoc(xs, x, VerboseItem(true));
    case SetQuiet =>
      SaidSnoc(xs, x, QuietItem(false));
      SaidSnoc(xs, x, QuietItem(true));
    case SetTelemetry => SaidSnoc(xs, x, TelemetryItem);
    case SetOptLevel =>
    case SetVerification =>
    case SetMaxDepth(_) =>
  }

  lemma FlagsSnoc(xs: seq<Item>, x: Item)
    requires DepthsFit(xs) && (x.DepthItem? ==> DepthDigits(x.digits))
    ensures DepthsFit(xs + [x])
    ensures FlagsOf(xs + [x]) == if IsGlobal(x) then Apply(FlagsOf(xs), SettingOf(x)) else FlagsOf(xs)
  {
    DepthSnoc(xs, x);
    hide Said, DepthsFit, DepthDigits, LastDepth, On, Apply, SettingOf, IsGlobal;
    var before, after := FlagsOf(xs), FlagsOf(xs + [x]);
    var f := if IsGlobal(x) then Apply(before, SettingOf(x)) else before;
    hide FlagsOf;
    forall s: Setting ensures On(after, s) == On(f, s) {
      SwitchSnoc(xs, x, s);
      if IsGlobal(x) {
        ApplyOn(before, SettingOf(x), s);
      }
    }
    DepthOfApply(before, x);
    SameFlags(after, f);
  }

  lemma DepthOfApply(f: Flags, x: Item)
    requires x.DepthItem? ==> DepthDigits(x.digits)
    ensures IsGlobal(x) ==> Apply(f, SettingOf(x)).maxExprDepth == if x.DepthItem? then Magnitude(x.digits) else f.maxExprDepth
    ensures x.DepthItem? ==> IsGlobal(x)
  {
    hide DepthDigits, Magnitude, AllDigits, Apply, On;
    if IsGlobal(x) {
      ApplyOn(f, SettingOf(x), SetDebug);
    }
  }

  lemma LocalsSnoc(xs: seq<Item>, x: Item)
    ensures IsGlobal(x) ==> LocalsOf(xs + [x]) == LocalsOf(xs)
    ensures x.Word? ==> LocalsOf(xs + [x]) == LocalsOf(xs).(positionals := Words(xs) + [x.text])
    ensures x.OutputItem? ==> LocalsOf(xs + [x]) == LocalsOf(xs).(output := Some(x.path))
    ensures x.LinuxItem? ==> LocalsOf(xs + [x]) == LocalsOf(xs)
    ensures x.TargetItem? || x.IsaItem? ==> LocalsOf(xs + [x]) == LocalsOf(xs).(isa := Some(x.isa))
    ensures x.FormatItem? ==> LocalsOf(xs + [x]) == LocalsOf(xs).(format := x.format)
    ensures x.BaseItem? ==> LocalsOf(xs + [x]) == LocalsOf(xs).(baseAddr := x.addr)
    ensures x.RunItem? ==> LocalsOf(xs + [x]) == LocalsOf(xs).(run := true)
  {
    assert (xs + [x])[..|xs|] == xs;
  }

  lemma LocalItem(cmd: Cmd, xs: seq<Item>, x: Item, tail: seq<string>)
    requires Fitting(cmd, x) && !IsGlobal(x)
    requires x.Word? && !ManyWords(cmd) ==> Words(xs) == []
    ensures LocalTurn(cmd, LocalsOf(xs), Written(x) + tail) == Local(In(cmd, LocalsOf(xs + [x])), |Written(x)|)
  {
    hide LocalsOf, LocalShape, WithOption, Dashed;
    var all := Written(x) + tail;
    assert all[0] == Written(x)[0];
    LocalItemShape(cmd, x);
    LocalsSnoc(xs, x);
    if x.Word? {
      WordItem(cmd, xs, x.text);
    } else if |Written(x)| == 2 {
      assert all[1] == Written(x)[1];
      LocalItemValue(cmd, xs, x);
    }
  }

  lemma LocalItemShape(cmd: Cmd, x: Item)
    requires Fitting(cmd, x) && !IsGlobal(x)
    ensures LocalShape(cmd, Written(x)[0]) == if x.Word? then NoOption else if x.RunItem? then Switch else OptionShape.Takes
    ensures |Written(x)| == if x.Word? || x.RunItem? then 1 else 2
    ensures x.Word? ==> !Dashed(x.text)
  {
  }

  lemma LocalItemValue(cmd: Cmd, xs: seq<Item>, x: Item)
    requires Fitting(cmd, x) && !IsGlobal(x) && |Written(x)| == 2
    ensures WithOption(cmd, LocalsOf(xs), Written(x)[0], Written(x)[1]) == Some(LocalsOf(xs + [x]))
  {
    hide LocalsOf, IsaNamed, FormatNamed, IsaName, FormatName;
    LocalsSnoc(xs, x);
    match x
    case TargetItem(isa) => IsaNames(isa, IsaName(isa));
    case IsaItem(isa) => IsaNames(isa, IsaName(isa));
    case FormatItem(format) => FormatNames(format, FormatName(format));
    case _ =>
  }

  lemma WordItem(cmd: Cmd, xs: seq<Item>, text: string)
    requires Fitting(cmd, Word(text))
    requires !ManyWords(cmd) ==> Words(xs) == []
    ensures Positional(cmd, LocalsOf(xs), text) == Local(In(cmd, LocalsOf(xs + [Word(text)])), 1)
  {
    LocalsSnoc(xs, Word(text));
    hide Words;
    assert [] + [text] == [text];
  }

  /** Options and words are not global flags, and no item asks for help or the version. */
  lemma NotGlobalItem(cmd: Cmd, x: Item)
    requires Fitting(cmd, x) && !IsGlobal(x)
    ensures GlobalShape(Written(x)[0]) == NoFlag
  {
    if x.Word? {
      WordNotGlobal(x.text);
    } else {
      OptionNotGlobal(x);
    }
  }

  lemma OptionNotGlobal(x: Item)
    requires !x.Word? && !IsGlobal(x)
    ensures GlobalShape(Written(x)[0]) == NoFlag
  {
  }

  lemma WordNotGlobal(text: string)
    requires !Dashed(text)
    ensures GlobalShape(text) == NoFlag
  {
  }

  lemma NoHelp(place: Option<Cmd>, x: Item)
    requires Allowed(place, x)
    ensures var t := Written(x)[0]; t != "--help" && t != "-h" && t != "--version" && t != "-V"
  {
  }

  /** A turn that consumes exactly `tokens`. */
  lemma TurnReads(mode: Mode, flags: Flags, tokens: seq<string>, tail: seq<string>)
    requires tokens != [] && !OneTurn(mode, tokens + tail).Failed? && OneTurn(mode, tokens + tail).count == |tokens|
    ensures var t := OneTurn(mode, tokens + tail);
            ParseFrom(mode, flags, tokens + tail)
            == if t.Global? then ParseFrom(mode, Apply(flags, t.setting), tail) else ParseFrom(t.mode, flags, tail)
  {
    hide OneTurn, Apply;
    assert (tokens + tail)[|tokens|..] == tail;
  }

  lemma ItemTurn(place: Option<Cmd>, xs: seq<Item>, x: Item, tail: seq<string>)
    requires Allowed(place, x)
    requires place.Some? && x.Word? && !ManyWords(place.value) ==> Words(xs) == []
    ensures Written(x) != []
    ensures IsGlobal(x) ==> (x.DepthItem? ==> DepthDigits(x.digits))
                            && OneTurn(ModeOf(place, xs), Written(x) + tail) == Global(SettingOf(x), |Written(x)|)
    ensures !IsGlobal(x) ==> OneTurn(ModeOf(place, xs), Written(x) + tail) == Local(ModeOf(place, xs + [x]), |Written(x)|)
  {
    assert Written(x) != [];
    hide LocalTurn, LocalsOf, GlobalShape, SettingOf, Written, DepthDigits;
    assert (Written(x) + tail)[0] == Written(x)[0];
    NoHelp(place, x);
    if IsGlobal(x) {
      GlobalItem(x, tail);
    } else {
      NotGlobalItem(place.value, x);
      LocalItem(place.value, xs, x, tail);
    }
  }

  lemma AllowedDepths(place: Option<Cmd>, xs: seq<Item>)
    requires AllAllowed(place, xs)
    ensures DepthsFit(xs)
  {
    forall k | 0 <= k < |xs| && xs[k].DepthItem? ensures DepthDigits(xs[k].digits) {
      assert Allowed(place, xs[k]);
    }
  }

  /** Reading one item adds it to what was said. */
  lemma ItemReads(place: Option<Cmd>, xs: seq<Item>, x: Item, tail: seq<string>)
    requires DepthsFit(xs) && Allowed(place, x)
    requires place.Some? && x.Word? && !ManyWords(place.value) ==> Words(xs) == []
    ensures DepthsFit(xs + [x])
    ensures ParseFrom(ModeOf(place, xs), FlagsOf(xs), Written(x) + tail)
         == ParseFrom(ModeOf(place, xs + [x]), FlagsOf(xs + [x]), tail)
  {
    if x.DepthItem? {
      DepthOfAllowed(place, x);
    }
    FlagsSnoc(xs, x);
    ItemTurn(place, xs, x, tail);
    LocalsSnoc(xs, x);
    hide OneTurn, FlagsOf, LocalsOf, Allowed, DepthsFit, DepthDigits, Apply, SettingOf, IsGlobal;
    TurnReads(ModeOf(place, xs), FlagsOf(xs), Written(x), tail);
  }

  lemma DepthOfAllowed(place: Option<Cmd>, x: Item)
    requires Allowed(place, x) && x.DepthItem?
    ensures DepthDigits(x.digits)
  {
  }

  // ---------------------------------------------------------------- any number of items

  lemma {:induction false} WordsConcat(a: seq<Item>, b: seq<Item>)
    ensures Words(a + b) == Words(a) + Words(b)
  {
    if b == [] {
      assert a + b == a && Words(a) + [] == Words(a);
    } else {
      var init, x := b[..|b| - 1], b[|b| - 1];
      WordsConcat(a, init);
      assert (a + b)[..|a + b| - 1] == a + init && (a + b)[|a + b| - 1] == x;
      hide Words;
      WordsSnoc(a + init, x);
      WordsSnoc(init, x);
      assert init + [x] == b && a + init + [x] == a + b;
      Regroup(Words(a), Words(init), if x.Word? then [x.text] else []);
    }
  }

  lemma WordsSnoc(xs: seq<Item>, x: Item)
    ensures Words(xs + [x]) == Words(xs) + (if x.Word? then [x.text] else [])
  {
    assert (xs + [x])[..|xs|] == xs;
  }

  lemma DepthsConcat(a: seq<Item>, b: seq<Item>)
    requires DepthsFit(a) && DepthsFit(b)
    ensures DepthsFit(a + b)
  {
    forall k | 0 <= k < |a + b| && (a + b)[k].DepthItem? ensures DepthDigits((a + b)[k].digits) {
      assert k >= |a| ==> (a + b)[k] == b[k - |a|];
    }
  }

  /** A subcommand that takes one word has been given at most one. */
  predicate Room(place: Option<Cmd>, xs: seq<Item>) {
    place.Some? && !ManyWords(place.value) ==> |Words(xs)| <= 1
  }

  lemma TokensStep(xs: seq<Item>, tail: seq<string>)
    ensures xs == [] ==> Tokens(xs) + tail == tail
    ensures xs != [] ==> Tokens(xs) + tail == Written(xs[0]) + (Tokens(xs[1..]) + tail)
  {
    hide Written;
  }

  lemma AllowedRest(place: Option<Cmd>, xs: seq<Item>)
    requires AllAllowed(place, xs) && xs != []
    ensures Allowed(place, xs[0]) && AllAllowed(place, xs[1..])
  {
    hide Allowed;
    forall k | 0 <= k < |xs[1..]| ensures Allowed(place, xs[1..][k]) {
      assert xs[1..][k] == xs[k + 1];
    }
  }

  /** Reading items adds them to what was said, whatever follows. */
  lemma {:induction false} ItemsRead(place: Option<Cmd>, before: seq<Item>, xs: seq<Item>, tail: seq<string>)
    requires DepthsFit(before) && AllAllowed(place, xs) && Room(place, before + xs)
    ensures DepthsFit(before + xs)
    ensures ParseFrom(ModeOf(place, before), FlagsOf(before), Tokens(xs) + tail)
         == ParseFrom(ModeOf(place, before + xs), FlagsOf(before + xs), tail)
    decreases |xs|
  {
    AllowedDepths(place, xs);
    DepthsConcat(before, xs);
    hide *;
    TokensStep(xs, tail);
    if xs == [] {
      assert before + xs == before;
    } else {
      var x, rest := xs[0], xs[1..];
      AllowedRest(place, xs);
      assert xs == [x] + rest && before + xs == before + [x] + rest;
      RoomForFirst(place, before, x, rest);
      ItemReads(place, before, x, Tokens(rest) + tail);
      ItemsRead(place, before + [x], rest, tail);
    }
  }

  lemma RoomForFirst(place: Option<Cmd>, before: seq<Item>, x: Item, rest: seq<Item>)
    requires Room(place, before + [x] + rest)
    ensures place.Some? && x.Word? && !ManyWords(place.value) ==> Words(before) == []
  {
    hide Words;
    WordsConcat(before + [x], rest);
    WordsSnoc(before, x);
  }

  /** A second word where one is taken is refused. */
  lemma {:induction false} SecondWord(cmd: Cmd, before: seq<Item>, xs: seq<Item>, tail: seq<string>)
    requires DepthsFit(before) && AllAllowed(Some(cmd), xs) && !ManyWords(cmd)
    requires |Words(before)| <= 1 < |Words(before + xs)|
    ensures ParseFrom(ModeOf(Some(cmd), before), FlagsOf(before), Tokens(xs) + tail)
         == Rejected(Unexpected(Words(before + xs)[1]))
    decreases |xs|
  {
    hide *;
    assert xs != [] by {
      assert xs == [] ==> before + xs == before;
    }
    if xs != [] {
      var x, rest := xs[0], xs[1..];
      AllowedRest(Some(cmd), xs);
      TokensStep(xs, tail);
      assert xs == [x] + rest && before + xs == before + [x] + rest;
      WordsConcat(before + [x], rest);
      WordsSnoc(before, x);
      if x.Word? && Words(before) != [] {
        assert Words(before + xs)[1] == x.text && x == Word(x.text);
        WordTooMany(cmd, before, x.text, Tokens(rest) + tail);
      } else {
        ItemReads(Some(cmd), before, x, Tokens(rest) + tail);
        assert |Words(before + [x])| <= 1;
        SecondWord(cmd, before + [x], rest, tail);
      }
    }
  }

  lemma WordTooMany(cmd: Cmd, xs: seq<Item>, text: string, tail: seq<string>)
    requires DepthsFit(xs) && Allowed(Some(cmd), Word(text)) && !ManyWords(cmd) && Words(xs) != []
    ensures ParseFrom(ModeOf(Some(cmd), xs), FlagsOf(xs), Written(Word(text)) + tail) == Rejected(Unexpected(text))
  {
    LocalItemShape(cmd, Word(text));
    NotGlobalItem(cmd, Word(text));
    NoHelp(Some(cmd), Word(text));
    hide GlobalShape, LocalShape, WithOption, Dashed, Words, FlagsOf;
    var all := Written(Word(text)) + tail;
    assert all[0] == text;
    assert Positional(cmd, LocalsOf(xs), text) == Failed(Unexpected(text));
  }

  // ---------------------------------------------------------------- whole invocations

  /** Flags, a subcommand, and what it is given; flags may also stand between `pkg` and its own subcommand. */
  datatype Invocation = Invocation(pre: seq<Item>, cmd: Cmd, mid: seq<Item>, items: seq<Item>) {
    predicate Valid() {
      && AllAllowed(None, pre) && AllAllowed(None, mid) && AllAllowed(Some(cmd), items)
      && (mid == [] || OfPkg(cmd))
    }

    function Text(): seq<string> {
      Tokens(pre) + ((if OfPkg(cmd) then ["pkg"] + (Tokens(mid) + [CommandWord(cmd)]) else [CommandWord(cmd)]) + Tokens(items))
    }

    function Everything(): seq<Item> { pre + mid + items }
  }

  lemma CommandStarts(cmd: Cmd, f: Flags, tail: seq<string>)
    requires !OfPkg(cmd)
    ensures ParseFrom(Top, f, [CommandWord(cmd)] + tail) == ParseFrom(In(cmd, START), f, tail)
  {
    var word := CommandWord(cmd);
    CommandWords(cmd, word);
    CommandWordPlain(cmd);
    hide CommandNamed, PkgNamed, GlobalShape, CommandWord, Dashed;
    assert ([word] + tail)[0] == word;
    assert OneTurn(Top, [word] + tail) == Local(In(cmd, START), 1);
    TurnReads(Top, f, [word], tail);
  }

  lemma SubStarts(sub: Cmd, l: Locals, f: Flags, tail: seq<string>)
    requires OfPkg(sub)
    ensures ParseFrom(In(CPkg, l), f, [CommandWord(sub)] + tail) == ParseFrom(In(sub, START), f, tail)
  {
    var word := CommandWord(sub);
    CommandWords(sub, word);
    CommandWordPlain(sub);
    hide CommandNamed, PkgNamed, GlobalShape, CommandWord, LocalShape, Dashed;
    assert ([word] + tail)[0] == word;
    assert OneTurn(In(CPkg, l), [word] + tail) == Local(In(sub, START), 1);
    TurnReads(In(CPkg, l), f, [word], tail);
  }

  lemma CommandWordPlain(cmd: Cmd)
    ensures var w := CommandWord(cmd);
            && GlobalShape(w) == NoFlag && LocalShape(CPkg, w) == NoOption && !Dashed(w)
            && w != "--help" && w != "-h" && w != "--version" && w != "-V"
  {
    WordNotGlobal(CommandWord(cmd));
  }

  lemma {:induction false} GlobalsOnly(xs: seq<Item>)
    requires AllAllowed(None, xs)
    ensures LocalsOf(xs) == START
  {
    if xs != [] {
      var init, x := xs[..|xs| - 1], xs[|xs| - 1];
      assert init + [x] == xs && Allowed(None, x);
      GlobalsOnly(init);
      LocalsSnoc(init, x);
    }
  }

  lemma GlobalsInside(cmd: Cmd, xs: seq<Item>)
    requires AllAllowed(None, xs)
    ensures AllAllowed(Some(cmd), xs)
  {
    forall k | 0 <= k < |xs| ensures Allowed(Some(cmd), xs[k]) {
      assert Allowed(None, xs[k]);
    }
  }

  lemma AllowedConcat(place: Option<Cmd>, a: seq<Item>, b: seq<Item>)
    requires AllAllowed(place, a) && AllAllowed(place, b)
    ensures AllAllowed(place, a + b)
  {
    hide Allowed;
    forall k | 0 <= k < |a + b| ensures Allowed(place, (a + b)[k]) {
      assert k >= |a| ==> (a + b)[k] == b[k - |a|];
    }
  }

  /** The words of an invocation are those given to the subcommand. */
  lemma WordsOfItems(i: Invocation)
    requires i.Valid()
    ensures AllAllowed(None, i.pre + i.mid) && LocalsOf(i.pre + i.mid) == START
    ensures DepthsFit(i.Everything()) && Words(i.Everything()) == Words(i.items)
  {
    AllowedConcat(None, i.pre, i.mid);
    GlobalsOnly(i.pre + i.mid);
    AllowedDepths(None, i.pre + i.mid);
    AllowedDepths(Some(i.cmd), i.items);
    hide *;
    DepthsConcat(i.pre + i.mid, i.items);
    WordsConcat(i.pre + i.mid, i.items);
    assert LocalsOf(i.pre + i.mid).positionals == Words(i.pre + i.mid) by { PositionalsAreWords(i.pre + i.mid); }
    EverythingIs(i);
    NothingAndMore(Words(i.items));
  }

  lemma EverythingIs(i: Invocation)
    ensures i.Everything() == i.pre + i.mid + i.items
  {
  }

  lemma PositionalsAreWords(xs: seq<Item>)
    ensures LocalsOf(xs).positionals == Words(xs) && START.positionals == []
  {
  }

  lemma TextParts(i: Invocation, tail: seq<string>)
    ensures OfPkg(i.cmd) ==>
              i.Text() + tail
              == Tokens(i.pre) + (["pkg"] + (Tokens(i.mid) + ([CommandWord(i.cmd)] + (Tokens(i.items) + tail))))
    ensures !OfPkg(i.cmd) ==> i.Text() + tail == Tokens(i.pre) + ([CommandWord(i.cmd)] + (Tokens(i.items) + tail))
  {
    hide Tokens, CommandWord;
    var a, b, word, c := Tokens(i.pre), Tokens(i.mid), [CommandWord(i.cmd)], Tokens(i.items);
    if OfPkg(i.cmd) {
      assert ["pkg"] + (b + word) + c == ["pkg"] + (b + (word + c));
      assert a + (["pkg"] + (b + (word + c))) + tail == a + (["pkg"] + (b + (word + (c + tail))));
    } else {
      assert a + (word + c) + tail == a + (word + (c + tail));
    }
  }

  /** Up to the items of the subcommand. */
  lemma ReachesCommand(i: Invocation, tail: seq<string>)
    requires i.Valid()
    ensures DepthsFit(i.pre + i.mid)
    ensures ParseCli(i.Text() + tail)
         == ParseFrom(ModeOf(Some(i.cmd), i.pre + i.mid), FlagsOf(i.pre + i.mid), Tokens(i.items) + tail)
  {
    WordsOfItems(i);
    AllowedDepths(None, i.pre + i.mid);
    TextParts(i, tail);
    if OfPkg(i.cmd) {
      ReachesPkg(i, [CommandWord(i.cmd)] + (Tokens(i.items) + tail));
      hide *;
      SubStarts(i.cmd, START, FlagsOf(i.pre + i.mid), Tokens(i.items) + tail);
      StartIs(i.cmd, i.pre + i.mid);
    } else {
      assert i.pre + i.mid == i.pre;
      hide *;
      FlagsRead(i.pre, [CommandWord(i.cmd)] + (Tokens(i.items) + tail));
      CommandStarts(i.cmd, FlagsOf(i.pre), Tokens(i.items) + tail);
      StartIs(i.cmd, i.pre + i.mid);
    }
  }

  lemma StartIs(cmd: Cmd, xs: seq<Item>)
    requires LocalsOf(xs) == START
    ensures ModeOf(Some(cmd), xs) == In(cmd, START)
  {
  }

  lemma ReachesPkg(i: Invocation, rest: seq<string>)
    requires i.Valid()
    ensures DepthsFit(i.pre + i.mid)
    ensures ParseCli(Tokens(i.pre) + (["pkg"] + (Tokens(i.mid) + rest)))
         == ParseFrom(In(CPkg, START), FlagsOf(i.pre + i.mid), rest)
  {
    WordsOfItems(i);
    AllowedDepths(None, i.pre + i.mid);
    GlobalsOnly(i.pre);
    GlobalsInside(CPkg, i.mid);
    WordOfPkg();
    hide *;
    FlagsRead(i.pre, ["pkg"] + (Tokens(i.mid) + rest));
    CommandStarts(CPkg, FlagsOf(i.pre), Tokens(i.mid) + rest);
    RoomForGlobals(CPkg, i.pre + i.mid);
    ItemsRead(Some(CPkg), i.pre, i.mid, rest);
    StartIs(CPkg, i.pre);
    StartIs(CPkg, i.pre + i.mid);
  }

  lemma WordOfPkg()
    ensures CommandWord(CPkg) == "pkg" && !OfPkg(CPkg)
  {
  }

  lemma RoomForGlobals(cmd: Cmd, xs: seq<Item>)
    requires LocalsOf(xs) == START
    ensures Room(Some(cmd), xs)
  {
    PositionalsAreWords(xs);
  }

  /** Flags before a subcommand. */
  lemma FlagsRead(pre: seq<Item>, tail: seq<string>)
    requires AllAllowed(None, pre)
    ensures DepthsFit(pre) && ParseCli(Tokens(pre) + tail) == ParseFrom(Top, FlagsOf(pre), tail)
  {
    hide Tokens, ParseFrom, AllAllowed;
    ItemsRead(None, [], pre, tail);
    NothingAndMore(pre);
    assert FlagsOf([]) == DEFAULTS;
  }

  /** The parse of an invocation goes on, with everything said so far, from whatever follows. */
  lemma InvocationReads(i: Invocation, tail: seq<string>)
    requires i.Valid() && Room(Some(i.cmd), i.Everything())
    ensures DepthsFit(i.Everything())
    ensures ParseCli(i.Text() + tail) == ParseFrom(ModeOf(Some(i.cmd), i.Everything()), FlagsOf(i.Everything()), tail)
  {
    hide Tokens, ParseFrom, AllAllowed, FlagsOf, ModeOf, Room;
    WordsOfItems(i);
    ReachesCommand(i, tail);
    ItemsRead(Some(i.cmd), i.pre + i.mid, i.items, tail);
  }

  /** What a subcommand does with everything that was said. */
  function Meant(cmd: Cmd, xs: seq<Item>): Result<Command, ParseError> {
    var ws, output, isa := Words(xs), LastOutput(xs), LastIsa(xs);
    if cmd.CRepl? then Success(Repl)
    else if cmd.CLsp? then Success(Lsp)
    else if cmd.CPkgBuild? then Success(PkgBuild)
    else if cmd.CPkg? || cmd.CRun? || ws == [] || (cmd.CEmit? && |ws| == 1) then Failure(MissingArgument)
    else if cmd.CLink? then Success(Link(ws, output, isa, Said(xs, RunItem)))
    else if (cmd.CEmit? || cmd.CPkgAdd?) && |ws| > 2 then Failure(Unexpected(ws[2]))
    else if cmd.CEmit? then
      if IsaNamed(ws[0]).Some? then Success(Emit(IsaNamed(ws[0]).value, ws[1], output))
      else Failure(InvalidValue("--isa", ws[0]))
    else if cmd.CPkgAdd? then Success(PkgAdd(ws[0], if |ws| == 2 then ws[1] else "*"))
    else if |ws| > 1 then Failure(Unexpected(ws[1]))
    else if cmd.CBuild? then Success(Build(ws[0], output, Linux, isa))
    else if cmd.CCompile? then
      Success(Compile(ws[0], output, if isa.Some? then isa.value else Aarch64, LastFormat(xs)))
    else if cmd.CDisasm? then Success(Disasm(ws[0], if isa.Some? then isa.value else Aarch64, LastBase(xs)))
    else if cmd.CVerify? then Success(Verify(ws[0]))
    else if cmd.CPkgInit? then Success(PkgInit(ws[0]))
    else Success(Check(ws[0]))
  }

  lemma FinishMeant(cmd: Cmd, xs: seq<Item>, f: Flags)
    requires Room(Some(cmd), xs)
    ensures Finish(In(cmd, LocalsOf(xs)), f)
         == match Meant(cmd, xs) case Success(c) => Accepted(f, Some(c)) case Failure(e) => Rejected(e)
  {
    hide Words, LastOutput, LastIsa, LastFormat, LastBase, Said, IsaNamed;
  }

  /**
   Every invocation, with its flags and options in any order and either spelling, is parsed as what was said: each
   flag that was said is on and no other, of repeated options the last one counts, and the words are kept in order.
   */
  lemma CommandReads(i: Invocation)
    requires i.Valid()
    ensures DepthsFit(i.Everything())
    ensures ParseCli(i.Text()) == match Meant(i.cmd, i.Everything())
                                  case Success(c) => Accepted(FlagsOf(i.Everything()), Some(c))
                                  case Failure(e) => Rejected(e)
  {
    hide Words, LocalsOf, FlagsOf, ParseFrom, Finish, IsaNamed, LastOutput, LastIsa, LastFormat, LastBase, Said;
    hide Tokens, DepthsFit, Fitting, Allowed, AllAllowed;
    WordsOfItems(i);
    var all := i.Everything();
    assert i.Text() + [] == i.Text();
    if Room(Some(i.cmd), all) {
      InvocationReads(i, []);
      FinishMeant(i.cmd, all, FlagsOf(all));
      AtEnd(ModeOf(Some(i.cmd), all), FlagsOf(all));
    } else {
      ReachesCommand(i, []);
      PositionalsAreWords(i.pre + i.mid);
      SecondWord(i.cmd, i.pre + i.mid, i.items, []);
      NoRoom(i);
    }
  }

  lemma AtEnd(mode: Mode, flags: Flags)
    ensures ParseFrom(mode, flags, []) == Finish(mode, flags)
  {
    hide Finish;
  }

  lemma NoRoom(i: Invocation)
    requires i.Valid() && !Room(Some(i.cmd), i.Everything())
    ensures |Words(i.Everything())| > 1 && Meant(i.cmd, i.Everything()) == Failure(Unexpected(Words(i.Everything())[1]))
  {
    WordsOfItems(i);
    hide LastOutput, LastIsa, LastFormat, LastBase, Said, FlagsOf, LocalsOf, DepthsFit;
    if i.cmd.CRun? || i.cmd.CPkg? || i.cmd.CRepl? || i.cmd.CLsp? || i.cmd.CPkgBuild? {
      NoWords(i.cmd, i.items);
    }
  }

  lemma {:induction false} NoWords(cmd: Cmd, xs: seq<Item>)
    requires AllAllowed(Some(cmd), xs) && (cmd.CRun? || cmd.CPkg? || cmd.CRepl? || cmd.CLsp? || cmd.CPkgBuild?)
    ensures Words(xs) == []
  {
    if xs != [] {
      var init, x := xs[..|xs| - 1], xs[|xs| - 1];
      assert init + [x] == xs && Allowed(Some(cmd), x);
      NoWords(cmd, init);
      WordsSnoc(init, x);
    }
  }

  /** Without a subcommand only the flags are kept. */
  lemma FlagsAlone(pre: seq<Item>)
    requires AllAllowed(None, pre)
    ensures DepthsFit(pre) && ParseCli(Tokens(pre)) == Accepted(FlagsOf(pre), None)
  {
    hide Tokens, AllAllowed, FlagsOf, ParseFrom;
    FlagsRead(pre, []);
    assert Tokens(pre) + [] == Tokens(pre);
    AtEnd(Top, FlagsOf(pre));
  }

  /** `run` takes its options before the file and keeps everything after the file, whatever it looks like. */
  lemma RunReads(pre: seq<Item>, items: seq<Item>, file: string, args: seq<string>)
    requires AllAllowed(None, pre) && AllAllowed(Some(CRun), items) && Undashed(file)
    ensures DepthsFit(pre + items)
    ensures ParseCli(Tokens(pre) + (["run"] + Tokens(items)) + ([file] + args))
         == Accepted(FlagsOf(pre + items), Some(Run(LastIsa(pre + items), file, args)))
  {
    var i := Invocation(pre, CRun, [], items);
    NoWords(CRun, items);
    assert AllAllowed(None, []);
    hide Tokens, ParseFrom, LocalsOf, FlagsOf, AllAllowed, LastIsa, Words, DepthsFit, Undashed;
    assert i.Everything() == pre + items by { assert pre + [] == pre; }
    assert i.Text() == Tokens(pre) + (["run"] + Tokens(items));
    WordsOfItems(i);
    InvocationReads(i, [file] + args);
    FileReads(pre + items, file, args, FlagsOf(pre + items));
  }

  lemma FileReads(xs: seq<Item>, file: string, args: seq<string>, f: Flags)
    requires !Dashed(file)
    ensures ParseFrom(In(CRun, LocalsOf(xs)), f, [file] + args) == Accepted(f, Some(Run(LastIsa(xs), file, args)))
  {
    WordNotGlobal(file);
    WordNotHelp(file);
    hide GlobalShape, LocalShape, WithOption, Dashed, PkgNamed;
    var l := LocalsOf(xs);
    assert ([file] + args)[0] == file;
    WordNoOption(CRun, file);
    assert OneTurn(In(CRun, l), [file] + args) == Local(Trailing(l.isa, file, []), 1);
    TurnReads(In(CRun, l), f, [file], args);
    TrailingRest(Trailing(l.isa, file, []), f, args);
  }

  lemma WordNotHelp(text: string)
    requires !Dashed(text)
    ensures text != "--help" && text != "-h" && text != "--version" && text != "-V"
  {
  }

  lemma WordNoOption(cmd: Cmd, text: string)
    requires !Dashed(text)
    ensures LocalShape(cmd, text) == NoOption
  {
  }
}
