/**
 The HMAC_DRBG generator of section 10.1.2 of NIST SP 800-90A Rev. 1, over any HMAC with a 32-byte result.
 */
module HmacDrbg {
  import opened Common

  const OUT_LEN := 32
  const RESEED_LIMIT := 0x1_0000_0000

  /** What HMAC-SHA-256 returns, and so the shape of K and V. */
  type Block = s: seq<byte> | |s| == OUT_LEN witness Filled(0)

  type Hmac = (seq<byte>, seq<byte>) -> Block

  function Filled(b: byte): (s: seq<byte>)
    ensures |s| == OUT_LEN && forall i :: 0 <= i < |s| ==> s[i] == b
  {
    seq(OUT_LEN, _ => b)
  }

  datatype State = State(key: Block, v: Block, counter: nat)

  // ---------------------------------------------------------------- one operation

  function OneRound(hmac: Hmac, s: State, tag: byte, data: seq<byte>): State {
    var key := hmac(s.key, s.v + [tag] + data);
    State(key, hmac(key, s.v), s.counter)
  }

  function Updated(hmac: Hmac, s: State, data: seq<byte>): State {
    var once := OneRound(hmac, s, 0, data);
    if data == [] then once else OneRound(hmac, once, 1, data)
  }

  /** V after n turns of the output loop. */
  function Turned(hmac: Hmac, s: State, n: nat): Block {
    if n == 0 then s.v else hmac(s.key, Turned(hmac, s, n - 1))
  }

  /** The concatenation of the first n blocks after V. */
  function Output(hmac: Hmac, s: State, n: nat): (r: seq<byte>)
    ensures |r| == OUT_LEN * n
  {
    if n == 0 then [] else Output(hmac, s, n - 1) + Turned(hmac, s, n)
  }

  /** How many turns a request takes. */
  function Blocks(numBytes: int): (n: nat)
    ensures numBytes <= 0 ==> n == 0
    ensures numBytes > 0 ==> OUT_LEN * (n - 1) < numBytes <= OUT_LEN * n
  {
    if numBytes <= 0 then 0 else (numBytes + OUT_LEN - 1) / OUT_LEN
  }

  /** The state the output loop starts from. */
  function Primed(hmac: Hmac, s: State, extra: seq<byte>): State {
    if extra == [] then s else Updated(hmac, s, extra)
  }

  function AfterTurns(hmac: Hmac, s: State, n: nat): State {
    s.(v := Turned(hmac, s, n))
  }

  datatype Op =
    | Update(data: seq<byte>)
    | Instantiate(entropy: seq<byte>, nonce: seq<byte>, personalization: seq<byte>)
    | Reseed(entropy: seq<byte>)
    | Generate(numBytes: int, extra: seq<byte>)

  function Next(hmac: Hmac, s: State, op: Op): State {
    match op
    case Update(data) => Updated(hmac, s, data)
    case Instantiate(e, n, p) => Updated(hmac, State(Filled(0), Filled(1), 0), e + n + p).(counter := 1)
    case Reseed(e) => Updated(hmac, s, e).(counter := 1)
    case Generate(numBytes, extra) =>
      if s.counter > RESEED_LIMIT then s
      else Updated(hmac, AfterTurns(hmac, Primed(hmac, s, extra), Blocks(numBytes)), extra).(counter := s.counter + 1)
  }

  /** What a request returns. */
  function Answer(hmac: Hmac, s: State, numBytes: int, extra: seq<byte>): Option<seq<byte>> {
    if s.counter > RESEED_LIMIT then None
    else Some(Output(hmac, Primed(hmac, s, extra), Blocks(numBytes))[..if numBytes <= 0 then 0 else numBytes])
  }

  // ---------------------------------------------------------------- the class

  class Drbg {
    const hmac: Hmac
    var key: Block
    var v: Block
    var reseedCounter: nat

    constructor (hmac: Hmac)
      ensures this.hmac == hmac && Value() == State(Filled(0), Filled(1), 0)
    {
      this.hmac := hmac;
      key, v, reseedCounter := Filled(0), Filled(1), 0;
    }

    function Value(): State
      reads this
    {
      State(key, v, reseedCounter)
    }

    /** Section 10.1.2.2: the tag is 0 in the first round, and 1 in the second, which takes place only when there is data. */
    method Update(providedData: seq<byte>)
      modifies this
      ensures Value() == Updated(hmac, old(Value()), providedData)
      ensures reseedCounter == old(reseedCounter)
      ensures var k0 := hmac(old(key), old(v) + [0] + providedData);
              var v0 := hmac(k0, old(v));
              var k1 := hmac(k0, v0 + [1] + providedData);
              if providedData == [] then key == k0 && v == v0 else key == k1 && v == hmac(k1, v0)
    {
      key := hmac(key, v + [0] + providedData);
      v := hmac(key, v);
      if providedData != [] {
        key := hmac(key, v + [1] + providedData);
        v := hmac(key, v);
      }
    }

    method Instantiate(entropy: seq<byte>, nonce: seq<byte>, personalization: seq<byte>)
      modifies this
      ensures Value() == Next(hmac, old(Value()), Op.Instantiate(entropy, nonce, personalization))
      ensures reseedCounter == 1
    {
      hide OneRound;
      var seedMaterial := entropy + nonce + personalization;
      key := Filled(0);
      v := Filled(1);
      UpdateKeepsCounter(hmac, Value(), State(key, v, 0), seedMaterial);
      Update(seedMaterial);
      reseedCounter := 1;
    }

    method Reseed(entropy: seq<byte>)
      modifies this
      ensures Value() == Next(hmac, old(Value()), Op.Reseed(entropy))
      ensures reseedCounter == 1 && Value() == Updated(hmac, old(Value()), entropy).(counter := 1)
    {
      Update(entropy);
      reseedCounter := 1;
    }

    method Generate(numBytes: int, additionalInput: seq<byte>) returns (out: Option<seq<byte>>)
      modifies this
      ensures out == Answer(hmac, old(Value()), numBytes, additionalInput)
      ensures Value() == Next(hmac, old(Value()), Op.Generate(numBytes, additionalInput))
      ensures out.None? <==> old(reseedCounter) > 0x1_0000_0000
      ensures out.None? ==> Value() == old(Value())
      ensures out.Some? ==> reseedCounter == old(reseedCounter) + 1 && |out.value| == if numBytes <= 0 then 0 else numBytes
    {
      hide Updated, Filled;
      if reseedCounter > RESEED_LIMIT {
        return None;
      }
      ghost var before := Value();
      if additionalInput != [] {
        Update(additionalInput);
        UpdateKeepsCounter(hmac, before, before, additionalInput);
      }
      ghost var primed := Value();
      ghost var n: nat := 0;
      var temp: seq<byte> := [];
      while |temp| < numBytes
        invariant |temp| == OUT_LEN * n && (n > 0 ==> OUT_LEN * (n - 1) < numBytes)
        invariant temp == Output(hmac, primed, n)
        invariant Value() == AfterTurns(hmac, primed, n)
        decreases numBytes - |temp|
      {
        v := hmac(key, v);
        temp := temp + v;
        n := n + 1;
      }
      TurnsExact(numBytes, n);
      UpdateKeepsCounter(hmac, Value(), Value(), additionalInput);
      Update(additionalInput);
      reseedCounter := reseedCounter + 1;
      out := Some(temp[..if numBytes <= 0 then 0 else numBytes]);
    }
  }

  /** `update` never looks at the counter and never changes it. */
  lemma UpdateKeepsCounter(hmac: Hmac, s: State, t: State, data: seq<byte>)
    requires s.key == t.key && s.v == t.v
    ensures Updated(hmac, s, data).counter == s.counter
    ensures Updated(hmac, t, data) == Updated(hmac, s, data).(counter := t.counter)
  {
  }

  lemma TurnsExact(numBytes: int, n: nat)
    requires numBytes <= OUT_LEN * n && (n > 0 ==> OUT_LEN * (n - 1) < numBytes)
    ensures n == Blocks(numBytes)
  {
  }

  // ---------------------------------------------------------------- requests

  /** The i-th byte of any output is the (i mod 32)-th byte of V turned i/32 + 1 times. */
  lemma {:induction false} OutputAt(hmac: Hmac, s: State, n: nat, i: nat)
    requires i < OUT_LEN * n
    ensures Output(hmac, s, n)[i] == Turned(hmac, s, i / OUT_LEN + 1)[i % OUT_LEN]
  {
    if i < OUT_LEN * (n - 1) {
      OutputAt(hmac, s, n - 1, i);
    } else {
      assert i / OUT_LEN == n - 1;
    }
  }

  lemma {:induction false} OutputPrefix(hmac: Hmac, s: State, m: nat, n: nat)
    requires m <= n
    ensures Output(hmac, s, m) <= Output(hmac, s, n)
    decreases n
  {
    if m < n {
      OutputPrefix(hmac, s, m, n - 1);
    }
  }

  lemma BlocksGrow(a: int, b: int)
    requires a <= b
    ensures Blocks(a) <= Blocks(b)
  {
  }

  /** The HMAC of the HMAC of ... of `v`, `n` times over, with one key. */
  function Chained(hmac: Hmac, key: Block, v: Block, n: nat): Block {
    if n == 0 then v else hmac(key, Chained(hmac, key, v, n - 1))
  }

  lemma {:induction false} TurnedIsChained(hmac: Hmac, s: State, n: nat)
    ensures Turned(hmac, s, n) == Chained(hmac, s.key, s.v, n)
  {
    if n > 0 {
      TurnedIsChained(hmac, s, n - 1);
    }
  }

  /**
   A request is answered with exactly the bytes asked for: byte i is byte i mod 32 of V chained i / 32 + 1 times, where K and V
   are updated first when there is additional input.
   */
  lemma AnswerBytes(hmac: Hmac, s: State, numBytes: int, extra: seq<byte>)
    requires s.counter <= 0x1_0000_0000
    ensures Answer(hmac, s, numBytes, extra).Some?
    ensures var out := Answer(hmac, s, numBytes, extra).value;
            var t := if extra == [] then s else Updated(hmac, s, extra);
            && |out| == (if numBytes <= 0 then 0 else numBytes)
            && forall i :: 0 <= i < |out| ==> out[i] == Chained(hmac, t.key, t.v, i / 32 + 1)[i % 32]
  {
    var t := Primed(hmac, s, extra);
    assert t == if extra == [] then s else Updated(hmac, s, extra);
    hide Primed, Turned, Output, Updated, Chained;
    var out := Answer(hmac, s, numBytes, extra).value;
    forall i | 0 <= i < |out| ensures out[i] == Chained(hmac, t.key, t.v, i / 32 + 1)[i % 32] {
      OutputAt(hmac, t, Blocks(numBytes), i);
      TurnedIsChained(hmac, t, i / 32 + 1);
    }
  }

  /** What an answered request leaves: V chained once for every 32 bytes begun, updated with the additional input. */
  lemma StateAfterRequest(hmac: Hmac, s: State, numBytes: int, extra: seq<byte>, n: nat)
    requires s.counter <= 0x1_0000_0000
    requires if numBytes <= 0 then n == 0 else 32 * (n as int - 1) < numBytes <= 32 * n
    ensures var t := if extra == [] then s else Updated(hmac, s, extra);
            Next(hmac, s, Generate(numBytes, extra))
            == Updated(hmac, State(t.key, Chained(hmac, t.key, t.v, n), s.counter), extra).(counter := s.counter + 1)
  {
    var t := Primed(hmac, s, extra);
    assert n == Blocks(numBytes);
    TurnedIsChained(hmac, t, n);
    UpdateKeepsCounter(hmac, AfterTurns(hmac, t, n), State(t.key, Chained(hmac, t.key, t.v, n), s.counter), extra);
    hide Updated, Turned, Chained;
  }

  /** Instantiation starts from 32 zero bytes and 32 one bytes. */
  lemma SeededFrom(hmac: Hmac, s: State, entropy: seq<byte>, nonce: seq<byte>, personalization: seq<byte>,
                   zeros: Block, ones: Block)
    requires forall i :: 0 <= i < 32 ==> zeros[i] == 0 && ones[i] == 1
    ensures Next(hmac, s, Instantiate(entropy, nonce, personalization))
         == Updated(hmac, State(zeros, ones, 0), entropy + nonce + personalization).(counter := 1)
    ensures INITIAL == State(zeros, ones, 0)
  {
    assert zeros == Filled(0) && ones == Filled(1);
    hide Updated;
  }

  /** From equal states and equal additional input, a shorter request is answered with a prefix of a longer one's answer. */
  lemma ShorterIsPrefix(hmac: Hmac, s: State, a: int, b: int, extra: seq<byte>)
    requires s.counter <= RESEED_LIMIT && a <= b
    ensures Answer(hmac, s, a, extra).value <= Answer(hmac, s, b, extra).value
  {
    hide Primed, Turned, Output;
    BlocksGrow(a, b);
    OutputPrefix(hmac, Primed(hmac, s, extra), Blocks(a), Blocks(b));
  }

  /** What a request leaves behind depends on its length only through the number of blocks. */
  lemma SameBlocksSameState(hmac: Hmac, s: State, a: int, b: int, extra: seq<byte>)
    requires Blocks(a) == Blocks(b)
    ensures Next(hmac, s, Generate(a, extra)) == Next(hmac, s, Generate(b, extra))
    ensures Answer(hmac, s, a, extra).Some? <==> Answer(hmac, s, b, extra).Some?
  {
  }

  // ---------------------------------------------------------------- runs

  const INITIAL := State(Filled(0), Filled(1), 0)

  function Run(hmac: Hmac, ops: seq<Op>): State
    decreases |ops|
  {
    if ops == [] then INITIAL else Next(hmac, Run(hmac, ops[..|ops| - 1]), ops[|ops| - 1])
  }

  /** Whether the generator was ever seeded. */
  predicate Seeded(ops: seq<Op>) {
    exists i :: 0 <= i < |ops| && (ops[i].Instantiate? || ops[i].Reseed?)
  }

  /** The requests made since the last seeding, answered or not. */
  function Requests(ops: seq<Op>): nat
    decreases |ops|
  {
    if ops == [] then 0
    else
      match ops[|ops| - 1]
      case Update(_) => Requests(ops[..|ops| - 1])
      case Generate(_, _) => Requests(ops[..|ops| - 1]) + 1
      case _ => 0
  }

  /** The requests answered since the last seeding. */
  function Answered(hmac: Hmac, ops: seq<Op>): nat
    decreases |ops|
  {
    if ops == [] then 0
    else
      var init := ops[..|ops| - 1];
      match ops[|ops| - 1]
      case Update(_) => Answered(hmac, init)
      case Generate(n, extra) => Answered(hmac, init) + if Answer(hmac, Run(hmac, init), n, extra).Some? then 1 else 0
      case _ => 0
  }

  lemma NeverSeeded()
    ensures !Seeded([])
  {
  }

  lemma SeededStep(ops: seq<Op>)
    requires ops != []
    ensures var last := ops[|ops| - 1];
            Seeded(ops) <==> last.Instantiate? || last.Reseed? || Seeded(ops[..|ops| - 1])
  {
    var init := ops[..|ops| - 1];
    var last := ops[|ops| - 1];
    if Seeded(init) {
      var i :| 0 <= i < |init| && (init[i].Instantiate? || init[i].Reseed?);
      assert ops[i] == init[i];
    }
    if Seeded(ops) && !(last.Instantiate? || last.Reseed?) {
      var i :| 0 <= i < |ops| && (ops[i].Instantiate? || ops[i].Reseed?);
      assert init[i] == ops[i];
    }
  }

  /** The counter after one operation. */
  lemma CounterStep(hmac: Hmac, s: State, op: Op)
    ensures Next(hmac, s, op).counter ==
            match op
            case Update(_) => s.counter
            case Generate(_, _) => if s.counter > RESEED_LIMIT then s.counter else s.counter + 1
            case _ => 1
  {
    hide OneRound, Turned, Primed;
    match op
    case Update(data) => UpdateKeepsCounter(hmac, s, s, data);
    case _ =>
  }

  /**
   Over every run: once seeded, the counter is one plus the requests answered since the last seeding, and those are all the
   requests made until 2^32 of them; every later one is refused. An unseeded generator starts at zero instead, so it answers
   requests too, one more than a seeded one.
   */
  lemma {:induction false} CounterInRun(hmac: Hmac, ops: seq<Op>)
    ensures var start := if Seeded(ops) then 1 else 0;
            && Run(hmac, ops).counter == start + Answered(hmac, ops)
            && Answered(hmac, ops) == Min(Requests(ops), 0x1_0000_0001 - start)
    decreases |ops|
  {
    hide Next, Seeded, Updated, Answer, Filled;
    if ops == [] {
      NeverSeeded();
    } else {
      var init := ops[..|ops| - 1];
      var last := ops[|ops| - 1];
      CounterInRun(hmac, init);
      SeededStep(ops);
      CounterStep(hmac, Run(hmac, init), last);
      if last.Generate? {
        AnsweredExactly(hmac, Run(hmac, init), last.numBytes, last.extra);
      }
    }
  }

  lemma AnsweredExactly(hmac: Hmac, s: State, numBytes: int, extra: seq<byte>)
    ensures Answer(hmac, s, numBytes, extra).Some? <==> s.counter <= RESEED_LIMIT
  {
  }

  /** A request in a run is refused exactly when the limit is used up, and then nothing changes. */
  lemma RefusalInRun(hmac: Hmac, ops: seq<Op>, numBytes: int, extra: seq<byte>)
    ensures Answer(hmac, Run(hmac, ops), numBytes, extra) == None
       <==> Requests(ops) >= (if Seeded(ops) then 0x1_0000_0000 else 0x1_0000_0001)
    ensures Answer(hmac, Run(hmac, ops), numBytes, extra) == None
       ==> Run(hmac, ops + [Generate(numBytes, extra)]) == Run(hmac, ops)
  {
    hide Seeded, Updated;
    CounterInRun(hmac, ops);
    var more := ops + [Generate(numBytes, extra)];
    assert more[..|more| - 1] == ops;
  }

  lemma InstantiateFixesState(hmac: Hmac, s: State, t: State, seed: Op)
    requires seed.Instantiate?
    ensures Next(hmac, s, seed) == Next(hmac, t, seed)
  {
  }

  /** After an instantiation nothing that came before can be told apart any more. */
  lemma {:induction false} InstantiateForgets(hmac: Hmac, before: seq<Op>, other: seq<Op>, seed: Op, after: seq<Op>)
    requires seed.Instantiate?
    ensures Run(hmac, before + [seed] + after) == Run(hmac, other + [seed] + after)
    decreases |after|
  {
    hide Next, Updated;
    var a, b := before + [seed] + after, other + [seed] + after;
    if after == [] {
      assert a[..|a| - 1] == before && b[..|b| - 1] == other;
      InstantiateFixesState(hmac, Run(hmac, before), Run(hmac, other), seed);
    } else {
      var init := after[..|after| - 1];
      InstantiateForgets(hmac, before, other, seed, init);
      assert a[..|a| - 1] == before + [seed] + init && b[..|b| - 1] == other + [seed] + init;
    }
  }
}
