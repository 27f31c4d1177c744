/**
 Gas accounting of state_transition.go, gaspool.go and state_processor.go. The virtual
 machine is a parameter: it never returns more gas than it got and never changes the
 sum of balances. Compare section 6.2 of the Ethereum Yellow Paper.
 */
module Gas {
  type Addr = nat

  const MAX_UINT64: nat := 0xFFFF_FFFF_FFFF_FFFF
  const TX_GAS: nat := 21000
  const TX_GAS_CONTRACT_CREATION: nat := 53000
  const TX_DATA_ZERO_GAS: nat := 4
  const TX_DATA_NON_ZERO_GAS: nat := 68

  type uint64 = n: nat | n <= MAX_UINT64

  datatype Error = NonceTooHigh | NonceTooLow | InsufficientBalanceForGas | GasLimitReached | OutOfGas
    | InsufficientBalance

  datatype Result<T> = Ok(value: T) | Err(error: Error)

  // ------------------------------------------------------------- intrinsic gas

  ghost function NonZero(data: seq<bv8>): nat {
    if data == [] then 0 else NonZero(data[..|data| - 1]) + if data[|data| - 1] != 0 then 1 else 0
  }

  /** The intrinsic gas as a formula without bounds. */
  ghost function Intrinsic(data: seq<bv8>, contractCreation: bool, homestead: bool): nat {
    (if contractCreation && homestead then TX_GAS_CONTRACT_CREATION else TX_GAS)
    + TX_DATA_NON_ZERO_GAS * NonZero(data) + TX_DATA_ZERO_GAS * (|data| - NonZero(data))
  }

  lemma {:induction false} NonZeroBound(data: seq<bv8>)
    ensures NonZero(data) <= |data|
  {
    if data != [] { NonZeroBound(data[..|data| - 1]); }
  }

  /** IntrinsicGas succeeds exactly when the formula fits into 64 bits, and then returns it. */
  method IntrinsicGas(data: seq<bv8>, contractCreation: bool, homestead: bool) returns (r: Result<uint64>)
    ensures r == if Intrinsic(data, contractCreation, homestead) <= MAX_UINT64
      then Ok(Intrinsic(data, contractCreation, homestead)) else Err(OutOfGas)
  {
    var gas: uint64 := if contractCreation && homestead then TX_GAS_CONTRACT_CREATION else TX_GAS;
    NonZeroBound(data);
    if |data| > 0 {
      var nz: nat := 0;
      for i := 0 to |data|
        invariant nz == NonZero(data[..i])
      {
        assert data[..i + 1][..i] == data[..i];
        if data[i] != 0 { nz := nz + 1; }
      }
      assert data[..|data|] == data;
      if (MAX_UINT64 - gas) / TX_DATA_NON_ZERO_GAS < nz { return Err(OutOfGas); }
      gas := gas + nz * TX_DATA_NON_ZERO_GAS;
      var z := |data| - nz;
      if (MAX_UINT64 - gas) / TX_DATA_ZERO_GAS < z { return Err(OutOfGas); }
      gas := gas + z * TX_DATA_ZERO_GAS;
    }
    r := Ok(gas);
  }

  // ------------------------------------------------------------------ balances

  type Balances = map<Addr, nat>

  ghost function BalanceOf(b: Balances, a: Addr): nat { if a in b then b[a] else 0 }

  ghost function AddBalance(b: Balances, a: Addr, amount: nat): Balances { b[a := BalanceOf(b, a) + amount] }

  ghost function SubBalance(b: Balances, a: Addr, amount: nat): Balances
    requires amount <= BalanceOf(b, a)
  {
    b[a := BalanceOf(b, a) - amount]
  }

  ghost function Sum(keys: set<Addr>, b: Balances): nat {
    if keys == {} then 0 else var a :| a in keys; BalanceOf(b, a) + Sum(keys - {a}, b)
  }

  /** The sum of all balances. */
  ghost function Total(b: Balances): nat { Sum(b.Keys, b) }

  lemma {:induction false} SumPull(keys: set<Addr>, b: Balances, a: Addr)
    requires a in keys
    ensures Sum(keys, b) == BalanceOf(b, a) + Sum(keys - {a}, b)
    decreases |keys|
  {
    var c :| c in keys && Sum(keys, b) == BalanceOf(b, c) + Sum(keys - {c}, b);
    if c != a {
      SumPull(keys - {c}, b, a);
      SumPull(keys - {a}, b, c);
      assert keys - {c} - {a} == keys - {a} - {c};
    }
  }

  lemma {:induction false} SumSame(keys: set<Addr>, b: Balances, b': Balances)
    requires forall a :: a in keys ==> BalanceOf(b', a) == BalanceOf(b, a)
    ensures Sum(keys, b') == Sum(keys, b)
    decreases |keys|
  {
    if keys != {} {
      var a :| a in keys;
      SumPull(keys, b, a);
      SumPull(keys, b', a);
      SumSame(keys - {a}, b, b');
    }
  }

  lemma TotalSet(b: Balances, a: Addr, amount: nat)
    ensures Total(b[a := amount]) == Total(b) - BalanceOf(b, a) + amount
  {
    var b' := b[a := amount];
    SumPull(b'.Keys, b', a);
    SumSame(b'.Keys - {a}, b, b');
    if a in b {
      SumPull(b.Keys, b, a);
      assert b'.Keys == b.Keys;
    } else {
      assert b'.Keys - {a} == b.Keys;
    }
  }

  // ----------------------------------------------------------------- gas pool

  class GasPool {
    var gas: uint64

    constructor ()
      ensures gas == 0
    {
      gas := 0;
    }

    /** AddGas; it panics if the pool would overflow. */
    method AddGas(amount: uint64) returns (panics: bool)
      modifies this
      ensures panics == (old(gas) + amount > MAX_UINT64)
      ensures gas == if panics then old(gas) else old(gas) + amount
    {
      if gas > MAX_UINT64 - amount { return true; }
      gas := gas + amount;
      panics := false;
    }

    method SubGas(amount: uint64) returns (r: Result<()>)
      modifies this
      ensures r == if old(gas) < amount then Err(GasLimitReached) else Ok(())
      ensures gas == if r.Ok? then old(gas) - amount else old(gas)
    {
      if gas < amount { return Err(GasLimitReached); }
      gas := gas - amount;
      r := Ok(());
    }
  }

  // ---------------------------------------------------------- state transition

  datatype Message = Message(from: Addr, create: bool, gas: uint64, gasPrice: nat, nonce: nat, checkNonce: bool,
    data: seq<bv8>, value: nat)

  /** How a call or creation ended; a transfer that the sender cannot afford is the one consensus error. */
  datatype Ending = Success | Failure | NoFunds

  /** What a call or creation leaves behind. */
  datatype Outcome = Outcome(left: nat, balances: Balances, nonces: map<Addr, nat>, refund: nat, ending: Ending)

  type Machine = (Message, nat, Balances, map<Addr, nat>) -> Outcome

  /** The machine does not make gas or ether. */
  ghost predicate Sound(evm: Machine) {
    forall msg, gas, b, nonces :: var o := evm(msg, gas, b, nonces); o.left <= gas && Total(o.balances) == Total(b)
  }

  /** The accounts of the state. */
  class StateDb {
    var balances: Balances
    var nonces: map<Addr, nat>

    ghost function Now(): World
      reads this
    {
      World(balances, nonces)
    }

    /** An account that was never touched has nothing. */
    method GetBalance(a: Addr) returns (amount: nat)
      ensures amount == BalanceOf(balances, a)
    {
      amount := if a in balances then balances[a] else 0;
    }

    method GetNonce(a: Addr) returns (nonce: nat)
      ensures nonce == NonceOf(nonces, a)
    {
      nonce := if a in nonces then nonces[a] else 0;
    }
  }

  datatype World = World(balances: Balances, nonces: map<Addr, nat>)

  ghost function NonceOf(nonces: map<Addr, nat>, a: Addr): nat { if a in nonces then nonces[a] else 0 }

  ghost function Least(a: nat, b: nat): nat { if a < b then a else b }

  /** The gas a message pays for: what it used, less the refund, which is at most half of it. */
  ghost function Paid(msg: Message, o: Outcome): nat
    requires o.left <= msg.gas
  {
    msg.gas - o.left - Least((msg.gas - o.left) / 2, o.refund)
  }

  ghost function Fee(gas: nat, gasPrice: nat): nat { gas * gasPrice }

  /**
   The balances after a message: the rest of the gas is paid back, and the coinbase gets the price of what was
   paid for.
   */
  ghost function Settled(msg: Message, o: Outcome, coinbase: Addr): Balances
    requires o.left <= msg.gas
  {
    AddBalance(AddBalance(o.balances, msg.from, Fee(msg.gas - Paid(msg, o), msg.gasPrice)), coinbase,
      Fee(Paid(msg, o), msg.gasPrice))
  }

  /** Fees are conserved: what the sender does not get back is what the coinbase gets. */
  lemma SettledTotal(was: Balances, msg: Message, o: Outcome, coinbase: Addr)
    requires Fee(msg.gas, msg.gasPrice) <= BalanceOf(was, msg.from) && o.left <= msg.gas
    requires Total(o.balances) == Total(SubBalance(was, msg.from, Fee(msg.gas, msg.gasPrice)))
    ensures Total(Settled(msg, o, coinbase)) == Total(was)
  {
    var back, paid := Fee(msg.gas - Paid(msg, o), msg.gasPrice), Fee(Paid(msg, o), msg.gasPrice);
    assert back + paid == Fee(msg.gas, msg.gasPrice) by { Split(msg.gas, Paid(msg, o), msg.gasPrice); }
    var refunded := AddBalance(o.balances, msg.from, back);
    TotalSet(was, msg.from, BalanceOf(was, msg.from) - Fee(msg.gas, msg.gasPrice));
    TotalSet(o.balances, msg.from, BalanceOf(o.balances, msg.from) + back);
    TotalSet(refunded, coinbase, BalanceOf(refunded, coinbase) + paid);
  }

  /** Nobody but the sender and the coinbase gets anything at the end, and the price is that of the message. */
  lemma SettledAt(msg: Message, o: Outcome, coinbase: Addr, a: Addr)
    requires o.left <= msg.gas
    ensures BalanceOf(Settled(msg, o, coinbase), a) == BalanceOf(o.balances, a)
      + (if a == msg.from then (msg.gas - Paid(msg, o)) * msg.gasPrice else 0)
      + (if a == coinbase then Paid(msg, o) * msg.gasPrice else 0)
  {
    hide Paid;
  }

  /** The first check that a message fails before any gas is bought. */
  ghost function Refused(msg: Message, nonce: nat, balance: nat, pool: nat): Result<()> {
    if msg.checkNonce && nonce < msg.nonce then Err(NonceTooHigh)
    else if msg.checkNonce && nonce > msg.nonce then Err(NonceTooLow)
    else if balance < Fee(msg.gas, msg.gasPrice) then Err(InsufficientBalanceForGas)
    else if pool < msg.gas then Err(GasLimitReached)
    else Ok(())
  }

  datatype Applied = Applied(usedGas: uint64, failed: bool)

  class StateTransition {
    const gp: GasPool
    const msg: Message
    const state: StateDb
    var gas: uint64
    var initialGas: uint64

    constructor (gp: GasPool, msg: Message, state: StateDb)
      ensures this.gp == gp && this.msg == msg && this.state == state && gas == 0 && initialGas == 0
    {
      this.gp, this.msg, this.state := gp, msg, state;
      gas, initialGas := 0, 0;
    }

    method UseGas(amount: uint64) returns (r: Result<()>)
      modifies this`gas
      ensures r == if old(gas) < amount then Err(OutOfGas) else Ok(())
      ensures gas == if r.Ok? then old(gas) - amount else old(gas)
    {
      if gas < amount { return Err(OutOfGas); }
      gas := gas - amount;
      r := Ok(());
    }

    /** buyGas: the sender pays for all the gas, which leaves the block's pool. */
    method BuyGas() returns (r: Result<()>)
      requires gas == 0
      modifies this, gp, state`balances
      ensures r == Refused(msg.(checkNonce := false), 0, BalanceOf(old(state.balances), msg.from), old(gp.gas))
      ensures r.Err? ==> state.balances == old(state.balances) && gp.gas == old(gp.gas) && gas == 0
      ensures r.Ok? ==>
        && gas == initialGas == msg.gas && gp.gas == old(gp.gas) - msg.gas
        && Fee(msg.gas, msg.gasPrice) <= BalanceOf(old(state.balances), msg.from)
        && state.balances == SubBalance(old(state.balances), msg.from, Fee(msg.gas, msg.gasPrice))
    {
      var mgval := msg.gas * msg.gasPrice;
      var balance := state.GetBalance(msg.from);
      if balance < mgval { return Err(InsufficientBalanceForGas); }
      r := gp.SubGas(msg.gas);
      if r.Err? { return; }
      gas := gas + msg.gas;
      initialGas := msg.gas;
      state.balances := state.balances[msg.from := balance - mgval];
    }

    method PreCheck() returns (r: Result<()>)
      requires gas == 0
      modifies this, gp, state`balances
      ensures r == Refused(msg, NonceOf(state.nonces, msg.from), BalanceOf(old(state.balances), msg.from), old(gp.gas))
      ensures r.Err? ==> state.balances == old(state.balances) && gp.gas == old(gp.gas)
      ensures r.Ok? ==>
        && gas == initialGas == msg.gas && gp.gas == old(gp.gas) - msg.gas
        && Fee(msg.gas, msg.gasPrice) <= BalanceOf(old(state.balances), msg.from)
        && state.balances == SubBalance(old(state.balances), msg.from, Fee(msg.gas, msg.gasPrice))
    {
      if msg.checkNonce {
        var nonce := state.GetNonce(msg.from);
        if nonce < msg.nonce { return Err(NonceTooHigh); }
        if nonce > msg.nonce { return Err(NonceTooLow); }
      }
      r := BuyGas();
    }

    /** refundGas: at most half of the used gas comes back, and what is left is paid back; the pool cannot overflow. */
    method RefundGas(refundCounter: nat)
      requires gas <= initialGas && gp.gas + initialGas <= MAX_UINT64
      modifies this`gas, gp, state`balances
      ensures gas == old(gas) + Least((initialGas - old(gas)) / 2, refundCounter) <= initialGas
      ensures gp.gas == old(gp.gas) + gas
        && state.balances == AddBalance(old(state.balances), msg.from, Fee(gas, msg.gasPrice))
    {
      var refund := (initialGas - gas) / 2;
      if refund > refundCounter { refund := refundCounter; }
      gas := gas + refund;
      var balance := state.GetBalance(msg.from);
      state.balances := state.balances[msg.from := balance + gas * msg.gasPrice];
      var panics := gp.AddGas(gas);
      assert !panics;
    }

    /**
     TransitionDb. A message that is applied pays the coinbase exactly for the gas it took from the pool,
     and the sum of balances stays; errors before gas is bought change nothing.
     */
    method TransitionDb(evm: Machine, coinbase: Addr, homestead: bool) returns (r: Result<Applied>)
      requires Sound(evm) && gas == 0
      modifies this, gp, state
      ensures Step(r, gp.gas, state.Now()) == Transition(evm, msg, coinbase, homestead, old(gp.gas), old(state.Now()))
      ensures r.Ok? ==> Total(state.balances) == Total(old(state.balances)) && gp.gas + r.value.usedGas == old(gp.gas)
    {
      hide Total;
      hide Fee;
      hide Intrinsic;
      hide Sound;
      hide Settled;
      hide Paid;
      ghost var was, pool := state.Now(), gp.gas;
      var pre := PreCheck();
      if pre.Err? { return Err(pre.error); }
      var intrinsic := IntrinsicGas(msg.data, msg.create, homestead);
      if intrinsic.Err? { return Err(intrinsic.error); }
      var use := UseGas(intrinsic.value);
      if use.Err? { return Err(use.error); }
      if !msg.create {
        var nonce := state.GetNonce(msg.from);
        state.nonces := state.nonces[msg.from := nonce + 1];
      }
      var o := evm(msg, gas, state.balances, state.nonces);
      SoundOnce(evm, msg, gas, state.balances, state.nonces);
      assert o == Executed(evm, msg, intrinsic.value, was.balances, was.nonces);
      gas, state.balances, state.nonces := o.left, o.balances, o.nonces;
      if o.ending == NoFunds { return Err(InsufficientBalance); }
      Settle(o, coinbase);
      SettledTotal(was.balances, msg, o, coinbase);
      r := Ok(Applied(initialGas - gas, o.ending == Failure));
    }

    /** The end of TransitionDb: refund, then pay the coinbase. */
    method Settle(o: Outcome, coinbase: Addr)
      requires gas == o.left <= initialGas == msg.gas && gp.gas + initialGas <= MAX_UINT64
        && state.balances == o.balances
      modifies this`gas, gp, state`balances
      ensures gas <= initialGas && initialGas - gas == Paid(msg, o) && gp.gas == old(gp.gas) + gas
      ensures state.balances == Settled(msg, o, coinbase)
    {
      RefundGas(o.refund);
      var balance := state.GetBalance(coinbase);
      var reward := (initialGas - gas) * msg.gasPrice;
      assert reward == Fee(initialGas - gas, msg.gasPrice);
      hide Fee;
      state.balances := state.balances[coinbase := balance + reward];
    }
  }

  /** The machine's part in applying a message. */
  ghost function Executed(evm: Machine, msg: Message, intrinsic: nat, was: Balances, nonces: map<Addr, nat>): Outcome
    requires intrinsic <= msg.gas && Fee(msg.gas, msg.gasPrice) <= BalanceOf(was, msg.from)
  {
    evm(msg, msg.gas - intrinsic, SubBalance(was, msg.from, Fee(msg.gas, msg.gasPrice)),
      if msg.create then nonces else nonces[msg.from := (if msg.from in nonces then nonces[msg.from] else 0) + 1])
  }

  /** How a message ends, and what it leaves of the block's gas and of the state. */
  datatype Step = Step(result: Result<Applied>, pool: nat, world: World)

  /**
   A message: an error before gas is bought changes nothing; one after that keeps all the gas; otherwise the sender
   and the coinbase settle.
   */
  ghost function Transition(evm: Machine, msg: Message, coinbase: Addr, homestead: bool, pool: nat, w: World): Step
    requires Sound(evm)
  {
    var pre := Refused(msg, NonceOf(w.nonces, msg.from), BalanceOf(w.balances, msg.from), pool);
    if pre.Err? then Step(Err(pre.error), pool, w)
    else
      var i := Intrinsic(msg.data, msg.create, homestead);
      if i > msg.gas then
        Step(Err(OutOfGas), pool - msg.gas,
          w.(balances := SubBalance(w.balances, msg.from, Fee(msg.gas, msg.gasPrice))))
      else
        var o := Executed(evm, msg, i, w.balances, w.nonces);
        if o.ending == NoFunds then Step(Err(InsufficientBalance), pool - msg.gas, World(o.balances, o.nonces))
        else
          Step(Ok(Applied(Paid(msg, o), o.ending == Failure)), pool - Paid(msg, o),
            World(Settled(msg, o, coinbase), o.nonces))
  }

  /** A message that is applied: what every account has afterwards. */
  lemma AppliedMeans(evm: Machine, msg: Message, coinbase: Addr, homestead: bool, pool: nat, w: World, a: Addr)
    requires Sound(evm) && Transition(evm, msg, coinbase, homestead, pool, w).result.Ok?
    ensures var i := Intrinsic(msg.data, msg.create, homestead);
      var s := Transition(evm, msg, coinbase, homestead, pool, w); var used := s.result.value.usedGas;
      && i <= msg.gas <= pool && msg.gas * msg.gasPrice <= BalanceOf(w.balances, msg.from)
      && (msg.checkNonce ==> msg.nonce == NonceOf(w.nonces, msg.from))
      && var o := Executed(evm, msg, i, w.balances, w.nonces);
         && i <= msg.gas - o.left && used <= msg.gas - o.left <= 2 * used && s.pool + used == pool
         && BalanceOf(s.world.balances, a) == BalanceOf(o.balances, a)
              + (if a == msg.from then (msg.gas - used) * msg.gasPrice else 0)
              + (if a == coinbase then used * msg.gasPrice else 0)
  {
    hide Intrinsic;
    var i := Intrinsic(msg.data, msg.create, homestead);
    var o := Executed(evm, msg, i, w.balances, w.nonces);
    SettledAt(msg, o, coinbase, a);
    PaidAtLeastHalf(msg, o);
    hide Paid;
    hide Settled;
  }

  lemma SoundOnce(evm: Machine, msg: Message, gas: nat, b: Balances, nonces: map<Addr, nat>)
    requires Sound(evm)
    ensures evm(msg, gas, b, nonces).left <= gas && Total(evm(msg, gas, b, nonces).balances) == Total(b)
  {
  }

  lemma Split(all: nat, part: nat, price: nat)
    requires part <= all
    ensures Fee(all, price) == Fee(all - part, price) + Fee(part, price)
  {
  }

  /** The refund is at most half of the gas used. */
  lemma PaidAtLeastHalf(msg: Message, o: Outcome)
    requires o.left <= msg.gas
    ensures var used := msg.gas - o.left; Paid(msg, o) <= used <= 2 * Paid(msg, o)
  {
  }

  // ------------------------------------------------------------------- blocks

  datatype LogPos = LogPos(txIndex: nat, index: nat)

  datatype Receipt = Receipt(cumulativeGasUsed: uint64, gasUsed: uint64, failed: bool, logs: seq<LogPos>)

  ghost function Used(receipts: seq<Receipt>, n: nat): nat
    requires n <= |receipts|
  {
    if n == 0 then 0 else Used(receipts, n - 1) + receipts[n - 1].gasUsed
  }

  /** Every receipt carries the gas used so far. */
  ghost predicate PrefixSums(receipts: seq<Receipt>) {
    forall j :: 0 <= j < |receipts| ==> receipts[j].cumulativeGasUsed == Used(receipts, j + 1)
  }

  lemma {:induction false} UsedPrefix(receipts: seq<Receipt>, r: Receipt, n: nat)
    requires n <= |receipts|
    ensures Used(receipts + [r], n) == Used(receipts, n)
  {
    if n > 0 { UsedPrefix(receipts, r, n - 1); }
  }

  lemma PrefixNext(receipts: seq<Receipt>, r: Receipt)
    requires PrefixSums(receipts) && r.cumulativeGasUsed == Used(receipts, |receipts|) + r.gasUsed
    ensures PrefixSums(receipts + [r]) && Used(receipts + [r], |receipts| + 1) == r.cumulativeGasUsed
  {
    forall n: nat | n <= |receipts| ensures Used(receipts + [r], n) == Used(receipts, n) { UsedPrefix(receipts, r, n); }
  }

  /** The state between two messages of a block. */
  datatype Progress = Progress(world: World, pool: nat, used: nat, receipts: seq<Receipt>)

  /** The first n messages, one after the other, up to the first that fails. */
  ghost function Folded(evm: Machine, msgs: seq<Message>, coinbase: Addr, homestead: bool, gasLimit: uint64, w: World,
                        n: nat): (r: Result<Progress>)
    requires Sound(evm) && n <= |msgs|
    ensures r.Ok? ==> r.value.pool + r.value.used == gasLimit && |r.value.receipts| == n
  {
    if n == 0 then Ok(Progress(w, gasLimit, 0, []))
    else
      var before := Folded(evm, msgs, coinbase, homestead, gasLimit, w, n - 1);
      if before.Err? then before else Next(evm, msgs[n - 1], coinbase, homestead, before.value)
  }

  ghost function Next(evm: Machine, msg: Message, coinbase: Addr, homestead: bool, p: Progress): (r: Result<Progress>)
    requires Sound(evm) && p.pool + p.used <= MAX_UINT64
    ensures r.Ok? ==> r.value.pool + r.value.used == p.pool + p.used && |r.value.receipts| == |p.receipts| + 1
  {
    var s := Transition(evm, msg, coinbase, homestead, p.pool, p.world);
    if s.result.Err? then Err(s.result.error)
    else
      var done := s.result.value;
      var used := p.used + done.usedGas;
      Ok(Progress(s.world, s.pool, used, p.receipts + [Receipt(used, done.usedGas, done.failed, [])]))
  }

  /** Once a message has failed, the block has. */
  lemma {:induction false} FailsOn(evm: Machine, msgs: seq<Message>, coinbase: Addr, homestead: bool,
                                   gasLimit: uint64, w: World, n: nat, m: nat)
    requires Sound(evm) && n <= m <= |msgs| && Folded(evm, msgs, coinbase, homestead, gasLimit, w, n).Err?
    ensures Folded(evm, msgs, coinbase, homestead, gasLimit, w, m)
      == Folded(evm, msgs, coinbase, homestead, gasLimit, w, n)
  {
    if n < m { FailsOn(evm, msgs, coinbase, homestead, gasLimit, w, n, m - 1); }
  }

  /**
   The loop of Process. As long as no message fails, the gas in the pool and the gas used add up to the
   block's limit after each of them, receipts carry prefix sums, and the sum of balances stays.
   */
  method Process(msgs: seq<Message>, state: StateDb, gasLimit: uint64, evm: Machine, coinbase: Addr, homestead: bool)
    returns (r: Result<seq<Receipt>>, usedGas: uint64, left: seq<uint64>)
    requires Sound(evm)
    modifies state
    ensures var p := Folded(evm, msgs, coinbase, homestead, gasLimit, old(state.Now()), |msgs|);
      if p.Err? then r == Err(p.error)
      else r == Ok(p.value.receipts) && usedGas == p.value.used && state.Now() == p.value.world
    ensures r.Ok? ==> |r.value| == |left| == |msgs| && PrefixSums(r.value) && usedGas == Used(r.value, |msgs|)
    ensures r.Ok? ==> forall j :: 0 <= j < |msgs| ==> left[j] + r.value[j].cumulativeGasUsed == gasLimit
    ensures r.Ok? ==> usedGas <= gasLimit && Total(state.balances) == Total(old(state.balances))
  {
    hide Total;
    hide Sound;
    hide PrefixSums;
    hide Transition;
    ghost var was := state.Now();
    var gp := new GasPool();
    var panics := gp.AddGas(gasLimit);
    var receipts: seq<Receipt> := [];
    usedGas, left := 0, [];
    assert PrefixSums(receipts) by { NoReceipts(); }
    for i := 0 to |msgs|
      invariant |receipts| == |left| == i && PrefixSums(receipts) && usedGas == Used(receipts, i)
        && gp.gas + usedGas == gasLimit
      invariant forall j :: 0 <= j < i ==> left[j] + receipts[j].cumulativeGasUsed == gasLimit
      invariant Total(state.balances) == Total(old(state.balances)) && fresh(gp)
      invariant Folded(evm, msgs, coinbase, homestead, gasLimit, was, i)
        == Ok(Progress(state.Now(), gp.gas, usedGas, receipts))
    {
      var st := new StateTransition(gp, msgs[i], state);
      var applied := st.TransitionDb(evm, coinbase, homestead);
      if applied.Err? {
        FailsOn(evm, msgs, coinbase, homestead, gasLimit, was, i + 1, |msgs|);
        return Err(applied.error), 0, [];
      }
      usedGas := usedGas + applied.value.usedGas;
      var receipt := Receipt(usedGas, applied.value.usedGas, applied.value.failed, []);
      PrefixNext(receipts, receipt);
      receipts := receipts + [receipt];
      left := left + [gp.gas];
    }
    r := Ok(receipts);
  }

  lemma NoReceipts()
    ensures PrefixSums([])
  {
  }

  // ---------------------------------------------------------------- receipt data

  ghost function LogsBefore(receipts: seq<Receipt>, n: nat): nat
    requires n <= |receipts|
  {
    if n == 0 then 0 else LogsBefore(receipts, n - 1) + |receipts[n - 1].logs|
  }

  /** The difference of two 64-bit counters. */
  ghost function Minus(a: uint64, b: uint64): uint64 { (a - b) % (MAX_UINT64 + 1) }

  lemma MinusIs(a: uint64, b: uint64)
    ensures Minus(a, b) == (a - b) % (MAX_UINT64 + 1)
  {
  }

  /** What SetReceiptsData makes of receipt j. */
  ghost function Completed(receipts: seq<Receipt>, j: nat): Receipt
    requires j < |receipts|
  {
    var before := if j == 0 then 0 else receipts[j - 1].cumulativeGasUsed;
    receipts[j].(gasUsed := Minus(receipts[j].cumulativeGasUsed, before),
                 logs := PositionsFrom(j, LogsBefore(receipts, j), |receipts[j].logs|))
  }

  ghost function PositionsFrom(txIndex: nat, index: nat, n: nat): seq<LogPos> {
    if n == 0 then [] else PositionsFrom(txIndex, index, n - 1) + [LogPos(txIndex, index + n - 1)]
  }

  lemma {:induction false} PositionAt(txIndex: nat, index: nat, n: nat, k: nat)
    requires k < n
    ensures |PositionsFrom(txIndex, index, n)| == n && PositionsFrom(txIndex, index, n)[k] == LogPos(txIndex, index + k)
  {
    if n > 1 { PositionAt(txIndex, index, n - 1, if k < n - 1 then k else 0); }
  }

  /** The inner loop of SetReceiptsData. */
  method Positions(txIndex: nat, index: nat, n: nat) returns (logs: seq<LogPos>)
    ensures logs == PositionsFrom(txIndex, index, n) && |logs| == n
  {
    logs := [];
    for k := 0 to n
      invariant logs == PositionsFrom(txIndex, index, k) && |logs| == k
    {
      logs := logs + [LogPos(txIndex, index + k)];
    }
  }

  /** Log indices run on from one receipt to the next. */
  lemma LogsInOrder(receipts: seq<Receipt>, j: nat, k: nat)
    requires j < |receipts| && k < |receipts[j].logs|
    ensures var logs := Completed(receipts, j).logs;
      && |logs| == |receipts[j].logs| && logs[k] == LogPos(j, LogsBefore(receipts, j) + k)
      && LogsBefore(receipts, j + 1) == LogsBefore(receipts, j) + |logs|
  {
    PositionAt(j, LogsBefore(receipts, j), |receipts[j].logs|, k);
  }

  /**
   SetReceiptsData, in place: the gas of each transaction from the running sums, and log positions through the
   block.
   */
  method SetReceiptsData(transactions: nat, receipts: array<Receipt>) returns (ok: bool)
    modifies receipts
    ensures ok == (transactions == receipts.Length)
    ensures !ok ==> receipts[..] == old(receipts[..])
    ensures ok ==> forall j :: 0 <= j < receipts.Length ==> receipts[j] == Completed(old(receipts[..]), j)
  {
    hide Minus;
    hide PositionsFrom;
    hide Halfway;
    hide Completed;
    if transactions != receipts.Length { return false; }
    ghost var was := receipts[..];
    var logIndex := 0;
    HalfwayStart(was);
    for j := 0 to receipts.Length
      invariant logIndex == LogsBefore(was, j) && Halfway(receipts[..], was, j)
    {
      HalfwayNext(receipts[..], was, j);
      var before := if j == 0 then 0 else receipts[j - 1].cumulativeGasUsed;
      var logs := Positions(j, logIndex, |receipts[j].logs|);
      logIndex := logIndex + |logs|;
      var gasUsed := (receipts[j].cumulativeGasUsed - before) % (MAX_UINT64 + 1);
      MinusIs(receipts[j].cumulativeGasUsed, before);
      ghost var now := receipts[..];
      receipts[j] := receipts[j].(gasUsed := gasUsed, logs := logs);
      assert receipts[..] == now[j := Completed(was, j)];
    }
    HalfwayEnd(receipts[..], was);
    ok := true;
  }

  /** The first j receipts have been completed. */
  ghost predicate Halfway(now: seq<Receipt>, was: seq<Receipt>, j: nat) {
    |now| == |was| && forall k :: 0 <= k < |was| ==> now[k] == if k < j then Completed(was, k) else was[k]
  }

  lemma HalfwayStart(was: seq<Receipt>)
    ensures Halfway(was, was, 0)
  {
  }

  lemma HalfwayNext(now: seq<Receipt>, was: seq<Receipt>, j: nat)
    requires Halfway(now, was, j) && j < |was|
    ensures now[j] == was[j] && Halfway(now[j := Completed(was, j)], was, j + 1)
    ensures var before := if j == 0 then 0 else now[j - 1].cumulativeGasUsed;
      Completed(was, j) == now[j].(gasUsed := Minus(now[j].cumulativeGasUsed, before),
        logs := PositionsFrom(j, LogsBefore(was, j), |now[j].logs|))
  {
    hide Minus;
    hide PositionsFrom;
  }

  lemma HalfwayEnd(now: seq<Receipt>, was: seq<Receipt>)
    requires Halfway(now, was, |was|)
    ensures |now| == |was| && forall j :: 0 <= j < |was| ==> now[j] == Completed(was, j)
  {
  }

  /** From the running sums that Process leaves in receipts, SetReceiptsData recovers the gas of every transaction. */
  lemma ReceiptsRecovered(receipts: seq<Receipt>, stripped: seq<Receipt>, j: nat)
    requires PrefixSums(receipts) && |stripped| == |receipts| && j < |receipts|
    requires forall k :: 0 <= k < |receipts| ==> stripped[k].cumulativeGasUsed == receipts[k].cumulativeGasUsed
    ensures Completed(stripped, j).gasUsed == receipts[j].gasUsed
  {
    if j > 0 { assert receipts[j - 1].cumulativeGasUsed == Used(receipts, j); }
    assert receipts[j].cumulativeGasUsed == Used(receipts, j) + receipts[j].gasUsed;
  }

  /** It recovers them exactly when the running sums do not fall: otherwise a difference wraps around. */
  lemma ReceiptsWrap(receipts: seq<Receipt>, j: nat)
    requires 0 < j < |receipts|
    ensures var before, after := receipts[j - 1].cumulativeGasUsed, receipts[j].cumulativeGasUsed;
      before + Completed(receipts, j).gasUsed == if before <= after then after else after + MAX_UINT64 + 1
  {
  }
}
