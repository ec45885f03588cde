/** Transactions and blocks, and what they do to the chain value pools and the unspent outputs. */
module ValuePools {
  import opened Amounts
  import opened Options
  import opened ValueBalances

  datatype OutPoint = OutPoint(txid: nat, index: nat)

  datatype Output = Output(value: Zatoshis)

  datatype Input = PrevOut(outpoint: OutPoint) | Coinbase

  datatype JoinSplit = JoinSplit(vpubOld: Zatoshis, vpubNew: Zatoshis)

  /** The transaction versions, with the parts of each that carry value. */
  datatype Transaction =
    | V1(txid: nat, inputs: seq<Input>, outputs: seq<Output>)
    | V2(txid: nat, inputs: seq<Input>, outputs: seq<Output>, joinSplits: seq<JoinSplit>)
    | V3(txid: nat, inputs: seq<Input>, outputs: seq<Output>, joinSplits: seq<JoinSplit>)
    | V4(txid: nat, inputs: seq<Input>, outputs: seq<Output>, joinSplits: seq<JoinSplit>,
         sapling: Option<SignedZatoshis>)
    | V5(txid: nat, inputs: seq<Input>, outputs: seq<Output>, sapling: Option<SignedZatoshis>,
         orchard: Option<SignedZatoshis>)
    | VCrosslink(txid: nat, inputs: seq<Input>, outputs: seq<Output>, sapling: Option<SignedZatoshis>,
                 orchard: Option<SignedZatoshis>)

  type Outputs = map<OutPoint, Output>

  /** The caller provides every output that is spent. */
  predicate Provided(outputs: Outputs, inputs: seq<Input>) {
    forall i :: 0 <= i < |inputs| && inputs[i].PrevOut? ==> inputs[i].outpoint in outputs
  }

  // -------------------------------------------------------------------------
  // Transaction value balances.

  function InputValue(outputs: Outputs, input: Input): Zatoshis
    requires input.PrevOut? ==> input.outpoint in outputs
  {
    match input
    case PrevOut(outpoint) => outputs[outpoint].value
    case Coinbase => 0
  }

  function InputValues(outputs: Outputs, inputs: seq<Input>): (vs: seq<Zatoshis>)
    requires Provided(outputs, inputs)
    ensures |vs| == |inputs| && forall i :: 0 <= i < |vs| ==> vs[i] == InputValue(outputs, inputs[i])
  {
    seq<Zatoshis>(|inputs|, i requires 0 <= i < |inputs| && Provided(outputs, inputs) => InputValue(outputs, inputs[i]))
  }

  function OutputValues(os: seq<Output>): (vs: seq<Zatoshis>)
    ensures |vs| == |os| && forall i :: 0 <= i < |vs| ==> vs[i] == os[i].value
  {
    seq<Zatoshis>(|os|, i requires 0 <= i < |os| => os[i].value)
  }

  /** What a transaction takes out of the transparent pool, minus what it puts in. */
  function TransparentBalance(outputs: Outputs, tx: Transaction): (r: Balanced)
    requires Provided(outputs, tx.inputs)
  {
    match Sum(NonNegative, InputValues(outputs, tx.inputs))
    case Err(e) => Err(PoolError(Transparent, e))
    case Ok(inputValue) =>
      match Sum(NonNegative, OutputValues(tx.outputs))
      case Err(e) => Err(PoolError(Transparent, e))
      case Ok(outputValue) =>
        match Sub(NegativeAllowed, inputValue, outputValue)
        case Err(e) => Err(PoolError(Transparent, e))
        case Ok(value) => Ok(ZERO.(transparent := value))
  }

  function JoinSplits(tx: Transaction): seq<JoinSplit> {
    match tx
    case V2(_, _, _, joinSplits) => joinSplits
    case V3(_, _, _, joinSplits) => joinSplits
    case V4(_, _, _, joinSplits, _) => joinSplits
    case _ => []
  }

  function SproutBalances(js: seq<JoinSplit>): (bs: seq<ValueBalance>)
    ensures |bs| == |js| && forall i :: 0 <= i < |bs| ==> bs[i] == ZERO.(sprout := js[i].vpubNew - js[i].vpubOld)
  {
    seq<ValueBalance>(|js|, i requires 0 <= i < |js| => ZERO.(sprout := js[i].vpubNew - js[i].vpubOld))
  }

  function SproutBalance(tx: Transaction): (r: Balanced) {
    SumBalances(NegativeAllowed, SproutBalances(JoinSplits(tx)))
  }

  function SaplingAmount(tx: Transaction): SignedZatoshis {
    match tx
    case V4(_, _, _, _, sapling) => sapling.GetOr(0)
    case V5(_, _, _, sapling, _) => sapling.GetOr(0)
    case VCrosslink(_, _, _, sapling, _) => sapling.GetOr(0)
    case _ => 0
  }

  function OrchardAmount(tx: Transaction): SignedZatoshis {
    match tx
    case V5(_, _, _, _, orchard) => orchard.GetOr(0)
    case VCrosslink(_, _, _, _, orchard) => orchard.GetOr(0)
    case _ => 0
  }

  /** Adding to a balance that may already be an error. */
  function AddTo(r: Balanced, b: ValueBalance): Balanced
    requires r.Ok? ==> ValidBalance(NegativeAllowed, r.value)
    requires ValidBalance(NegativeAllowed, b)
  {
    match r
    case Err(e) => Err(e)
    case Ok(a) => AddBalances(NegativeAllowed, a, b)
  }

  function TransactionBalance(outputs: Outputs, tx: Transaction): (r: Balanced)
    requires Provided(outputs, tx.inputs)
    ensures r.Ok? ==> ValidBalance(NegativeAllowed, r.value)
  {
    match TransparentBalance(outputs, tx)
    case Err(e) => Err(e)
    case Ok(transparent) =>
      SproutIsValid(tx);
      match SproutBalance(tx)
      case Err(e) => Err(e)
      case Ok(sprout) =>
        AddTo(AddTo(AddBalances(NegativeAllowed, transparent, sprout), ZERO.(sapling := SaplingAmount(tx))),
              ZERO.(orchard := OrchardAmount(tx)))
  }

  lemma {:induction false} SproutIsValid(tx: Transaction)
    ensures SproutBalance(tx).Ok? ==> ValidBalance(NegativeAllowed, SproutBalance(tx).value)
  {
    hide SumBalancesFrom, PartialBalancesValid, TotalBalance, JoinSplits;
    SumBalancesCorrect(NegativeAllowed, ZERO, SproutBalances(JoinSplits(tx)));
  }

  // What each pool gains or loses, exactly.

  ghost function InputTotal(outputs: Outputs, tx: Transaction): int
    requires Provided(outputs, tx.inputs)
  {
    Total(InputValues(outputs, tx.inputs))
  }

  ghost function OutputTotal(tx: Transaction): int {
    Total(OutputValues(tx.outputs))
  }

  ghost function SproutChanges(js: seq<JoinSplit>): seq<int> {
    seq(|js|, i requires 0 <= i < |js| => js[i].vpubNew - js[i].vpubOld)
  }

  lemma {:induction false} SproutTotals(js: seq<JoinSplit>)
    ensures TotalBalance(SproutBalances(js)) == ZERO.(sprout := Total(SproutChanges(js)))
  {
    if js == [] {
    } else {
      SproutTotals(js[1..]);
      assert SproutBalances(js)[1..] == SproutBalances(js[1..]);
      assert SproutChanges(js)[1..] == SproutChanges(js[1..]);
    }
  }

  lemma {:induction false} SproutPartial(js: seq<JoinSplit>)
    ensures PartialBalancesValid(NegativeAllowed, ZERO, SproutBalances(js)) <==>
            PartialSumsInRange(NegativeAllowed, 0, SproutChanges(js))
  {
    forall k | 0 <= k <= |js|
      ensures ValidBalance(NegativeAllowed, Plus(ZERO, TotalBalance(SproutBalances(js)[..k]))) <==>
              InRange(NegativeAllowed, 0 + Total(SproutChanges(js)[..k]))
    {
      SproutTotals(js[..k]);
      assert SproutBalances(js)[..k] == SproutBalances(js[..k]);
      assert SproutChanges(js)[..k] == SproutChanges(js[..k]);
    }
  }

  lemma {:induction false} TransparentExact(outputs: Outputs, tx: Transaction)
    requires Provided(outputs, tx.inputs)
    ensures var r := TransparentBalance(outputs, tx);
            && (r.Ok? <==> InputTotal(outputs, tx) <= MAX_MONEY && OutputTotal(tx) <= MAX_MONEY)
            && (r.Err? ==> r.error.PoolError? && r.error.pool == Transparent)
            && (r.Ok? ==> r.value == ZERO.(transparent := InputTotal(outputs, tx) - OutputTotal(tx)))
            && (r.Ok? ==> ValidBalance(NegativeAllowed, r.value))
  {
    hide Sum, Total;
    NonNegativeSum(InputValues(outputs, tx.inputs));
    NonNegativeSum(OutputValues(tx.outputs));
    TotalOfValues(InputValues(outputs, tx.inputs));
    TotalOfValues(OutputValues(tx.outputs));
  }

  lemma {:induction false} SproutExact(tx: Transaction)
    ensures var r, changes := SproutBalance(tx), SproutChanges(JoinSplits(tx));
            && (r.Ok? <==> PartialSumsInRange(NegativeAllowed, 0, changes))
            && (r.Err? ==> r.error.PoolError? && r.error.pool == Sprout)
            && (r.Ok? ==> r.value == ZERO.(sprout := Total(changes)) && ValidBalance(NegativeAllowed, r.value))
  {
    hide SumBalancesFrom, PartialBalancesValid, TotalBalance, JoinSplits, PartialSumsInRange, Total;
    SumBalancesCorrect(NegativeAllowed, ZERO, SproutBalances(JoinSplits(tx)));
    SproutPartial(JoinSplits(tx));
    SproutTotals(JoinSplits(tx));
    SproutError(0, JoinSplits(tx));
  }

  lemma {:induction false} SproutError(sum: SignedZatoshis, js: seq<JoinSplit>)
    ensures var r := SumBalancesFrom(NegativeAllowed, ZERO.(sprout := sum), SproutBalances(js));
            r.Err? ==> r.error.PoolError? && r.error.pool == Sprout
    decreases |js|
  {
    if js == [] {
    } else {
      assert SproutBalances(js)[1..] == SproutBalances(js[1..]);
      var next := sum + js[0].vpubNew - js[0].vpubOld;
      assert Plus(ZERO.(sprout := sum), SproutBalances(js)[0]) == ZERO.(sprout := next);
      if InRange(NegativeAllowed, next) {
        SproutError(next, js[1..]);
      }
    }
  }

  /** What a transaction takes out of a pool, minus what it puts in: join splits from version 2 to 4, Sapling from
    * version 4 on, and Orchard from version 5 on. */
  ghost function Taken(outputs: Outputs, tx: Transaction, pool: Pool): int
    requires Provided(outputs, tx.inputs)
  {
    match pool
    case Transparent => InputTotal(outputs, tx) - OutputTotal(tx)
    case Sprout => if tx.V2? || tx.V3? || tx.V4? then Total(SproutChanges(tx.joinSplits)) else 0
    case Sapling => if tx.V4? || tx.V5? || tx.VCrosslink? then tx.sapling.GetOr(0) else 0
    case Orchard => if tx.V5? || tx.VCrosslink? then tx.orchard.GetOr(0) else 0
    case Deferred => 0
  }

  /** The inputs and the outputs each add up to an amount, and so does every partial sum over the join splits. */
  ghost predicate HasBalance(outputs: Outputs, tx: Transaction)
    requires Provided(outputs, tx.inputs)
  {
    && InputTotal(outputs, tx) <= MAX_MONEY && OutputTotal(tx) <= MAX_MONEY
    && (tx.V2? || tx.V3? || tx.V4? ==> PartialSumsInRange(NegativeAllowed, 0, SproutChanges(tx.joinSplits)))
  }

  /** The pool that is blamed if a transaction has no balance. */
  ghost function ErrorPool(outputs: Outputs, tx: Transaction): Pool
    requires Provided(outputs, tx.inputs)
  {
    if InputTotal(outputs, tx) <= MAX_MONEY && OutputTotal(tx) <= MAX_MONEY then Sprout else Transparent
  }

  lemma {:induction false} BalanceOfParts(outputs: Outputs, tx: Transaction)
    requires Provided(outputs, tx.inputs)
    ensures var r := TransactionBalance(outputs, tx);
            && (r.Ok? <==> InputTotal(outputs, tx) <= MAX_MONEY && OutputTotal(tx) <= MAX_MONEY
                           && PartialSumsInRange(NegativeAllowed, 0, SproutChanges(JoinSplits(tx))))
            && (r.Err? ==> r.error.PoolError? && r.error.pool == ErrorPool(outputs, tx))
            && (r.Ok? ==> r.value == ValueBalance(InputTotal(outputs, tx) - OutputTotal(tx),
                                                  Total(SproutChanges(JoinSplits(tx))),
                                                  SaplingAmount(tx), OrchardAmount(tx), 0))
  {
    TransparentExact(outputs, tx);
    SproutExact(tx);
    hide TransparentBalance, SproutBalance, InputTotal, OutputTotal, PartialSumsInRange, JoinSplits, SaplingAmount,
         OrchardAmount, Total;
  }

  lemma {:induction false} SproutByVersion(tx: Transaction)
    ensures if tx.V2? || tx.V3? || tx.V4? then JoinSplits(tx) == tx.joinSplits
            else
              && Total(SproutChanges(JoinSplits(tx))) == 0
              && PartialSumsInRange(NegativeAllowed, 0, SproutChanges(JoinSplits(tx)))
  {
    assert SproutChanges([]) == [];
  }

  /** A transaction has a balance exactly if its inputs and its outputs each add up to an amount and every
    * partial sum over its join splits is one. The balance is then exact in every pool. */
  lemma {:induction false} TransactionBalanceExact(outputs: Outputs, tx: Transaction)
    requires Provided(outputs, tx.inputs)
    ensures var r := TransactionBalance(outputs, tx);
            && (r.Ok? <==> HasBalance(outputs, tx))
            && (r.Err? ==> r.error.PoolError? && r.error.pool == ErrorPool(outputs, tx))
            && (r.Ok? ==> r.value == ValueBalance(Taken(outputs, tx, Transparent), Taken(outputs, tx, Sprout),
                                                  Taken(outputs, tx, Sapling), Taken(outputs, tx, Orchard), 0))
  {
    BalanceOfParts(outputs, tx);
    SproutByVersion(tx);
    hide TransactionBalance, InputTotal, OutputTotal, PartialSumsInRange, JoinSplits, Total, SproutChanges;
  }

  lemma {:induction false} TotalOfValues(vs: seq<Zatoshis>)
    ensures Total(vs) >= 0
  {
    TotalNonNegative(vs);
  }

  // -------------------------------------------------------------------------
  // Block value pool changes.

  predicate AllProvided(outputs: Outputs, txs: seq<Transaction>) {
    forall i :: 0 <= i < |txs| ==> Provided(outputs, txs[i].inputs)
  }

  /** The balances of the transactions that have one. The others are left out without an error. */
  function Balances(outputs: Outputs, txs: seq<Transaction>): (bs: seq<ValueBalance>)
    requires AllProvided(outputs, txs)
    ensures forall b :: b in bs ==> ValidBalance(NegativeAllowed, b)
  {
    if txs == [] then []
    else
      var rest := Balances(outputs, txs[1..]);
      match TransactionBalance(outputs, txs[0])
      case Ok(b) => [b] + rest
      case Err(_) => rest
  }

  /** The change to the chain value pools: the opposite of the sum of the transaction balances. */
  function ChainValuePoolChange(outputs: Outputs, txs: seq<Transaction>,
                                deferred: Option<SignedZatoshis>): (r: Balanced)
    requires AllProvided(outputs, txs)
  {
    match SumBalances(NegativeAllowed, Balances(outputs, txs))
    case Err(e) => Err(e)
    case Ok(sum) => Ok(Neg(sum).(deferred := deferred.GetOr(0)))
  }

  /** What a transaction adds to the unspent outputs, minus what it takes. */
  ghost function TransparentChange(outputs: Outputs, tx: Transaction): int
    requires Provided(outputs, tx.inputs)
  {
    OutputTotal(tx) - InputTotal(outputs, tx)
  }

  ghost function TransparentChanges(outputs: Outputs, txs: seq<Transaction>): int
    requires AllProvided(outputs, txs)
  {
    if txs == [] then 0 else TransparentChange(outputs, txs[0]) + TransparentChanges(outputs, txs[1..])
  }

  /** What the transactions without a balance add to the unspent outputs. */
  ghost function DroppedChanges(outputs: Outputs, txs: seq<Transaction>): int
    requires AllProvided(outputs, txs)
  {
    if txs == [] then 0
    else
      (if HasBalance(outputs, txs[0]) then 0 else TransparentChange(outputs, txs[0]))
      + DroppedChanges(outputs, txs[1..])
  }

  /** What the transactions that have a balance take out of a pool, minus what they put in. */
  ghost function TakenByAll(outputs: Outputs, txs: seq<Transaction>, pool: Pool): int
    requires AllProvided(outputs, txs)
  {
    if txs == [] then 0
    else (if HasBalance(outputs, txs[0]) then Taken(outputs, txs[0], pool) else 0)
         + TakenByAll(outputs, txs[1..], pool)
  }

  lemma {:induction false} TransparentTaken(outputs: Outputs, tx: Transaction)
    requires Provided(outputs, tx.inputs)
    ensures Taken(outputs, tx, Transparent) == -TransparentChange(outputs, tx)
  {
  }

  lemma {:induction false} BalancesTotal(outputs: Outputs, txs: seq<Transaction>)
    requires AllProvided(outputs, txs)
    ensures TotalBalance(Balances(outputs, txs)) ==
            ValueBalance(TakenByAll(outputs, txs, Transparent), TakenByAll(outputs, txs, Sprout),
                         TakenByAll(outputs, txs, Sapling), TakenByAll(outputs, txs, Orchard), 0)
    ensures TransparentChanges(outputs, txs) == DroppedChanges(outputs, txs) - TakenByAll(outputs, txs, Transparent)
  {
    hide TransactionBalance, HasBalance, Taken, TransparentChange, ErrorPool, ValidBalance;
    if txs == [] {
    } else {
      BalancesTotal(outputs, txs[1..]);
      TransactionBalanceExact(outputs, txs[0]);
      TransparentTaken(outputs, txs[0]);
      var r, rest := TransactionBalance(outputs, txs[0]), Balances(outputs, txs[1..]);
      if r.Ok? {
        assert ([r.value] + rest)[1..] == rest;
      }
    }
  }

  /** A block's pool change is, pool by pool, the opposite of what the transactions that have a balance take. It exists
    * exactly if every partial sum of their balances does. Its transparent part misses exactly what the dropped
    * transactions change. */
  lemma {:induction false} PoolChangeMisses(outputs: Outputs, txs: seq<Transaction>, deferred: Option<SignedZatoshis>)
    requires AllProvided(outputs, txs)
    ensures var r := ChainValuePoolChange(outputs, txs, deferred);
            && (r.Ok? ==> ValidBalance(NegativeAllowed, r.value) && r.value.deferred == deferred.GetOr(0))
            && (r.Ok? <==> PartialBalancesValid(NegativeAllowed, ZERO, Balances(outputs, txs)))
            && (r.Ok? ==>
                  && r.value.transparent == -TakenByAll(outputs, txs, Transparent)
                  && r.value.sprout == -TakenByAll(outputs, txs, Sprout)
                  && r.value.sapling == -TakenByAll(outputs, txs, Sapling)
                  && r.value.orchard == -TakenByAll(outputs, txs, Orchard))
            && (r.Ok? ==> r.value.transparent == TransparentChanges(outputs, txs) - DroppedChanges(outputs, txs))
  {
    hide Balances, SumBalancesFrom, PartialBalancesValid, TotalBalance, TransparentChanges, DroppedChanges, TakenByAll;
    SumBalancesCorrect(NegativeAllowed, ZERO, Balances(outputs, txs));
    BalancesTotal(outputs, txs);
  }

  lemma {:induction false} NegValid(outputs: Outputs, txs: seq<Transaction>, deferred: Option<SignedZatoshis>)
    requires AllProvided(outputs, txs)
    ensures ChainValuePoolChange(outputs, txs, deferred).Ok? ==>
              ValidBalance(NegativeAllowed, ChainValuePoolChange(outputs, txs, deferred).value)
  {
    hide Balances, SumBalancesFrom, PartialBalancesValid, TotalBalance;
    SumBalancesCorrect(NegativeAllowed, ZERO, Balances(outputs, txs));
  }

  // -------------------------------------------------------------------------
  // Unspent outputs.

  type Unspent = map<OutPoint, Zatoshis>

  /** The sum of all unspent output values. */
  ghost function UnspentTotal(u: Unspent): int
    decreases |u|
  {
    if u == map[] then 0
    else
      var o :| o in u;
      u[o] + UnspentTotal(u - {o})
  }

  lemma {:induction false} UnspentRemove(u: Unspent, o: OutPoint)
    requires o in u
    ensures UnspentTotal(u) == u[o] + UnspentTotal(u - {o})
    decreases |u|
  {
    var p :| p in u && UnspentTotal(u) == u[p] + UnspentTotal(u - {p});
    if p == o {
    } else {
      UnspentRemove(u - {p}, o);
      UnspentRemove(u - {o}, p);
      assert (u - {p}) - {o} == (u - {o}) - {p};
    }
  }

  lemma {:induction false} UnspentInsert(u: Unspent, o: OutPoint, value: Zatoshis)
    requires o !in u
    ensures UnspentTotal(u[o := value]) == UnspentTotal(u) + value
  {
    UnspentRemove(u[o := value], o);
    assert u[o := value] - {o} == u;
  }

  /** What is left after spending the first inputs. */
  ghost function Spend(u: Unspent, inputs: seq<Input>): Unspent {
    if inputs == [] then u
    else
      var rest, input := Spend(u, inputs[..|inputs| - 1]), inputs[|inputs| - 1];
      if input.PrevOut? then rest - {input.outpoint} else rest
  }

  /** No input spends an output twice or one that does not exist, and its value is as provided. */
  ghost predicate CanSpend(u: Unspent, outputs: Outputs, inputs: seq<Input>) {
    inputs == [] ||
    var n := |inputs| - 1;
    && CanSpend(u, outputs, inputs[..n])
    && (inputs[n].PrevOut? ==>
          var o := inputs[n].outpoint;
          o in Spend(u, inputs[..n]) && o in outputs && outputs[o].value == Spend(u, inputs[..n])[o])
  }

  ghost function Create(u: Unspent, txid: nat, os: seq<Output>): Unspent {
    if os == [] then u
    else Create(u, txid, os[..|os| - 1])[OutPoint(txid, |os| - 1) := os[|os| - 1].value]
  }

  /** The outputs of a transaction are new. */
  ghost predicate Fresh(u: Unspent, txid: nat) {
    forall o :: o in u ==> o.txid != txid
  }

  ghost function Apply(u: Unspent, txs: seq<Transaction>): Unspent
    decreases |txs|
  {
    if txs == [] then u
    else Apply(Create(Spend(u, txs[0].inputs), txs[0].txid, txs[0].outputs), txs[1..])
  }

  /** Each transaction of a block spends unspent outputs, also ones made earlier in the block. */
  ghost predicate CanApply(u: Unspent, outputs: Outputs, txs: seq<Transaction>)
    decreases |txs|
  {
    txs == [] ||
    (CanSpend(u, outputs, txs[0].inputs) && Fresh(Spend(u, txs[0].inputs), txs[0].txid)
     && CanApply(Create(Spend(u, txs[0].inputs), txs[0].txid, txs[0].outputs), outputs, txs[1..]))
  }

  lemma {:induction false} TotalSnoc(xs: seq<int>, x: int)
    ensures Total(xs + [x]) == Total(xs) + x
  {
    if xs != [] {
      TotalSnoc(xs[1..], x);
      assert (xs + [x])[1..] == xs[1..] + [x];
    } else {
      assert [x][1..] == [];
    }
  }

  lemma {:induction false} SpendTotal(u: Unspent, outputs: Outputs, inputs: seq<Input>)
    requires CanSpend(u, outputs, inputs)
    ensures Provided(outputs, inputs)
    ensures UnspentTotal(Spend(u, inputs)) == UnspentTotal(u) - Total(InputValues(outputs, inputs))
  {
    if inputs == [] {
    } else {
      var n := |inputs| - 1;
      var rest, input := inputs[..n], inputs[n];
      SpendTotal(u, outputs, rest);
      assert forall i :: 0 <= i < n ==> inputs[i] == rest[i];
      assert InputValues(outputs, inputs) == InputValues(outputs, rest) + [InputValue(outputs, input)];
      TotalSnoc(InputValues(outputs, rest), InputValue(outputs, input));
      if input.PrevOut? {
        UnspentRemove(Spend(u, rest), input.outpoint);
      }
    }
  }

  lemma {:induction false} CreateTotal(u: Unspent, txid: nat, os: seq<Output>)
    requires Fresh(u, txid)
    ensures UnspentTotal(Create(u, txid, os)) == UnspentTotal(u) + Total(OutputValues(os))
    ensures forall o :: o in Create(u, txid, os) ==> o in u || (o.txid == txid && o.index < |os|)
  {
    if os == [] {
    } else {
      var n := |os| - 1;
      CreateTotal(u, txid, os[..n]);
      assert OutputValues(os) == OutputValues(os[..n]) + [os[n].value];
      TotalSnoc(OutputValues(os[..n]), os[n].value);
      UnspentInsert(Create(u, txid, os[..n]), OutPoint(txid, n), os[n].value);
    }
  }

  /** The unspent outputs change by exactly what the transactions add and take, also within one block. */
  lemma {:induction false} ApplyTotal(u: Unspent, outputs: Outputs, txs: seq<Transaction>)
    requires CanApply(u, outputs, txs)
    ensures AllProvided(outputs, txs)
    ensures UnspentTotal(Apply(u, txs)) == UnspentTotal(u) + TransparentChanges(outputs, txs)
    decreases |txs|
  {
    if txs == [] {
    } else {
      var tx := txs[0];
      SpendTotal(u, outputs, tx.inputs);
      CreateTotal(Spend(u, tx.inputs), tx.txid, tx.outputs);
      ApplyTotal(Create(Spend(u, tx.inputs), tx.txid, tx.outputs), outputs, txs[1..]);
      assert forall i :: 1 <= i < |txs| ==> txs[i] == txs[1..][i - 1];
    }
  }

  // -------------------------------------------------------------------------
  // Chains.

  /** A block, with the spent outputs provided for it and its change to the deferred pool. */
  datatype Block = Block(txs: seq<Transaction>, outputs: Outputs, deferred: Option<SignedZatoshis>)

  /** Every transaction has a balance. */
  ghost predicate AllBalanced(b: Block) {
    AllProvided(b.outputs, b.txs) && forall i :: 0 <= i < |b.txs| ==> HasBalance(b.outputs, b.txs[i])
  }

  /** The chain value pools after a block, if it is accepted. */
  function Accept(pools: ValueBalance, b: Block): (r: Balanced)
    requires ValidBalance(NonNegative, pools) && AllProvided(b.outputs, b.txs)
    ensures r.Ok? ==> ValidBalance(NonNegative, r.value)
  {
    NegValid(b.outputs, b.txs, b.deferred);
    match ChainValuePoolChange(b.outputs, b.txs, b.deferred)
    case Err(e) => Err(e)
    case Ok(change) => AddChainValuePoolChange(pools, change)
  }

  /** The chain value pools after a block: what its transactions take is missing from each pool. */
  ghost function PoolsAfter(pools: ValueBalance, b: Block): ValueBalance
    requires AllProvided(b.outputs, b.txs)
  {
    ValueBalance(pools.transparent - TakenByAll(b.outputs, b.txs, Transparent),
                 pools.sprout - TakenByAll(b.outputs, b.txs, Sprout),
                 pools.sapling - TakenByAll(b.outputs, b.txs, Sapling),
                 pools.orchard - TakenByAll(b.outputs, b.txs, Orchard),
                 pools.deferred + b.deferred.GetOr(0))
  }

  /** A block is accepted exactly if its pool change exists and takes no pool below zero or above the maximum. */
  lemma {:induction false} AcceptExact(pools: ValueBalance, b: Block)
    requires ValidBalance(NonNegative, pools) && AllProvided(b.outputs, b.txs)
    ensures var r := Accept(pools, b);
            && (r.Ok? <==> PartialBalancesValid(NegativeAllowed, ZERO, Balances(b.outputs, b.txs))
                           && ValidBalance(NonNegative, PoolsAfter(pools, b)))
            && (r.Ok? ==> r.value == PoolsAfter(pools, b))
  {
    hide ValidBalance, ChainValuePoolChange, DroppedChanges, TransparentChanges, TakenByAll, Balances,
         PartialBalancesValid, AddChainValuePoolChange, AllProvided;
    PoolChangeMisses(b.outputs, b.txs, b.deferred);
    var r := ChainValuePoolChange(b.outputs, b.txs, b.deferred);
    if r.Ok? {
      assert Plus(pools, r.value) == PoolsAfter(pools, b);
      hide PoolsAfter, Plus;
      PoolChangeExact(pools, r.value);
    }
  }

  /** Accepting a block widens the gap between the unspent outputs and the transparent pool by what its
    * transactions without a balance change. So a pool equal to them stays so exactly if that is nothing in
    * total, in particular if every transaction has a balance. */
  lemma {:induction false} AcceptKeepsTransparentPool(pools: ValueBalance, u: Unspent, b: Block)
    requires ValidBalance(NonNegative, pools) && CanApply(u, b.outputs, b.txs) && AllProvided(b.outputs, b.txs)
    requires Accept(pools, b).Ok?
    ensures UnspentTotal(Apply(u, b.txs)) - Accept(pools, b).value.transparent ==
            UnspentTotal(u) - pools.transparent + DroppedChanges(b.outputs, b.txs)
    ensures pools.transparent == UnspentTotal(u) ==>
              (Accept(pools, b).value.transparent == UnspentTotal(Apply(u, b.txs)) <==>
               DroppedChanges(b.outputs, b.txs) == 0)
    ensures Accept(pools, b).value.deferred == pools.deferred + b.deferred.GetOr(0)
    ensures AllBalanced(b) ==> DroppedChanges(b.outputs, b.txs) == 0
  {
    hide ValidBalance, ChainValuePoolChange, DroppedChanges, TransparentChanges, Apply, UnspentTotal, CanApply,
         TransactionBalance;
    PoolChangeMisses(b.outputs, b.txs, b.deferred);
    var change := ChainValuePoolChange(b.outputs, b.txs, b.deferred).value;
    PoolChangeExact(pools, change);
    ApplyTotal(u, b.outputs, b.txs);
    if AllBalanced(b) {
      NothingDropped(b.outputs, b.txs);
    }
  }

  lemma {:induction false} NothingDropped(outputs: Outputs, txs: seq<Transaction>)
    requires AllProvided(outputs, txs)
    requires forall i :: 0 <= i < |txs| ==> HasBalance(outputs, txs[i])
    ensures DroppedChanges(outputs, txs) == 0
  {
    hide TransactionBalance;
    if txs == [] {
    } else {
      NothingDropped(outputs, txs[1..]);
    }
  }

  /** Every block comes with the outputs its transactions spend. */
  ghost predicate BlocksProvided(bs: seq<Block>) {
    forall i :: 0 <= i < |bs| ==> AllProvided(bs[i].outputs, bs[i].txs)
  }

  /** The chain value pools after accepting blocks one after another. */
  ghost predicate Accepted(pools: ValueBalance, u: Unspent, bs: seq<Block>, pools': ValueBalance, u': Unspent)
    decreases |bs|
  {
    BlocksProvided(bs) &&
    if bs == [] then pools' == pools && u' == u
    else
      && ValidBalance(NonNegative, pools) && CanApply(u, bs[0].outputs, bs[0].txs)
      && Accept(pools, bs[0]).Ok?
      && Accepted(Accept(pools, bs[0]).value, Apply(u, bs[0].txs), bs[1..], pools', u')
  }

  /** What the transactions without a balance change in a run of blocks. */
  ghost function RunDropped(bs: seq<Block>): int
    requires BlocksProvided(bs)
    decreases |bs|
  {
    if bs == [] then 0 else DroppedChanges(bs[0].outputs, bs[0].txs) + RunDropped(bs[1..])
  }

  /** What the transactions of a run of blocks take out of a pool, minus what they put in. */
  ghost function RunTaken(bs: seq<Block>, pool: Pool): int
    requires BlocksProvided(bs)
    decreases |bs|
  {
    if bs == [] then 0 else TakenByAll(bs[0].outputs, bs[0].txs, pool) + RunTaken(bs[1..], pool)
  }

  ghost function RunDeferred(bs: seq<Block>): int
    decreases |bs|
  {
    if bs == [] then 0 else bs[0].deferred.GetOr(0) + RunDeferred(bs[1..])
  }

  /** Over every run of accepted blocks the unspent outputs and the transparent pool drift apart by exactly what
    * the transactions without a balance change. The shielded pools lose exactly what the other transactions take out
    * of each, and the deferred pool grows by the sum of its changes. */
  lemma {:induction false} TransparentPoolIsUnspent(pools: ValueBalance, u: Unspent, bs: seq<Block>,
                                                    pools': ValueBalance, u': Unspent)
    requires Accepted(pools, u, bs, pools', u')
    ensures BlocksProvided(bs)
    ensures UnspentTotal(u') - pools'.transparent == UnspentTotal(u) - pools.transparent + RunDropped(bs)
    ensures pools'.sprout == pools.sprout - RunTaken(bs, Sprout)
    ensures pools'.sapling == pools.sapling - RunTaken(bs, Sapling)
    ensures pools'.orchard == pools.orchard - RunTaken(bs, Orchard)
    ensures pools'.deferred == pools.deferred + RunDeferred(bs)
    ensures (forall i :: 0 <= i < |bs| ==> AllBalanced(bs[i])) ==> RunDropped(bs) == 0
    decreases |bs|
  {
    hide ValidBalance, Accept, CanApply, Apply, UnspentTotal, AllBalanced, AllProvided, DroppedChanges, TakenByAll,
         PartialBalancesValid;
    if bs == [] {
    } else {
      AcceptKeepsTransparentPool(pools, u, bs[0]);
      AcceptExact(pools, bs[0]);
      TransparentPoolIsUnspent(Accept(pools, bs[0]).value, Apply(u, bs[0].txs), bs[1..], pools', u');
    }
  }

  /** The transparent pool is the sum of the unspent outputs before and after every block of a run. */
  ghost predicate AlwaysUnspent(pools: ValueBalance, u: Unspent, bs: seq<Block>, pools': ValueBalance, u': Unspent)
    requires Accepted(pools, u, bs, pools', u')
    decreases |bs|
  {
    pools.transparent == UnspentTotal(u) &&
    (bs == [] || AlwaysUnspent(Accept(pools, bs[0]).value, Apply(u, bs[0].txs), bs[1..], pools', u'))
  }

  /** In every block the transactions without a balance change nothing in total. */
  ghost predicate DropsNothing(bs: seq<Block>)
    requires BlocksProvided(bs)
    decreases |bs|
  {
    bs == [] || (DroppedChanges(bs[0].outputs, bs[0].txs) == 0 && DropsNothing(bs[1..]))
  }

  /** Over every run from equal totals the transparent pool stays the sum of all unspent outputs, if and only if
    * in every block the transactions without a balance change nothing in total. */
  lemma {:induction false} UnspentThroughout(pools: ValueBalance, u: Unspent, bs: seq<Block>, pools': ValueBalance,
                                             u': Unspent)
    requires Accepted(pools, u, bs, pools', u') && pools.transparent == UnspentTotal(u)
    ensures BlocksProvided(bs)
    ensures AlwaysUnspent(pools, u, bs, pools', u') <==> DropsNothing(bs)
    decreases |bs|
  {
    hide ValidBalance, Accept, CanApply, Apply, UnspentTotal, AllBalanced, AllProvided, DroppedChanges;
    if bs == [] {
    } else {
      var next, u1 := Accept(pools, bs[0]).value, Apply(u, bs[0].txs);
      AcceptKeepsTransparentPool(pools, u, bs[0]);
      if next.transparent == UnspentTotal(u1) {
        UnspentThroughout(next, u1, bs[1..], pools', u');
      } else {
        assert !AlwaysUnspent(next, u1, bs[1..], pools', u');
        assert DroppedChanges(bs[0].outputs, bs[0].txs) != 0;
      }
    }
  }

  /** Transactions that leave value behind, and have all their balances. */
  ghost predicate LeaveValue(outputs: Outputs, txs: seq<Transaction>) {
    AllProvided(outputs, txs) && forall i :: 0 <= i < |txs| ==>
      var r := TransactionBalance(outputs, txs[i]); r.Ok? && RemainingTransactionValue(r.value).Ok?
  }

  lemma {:induction false} LeaveValueTotal(outputs: Outputs, txs: seq<Transaction>)
    requires LeaveValue(outputs, txs)
    ensures Pooled(TotalBalance(Balances(outputs, txs))) >= 0
  {
    hide TransactionBalance;
    if txs == [] {
    } else {
      var r, rest := TransactionBalance(outputs, txs[0]), Balances(outputs, txs[1..]);
      RemainingValueExact(r.value);
      LeaveValueTotal(outputs, txs[1..]);
      assert ([r.value] + rest)[1..] == rest;
    }
  }

  /** If every transaction but the first has a non-negative remaining value, a block creates no more value
    * than its first transaction, the coinbase, takes out of nothing. */
  lemma {:induction false} OnlyCoinbaseCreatesValue(pools: ValueBalance, b: Block)
    requires ValidBalance(NonNegative, pools) && AllProvided(b.outputs, b.txs) && b.txs != []
    requires TransactionBalance(b.outputs, b.txs[0]).Ok? && LeaveValue(b.outputs, b.txs[1..])
    requires Accept(pools, b).Ok?
    ensures Pooled(Accept(pools, b).value) <= Pooled(pools) - Pooled(TransactionBalance(b.outputs, b.txs[0]).value)
  {
    var coinbase, rest := TransactionBalance(b.outputs, b.txs[0]).value, Balances(b.outputs, b.txs[1..]);
    LeaveValueTotal(b.outputs, b.txs[1..]);
    hide TransactionBalance;
    var bs := Balances(b.outputs, b.txs);
    assert bs == [coinbase] + rest && bs[1..] == rest;
    assert Pooled(TotalBalance(bs)) == Pooled(coinbase) + Pooled(TotalBalance(rest));
    hide Balances, TotalBalance, Pooled, SumBalancesFrom, PartialBalancesValid, AllProvided;
    AcceptPooled(pools, b);
  }

  lemma {:induction false} AcceptPooled(pools: ValueBalance, b: Block)
    requires ValidBalance(NonNegative, pools) && AllProvided(b.outputs, b.txs) && Accept(pools, b).Ok?
    ensures Pooled(Accept(pools, b).value) == Pooled(pools) - Pooled(TotalBalance(Balances(b.outputs, b.txs)))
  {
    hide Balances, TotalBalance, SumBalancesFrom, PartialBalancesValid, AllProvided, AddChainValuePoolChange;
    SumBalancesCorrect(NegativeAllowed, ZERO, Balances(b.outputs, b.txs));
    NegValid(b.outputs, b.txs, b.deferred);
    PoolChangeExact(pools, ChainValuePoolChange(b.outputs, b.txs, b.deferred).value);
  }

  lemma {:induction false} NoChange(outputs: Outputs, txs: seq<Transaction>)
    requires AllProvided(outputs, txs) && Balances(outputs, txs) == []
    ensures ChainValuePoolChange(outputs, txs, None) == Ok(ZERO)
  {
    hide Balances, AllProvided;
    assert SumBalances(NegativeAllowed, []) == Ok(ZERO);
  }

  lemma {:induction false} AddNothing(pools: ValueBalance)
    requires ValidBalance(NonNegative, pools)
    ensures AddChainValuePoolChange(pools, ZERO) == Ok(pools)
  {
    assert Plus(pools, ZERO) == pools;
  }

  /** A transaction that pays out twice the maximum is dropped: its block is accepted with the pools unchanged,
    * although it adds to the unspent outputs. */
  lemma {:induction false} DroppedTransaction(pools: ValueBalance, u: Unspent, txid: nat)
    requires ValidBalance(NonNegative, pools) && Fresh(u, txid)
    ensures var b := Block([V1(txid, [Coinbase], [Output(MAX_MONEY), Output(MAX_MONEY)])], map[], None);
            && CanApply(u, b.outputs, b.txs) && AllProvided(b.outputs, b.txs)
            && Accept(pools, b) == Ok(pools)
            && UnspentTotal(Apply(u, b.txs)) == UnspentTotal(u) + 2 * MAX_MONEY
  {
    hide Apply, CanApply, UnspentTotal, Balances, AllProvided, TransactionBalance, ChainValuePoolChange,
         AddChainValuePoolChange;
    var tx := V1(txid, [Coinbase], [Output(MAX_MONEY), Output(MAX_MONEY)]);
    var b := Block([tx], map[], None);
    DroppedBalance(tx);
    DroppedEffect(u, tx);
    NoChange(b.outputs, b.txs);
    AddNothing(pools);
  }

  /** A coinbase transaction that pays out more than there can be has no balance. */
  lemma {:induction false} DroppedBalance(tx: Transaction)
    requires tx.V1? && tx.inputs == [Coinbase] && tx.outputs == [Output(MAX_MONEY), Output(MAX_MONEY)]
    ensures AllProvided(map[], [tx]) && Balances(map[], [tx]) == []
    ensures TransparentChanges(map[], [tx]) == 2 * MAX_MONEY
  {
    assert OutputValues(tx.outputs) == [MAX_MONEY, MAX_MONEY] && InputValues(map[], tx.inputs) == [0];
    TwoValues(MAX_MONEY, MAX_MONEY);
    TransactionBalanceExact(map[], tx);
    hide TransactionBalance, Total;
    assert [tx][1..] == [];
  }

  lemma {:induction false} DroppedEffect(u: Unspent, tx: Transaction)
    requires tx.V1? && tx.inputs == [Coinbase] && tx.outputs == [Output(MAX_MONEY), Output(MAX_MONEY)]
    requires Fresh(u, tx.txid)
    ensures CanApply(u, map[], [tx]) && UnspentTotal(Apply(u, [tx])) == UnspentTotal(u) + 2 * MAX_MONEY
  {
    OnlyCoinbase(u, tx);
    DroppedBalance(tx);
    hide Apply, CanApply, UnspentTotal, TransparentChanges;
    ApplyTotal(u, map[], [tx]);
  }

  lemma {:induction false} OnlyCoinbase(u: Unspent, tx: Transaction)
    requires Fresh(u, tx.txid) && tx.inputs == [Coinbase]
    ensures CanApply(u, map[], [tx])
  {
    assert tx.inputs[..0] == [] && [tx][1..] == [];
    assert Spend(u, tx.inputs) == u;
    assert CanSpend(u, map[], tx.inputs[..0]);
    assert CanSpend(u, map[], tx.inputs);
  }

  lemma {:induction false} TwoValues(x: int, y: int)
    ensures Total([x, y]) == x + y && Total([0]) == 0
  {
    assert [x, y][1..] == [y] && [y][1..] == [] && [0][1..] == [];
    assert Total([y]) == y + Total([]);
  }
}
