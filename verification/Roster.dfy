/** Staking commands, and the canonical order of the roster. */
module Roster {
  import opened Options
  import opened Rewards

  datatype Kind = Add | Sub | Clear | Move | MoveClear

  datatype Action = Action(kind: Kind, val: nat, target: Key, source: Key, targetName: string, sourceName: string)

  ghost predicate DistinctKeys(vs: seq<Validator>) {
    forall i, j :: 0 <= i < j < |vs| ==> vs[i].key != vs[j].key
  }

  /** The index of the first member with a key. */
  function IndexOf(vs: seq<Validator>, key: Key): (r: Option<nat>)
    ensures r.Some? ==> r.value < |vs| && vs[r.value].key == key && forall i :: 0 <= i < r.value ==> vs[i].key != key
    ensures r.None? ==> forall i :: 0 <= i < |vs| ==> vs[i].key != key
  {
    if vs == [] then None
    else if vs[0].key == key then Some(0)
    else
      match IndexOf(vs[1..], key)
      case None => None
      case Some(i) => Some(i + 1)
  }

  /** The stake of a key; zero if it is not on the roster. */
  function Power(vs: seq<Validator>, key: Key): nat {
    match IndexOf(vs, key)
    case None => 0
    case Some(i) => vs[i].power
  }

  // -------------------------------------------------------------------------
  // Commands.

  predicate HasAdd(a: Action) {
    a.kind.Add? || a.kind.Move? || a.kind.MoveClear?
  }

  predicate IsClear(a: Action) {
    a.kind.Clear? || a.kind.MoveClear?
  }

  /** The key that a command subtracts from. */
  function SubKey(a: Action): Option<Key> {
    match a.kind
    case Add => None
    case Sub => Some(a.target)
    case Clear => Some(a.target)
    case Move => Some(a.source)
    case MoveClear => Some(a.source)
  }

  /** A command is accepted if it takes nothing, or takes from a member with enough stake. */
  predicate Accepted(vs: seq<Validator>, a: Action) {
    SubKey(a).Some? ==> IndexOf(vs, SubKey(a).value).Some? && a.val <= Power(vs, SubKey(a).value)
  }

  /** The stake that an accepted command moves; a clear leaves `val` behind. */
  function Amount(vs: seq<Validator>, a: Action): nat
    requires Accepted(vs, a)
  {
    if IsClear(a) then Power(vs, SubKey(a).value) - a.val else a.val
  }

  /** How much a command adds to the total stake. */
  function TotalChange(vs: seq<Validator>, a: Action): int {
    if !Accepted(vs, a) then 0
    else match a.kind
      case Add => a.val
      case Sub => -(a.val as int)
      case Clear => a.val - Power(vs, a.target)
      case Move => 0
      case MoveClear => 0
  }

  /** The members and the names they were added under. */
  datatype Members = Members(vs: seq<Validator>, names: map<Key, string>)

  function WithPower(vs: seq<Validator>, i: nat, power: nat): seq<Validator>
    requires i < |vs|
  {
    vs[i := vs[i].(power := power)]
  }

  /** Adds stake to a member, or a new member at the end. */
  function AddStake(m: Members, key: Key, amount: nat, name: string): Members {
    match IndexOf(m.vs, key)
    case Some(i) => m.(vs := WithPower(m.vs, i, m.vs[i].power + amount))
    case None => Members(m.vs + [Validator(key, amount)], m.names[key := name])
  }

  function TakeStake(vs: seq<Validator>, key: Key, amount: nat): seq<Validator>
    requires IndexOf(vs, key).Some? && amount <= Power(vs, key)
  {
    var i := IndexOf(vs, key).value;
    WithPower(vs, i, vs[i].power - amount)
  }

  /** The roster after a command. */
  function Command(m: Members, a: Action): Members {
    if !Accepted(m.vs, a) then m
    else
      var amount := Amount(m.vs, a);
      var taken := if SubKey(a).Some? then m.(vs := TakeStake(m.vs, SubKey(a).value, amount)) else m;
      if HasAdd(a) then AddStake(taken, a.target, amount, a.targetName) else taken
  }

  /** The addition of a command stays within a `u64`. */
  predicate CommandFits(m: Members, a: Action) {
    Accepted(m.vs, a) && HasAdd(a) ==> Power(Command(m, a).vs, a.target) < U64_LIMIT
  }

  lemma {:induction false} TotalUpdate(vs: seq<Validator>, i: nat, power: nat)
    requires i < |vs|
    ensures Total(WithPower(vs, i, power)) == Total(vs) - vs[i].power + power
  {
    var n, vs' := |vs| - 1, WithPower(vs, i, power);
    if i < n {
      TotalUpdate(vs[..n], i, power);
      assert vs'[..n] == WithPower(vs[..n], i, power);
    } else {
      assert vs'[..n] == vs[..n];
    }
  }

  /** Changing the stake at the first index of a key changes the stake of that key only. */
  lemma {:induction false} PowerUpdate(vs: seq<Validator>, i: nat, power: nat, k: Key)
    requires i < |vs| && IndexOf(vs, vs[i].key) == Some(i)
    ensures var vs' := WithPower(vs, i, power);
            IndexOf(vs', k) == IndexOf(vs, k) && Power(vs', k) == if k == vs[i].key then power else Power(vs, k)
  {
    var vs' := WithPower(vs, i, power);
    SameKeysSameIndex(vs, vs', k);
    SameKeysSameIndex(vs, vs', vs[i].key);
  }

  lemma {:induction false} SameKeysSameIndex(vs: seq<Validator>, vs': seq<Validator>, k: Key)
    requires |vs| == |vs'| && forall i :: 0 <= i < |vs| ==> vs'[i].key == vs[i].key
    ensures IndexOf(vs', k) == IndexOf(vs, k)
  {
    var a, b := IndexOf(vs, k), IndexOf(vs', k);
    if a.Some? {
      assert vs'[a.value].key == k;
    }
    if b.Some? {
      assert vs[b.value].key == k;
    }
  }

  lemma {:induction false} PowerAppend(vs: seq<Validator>, v: Validator, k: Key)
    requires IndexOf(vs, v.key).None?
    ensures Power(vs + [v], k) == if k == v.key then v.power else Power(vs, k)
    ensures Total(vs + [v]) == Total(vs) + v.power
  {
    var vs' := vs + [v];
    assert vs'[..|vs|] == vs;
    var a, b := IndexOf(vs, k), IndexOf(vs', k);
    assert vs'[|vs|] == v;
    if a.Some? {
      assert vs'[a.value] == vs[a.value];
    }
  }

  lemma {:induction false} TakeStakeEffect(vs: seq<Validator>, key: Key, amount: nat)
    requires IndexOf(vs, key).Some? && amount <= Power(vs, key)
    ensures var vs' := TakeStake(vs, key, amount);
            && |vs'| == |vs| && (forall i :: 0 <= i < |vs| ==> vs'[i].key == vs[i].key)
            && Total(vs') == Total(vs) - amount
            && forall k ::
                 && IndexOf(vs', k) == IndexOf(vs, k)
                 && Power(vs', k) == Power(vs, k) - if k == key then amount else 0
  {
    var i := IndexOf(vs, key).value;
    var vs' := WithPower(vs, i, vs[i].power - amount);
    assert TakeStake(vs, key, amount) == vs' && Power(vs, key) == vs[i].power;
    TotalUpdate(vs, i, vs[i].power - amount);
    hide TakeStake, Total, IndexOf, Power;
    forall k
      ensures IndexOf(vs', k) == IndexOf(vs, k)
      ensures Power(vs', k) == Power(vs, k) - if k == key then amount else 0
    {
      PowerUpdate(vs, i, vs[i].power - amount, k);
    }
  }

  lemma {:induction false} AddStakeEffect(m: Members, key: Key, amount: nat, name: string)
    ensures var m' := AddStake(m, key, amount, name);
            && |m'.vs| == |m.vs| + (if IndexOf(m.vs, key).None? then 1 else 0)
            && (forall i :: 0 <= i < |m'.vs| ==> m'.vs[i].key == if i < |m.vs| then m.vs[i].key else key)
            && m'.names == (if IndexOf(m.vs, key).None? then m.names[key := name] else m.names)
            && Total(m'.vs) == Total(m.vs) + amount
            && forall k :: Power(m'.vs, k) == Power(m.vs, k) + if k == key then amount else 0
  {
    var m' := AddStake(m, key, amount, name);
    match IndexOf(m.vs, key)
    case Some(i) =>
      TotalUpdate(m.vs, i, m.vs[i].power + amount);
      assert m'.vs == WithPower(m.vs, i, m.vs[i].power + amount) && Power(m.vs, key) == m.vs[i].power;
      hide AddStake, Total, IndexOf, Power;
      forall k ensures Power(m'.vs, k) == Power(m.vs, k) + if k == key then amount else 0 {
        PowerUpdate(m.vs, i, m.vs[i].power + amount, k);
      }
    case None =>
      var v := Validator(key, amount);
      PowerAppend(m.vs, v, key);
      assert m'.vs == m.vs + [v] && Power(m.vs, key) == 0;
      hide AddStake, Total, IndexOf, Power;
      forall k ensures Power(m'.vs, k) == Power(m.vs, k) + if k == key then amount else 0 {
        PowerAppend(m.vs, v, k);
      }
  }

  /** The effect of a command, key by key: what it takes from one member it adds to another, nobody else
    * is affected, no member leaves, and at most the target joins. */
  lemma {:induction false} CommandEffect(m: Members, a: Action)
    ensures var m' := Command(m, a);
            && (!Accepted(m.vs, a) ==> m' == m)
            && Total(m'.vs) == Total(m.vs) + TotalChange(m.vs, a)
            && (Accepted(m.vs, a) ==> forall k ::
                  Power(m'.vs, k) == Power(m.vs, k) - (if SubKey(a) == Some(k) then Amount(m.vs, a) else 0)
                                                    + (if HasAdd(a) && k == a.target then Amount(m.vs, a) else 0))
            && |m.vs| <= |m'.vs| <= |m.vs| + 1
            && (forall i :: 0 <= i < |m'.vs| ==> m'.vs[i].key == if i < |m.vs| then m.vs[i].key else a.target)
            && (|m'.vs| == |m.vs| + 1 ==> IndexOf(m.vs, a.target).None?)
            && m'.names == if |m'.vs| == |m.vs| + 1 then m.names[a.target := a.targetName] else m.names
  {
    hide IndexOf, Total, TakeStake, AddStake;
    if Accepted(m.vs, a) {
      var amount := Amount(m.vs, a);
      var taken := m;
      if SubKey(a).Some? {
        TakeStakeEffect(m.vs, SubKey(a).value, amount);
        taken := m.(vs := TakeStake(m.vs, SubKey(a).value, amount));
      }
      if HasAdd(a) {
        AddStakeEffect(taken, a.target, amount, a.targetName);
      }
    }
  }

  ghost predicate OnRoster(vs: seq<Validator>, key: Key) {
    exists i :: 0 <= i < |vs| && vs[i].key == key
  }

  /** A member has at least the given stake. */
  ghost predicate Holds(vs: seq<Validator>, key: Key, val: nat) {
    OnRoster(vs, key) && val <= Power(vs, key)
  }

  /** Stake can always be added; it can be taken or moved only from a member that has as much. A clear needs that too,
    * because it leaves `val` behind. */
  ghost predicate Allowed(vs: seq<Validator>, a: Action) {
    match a.kind
    case Add => true
    case Sub => Holds(vs, a.target, a.val)
    case Clear => Holds(vs, a.target, a.val)
    case Move => Holds(vs, a.source, a.val)
    case MoveClear => Holds(vs, a.source, a.val)
  }

  /** The stake of a key after an allowed command, kind by kind. */
  ghost function PowerAfter(vs: seq<Validator>, a: Action, k: Key): int {
    var power := Power(vs, k);
    match a.kind
    case Add => if k == a.target then power + a.val else power
    case Sub => if k == a.target then power - a.val else power
    case Clear => if k == a.target then a.val else power
    case Move =>
      if a.source == a.target then power
      else if k == a.source then power - a.val
      else if k == a.target then power + a.val
      else power
    case MoveClear =>
      if a.source == a.target then power
      else if k == a.source then a.val
      else if k == a.target then power + Power(vs, a.source) - a.val
      else power
  }

  /** What a command does to the members. A target that stake is added or moved to joins if it is not there. */
  ghost predicate Performs(m: Members, a: Action, m': Members) {
    if !Allowed(m.vs, a) then m' == m
    else
      && (forall k :: Power(m'.vs, k) == PowerAfter(m.vs, a, k))
      && (|m'.vs| == |m.vs| + 1 <==> (a.kind.Add? || a.kind.Move? || a.kind.MoveClear?) && !OnRoster(m.vs, a.target))
      && (forall k :: OnRoster(m'.vs, k) <==> OnRoster(m.vs, k) || (|m'.vs| == |m.vs| + 1 && k == a.target))
  }

  lemma {:induction false} OnRosterIndex(vs: seq<Validator>, key: Key)
    ensures OnRoster(vs, key) <==> IndexOf(vs, key).Some?
  {
  }

  lemma {:induction false} AcceptedIfAllowed(vs: seq<Validator>, a: Action)
    ensures Accepted(vs, a) <==> Allowed(vs, a)
  {
    OnRosterIndex(vs, a.target);
    OnRosterIndex(vs, a.source);
    hide IndexOf, Power, OnRoster;
  }

  /** The effect of every command, kind by kind. */
  lemma {:induction false} CommandByKind(m: Members, a: Action)
    ensures Performs(m, a, Command(m, a))
    ensures Accepted(m.vs, a) <==> Allowed(m.vs, a)
  {
    AcceptedIfAllowed(m.vs, a);
    CommandEffect(m, a);
    if Allowed(m.vs, a) {
      var m' := Command(m, a);
      PowersByKind(m, a);
      JoinsByKind(m, a);
      hide Command, Allowed, PowerAfter, OnRoster, IndexOf, Power;
    }
  }

  lemma {:induction false} PowersByKind(m: Members, a: Action)
    requires Accepted(m.vs, a)
    ensures forall k :: Power(Command(m, a).vs, k) == PowerAfter(m.vs, a, k)
  {
    CommandEffect(m, a);
    hide Command, IndexOf, Power;
  }

  lemma {:induction false} JoinsByKind(m: Members, a: Action)
    requires Accepted(m.vs, a)
    ensures var m' := Command(m, a);
            && (|m'.vs| == |m.vs| + 1 <==>
                  (a.kind.Add? || a.kind.Move? || a.kind.MoveClear?) && !OnRoster(m.vs, a.target))
            && forall k :: OnRoster(m'.vs, k) <==> OnRoster(m.vs, k) || (|m'.vs| == |m.vs| + 1 && k == a.target)
  {
    CommandEffect(m, a);
    OnRosterIndex(m.vs, a.target);
    JoinedLength(m, a);
    var m' := Command(m, a);
    hide Command, IndexOf, Power;
    forall k ensures OnRoster(m'.vs, k) <==> OnRoster(m.vs, k) || (|m'.vs| == |m.vs| + 1 && k == a.target) {
      if i :| 0 <= i < |m.vs| && m.vs[i].key == k {
        assert m'.vs[i].key == k;
      }
      if |m'.vs| == |m.vs| + 1 {
        assert m'.vs[|m.vs|].key == a.target;
      }
    }
  }

  lemma {:induction false} JoinedLength(m: Members, a: Action)
    requires Accepted(m.vs, a)
    ensures |Command(m, a).vs| == |m.vs| + if HasAdd(a) && IndexOf(m.vs, a.target).None? then 1 else 0
  {
    if SubKey(a).Some? {
      TakeStakeEffect(m.vs, SubKey(a).value, Amount(m.vs, a));
    }
    hide IndexOf, Power;
  }

  /** Moving stake conserves the total, also when source and target are the same. */
  lemma {:induction false} MoveConserves(m: Members, a: Action)
    requires Accepted(m.vs, a) && (a.kind.Move? || a.kind.MoveClear?)
    ensures var m' := Command(m, a);
            && Total(m'.vs) == Total(m.vs)
            && Power(m'.vs, a.source) + Power(m'.vs, a.target) == Power(m.vs, a.source) + Power(m.vs, a.target)
            && (a.source == a.target ==> forall k :: Power(m'.vs, k) == Power(m.vs, k))
            && (a.kind.MoveClear? && a.source != a.target ==> Power(m'.vs, a.source) == a.val)
  {
    CommandEffect(m, a);
    hide Command, IndexOf;
  }

  /** Distinct keys stay distinct. */
  lemma {:induction false} CommandKeepsKeysDistinct(m: Members, a: Action)
    requires DistinctKeys(m.vs)
    ensures DistinctKeys(Command(m, a).vs)
  {
    CommandEffect(m, a);
    hide Command;
  }

  /** Applies one staking command. Returns the number of commands applied. */
  method UpdateRosterForCmd(m: Members, action: Action) returns (m': Members, count: nat, fits: bool)
    ensures m' == Command(m, action) && count == if Accepted(m.vs, action) then 1 else 0
    ensures fits <==> CommandFits(m, action)
    ensures Performs(m, action, m') && count == if Allowed(m.vs, action) then 1 else 0
  {
    CommandByKind(m, action);
    hide Performs, Allowed;
    var roster, names := m.vs, m.names;
    var amount := action.val;
    var subKey := SubKey(action);
    if subKey.Some? {
      var member := IndexOf(roster, subKey.value);
      if member.None? {
        return m, 0, true;
      }
      var power := roster[member.value].power;
      if power < action.val {
        return m, 0, true;
      }
      if IsClear(action) {
        amount := power - action.val;
      }
      roster := WithPower(roster, member.value, power - amount);
    }
    if HasAdd(action) {
      m', fits := AddToRoster(Members(roster, names), action.target, amount, action.targetName);
      return m', 1, fits;
    }
    return Members(roster, names), 1, true;
  }

  /** Adds stake to a member, which is put at the end of the roster if it is not there. */
  method AddToRoster(m: Members, key: Key, amount: nat, name: string) returns (m': Members, fits: bool)
    ensures m' == AddStake(m, key, amount, name) && (fits <==> Power(m'.vs, key) < U64_LIMIT)
  {
    var member := IndexOf(m.vs, key);
    if member.Some? {
      var power := m.vs[member.value].power + amount;
      PowerUpdate(m.vs, member.value, power, key);
      return m.(vs := WithPower(m.vs, member.value, power)), power < U64_LIMIT;
    }
    PowerAppend(m.vs, Validator(key, amount), key);
    return Members(m.vs + [Validator(key, amount)], m.names[key := name]), amount < U64_LIMIT;
  }

  // -------------------------------------------------------------------------
  // Blocks.

  /** The roster after the staking commands of a block. Transactions without a command do nothing. */
  function Commands(m: Members, txs: seq<Option<Action>>): Members {
    if txs == [] then m
    else
      var before := Commands(m, txs[..|txs| - 1]);
      match txs[|txs| - 1]
      case None => before
      case Some(a) => Command(before, a)
  }

  /** The stake added and removed by the commands of a block. */
  ghost function CommandsChange(m: Members, txs: seq<Option<Action>>): int {
    if txs == [] then 0
    else
      CommandsChange(m, txs[..|txs| - 1]) +
      match txs[|txs| - 1]
      case None => 0
      case Some(a) => TotalChange(Commands(m, txs[..|txs| - 1]).vs, a)
  }

  ghost function AcceptedCount(m: Members, txs: seq<Option<Action>>): nat {
    if txs == [] then 0
    else
      AcceptedCount(m, txs[..|txs| - 1]) +
      match txs[|txs| - 1]
      case None => 0
      case Some(a) => if Accepted(Commands(m, txs[..|txs| - 1]).vs, a) then 1 else 0
  }

  /** Every addition of the commands of a block stays within a `u64`. */
  ghost predicate CommandsFit(m: Members, txs: seq<Option<Action>>) {
    forall i :: 0 <= i < |txs| && txs[i].Some? ==> CommandFits(Commands(m, txs[..i]), txs[i].value)
  }

  /** They do if the total stake does after each of them. */
  lemma {:induction false} FitsIfTotalFits(m: Members, txs: seq<Option<Action>>)
    requires forall n :: 0 <= n <= |txs| ==> Total(Commands(m, txs[..n]).vs) < U64_LIMIT
    ensures CommandsFit(m, txs)
  {
    hide Command, Accepted;
    forall i | 0 <= i < |txs| && txs[i].Some? ensures CommandFits(Commands(m, txs[..i]), txs[i].value) {
      assert txs[..i + 1][..i] == txs[..i];
      var after := Commands(m, txs[..i + 1]).vs;
      assert after == Command(Commands(m, txs[..i]), txs[i].value).vs && Total(after) < U64_LIMIT;
      PowerFits(after, txs[i].value.target);
    }
  }

  lemma {:induction false} PowerFits(vs: seq<Validator>, key: Key)
    ensures Power(vs, key) <= Total(vs)
  {
    var i := IndexOf(vs, key);
    if i.Some? {
      PowerAtMostTotal(vs, i.value);
    }
  }

  method UpdateRosterForBlock(m: Members, txs: seq<Option<Action>>) returns (m': Members, count: nat, fits: bool)
    ensures m' == Commands(m, txs) && count == AcceptedCount(m, txs) && (fits <==> CommandsFit(m, txs))
  {
    hide Command, Accepted, CommandFits;
    m', count, fits := m, 0, true;
    for i := 0 to |txs|
      invariant m' == Commands(m, txs[..i]) && count == AcceptedCount(m, txs[..i])
      invariant fits <==> forall j :: 0 <= j < i && txs[j].Some? ==> CommandFits(Commands(m, txs[..j]), txs[j].value)
    {
      assert txs[..i + 1][..i] == txs[..i];
      if txs[i].Some? {
        var n, fit;
        m', n, fit := UpdateRosterForCmd(m', txs[i].value);
        count, fits := count + n, fits && fit;
      }
    }
    assert txs[..|txs|] == txs;
  }

  lemma {:induction false} CommandsTotal(m: Members, txs: seq<Option<Action>>)
    ensures Total(Commands(m, txs).vs) == Total(m.vs) + CommandsChange(m, txs)
    ensures DistinctKeys(m.vs) ==> DistinctKeys(Commands(m, txs).vs)
  {
    hide Command, Total, TotalChange, DistinctKeys;
    if txs == [] {
    } else {
      var init, last := txs[..|txs| - 1], txs[|txs| - 1];
      CommandsTotal(m, init);
      if last.Some? {
        CommandEffect(Commands(m, init), last.value);
        if DistinctKeys(m.vs) { CommandKeepsKeysDistinct(Commands(m, init), last.value); }
      }
    }
  }

  // -------------------------------------------------------------------------
  // The canonical roster.

  datatype Member = Member(key: Key, stake: nat, cumulativeStake: nat)

  /** Strictly before in the canonical order: larger stake first, then larger key. */
  predicate Before(a: Validator, b: Validator) {
    a.power > b.power || (a.power == b.power && a.key > b.key)
  }

  function Insert(v: Validator, vs: seq<Validator>): seq<Validator> {
    if vs == [] || !Before(vs[0], v) then [v] + vs else [vs[0]] + Insert(v, vs[1..])
  }

  /** The members sorted into canonical order. */
  function Sort(vs: seq<Validator>): seq<Validator> {
    if vs == [] then [] else Insert(vs[0], Sort(vs[1..]))
  }

  ghost predicate Sorted(vs: seq<Validator>) {
    forall i, j :: 0 <= i < j < |vs| ==> !Before(vs[j], vs[i])
  }

  lemma {:induction false} InsertCorrect(v: Validator, vs: seq<Validator>)
    requires Sorted(vs)
    ensures Sorted(Insert(v, vs)) && multiset(Insert(v, vs)) == multiset(vs) + multiset{v}
  {
    if vs == [] || !Before(vs[0], v) {
      assert multiset([v] + vs) == multiset{v} + multiset(vs);
    } else {
      var tail := Insert(v, vs[1..]);
      InsertCorrect(v, vs[1..]);
      assert vs == [vs[0]] + vs[1..];
      assert multiset([vs[0]] + tail) == multiset{vs[0]} + multiset(tail);
      NotBeforeHead(v, vs, tail);
      ConsSorted(vs[0], tail);
      hide Sorted, Before;
    }
  }

  lemma {:induction false} NotBeforeHead(v: Validator, vs: seq<Validator>, tail: seq<Validator>)
    requires vs != [] && Sorted(vs) && Before(vs[0], v) && multiset(tail) == multiset(vs[1..]) + multiset{v}
    ensures forall x :: x in tail ==> !Before(x, vs[0])
  {
    forall x | x in tail ensures !Before(x, vs[0]) {
      assert x in multiset(tail);
      if x in vs[1..] {
        var j :| 0 <= j < |vs[1..]| && vs[1..][j] == x;
        assert vs[j + 1] == x;
      }
    }
  }

  lemma {:induction false} ConsSorted(v: Validator, vs: seq<Validator>)
    requires Sorted(vs) && forall x :: x in vs ==> !Before(x, v)
    ensures Sorted([v] + vs)
  {
    var s := [v] + vs;
    forall i, j | 0 <= i < j < |s| ensures !Before(s[j], s[i]) {
      assert s[j] == vs[j - 1];
      if i > 0 {
        assert s[i] == vs[i - 1];
      }
    }
  }

  lemma {:induction false} SortCorrect(vs: seq<Validator>)
    ensures Sorted(Sort(vs)) && multiset(Sort(vs)) == multiset(vs)
  {
    if vs == [] {
    } else {
      SortCorrect(vs[1..]);
      InsertCorrect(vs[0], Sort(vs[1..]));
      assert vs == [vs[0]] + vs[1..];
    }
  }

  /** The canonical order is total, so a sorted sequence is determined by its elements. */
  lemma {:induction false} SortedUnique(a: seq<Validator>, b: seq<Validator>)
    requires Sorted(a) && Sorted(b) && multiset(a) == multiset(b)
    ensures a == b
  {
    hide Sorted, Before;
    SameLength(a, b);
    if a == [] {
    } else {
      SameHead(a, b);
      SortedTail(a);
      SortedTail(b);
      SortedUnique(a[1..], b[1..]);
      assert a == [a[0]] + a[1..] && b == [b[0]] + b[1..];
    }
  }

  lemma {:induction false} SameLength(a: seq<Validator>, b: seq<Validator>)
    requires multiset(a) == multiset(b)
    ensures |a| == |b|
  {
    assert |a| == |multiset(a)| == |multiset(b)| == |b|;
  }

  lemma {:induction false} SameHead(a: seq<Validator>, b: seq<Validator>)
    requires Sorted(a) && Sorted(b) && multiset(a) == multiset(b) && a != [] && b != []
    ensures a[0] == b[0]
  {
    SortedHead(a, b);
    SortedHead(b, a);
  }

  lemma {:induction false} SortedTail(a: seq<Validator>)
    requires Sorted(a) && a != []
    ensures Sorted(a[1..]) && multiset(a[1..]) == multiset(a) - multiset{a[0]}
  {
    assert a == [a[0]] + a[1..];
  }

  lemma {:induction false} SortedHead(a: seq<Validator>, b: seq<Validator>)
    requires Sorted(b) && multiset(a) == multiset(b) && a != [] && b != []
    ensures !Before(a[0], b[0])
  {
    assert a[0] in multiset(b);
    var i :| 0 <= i < |b| && b[i] == a[0];
    if i > 0 {
      assert !Before(b[i], b[0]);
    }
  }

  ghost function Canonical(vs: seq<Validator>): seq<Member> {
    var sorted := Sort(vs);
    seq(|sorted|, i requires 0 <= i < |sorted| => Member(sorted[i].key, sorted[i].power, Total(sorted[..i + 1])))
  }

  /** The members without the running totals. */
  function Stakes(ms: seq<Member>): (vs: seq<Validator>)
    ensures |vs| == |ms| && forall i :: 0 <= i < |ms| ==> vs[i] == Validator(ms[i].key, ms[i].stake)
  {
    seq(|ms|, i requires 0 <= i < |ms| => Validator(ms[i].key, ms[i].stake))
  }

  /** Larger stakes come first, and larger keys among equal stakes. */
  ghost predicate LargestFirst(ms: seq<Member>) {
    forall i, j :: 0 <= i < j < |ms| ==>
      ms[i].stake > ms[j].stake || (ms[i].stake == ms[j].stake && ms[i].key >= ms[j].key)
  }

  /** The roster handed to the BFT layer: the members, larger stakes and then larger keys first, with running totals of
    * stake. These stay within a `u64` exactly if the total does. */
  method RosterFromInternal(vals: seq<Validator>) returns (ret: seq<Member>, fits: bool)
    ensures ret == Canonical(vals) && (fits <==> Total(vals) < U64_LIMIT)
    ensures multiset(Stakes(ret)) == multiset(vals) && LargestFirst(ret) && Cumulative(ret)
    ensures DistinctKeys(vals) ==> forall i, j :: 0 <= i < j < |ret| ==> ret[i].key != ret[j].key
  {
    CanonicalCorrect(vals);
    SortCorrect(vals);
    hide Sort, Sorted, Total, LargestFirst, Before, Cumulative;
    var sorted := Sort(vals);
    TotalOfPermutation(sorted, vals);
    ret, fits := RunningTotals(sorted);
    assert ret == Canonical(vals);
  }

  method RunningTotals(sorted: seq<Validator>) returns (ret: seq<Member>, fits: bool)
    ensures |ret| == |sorted| && (fits <==> Total(sorted) < U64_LIMIT)
    ensures forall i :: 0 <= i < |ret| ==> ret[i] == Member(sorted[i].key, sorted[i].power, Total(sorted[..i + 1]))
  {
    var cumulativeStake := 0;
    ret, fits := [], true;
    for i := 0 to |sorted|
      invariant fits <==> cumulativeStake < U64_LIMIT
      invariant |ret| == i && cumulativeStake == Total(sorted[..i])
      invariant forall j :: 0 <= j < i ==> ret[j] == Member(sorted[j].key, sorted[j].power, Total(sorted[..j + 1]))
    {
      assert sorted[..i + 1][..i] == sorted[..i];
      cumulativeStake := cumulativeStake + sorted[i].power;
      fits := fits && cumulativeStake < U64_LIMIT;
      ret := ret + [Member(sorted[i].key, sorted[i].power, cumulativeStake)];
    }
    assert sorted[..|sorted|] == sorted;
  }

  /** Everyone with the same members has the same roster, in whatever order they learned of them. */
  lemma {:induction false} CanonicalIgnoresOrder(a: seq<Validator>, b: seq<Validator>)
    requires multiset(a) == multiset(b)
    ensures Canonical(a) == Canonical(b)
  {
    SortCorrect(a);
    SortCorrect(b);
    SortedUnique(Sort(a), Sort(b));
  }

  lemma {:induction false} TotalOfPermutation(a: seq<Validator>, b: seq<Validator>)
    requires multiset(a) == multiset(b)
    ensures Total(a) == Total(b)
  {
    assert |a| == |multiset(a)| == |multiset(b)| == |b|;
    if a == [] {
    } else {
      var n := |a| - 1;
      assert a[n] in multiset(b);
      var i :| 0 <= i < |b| && b[i] == a[n];
      RemoveAt(a, n);
      RemoveAt(b, i);
      assert a[..n] + a[n + 1..] == a[..n];
      TotalOfPermutation(a[..n], b[..i] + b[i + 1..]);
    }
  }

  lemma {:induction false} RemoveAt(vs: seq<Validator>, i: nat)
    requires i < |vs|
    ensures multiset(vs[..i] + vs[i + 1..]) == multiset(vs) - multiset{vs[i]}
    ensures Total(vs) == Total(vs[..i] + vs[i + 1..]) + vs[i].power
  {
    var head := vs[..i] + [vs[i]];
    assert vs == head + vs[i + 1..];
    assert head[..i] == vs[..i];
    TotalSplit(head, vs[i + 1..]);
    TotalSplit(vs[..i], vs[i + 1..]);
  }

  lemma {:induction false} TotalSplit(a: seq<Validator>, b: seq<Validator>)
    ensures Total(a + b) == Total(a) + Total(b)
  {
    if b != [] {
      var n := |b| - 1;
      TotalSplit(a, b[..n]);
      assert (a + b)[..|a| + n] == a + b[..n];
    } else {
      assert a + b == a;
    }
  }

  /** The canonical roster lists exactly the members, larger stakes and then larger keys first, strictly so if keys are
    * distinct, and its cumulative stakes run up to the total. */
  lemma {:induction false} CanonicalCorrect(vs: seq<Validator>)
    ensures var ms := Canonical(vs);
            && multiset(Stakes(ms)) == multiset(vs) && Sorted(Stakes(ms)) && LargestFirst(ms)
            && (DistinctKeys(vs) ==> DistinctKeys(Stakes(ms)))
            && (forall i :: 0 <= i < |ms| ==> ms[i].cumulativeStake == Total(Stakes(ms)[..i + 1]))
            && Cumulative(ms)
            && (ms != [] ==> ms[|ms| - 1].cumulativeStake == Total(vs))
  {
    hide Sort, DistinctKeys, Sorted, Total;
    var sorted, ms := Sort(vs), Canonical(vs);
    SortCorrect(vs);
    assert Stakes(ms) == sorted;
    SortedLargestFirst(ms);
    RunningSums(ms);
    TotalOfPermutation(sorted, vs);
    assert sorted[..|sorted|] == sorted;
    if DistinctKeys(vs) {
      DistinctKeysPermutation(vs, sorted);
    }
  }

  lemma {:induction false} SortedLargestFirst(ms: seq<Member>)
    requires Sorted(Stakes(ms))
    ensures LargestFirst(ms)
  {
    var vs := Stakes(ms);
    forall i, j | 0 <= i < j < |ms|
      ensures ms[i].stake > ms[j].stake || (ms[i].stake == ms[j].stake && ms[i].key >= ms[j].key)
    {
      assert !Before(vs[j], vs[i]);
    }
  }

  /** Each cumulative stake adds one stake to the one before. */
  ghost predicate Cumulative(ms: seq<Member>) {
    forall i :: 0 <= i < |ms| ==>
      ms[i].cumulativeStake == ms[i].stake + if i == 0 then 0 else ms[i - 1].cumulativeStake
  }

  lemma {:induction false} RunningSums(ms: seq<Member>)
    requires forall i :: 0 <= i < |ms| ==> ms[i].cumulativeStake == Total(Stakes(ms)[..i + 1])
    ensures Cumulative(ms)
  {
    var vs := Stakes(ms);
    forall i | 0 <= i < |ms|
      ensures ms[i].cumulativeStake == ms[i].stake + if i == 0 then 0 else ms[i - 1].cumulativeStake
    {
      assert vs[..i + 1][..i] == vs[..i];
      assert ms[i].cumulativeStake == Total(vs[..i]) + vs[i].power;
      if i > 0 {
        assert ms[i - 1].cumulativeStake == Total(vs[..i - 1 + 1]);
      }
    }
  }

  /** With distinct keys the canonical order is strict. */
  lemma {:induction false} SortedStrictly(vs: seq<Validator>, i: nat, j: nat)
    requires Sorted(vs) && DistinctKeys(vs) && i < j < |vs|
    ensures Before(vs[i], vs[j])
  {
  }

  lemma {:induction false} DistinctKeysPermutation(a: seq<Validator>, b: seq<Validator>)
    requires DistinctKeys(a) && multiset(a) == multiset(b)
    ensures DistinctKeys(b)
  {
    forall i, j | 0 <= i < j < |b| ensures b[i].key != b[j].key {
      assert b[i] in multiset(a) && b[j] in multiset(a);
      var k :| 0 <= k < |a| && a[k] == b[i];
      var l :| 0 <= l < |a| && a[l] == b[j];
      OnceIfDistinct(a, k);
      TwiceIfRepeated(b, i, j);
    }
  }

  lemma {:induction false} OnceIfDistinct(vs: seq<Validator>, k: nat)
    requires DistinctKeys(vs) && k < |vs|
    ensures multiset(vs)[vs[k]] == 1
  {
    assert vs == vs[..k] + [vs[k]] + vs[k + 1..];
    assert vs[k] !in vs[..k] && vs[k] !in vs[k + 1..];
  }

  lemma {:induction false} TwiceIfRepeated(vs: seq<Validator>, i: nat, j: nat)
    requires i < j < |vs|
    ensures vs[i] == vs[j] ==> multiset(vs)[vs[i]] >= 2
  {
    assert vs == vs[..i] + [vs[i]] + vs[i + 1..j] + [vs[j]] + vs[j + 1..];
  }
}
