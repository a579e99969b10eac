/**
 * The assets of a running contract: balances fetched on demand into a cache, spent by
 * transfers and burns, logged as outputs and aggregated per destination by a tracker.
 */
module ContractLedger {
  import opened Base

  type Hash = seq<Byte>
  type Key = seq<Byte>

  /** Where a cached value stands with respect to the storage. */
  datatype VersionedState = New | FetchedAt(topoheight: nat) | Updated(topoheight: nat)

  predicate ShouldBeStored(v: VersionedState) {
    !v.FetchedAt?
  }

  function GetTopoheight(v: VersionedState): Option<nat> {
    match v
    case FetchedAt(t) => Some(t)
    case Updated(t) => Some(t)
    case New => None
  }

  function MarkUpdated(v: VersionedState): (r: VersionedState)
    ensures ShouldBeStored(r) && GetTopoheight(r) == GetTopoheight(v) && (r.New? <==> v.New?)
  {
    match v
    case FetchedAt(t) => Updated(t)
    case _ => v
  }

  type Balance = Option<(VersionedState, U64)>

  datatype Output =
    | Transfer(destination: Key, amount: U64, asset: Hash)
    | Burn(asset: Hash, amount: U64)

  datatype Error = ProviderError | GasError

  /** What the storage holds for an asset of this contract at this topoheight. */
  type Provider = Hash -> Result<Option<(nat, U64)>, Error>

  datatype Address = Address(mainnet: bool, normal: bool, key: Key)

  type Tracker = map<Key, map<Hash, U64>>

  datatype State = State(balances: map<Hash, Balance>, transfers: Tracker, outputs: seq<Output>)

  function FromProvider(p: Provider, asset: Hash): Result<Balance, Error> {
    match p(asset)
    case Err(e) => Err(e)
    case Ok(None) => Ok(None)
    case Ok(Some((topo, amount))) => Ok(Some((FetchedAt(topo), amount)))
  }

  /** A cached balance, fetched first if it is not there yet. */
  function Load(p: Provider, s: State, asset: Hash): (Result<Balance, Error>, State) {
    if asset in s.balances then (Ok(s.balances[asset]), s)
    else
      match FromProvider(p, asset)
      case Err(e) => (Err(e), s)
      case Ok(b) => (Ok(b), s.(balances := s.balances[asset := b]))
  }

  /** Add to the tracker; the addition is on `u64` and wraps. */
  function Track(t: Tracker, key: Key, asset: Hash, amount: U64): Tracker {
    var mine: map<Hash, U64> := if key in t then t[key] else map[];
    var total: U64 := if asset in mine then (mine[asset] + amount) % TWO_64 else amount;
    t[key := mine[asset := total]]
  }

  /** Take `amount` of a loaded balance out of the cache, if it covers a positive amount. */
  function Debit(s: State, asset: Hash, amount: U64): Option<State> {
    if asset !in s.balances || s.balances[asset].None? then None
    else
      var (state, balance) := s.balances[asset].value;
      if balance < amount || amount == 0 then None
      else Some(s.(balances := s.balances[asset := Some((MarkUpdated(state), balance - amount))]))
  }

  datatype Call =
    | TransferCall(destination: Address, amount: U64, asset: Hash, known: Result<bool, Error>, gasLeft: bool)
    | BurnCall(amount: U64, asset: Hash)
    | BalanceCall(asset: Hash)

  datatype Reply = Answer(accepted: bool) | Amount(balance: Option<U64>) | Failed(error: Error)

  function Spend(p: Provider, s: State, asset: Hash, amount: U64): (Result<bool, Error>, State) {
    var (loaded, s1) := Load(p, s, asset);
    match loaded
    case Err(e) => (Err(e), s1)
    case Ok(_) =>
      match Debit(s1, asset, amount)
      case None => (Ok(false), s1)
      case Some(s2) => (Ok(true), s2)
  }

  function Execute(p: Provider, mainnet: bool, s: State, c: Call): (Reply, State) {
    match c
    case BalanceCall(asset) =>
      (match Load(p, s, asset)
       case (Err(e), s1) => (Failed(e), s1)
       case (Ok(b), s1) => (Amount(if b.Some? then Some(b.value.1) else None), s1))
    case BurnCall(amount, asset) =>
      (match Spend(p, s, asset, amount)
       case (Err(e), s1) => (Failed(e), s1)
       case (Ok(false), s1) => (Answer(false), s1)
       case (Ok(true), s1) => (Answer(true), s1.(outputs := s1.outputs + [Burn(asset, amount)])))
    case TransferCall(to, amount, asset, known, gasLeft) =>
      if !to.normal then (Answer(false), s)
      else if known.Err? then (Failed(known.error), s)
      else if !known.value && !gasLeft then (Failed(GasError), s)
      else if to.mainnet != mainnet then (Answer(false), s)
      else
        match Spend(p, s, asset, amount)
        case (Err(e), s1) => (Failed(e), s1)
        case (Ok(false), s1) => (Answer(false), s1)
        case (Ok(true), s1) =>
          (Answer(true), s1.(transfers := Track(s1.transfers, to.key, asset, amount),
                             outputs := s1.outputs + [Transfer(to.key, amount, asset)]))
  }

  // ------------------------------------------------------------- the object

  class ChainState {
    const mainnet: bool
    const provider: Provider
    var balances: map<Hash, Balance>
    var transfers: Tracker
    var outputs: seq<Output>

    function Current(): State
      reads this
    {
      State(balances, transfers, outputs)
    }

    constructor (mainnet: bool, provider: Provider, cache: map<Hash, Balance>)
      ensures this.mainnet == mainnet && this.provider == provider
      ensures Current() == State(cache, map[], [])
    {
      this.mainnet, this.provider := mainnet, provider;
      balances, transfers, outputs := cache, map[], [];
    }

    method GetBalanceFromCache(asset: Hash) returns (r: Result<Balance, Error>)
      modifies `balances
      ensures (r, Current()) == Load(provider, old(Current()), asset)
      ensures r.Ok? ==> asset in balances && balances[asset] == r.value
    {
      if asset !in balances {
        var fetched := FromProvider(provider, asset);
        if fetched.Err? {
          return fetched;
        }
        balances := balances[asset := fetched.value];
      }
      r := Ok(balances[asset]);
    }

    method GetBalanceForAsset(asset: Hash) returns (r: Reply)
      modifies this
      ensures (r, Current()) == Execute(provider, mainnet, old(Current()), BalanceCall(asset))
    {
      var b := GetBalanceFromCache(asset);
      match b
      case Err(e) => r := Failed(e);
      case Ok(None) => r := Amount(None);
      case Ok(Some((_, v))) => r := Amount(Some(v));
    }

    method Transfer(to: Address, amount: U64, asset: Hash, known: Result<bool, Error>, gasLeft: bool) returns (r: Reply)
      modifies this
      ensures (r, Current()) == Execute(provider, mainnet, old(Current()), TransferCall(to, amount, asset, known, gasLeft))
    {
      if !to.normal {
        return Answer(false);
      }
      if known.Err? {
        return Failed(known.error);
      }
      if !known.value && !gasLeft {
        return Failed(GasError);
      }
      if to.mainnet != mainnet {
        return Answer(false);
      }
      var loaded := GetBalanceFromCache(asset);
      if loaded.Err? {
        return Failed(loaded.error);
      }
      if loaded.value.None? {
        return Answer(false);
      }
      var (state, balance) := loaded.value.value;
      if balance < amount || amount == 0 {
        return Answer(false);
      }
      balances := balances[asset := Some((MarkUpdated(state), balance - amount))];
      transfers := Track(transfers, to.key, asset, amount);
      outputs := outputs + [Output.Transfer(to.key, amount, asset)];
      r := Answer(true);
    }

    method Burn(amount: U64, asset: Hash) returns (r: Reply)
      modifies this
      ensures (r, Current()) == Execute(provider, mainnet, old(Current()), BurnCall(amount, asset))
    {
      var loaded := GetBalanceFromCache(asset);
      if loaded.Err? {
        return Failed(loaded.error);
      }
      if loaded.value.None? {
        return Answer(false);
      }
      var (state, balance) := loaded.value.value;
      if balance < amount || amount == 0 {
        return Answer(false);
      }
      balances := balances[asset := Some((MarkUpdated(state), balance - amount))];
      outputs := outputs + [Output.Burn(asset, amount)];
      r := Answer(true);
    }
  }

  // ------------------------------------------------------- reading the log

  /** Everything the log says left the contract in `asset`. */
  function Spent(outputs: seq<Output>, asset: Hash): nat {
    if outputs == [] then 0
    else
      var o := outputs[|outputs| - 1];
      (if o.asset == asset then o.amount else 0) + Spent(outputs[..|outputs| - 1], asset)
  }

  /** What the log says was sent to `key` in `asset`. */
  function Sent(outputs: seq<Output>, key: Key, asset: Hash): nat {
    if outputs == [] then 0
    else
      var o := outputs[|outputs| - 1];
      (if o.Transfer? && o.destination == key && o.asset == asset then o.amount else 0)
      + Sent(outputs[..|outputs| - 1], key, asset)
  }

  function Tracked(t: Tracker, key: Key, asset: Hash): nat {
    if key in t && asset in t[key] then t[key][asset] else 0
  }

  /** The balance an asset started with: from the initial cache, else from the storage. */
  function Start(p: Provider, initial: map<Hash, Balance>, asset: Hash): Result<Balance, Error> {
    if asset in initial then Ok(initial[asset]) else FromProvider(p, asset)
  }

  /** One asset's cached balance and state, explained by its start and the log. */
  ghost predicate Explained(start: Result<Balance, Error>, now: Balance, spent: nat) {
    && start.Ok? && (start.value.None? <==> now.None?)
    && (now.None? ==> spent == 0)
    && (now.Some? ==>
          var ((state0, amount0), (state, amount)) := (start.value.value, now.value);
          amount + spent == amount0 && state == if spent > 0 then MarkUpdated(state0) else state0)
  }

  ghost predicate Accounted(p: Provider, initial: map<Hash, Balance>, s: State) {
    && initial.Keys <= s.balances.Keys
    && (forall a :: a in s.balances ==> Explained(Start(p, initial, a), s.balances[a], Spent(s.outputs, a)))
    && (forall a :: a !in s.balances ==> Spent(s.outputs, a) == 0)
    && (forall k, a :: Tracked(s.transfers, k, a) == Sent(s.outputs, k, a) <= Spent(s.outputs, a))
  }

  lemma LogGrows(outputs: seq<Output>, o: Output)
    ensures forall a :: Spent(outputs + [o], a) == Spent(outputs, a) + if o.asset == a then o.amount else 0
    ensures forall k, a :: Sent(outputs + [o], k, a) ==
              Sent(outputs, k, a) + if o.Transfer? && o.destination == k && o.asset == a then o.amount else 0
  {
    assert (outputs + [o])[..|outputs|] == outputs;
  }

  lemma LoadKeeps(p: Provider, initial: map<Hash, Balance>, s: State, asset: Hash)
    requires Accounted(p, initial, s)
    ensures Accounted(p, initial, Load(p, s, asset).1)
    ensures Load(p, s, asset).0.Ok? ==> asset in Load(p, s, asset).1.balances
  {
    if asset !in s.balances && FromProvider(p, asset).Ok? {
      var b := FromProvider(p, asset).value;
      assert Explained(Start(p, initial, asset), b, Spent(s.outputs, asset));
      var s1 := s.(balances := s.balances[asset := b]);
      forall a | a in s1.balances
        ensures Explained(Start(p, initial, a), s1.balances[a], Spent(s1.outputs, a))
      {
        assert a != asset ==> a in s.balances;
      }
    }
  }

  /** A debit that is logged keeps the account of its asset. */
  lemma DebitExplained(start: Result<Balance, Error>, now: Balance, spent: nat, amount: U64)
    requires Explained(start, now, spent) && now.Some? && 0 < amount <= now.value.1
    ensures Explained(start, Some((MarkUpdated(now.value.0), now.value.1 - amount)), spent + amount)
    ensures spent + amount < TWO_64
  {
    var started: U64 := start.value.value.1;
    assert spent + amount <= started;
  }

  lemma DebitKeeps(p: Provider, initial: map<Hash, Balance>, s: State, asset: Hash, amount: U64, o: Output)
    requires Accounted(p, initial, s) && Debit(s, asset, amount).Some?
    requires o.asset == asset && o.amount == amount
    ensures
      var s2 := Debit(s, asset, amount).value;
      var logged := s2.outputs + [o];
      && initial.Keys <= s2.balances.Keys
      && (forall a :: a in s2.balances ==> Explained(Start(p, initial, a), s2.balances[a], Spent(logged, a)))
      && (forall a :: a !in s2.balances ==> Spent(logged, a) == 0)
      && s2.transfers == s.transfers && s2.outputs == s.outputs
      && Spent(s.outputs, asset) + amount < TWO_64
  {
    LogGrows(s.outputs, o);
    DebitExplained(Start(p, initial, asset), s.balances[asset], Spent(s.outputs, asset), amount);
  }

  lemma BurnKeeps(p: Provider, initial: map<Hash, Balance>, s: State, asset: Hash, amount: U64)
    requires Accounted(p, initial, s) && Debit(s, asset, amount).Some?
    ensures
      var s2 := Debit(s, asset, amount).value;
      Accounted(p, initial, s2.(outputs := s2.outputs + [Burn(asset, amount)]))
  {
    DebitKeeps(p, initial, s, asset, amount, Burn(asset, amount));
    LogGrows(s.outputs, Burn(asset, amount));
  }

  lemma TrackAdds(t: Tracker, key: Key, asset: Hash, amount: U64)
    requires Tracked(t, key, asset) + amount < TWO_64
    ensures forall k, a :: Tracked(Track(t, key, asset, amount), k, a) ==
              Tracked(t, k, a) + if k == key && a == asset then amount else 0
  {}

  lemma TransferKeeps(p: Provider, initial: map<Hash, Balance>, s: State, asset: Hash, amount: U64, key: Key)
    requires Accounted(p, initial, s) && Debit(s, asset, amount).Some?
    ensures
      var s2 := Debit(s, asset, amount).value;
      Accounted(p, initial, s2.(transfers := Track(s2.transfers, key, asset, amount),
                                outputs := s2.outputs + [Transfer(key, amount, asset)]))
  {
    var o := Transfer(key, amount, asset);
    DebitKeeps(p, initial, s, asset, amount, o);
    LogGrows(s.outputs, o);
    TrackAdds(s.transfers, key, asset, amount);
  }

  lemma ExecuteKeeps(p: Provider, mainnet: bool, initial: map<Hash, Balance>, s: State, c: Call)
    requires Accounted(p, initial, s)
    ensures Accounted(p, initial, Execute(p, mainnet, s, c).1)
  {
    LoadKeeps(p, initial, s, c.asset);
    var s1 := Load(p, s, c.asset).1;
    if c.BurnCall? && Debit(s1, c.asset, c.amount).Some? {
      BurnKeeps(p, initial, s1, c.asset, c.amount);
    } else if c.TransferCall? && Debit(s1, c.asset, c.amount).Some? {
      TransferKeeps(p, initial, s1, c.asset, c.amount, c.destination.key);
    }
  }

  // ------------------------------------------------ what each call answers

  /** The balance a call can draw on, if there is one. */
  function Drawable(p: Provider, s: State, asset: Hash): Option<U64> {
    match Start(p, s.balances, asset)
    case Ok(Some((_, amount))) => Some(amount)
    case _ => None
  }

  /**
   * A transfer is accepted if and only if it goes to a normal address of the contract's own
   * network that exists or can be paid for, and a positive amount is covered; it logs exactly
   * itself and takes exactly the amount, and any other answer logs and takes nothing.
   */
  lemma TransferAcceptedExactly(p: Provider, mainnet: bool, s: State, c: Call)
    requires c.TransferCall?
    ensures
      var (r, s') := Execute(p, mainnet, s, c);
      var have := Drawable(p, s, c.asset);
      var accepted := c.destination.normal && c.destination.mainnet == mainnet
                      && c.known.Ok? && (c.known.value || c.gasLeft)
                      && have.Some? && 0 < c.amount <= have.value;
      && (r == Answer(true) <==> accepted)
      && s'.outputs == (if accepted then s.outputs + [Transfer(c.destination.key, c.amount, c.asset)] else s.outputs)
      && (have.Some? ==> Drawable(p, s', c.asset) == Some(have.value - if accepted then c.amount else 0))
      && (!accepted ==> s'.transfers == s.transfers)
  {}

  /** A transfer fails only when the account lookup, the gas or the storage fails. */
  lemma TransferFailsExactly(p: Provider, mainnet: bool, s: State, c: Call)
    requires c.TransferCall?
    ensures
      var r := Execute(p, mainnet, s, c).0;
      r.Failed? <==> c.destination.normal
                     && (c.known.Err? || (!c.known.value && !c.gasLeft)
                         || (c.destination.mainnet == mainnet && Start(p, s.balances, c.asset).Err?))
    ensures
      var r := Execute(p, mainnet, s, c).0;
      r.Failed? ==> r.error == if c.known.Err? then c.known.error
                               else if !c.known.value && !c.gasLeft then GasError
                               else Start(p, s.balances, c.asset).error
  {}

  /** A burn is accepted if and only if a positive amount is covered; it logs exactly itself. */
  lemma BurnAcceptedExactly(p: Provider, mainnet: bool, s: State, c: Call)
    requires c.BurnCall?
    ensures
      var (r, s') := Execute(p, mainnet, s, c);
      var have := Drawable(p, s, c.asset);
      var accepted := have.Some? && 0 < c.amount <= have.value;
      && (r == Answer(true) <==> accepted) && (r.Failed? <==> Start(p, s.balances, c.asset).Err?)
      && s'.outputs == (if accepted then s.outputs + [Burn(c.asset, c.amount)] else s.outputs)
      && s'.transfers == s.transfers
      && (have.Some? ==> Drawable(p, s', c.asset) == Some(have.value - if accepted then c.amount else 0))
  {}

  /** At any point of a run the answer to a balance query is the starting balance less what the log says left. */
  lemma BalanceIsStartLessSpent(p: Provider, mainnet: bool, initial: map<Hash, Balance>, calls: seq<Call>, asset: Hash)
    ensures
      var s := Run(p, mainnet, State(initial, map[], []), calls);
      var r := Execute(p, mainnet, s, BalanceCall(asset)).0;
      match Start(p, initial, asset)
      case Err(_) => r.Failed?
      case Ok(None) => r == Amount(None)
      case Ok(Some((_, amount))) => Spent(s.outputs, asset) <= amount && r == Amount(Some(amount - Spent(s.outputs, asset)))
  {
    EveryRunIsAccounted(p, mainnet, initial, calls);
    var s := Run(p, mainnet, State(initial, map[], []), calls);
    if asset in s.balances {
      assert Explained(Start(p, initial, asset), s.balances[asset], Spent(s.outputs, asset));
    } else {
      assert asset !in initial;
    }
  }

  // -------------------------------------------------------------- whole runs

  function Run(p: Provider, mainnet: bool, s: State, calls: seq<Call>): State
    decreases |calls|
  {
    if calls == [] then s else Run(p, mainnet, Execute(p, mainnet, s, calls[0]).1, calls[1..])
  }

  lemma {:induction false} RunKeeps(p: Provider, mainnet: bool, initial: map<Hash, Balance>, s: State, calls: seq<Call>)
    requires Accounted(p, initial, s)
    ensures Accounted(p, initial, Run(p, mainnet, s, calls))
    decreases |calls|
  {
    if calls != [] {
      ExecuteKeeps(p, mainnet, initial, s, calls[0]);
      RunKeeps(p, mainnet, initial, Execute(p, mainnet, s, calls[0]).1, calls[1..]);
    }
  }

  lemma EveryRunIsAccounted(p: Provider, mainnet: bool, initial: map<Hash, Balance>, calls: seq<Call>)
    ensures Accounted(p, initial, Run(p, mainnet, State(initial, map[], []), calls))
  {
    var s := State(initial, map[], []);
    forall a | a in s.balances
      ensures Explained(Start(p, initial, a), s.balances[a], Spent(s.outputs, a))
    {
    }
    RunKeeps(p, mainnet, initial, s, calls);
  }

  /** Nothing is created or lost: what an asset started with is what is cached plus what the log says left. */
  lemma Conservation(p: Provider, mainnet: bool, initial: map<Hash, Balance>, calls: seq<Call>, asset: Hash)
    ensures
      var s := Run(p, mainnet, State(initial, map[], []), calls);
      && (asset in s.balances && s.balances[asset].Some? ==>
            && Start(p, initial, asset).Ok? && Start(p, initial, asset).value.Some?
            && Start(p, initial, asset).value.value.1 == s.balances[asset].value.1 + Spent(s.outputs, asset))
      && (asset !in s.balances || s.balances[asset].None? ==> Spent(s.outputs, asset) == 0)
  {
    EveryRunIsAccounted(p, mainnet, initial, calls);
  }

  /** The tracker's totals are the logged transfers, and no addition in it ever wrapped. */
  lemma TrackerIsExact(p: Provider, mainnet: bool, initial: map<Hash, Balance>, calls: seq<Call>, key: Key, asset: Hash)
    ensures
      var s := Run(p, mainnet, State(initial, map[], []), calls);
      Tracked(s.transfers, key, asset) == Sent(s.outputs, key, asset) <= Spent(s.outputs, asset) < TWO_64
  {
    EveryRunIsAccounted(p, mainnet, initial, calls);
    Conservation(p, mainnet, initial, calls, asset);
    var s := Run(p, mainnet, State(initial, map[], []), calls);
    if Spent(s.outputs, asset) > 0 {
      var started: U64 := Start(p, initial, asset).value.value.1;
      assert Spent(s.outputs, asset) <= started;
    }
  }

  /**
   * Whatever the cache held at the start, a balance is marked for storage exactly if it was
   * already marked or something was spent, and its topoheight is the one it started with.
   */
  lemma MarkedExactlyWhenSpent(p: Provider, mainnet: bool, initial: map<Hash, Balance>, calls: seq<Call>, asset: Hash)
    ensures
      var s := Run(p, mainnet, State(initial, map[], []), calls);
      asset in s.balances && s.balances[asset].Some? ==>
        var (state, amount) := s.balances[asset].value;
        && Start(p, initial, asset).Ok? && Start(p, initial, asset).value.Some?
        && var (state0, amount0) := Start(p, initial, asset).value.value;
        && GetTopoheight(state) == GetTopoheight(state0)
        && (amount != amount0 <==> Spent(s.outputs, asset) > 0)
        && (ShouldBeStored(state) <==> ShouldBeStored(state0) || amount != amount0)
  {
    EveryRunIsAccounted(p, mainnet, initial, calls);
  }

  /** A cached balance that came from the storage has its topoheight, and is marked if it differs. */
  ghost predicate Truthful(p: Provider, asset: Hash, b: Balance) {
    b.Some? && !b.value.0.New? ==>
      && p(asset).Ok? && p(asset).value.Some?
      && GetTopoheight(b.value.0) == Some(p(asset).value.value.0)
      && (b.value.1 != p(asset).value.value.1 ==> ShouldBeStored(b.value.0))
  }

  ghost predicate CacheTruthful(p: Provider, cache: map<Hash, Balance>) {
    forall a :: a in cache ==> Truthful(p, a, cache[a])
  }

  lemma StartIsTruthful(p: Provider, initial: map<Hash, Balance>, asset: Hash)
    requires CacheTruthful(p, initial)
    ensures Start(p, initial, asset).Ok? ==> Truthful(p, asset, Start(p, initial, asset).value)
  {}

  /** From any truthful cache, such as the one an earlier run left, every run ends with a truthful cache. */
  lemma CacheStaysTruthful(p: Provider, mainnet: bool, initial: map<Hash, Balance>, calls: seq<Call>)
    requires CacheTruthful(p, initial)
    ensures CacheTruthful(p, Run(p, mainnet, State(initial, map[], []), calls).balances)
  {
    var s := Run(p, mainnet, State(initial, map[], []), calls);
    EveryRunIsAccounted(p, mainnet, initial, calls);
    forall a | a in s.balances ensures Truthful(p, a, s.balances[a]) {
      StartIsTruthful(p, initial, a);
      ExplainedIsTruthful(p, a, Start(p, initial, a), s.balances[a], Spent(s.outputs, a));
    }
  }

  lemma ExplainedIsTruthful(p: Provider, asset: Hash, start: Result<Balance, Error>, now: Balance, spent: nat)
    requires Explained(start, now, spent) && Truthful(p, asset, start.value)
    ensures Truthful(p, asset, now)
  {}

  /** From an empty cache, a balance is marked for storage exactly if it differs from the stored one; its topoheight is kept. */
  lemma MarkedExactlyWhenChanged(p: Provider, mainnet: bool, calls: seq<Call>, asset: Hash)
    ensures
      var s := Run(p, mainnet, State(map[], map[], []), calls);
      asset in s.balances && s.balances[asset].Some? ==>
        var (state, amount) := s.balances[asset].value;
        && p(asset).Ok? && p(asset).value.Some?
        && var (topo, stored) := p(asset).value.value;
        && GetTopoheight(state) == Some(topo)
        && (ShouldBeStored(state) <==> amount != stored)
  {
    EveryRunIsAccounted(p, mainnet, map[], calls);
  }
}
