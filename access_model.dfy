/** Values and specification functions of the stake-weighted access gate.

    The gate keeps two pieces of state: a snapshot `stakes` of every address's stake,
    refreshed by `SyncStep`, and a per-address ledger of call counters, updated by
    `VerifyStep` once per incoming call. Everything the gate asks the outside world
    (the clock, the identity directory, the registry, the durable store) arrives here
    as an explicit argument. */
module AccessModel {

  type Address = string
  type FnName = string

  datatype Option<T> = None | Some(value: T)

  datatype Result<T, E> = Ok(value: T) | Err(error: E)

  /** The constructor arguments that the gate's logic reads. `role2rate` maps a role
      name to a rate; only the "user" entry is ever consulted. */
  datatype Config = Config(
    syncInterval: int,
    timescale: string,
    stake2rate: int,
    rate: int,
    baseRate: int,
    role2rate: map<string, int>)

  /** The constructor's default arguments. */
  function DefaultConfig(): (cfg: Config) {
    Config(30, "min", 100, 1, 0, map["user" := 10, "public" := 1])
  }

  /** The module the gate protects: its own key and its function lists. */
  datatype Gated = Gated(ownKey: Address, whitelist: set<FnName>, blacklist: set<FnName>)

  /** What the process-wide environment answers: the identity directory and the
      helper whitelist shared by every module. */
  datatype Env = Env(admins: set<Address>, users: set<Address>, helperWhitelist: set<FnName>)

  /** An incoming call: the caller's address and the (possibly absent) function name. */
  datatype Call = Call(address: Address, fn: Option<FnName>)

  /** The fields `verify` writes into a ledger entry once the admission check ran. */
  datatype Diagnostics = Diagnostics(
    rateLimit: real,
    stake: int,
    secondsInPeriod: nat,
    passed: bool,
    timeSinceCalled: int)

  /** One ledger entry; `diag` is None until a call for the address reached the
      admission check. */
  datatype Entry = Entry(lastTimeCalled: int, requests: nat, diag: Option<Diagnostics>)

  /** Why a call was refused. */
  datatype Denial =
    | NotWhitelisted(fn: Option<FnName>)
    | Blacklisted(fn: Option<FnName>)
    | ZeroStakeDivisor
    | UnknownTimescale(timescale: string)
    | RateLimitExceeded(entry: Entry)

  /** Result of a `verify` call together with the ledger it leaves behind. */
  datatype Step = Step(result: Result<Entry, Denial>, ledger: map<Address, Entry>)

  /** The entry an address starts from before its first call. */
  const Unseen: Entry := Entry(0, 0, None)

  /** The rate given to admins and to the gated module's own key (10e42). */
  const Unlimited: real := 10000000000000000000000000000000000000000000.0

  /** Length of each accounting window, by name. */
  const TimescaleMap: map<string, nat> := map["sec" := 1, "min" := 60, "hour" := 3600, "day" := 86400]

  function EntryOf(ledger: map<Address, Entry>, a: Address): (e: Entry) {
    if a in ledger then ledger[a] else Unseen
  }

  /** The stake of an address in the snapshot; an absent address has stake 0. */
  function StakeOf(stakes: map<Address, int>, a: Address): (stake: int) {
    if a in stakes then stakes[a] else 0
  }

  predicate Listed(fn: Option<FnName>, names: set<FnName>) {
    fn.Some? && fn.value in names
  }

  /** Seconds in a window of the named kind; an unknown name has none. */
  function TimescaleSeconds(timescale: string): (secs: Option<nat>)
    ensures secs.Some? <==> timescale in {"sec", "min", "hour", "day"}
    ensures timescale == "sec" ==> secs == Some(1)
    ensures timescale == "min" ==> secs == Some(60)
    ensures timescale == "hour" ==> secs == Some(3600)
    ensures timescale == "day" ==> secs == Some(86400)
  {
    if timescale in TimescaleMap then Some(TimescaleMap[timescale]) else None
  }

  /** Rate of a registered user: the "user" role's rate, 1 when the role is absent. */
  function UserRate(role2rate: map<string, int>): (rate: real) {
    if "user" in role2rate then role2rate["user"] as real else 1.0
  }

  /** Rate of a public caller: stake converted to calls, plus the free calls, scaled. */
  function PublicRate(cfg: Config, stake: int): (rate: real)
    requires cfg.stake2rate != 0
  {
    (stake as real / cfg.stake2rate as real + cfg.baseRate as real) * cfg.rate as real
  }

  /** Classification of the caller into a rate limit, or the refusal of a public
      caller whose function is not admitted. Only a public caller can be refused. */
  function RateLimit(cfg: Config, gate: Gated, env: Env, stakes: map<Address, int>, call: Call)
    : (r: Result<real, Denial>)
    ensures r.Err? ==> call.address !in env.admins && call.address != gate.ownKey
                       && call.address !in env.users
    ensures r.Err? ==> r.error.NotWhitelisted? || r.error.Blacklisted? || r.error.ZeroStakeDivisor?
  {
    var a := call.address;
    if a in env.admins || gate.ownKey == a then Ok(Unlimited)
    else if a in env.users then Ok(UserRate(cfg.role2rate))
    else if !(Listed(call.fn, gate.whitelist) || Listed(call.fn, env.helperWhitelist)) then
      Err(NotWhitelisted(call.fn))
    else if Listed(call.fn, gate.blacklist) then Err(Blacklisted(call.fn))
    else if cfg.stake2rate == 0 then Err(ZeroStakeDivisor)
    else Ok(PublicRate(cfg, StakeOf(stakes, a)))
  }

  /** The counter the admission check compares: zero once more than a whole window
      has passed since the last admitted call. */
  function WindowCount(e: Entry, now: int, secs: nat): (count: nat) {
    if now - e.lastTimeCalled > secs then 0 else e.requests
  }

  /** One `verify` call against the ledger. A refusal before the admission check
      leaves the ledger as it was; otherwise only the caller's entry changes, and the
      entry returned (admitted) or carried by the denial is the one stored. */
  function VerifyStep(cfg: Config, gate: Gated, env: Env, ledger: map<Address, Entry>,
                      stakes: map<Address, int>, call: Call, now: int): (s: Step)
    ensures s.ledger - {call.address} == ledger - {call.address}
    ensures s.result.Ok? ==> call.address in s.ledger && s.ledger[call.address] == s.result.value
    ensures s.result.Err? && s.result.error.RateLimitExceeded? ==>
              call.address in s.ledger && s.ledger[call.address] == s.result.error.entry
    ensures s.result.Err? && !s.result.error.RateLimitExceeded? ==> s.ledger == ledger
    ensures RateLimit(cfg, gate, env, stakes, call).Err? ==>
              s == Step(Err(RateLimit(cfg, gate, env, stakes, call).error), ledger)
    ensures RateLimit(cfg, gate, env, stakes, call).Ok? && TimescaleSeconds(cfg.timescale).None? ==>
              s == Step(Err(UnknownTimescale(cfg.timescale)), ledger)
  {
    var e := EntryOf(ledger, call.address);
    match RateLimit(cfg, gate, env, stakes, call)
    case Err(d) => Step(Err(d), ledger)
    case Ok(limit) =>
      match TimescaleSeconds(cfg.timescale)
      case None => Step(Err(UnknownTimescale(cfg.timescale)), ledger)
      case Some(secs) =>
        var count := WindowCount(e, now, secs);
        var passed := count as real <= limit;
        var diag := Diagnostics(limit, StakeOf(stakes, call.address), secs, passed,
                                now - e.lastTimeCalled);
        if passed then
          var admitted := Entry(now, count + 1, Some(diag));
          Step(Ok(admitted), ledger[call.address := admitted])
        else
          var checked := Entry(e.lastTimeCalled, count, Some(diag));
          Step(Err(RateLimitExceeded(checked)), ledger[call.address := checked])
  }

  /** The durable state read by `sync`: either key may be absent. */
  datatype StoredState = StoredState(syncTime: Option<int>, stakes: Option<map<Address, int>>)

  datatype SyncFailure = StoreUnavailable | RegistryUnavailable | MissingStakes

  datatype SyncResponse =
    | Synced(untilSync: int, timeSinceSync: int)
    | SyncError(failure: SyncFailure)

  /** Result of a `sync` call together with the stake snapshot it leaves behind. */
  datatype SyncOutcome = SyncOutcome(response: SyncResponse, stakes: map<Address, int>)

  /** The stored sync time; absent means 0. */
  function SyncTimeOf(state: StoredState): (t: int) {
    if state.syncTime.Some? then state.syncTime.value else 0
  }

  /** The state dictionary after the interval gate: refreshed from the registry
      (`fetched`, None when the registry call raised) when more than `interval`
      seconds passed since the stored sync time, untouched otherwise. */
  function Refresh(interval: int, state: StoredState, fetched: Option<map<Address, int>>, now: int)
    : (r: Result<StoredState, SyncFailure>)
    ensures now - SyncTimeOf(state) <= interval ==> r == Ok(state)
    ensures now - SyncTimeOf(state) > interval && fetched.Some? ==>
              r == Ok(StoredState(Some(now), fetched))
    ensures now - SyncTimeOf(state) > interval && fetched.None? ==> r == Err(RegistryUnavailable)
  {
    if now - SyncTimeOf(state) > interval then
      match fetched
      case None => Err(RegistryUnavailable)
      case Some(m) => Ok(StoredState(Some(now), Some(m)))
    else Ok(state)
  }

  /** One `sync` call: `store` is None when reading the durable store raised. The
      refreshed state is not written back. Every failure keeps the old snapshot, and a
      success reports how the interval splits into time passed and time left. */
  function SyncStep(interval: int, stakes: map<Address, int>, store: Option<StoredState>,
                    fetched: Option<map<Address, int>>, now: int): (o: SyncOutcome)
    ensures o.response.SyncError? ==> o.stakes == stakes
    ensures o.response.Synced? ==>
              o.response.untilSync + o.response.timeSinceSync == interval
    ensures o.response.Synced? ==>
              store.Some? && o.response.timeSinceSync == now - SyncTimeOf(store.value)
  {
    match store
    case None => SyncOutcome(SyncError(StoreUnavailable), stakes)
    case Some(state) =>
      var since := now - SyncTimeOf(state);
      match Refresh(interval, state, fetched, now)
      case Err(f) => SyncOutcome(SyncError(f), stakes)
      case Ok(next) =>
        if next.stakes.None? then SyncOutcome(SyncError(MissingStakes), stakes)
        else SyncOutcome(Synced(interval - since, since), next.stakes.value)
  }
}
