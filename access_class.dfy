/** The `Access` gate as an object: the stake snapshot and the call ledger are fields
    that `Sync` and `Verify` update in place. */
module AccessGate {
  import opened AccessModel

  class Access {
    const config: Config
    const gated: Gated
    /** Per-address call counters (`user_info`). */
    var userInfo: map<Address, Entry>
    /** The stake snapshot last published by `Sync`. */
    var stakes: map<Address, int>

    constructor (gated: Gated, config: Config)
      ensures this.gated == gated && this.config == config
      ensures userInfo == map[] && stakes == map[]
    {
      this.gated := gated;
      this.config := config;
      userInfo := map[];
      stakes := map[];
    }

    /** One refresh step of the stake snapshot. `store` is what the durable store
        returned (None when reading it raised) and `fetched` what the registry returns
        (None when it raised); the registry answer is used only when the interval has
        passed. */
    method Sync(store: Option<StoredState>, fetched: Option<map<Address, int>>, now: int)
      returns (response: SyncResponse)
      modifies this`stakes
      ensures SyncOutcome(response, stakes) == SyncStep(config.syncInterval, old(stakes), store, fetched, now)
    {
      if store.None? {
        return SyncError(StoreUnavailable);
      }
      var state := store.value;
      var timeSinceSync := now - SyncTimeOf(state);
      if timeSinceSync > config.syncInterval {
        if fetched.None? {
          return SyncError(RegistryUnavailable);
        }
        state := state.(stakes := fetched);
        state := state.(syncTime := Some(now));
      }
      if state.stakes.None? {
        return SyncError(MissingStakes);
      }
      stakes := state.stakes.value;
      var untilSync := config.syncInterval - timeSinceSync;
      response := Synced(untilSync, timeSinceSync);
    }

    /** Admission decision for one call at time `now`, updating the caller's ledger
        entry field by field as the call is checked. */
    method Verify(env: Env, call: Call, now: int) returns (r: Result<Entry, Denial>)
      modifies this`userInfo
      ensures Step(r, userInfo) == VerifyStep(config, gated, env, old(userInfo), stakes, call, now)
    {
      var address := call.address;
      var info := if address in userInfo then userInfo[address] else Unseen;
      var stake := StakeOf(stakes, address);
      var rateLimit: real;
      if address in env.admins || gated.ownKey == address {
        rateLimit := Unlimited;
      } else if address in env.users {
        rateLimit := UserRate(config.role2rate);
      } else {
        if !(Listed(call.fn, gated.whitelist) || Listed(call.fn, env.helperWhitelist)) {
          return Err(NotWhitelisted(call.fn));
        }
        if Listed(call.fn, gated.blacklist) {
          return Err(Blacklisted(call.fn));
        }
        if config.stake2rate == 0 {
          return Err(ZeroStakeDivisor);
        }
        rateLimit := PublicRate(config, stake);
      }

      var timeSinceCalled := now - info.lastTimeCalled;
      var period := TimescaleSeconds(config.timescale);
      if period.None? {
        return Err(UnknownTimescale(config.timescale));
      }
      var secondsInPeriod := period.value;
      if timeSinceCalled > secondsInPeriod {
        info := info.(requests := 0);
      }
      var passed := info.requests as real <= rateLimit;

      info := info.(diag := Some(Diagnostics(rateLimit, stake, secondsInPeriod, passed, timeSinceCalled)));
      userInfo := userInfo[address := info];
      if !passed {
        return Err(RateLimitExceeded(info));
      }
      // the stored entry and the returned one are the same record
      info := info.(lastTimeCalled := now);
      info := info.(requests := info.requests + 1);
      userInfo := userInfo[address := info];
      r := Ok(info);
    }
  }
}
