/** Laws of a single `verify` call: how the caller is classified and how the
    caller's ledger entry moves. */
module AccessLaws {
  import opened AccessModel

  /** Public callers are those the directory does not know and that are not the
      gated module itself. */
  predicate IsPublic(gate: Gated, env: Env, a: Address) {
    a !in env.admins && a != gate.ownKey && a !in env.users
  }

  /** Admins and the gated module's own key get the sentinel rate, whatever the
      function, the stakes or the lists. */
  lemma PrivilegedGetSentinel(cfg: Config, gate: Gated, env: Env, stakes: map<Address, int>, call: Call)
    requires call.address in env.admins || call.address == gate.ownKey
    ensures RateLimit(cfg, gate, env, stakes, call) == Ok(Unlimited)
  {
  }

  /** A registered user gets the "user" role rate: the stake snapshot and the
      function lists play no part. */
  lemma UserRateIgnoresStake(cfg: Config, gate: Gated, env: Env, stakes1: map<Address, int>,
                             stakes2: map<Address, int>, call1: Call, call2: Call)
    requires call1.address == call2.address
    requires call1.address in env.users
    requires call1.address !in env.admins && call1.address != gate.ownKey
    ensures RateLimit(cfg, gate, env, stakes1, call1) == RateLimit(cfg, gate, env, stakes2, call2)
                                                    == Ok(UserRate(cfg.role2rate))
  {
  }

  /** A public caller is refused exactly when its function is on neither whitelist,
      or on the blacklist, or the stake divisor is zero; otherwise its rate is the
      stake formula with an absent stake read as 0. */
  lemma PublicCallerRate(cfg: Config, gate: Gated, env: Env, stakes: map<Address, int>, call: Call)
    requires IsPublic(gate, env, call.address)
    ensures var r := RateLimit(cfg, gate, env, stakes, call);
            var allowed := Listed(call.fn, gate.whitelist) || Listed(call.fn, env.helperWhitelist);
            && (r == Err(NotWhitelisted(call.fn)) <==> !allowed)
            && (r == Err(Blacklisted(call.fn)) <==> allowed && Listed(call.fn, gate.blacklist))
            && (r == Err(ZeroStakeDivisor) <==>
                  allowed && !Listed(call.fn, gate.blacklist) && cfg.stake2rate == 0)
            && (r.Ok? <==> allowed && !Listed(call.fn, gate.blacklist) && cfg.stake2rate != 0)
            && (r.Ok? ==> r.value == (StakeOf(stakes, call.address) as real / cfg.stake2rate as real
                                      + cfg.baseRate as real) * cfg.rate as real)
  {
  }

  /** A public caller whose function is on neither whitelist, or is blacklisted, is
      refused by `verify` with that reason, and the ledger is left exactly as it was:
      no entry is created or touched. */
  lemma ListRefusalLeavesLedger(cfg: Config, gate: Gated, env: Env, ledger: map<Address, Entry>,
                                stakes: map<Address, int>, call: Call, now: int)
    requires IsPublic(gate, env, call.address)
    ensures var allowed := Listed(call.fn, gate.whitelist) || Listed(call.fn, env.helperWhitelist);
            var s := VerifyStep(cfg, gate, env, ledger, stakes, call, now);
            && (!allowed ==> s == Step(Err(NotWhitelisted(call.fn)), ledger))
            && (allowed && Listed(call.fn, gate.blacklist) ==> s == Step(Err(Blacklisted(call.fn)), ledger))
  {
  }

  /** With a positive divisor and a non-negative multiplier, more stake never buys a
      lower rate. */
  lemma MoreStakeNoLowerRate(cfg: Config, s1: int, s2: int)
    requires cfg.stake2rate > 0 && cfg.rate >= 0 && s1 <= s2
    ensures PublicRate(cfg, s1) <= PublicRate(cfg, s2)
  {
  }

  /** The admission rule of one call that got past classification: the counter,
      zeroed when more than a window passed since the last admitted call, must not
      exceed the limit. Admission stamps `now` and adds one; a denial keeps the last
      call time and the (possibly zeroed) counter, and records the diagnostics. */
  lemma AdmissionRule(cfg: Config, gate: Gated, env: Env, ledger: map<Address, Entry>,
                      stakes: map<Address, int>, call: Call, now: int, limit: real, secs: nat)
    requires RateLimit(cfg, gate, env, stakes, call) == Ok(limit)
    requires TimescaleSeconds(cfg.timescale) == Some(secs)
    ensures var s := VerifyStep(cfg, gate, env, ledger, stakes, call, now);
            var e := EntryOf(ledger, call.address);
            var count := if now - e.lastTimeCalled > secs then 0 else e.requests;
            var diag := Diagnostics(limit, StakeOf(stakes, call.address), secs,
                                    count as real <= limit, now - e.lastTimeCalled);
            && (s.result.Ok? <==> count <= limit.Floor)
            && (s.result.Ok? ==> s.result.value == Entry(now, count + 1, Some(diag)))
            && (s.result.Err? ==> s.result.error == RateLimitExceeded(Entry(e.lastTimeCalled, count, Some(diag))))
            && EntryOf(s.ledger, call.address) == (if s.result.Ok? then s.result.value else s.result.error.entry)
  {
  }

  /** An address never seen before starts from a zero counter and last call time 0. */
  lemma FirstCallStartsFresh(cfg: Config, gate: Gated, env: Env, ledger: map<Address, Entry>,
                             stakes: map<Address, int>, call: Call, now: int, limit: real)
    requires call.address !in ledger
    requires RateLimit(cfg, gate, env, stakes, call) == Ok(limit)
    requires TimescaleSeconds(cfg.timescale).Some?
    ensures var s := VerifyStep(cfg, gate, env, ledger, stakes, call, now);
            (s.result.Ok? <==> 0.0 <= limit)
            && (s.result.Ok? ==> s.result.value.requests == 1 && s.result.value.lastTimeCalled == now)
            && (s.result.Err? ==> s.result.error.RateLimitExceeded? && s.result.error.entry.requests == 0
                                  && s.result.error.entry.lastTimeCalled == 0)
  {
  }

  /** A refused call never lets the caller's counter grow, and a reset it performed
      is kept; only an admitted call moves the last call time. */
  lemma DenialDoesNotAdvance(cfg: Config, gate: Gated, env: Env, ledger: map<Address, Entry>,
                             stakes: map<Address, int>, call: Call, now: int)
    ensures var s := VerifyStep(cfg, gate, env, ledger, stakes, call, now);
            var before := EntryOf(ledger, call.address);
            var after := EntryOf(s.ledger, call.address);
            && (s.result.Err? ==> after.lastTimeCalled == before.lastTimeCalled
                                  && after.requests <= before.requests)
            && (s.result.Ok? ==> after.lastTimeCalled == now)
  {
  }
}
