/** Laws of a sequence of `verify` calls from one address, with the configuration,
    the directory and the stake snapshot held fixed: how many calls a window admits. */
module AccessRuns {
  import opened AccessModel
  import opened AccessLaws

  /** Which of the calls made at `times`, in order, are admitted. */
  function Admissions(cfg: Config, gate: Gated, env: Env, stakes: map<Address, int>, call: Call,
                      ledger: map<Address, Entry>, times: seq<int>): (admitted: seq<bool>)
    ensures |admitted| == |times|
    decreases |times|
  {
    if times == [] then []
    else
      var s := VerifyStep(cfg, gate, env, ledger, stakes, call, times[0]);
      [s.result.Ok?] + Admissions(cfg, gate, env, stakes, call, s.ledger, times[1..])
  }

  function CountTrue(flags: seq<bool>): (n: nat)
    ensures n <= |flags|
  {
    if flags == [] then 0 else (if flags[0] then 1 else 0) + CountTrue(flags[1..])
  }

  /** A run whose `i`-th flag is "i < k" admits min(length, max(0, k)) calls. */
  lemma {:induction false} CountPrefix(flags: seq<bool>, k: int)
    requires forall i :: 0 <= i < |flags| ==> flags[i] == (i < k)
    ensures CountTrue(flags) == if k <= 0 then 0 else if k < |flags| then k else |flags|
  {
    if flags != [] {
      forall i | 0 <= i < |flags[1..]| ensures flags[1..][i] == (i < k - 1) {
        assert flags[1..][i] == flags[i + 1];
      }
      CountPrefix(flags[1..], k - 1);
    }
  }

  /** Within a window no reset can happen once the last admitted call lies in
      [t, t + secs]: starting from a counter `r`, the `i`-th call is admitted exactly
      when r + i does not exceed the limit. So the first ⌊limit⌋ + 1 - r calls pass
      and every later one is denied. */
  lemma {:induction false} AdmittedWithoutReset(cfg: Config, gate: Gated, env: Env, stakes: map<Address, int>,
                                                call: Call, ledger: map<Address, Entry>, times: seq<int>,
                                                limit: real, secs: nat, t: int)
    requires RateLimit(cfg, gate, env, stakes, call) == Ok(limit)
    requires TimescaleSeconds(cfg.timescale) == Some(secs)
    requires EntryOf(ledger, call.address).lastTimeCalled >= t
    requires forall i :: 0 <= i < |times| ==> t <= times[i] <= t + secs
    ensures forall i :: 0 <= i < |times| ==>
              Admissions(cfg, gate, env, stakes, call, ledger, times)[i]
              == (EntryOf(ledger, call.address).requests + i <= limit.Floor)
    decreases |times|
  {
    if times != [] {
      var e := EntryOf(ledger, call.address);
      var s := VerifyStep(cfg, gate, env, ledger, stakes, call, times[0]);
      AdmissionRule(cfg, gate, env, ledger, stakes, call, times[0], limit, secs);
      assert WindowCount(e, times[0], secs) == e.requests;
      var e' := EntryOf(s.ledger, call.address);
      assert e'.lastTimeCalled >= t;
      assert e'.requests == if s.result.Ok? then e.requests + 1 else e.requests;
      forall i | 0 <= i < |times[1..]| ensures t <= times[1..][i] <= t + secs {
        assert times[1..][i] == times[i + 1];
      }
      AdmittedWithoutReset(cfg, gate, env, stakes, call, s.ledger, times[1..], limit, secs, t);
      var rest := Admissions(cfg, gate, env, stakes, call, s.ledger, times[1..]);
      var admitted := Admissions(cfg, gate, env, stakes, call, ledger, times);
      assert admitted == [s.result.Ok?] + rest;
      forall i | 0 <= i < |times| ensures admitted[i] == (e.requests + i <= limit.Floor) {
        if i > 0 {
          assert admitted[i] == rest[i - 1];
          assert rest[i - 1] == (e'.requests + (i - 1) <= limit.Floor);
        }
      }
    }
  }

  /** The bound a counter `r` leaves for the rest of a window: ⌊limit⌋ + 1 - r, or 0. */
  function Allowance(limit: real, r: int): (n: nat) {
    if limit.Floor + 1 - r <= 0 then 0 else limit.Floor + 1 - r
  }

  /** No matter what the ledger held before, calls whose times all lie in one
      window-long interval [t, t + secs] get at most ⌊limit⌋ + 1 admissions (none when
      the limit is negative): the counter may be reset only before the first admission
      in the interval, and never after it. */
  lemma {:induction false} WindowAdmissionBound(cfg: Config, gate: Gated, env: Env, stakes: map<Address, int>,
                                                call: Call, ledger: map<Address, Entry>, times: seq<int>,
                                                limit: real, secs: nat, t: int)
    requires RateLimit(cfg, gate, env, stakes, call) == Ok(limit)
    requires TimescaleSeconds(cfg.timescale) == Some(secs)
    requires forall i :: 0 <= i < |times| ==> t <= times[i] <= t + secs
    ensures CountTrue(Admissions(cfg, gate, env, stakes, call, ledger, times)) <= Allowance(limit, 0)
    decreases |times|
  {
    if times != [] {
      var e := EntryOf(ledger, call.address);
      var s := VerifyStep(cfg, gate, env, ledger, stakes, call, times[0]);
      var rest := Admissions(cfg, gate, env, stakes, call, s.ledger, times[1..]);
      var admitted := Admissions(cfg, gate, env, stakes, call, ledger, times);
      assert admitted == [s.result.Ok?] + rest;
      assert admitted[1..] == rest;
      forall i | 0 <= i < |times[1..]| ensures t <= times[1..][i] <= t + secs {
        assert times[1..][i] == times[i + 1];
      }
      AdmissionRule(cfg, gate, env, ledger, stakes, call, times[0], limit, secs);
      if s.result.Ok? {
        var c := WindowCount(e, times[0], secs);
        assert c <= limit.Floor;
        var e' := EntryOf(s.ledger, call.address);
        assert e'.lastTimeCalled == times[0] && e'.requests == c + 1;
        AdmittedWithoutReset(cfg, gate, env, stakes, call, s.ledger, times[1..], limit, secs, t);
        forall i | 0 <= i < |rest| ensures rest[i] == (i < limit.Floor + 1 - (c + 1)) {
          assert rest[i] == (e'.requests + i <= limit.Floor);
        }
        CountPrefix(rest, limit.Floor + 1 - (c + 1));
      } else {
        WindowAdmissionBound(cfg, gate, env, stakes, call, s.ledger, times[1..], limit, secs, t);
      }
    }
  }

  /** Admins and the gated module's own key are admitted on every call, however
      frequent, until their counter reaches the sentinel rate (10e42 + 1 calls). */
  lemma {:induction false} PrivilegedAlwaysAdmitted(cfg: Config, gate: Gated, env: Env, stakes: map<Address, int>,
                                                    call: Call, ledger: map<Address, Entry>, times: seq<int>)
    requires call.address in env.admins || call.address == gate.ownKey
    requires TimescaleSeconds(cfg.timescale).Some?
    requires EntryOf(ledger, call.address).requests + |times| <= Unlimited.Floor + 1
    ensures forall i :: 0 <= i < |times| ==> Admissions(cfg, gate, env, stakes, call, ledger, times)[i]
    decreases |times|
  {
    if times != [] {
      var secs := TimescaleSeconds(cfg.timescale).value;
      var s := VerifyStep(cfg, gate, env, ledger, stakes, call, times[0]);
      PrivilegedGetSentinel(cfg, gate, env, stakes, call);
      AdmissionRule(cfg, gate, env, ledger, stakes, call, times[0], Unlimited, secs);
      assert s.result.Ok?;
      PrivilegedAlwaysAdmitted(cfg, gate, env, stakes, call, s.ledger, times[1..]);
      var rest := Admissions(cfg, gate, env, stakes, call, s.ledger, times[1..]);
      var admitted := Admissions(cfg, gate, env, stakes, call, ledger, times);
      assert admitted == [true] + rest;
      forall i | 0 <= i < |times| ensures admitted[i] {
        if i > 0 {
          assert admitted[i] == rest[i - 1];
        }
      }
    }
  }

  /** The class's own self-test: base rate 2 and the other defaults, a public caller
      with no stake calling the whitelisted "info" six times within one minute. Its
      limit is 2, so calls 0, 1 and 2 are admitted and calls 3, 4 and 5 are denied. */
  lemma SelfTestScenario(gate: Gated, env: Env, stakes: map<Address, int>, a: Address,
                         ledger: map<Address, Entry>, times: seq<int>)
    requires IsPublic(gate, env, a)
    requires "info" in gate.whitelist || "info" in env.helperWhitelist
    requires "info" !in gate.blacklist
    requires StakeOf(stakes, a) == 0 && a !in ledger
    requires |times| == 6
    requires forall i :: 0 <= i < |times| ==> times[0] <= times[i] <= times[0] + 60
    ensures Admissions(DefaultConfig().(baseRate := 2), gate, env, stakes, Call(a, Some("info")), ledger, times)
            == [true, true, true, false, false, false]
  {
    var cfg := DefaultConfig().(baseRate := 2);
    var call := Call(a, Some("info"));
    PublicCallerRate(cfg, gate, env, stakes, call);
    var limit := 2.0;
    assert RateLimit(cfg, gate, env, stakes, call) == Ok(limit);
    assert TimescaleSeconds(cfg.timescale) == Some(60);
    var s := VerifyStep(cfg, gate, env, ledger, stakes, call, times[0]);
    AdmissionRule(cfg, gate, env, ledger, stakes, call, times[0], limit, 60);
    assert s.result.Ok? && EntryOf(s.ledger, a) == s.result.value;
    forall i | 0 <= i < |times[1..]| ensures times[0] <= times[1..][i] <= times[0] + 60 {
      assert times[1..][i] == times[i + 1];
    }
    AdmittedWithoutReset(cfg, gate, env, stakes, call, s.ledger, times[1..], limit, 60, times[0]);
    var rest := Admissions(cfg, gate, env, stakes, call, s.ledger, times[1..]);
    assert EntryOf(s.ledger, a).requests == 1;
    assert rest[0] == (1 + 0 <= limit.Floor) && rest[1] == (1 + 1 <= limit.Floor);
    assert rest[2] == (1 + 2 <= limit.Floor) && rest[3] == (1 + 3 <= limit.Floor);
    assert rest[4] == (1 + 4 <= limit.Floor);
    assert limit.Floor == 2;
    assert rest == [true, true, false, false, false];
    assert Admissions(cfg, gate, env, stakes, call, ledger, times) == [true] + rest;
  }
}
