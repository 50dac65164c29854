# Stake-weighted access gate

A model of the `Access` class of commune's server (`commune/modules/server/access/access.py`).
The class decides whether an incoming call may go ahead. It has two parts:

- **`verify`** classifies the caller. Admins and the gated module's own key get a sentinel rate of 10e42. Registered users get the "user" role rate. Every other caller must call a whitelisted function that is not blacklisted, and gets a rate derived from its stake.
- **`verify` then counts the call** in the caller's ledger entry. The counter is zeroed when more than one window has passed since the last admitted call. The call is admitted when the counter *before* the increment is at most the rate, so a window admits up to ⌊rate⌋ + 1 calls.
- **`sync`** refreshes the stake snapshot from the external registry, but only once the configured interval has passed since the stored sync time.

Files:

- `access_model.dfy` (module `AccessModel`): the values (configuration, ledger entries, denials, stored state) and the specification functions `RateLimit`, `VerifyStep`, `Refresh` and `SyncStep`.
- `access_class.dfy` (module `AccessGate`): class `Access`. Its fields `userInfo` and `stakes` are updated in place by the methods `Verify` and `Sync`. Each method is proved equal to its specification function.
- `access_laws.dfy` (module `AccessLaws`): laws of a single call.
- `access_runs.dfy` (module `AccessRuns`): laws of a sequence of calls from one address. These cover the per-window admission bound, the exact admission pattern inside a window, admins never being throttled, and the class's own self-test.
- `access_sync.dfy` (module `AccessSync`): laws of the refresh, and the finding below.

The outside world is passed in as arguments:

- The clock is the `now: int` argument.
- The identity directory and the shared helper whitelist are the sets in `Env`.
- The gated module is `Gated`: its key, its whitelist and its blacklist.
- The durable store's answer is an `Option<StoredState>`. None means reading the store raised.
- The registry's answer is an `Option<map<Address, int>>`. None means the registry call raised.

Each Python `assert` and each exception the code can raise becomes a `Denial` or a `SyncFailure` value.

Points where the code's behaviour is easy to misread:

- A registered user whose role map has no "user" entry gets rate 1: `role2rate.get('user', 1)` falls back to 1. The 10 is only the constructor's default map entry (line 19).
- A refused public call (not whitelisted, or blacklisted) creates no ledger entry at all. The write at line 94 is never reached.
- The durable state is read but never written back, although the refresh is evidently meant to be saved (see Findings).

## Model

| member | source | states |
|---|---|---|
| `AccessModel.TimescaleSeconds` | commune/modules/server/access/access.py:7 | a window name has a length exactly when it is sec, min, hour or day, and the lengths are 1, 60, 3600 and 86400 seconds |
| `AccessModel.RateLimit` | commune/modules/server/access/access.py:65-78 | only a public caller (not admin, not the own key, not a registered user) can be refused, and only as not whitelisted, blacklisted, or a zero stake divisor |
| `AccessModel.VerifyStep` | commune/modules/server/access/access.py:62-101 | a call changes no other address's entry; a refusal by the caller classification is what `verify` returns, with the ledger unchanged; a classified call under a window name other than sec, min, hour or day is refused as an unknown timescale, for admins too, with the ledger unchanged; any other refusal except a rate denial also leaves the ledger unchanged; the admitted entry and the one a rate denial carries are exactly what is stored |
| `AccessModel.Refresh` | commune/modules/server/access/access.py:43-47 | within the interval the state is untouched; past it a successful fetch gives the fetched stakes with sync time `now`, and a failed one the registry failure |
| `AccessModel.SyncStep` | commune/modules/server/access/access.py:37-60 | every failure keeps the old snapshot; on success the time until the next sync plus the time since the last one equals the interval, and the latter is measured from the stored sync time |
| `AccessGate.Access.constructor` | commune/modules/server/access/access.py:24-28 | a new gate has an empty ledger and an empty stake snapshot |
| `AccessGate.Access.Sync` | commune/modules/server/access/access.py:37-60 | the response and the new `stakes` field are those of `SyncStep` on the old snapshot |
| `AccessGate.Access.Verify` | commune/modules/server/access/access.py:62-101 | the result and the new `userInfo` field are those of `VerifyStep` on the old ledger |
| `AccessLaws.PrivilegedGetSentinel` | commune/modules/server/access/access.py:68-69 | admins and the gated module's own key get rate 10e42 for any function and any stakes |
| `AccessLaws.UserRateIgnoresStake` | commune/modules/server/access/access.py:71-72 | a registered non-admin user gets the "user" role rate (1 if absent), whatever the stakes or the function |
| `AccessLaws.PublicCallerRate` | commune/modules/server/access/access.py:65-78 | a public caller is refused as not whitelisted exactly when its function is on neither whitelist, and as blacklisted exactly when it is whitelisted and blacklisted; otherwise its rate is (stake / stake2rate + base_rate) * rate, with a missing stake read as 0 |
| `AccessLaws.ListRefusalLeavesLedger` | commune/modules/server/access/access.py:74-75 | a public caller whose function is on neither whitelist is refused by `verify` as not whitelisted, and one whose whitelisted function is blacklisted as blacklisted; in both cases the ledger is exactly as before |
| `AccessLaws.MoreStakeNoLowerRate` | commune/modules/server/access/access.py:76-78 | with a positive divisor and a non-negative multiplier, more stake never gives a lower rate |
| `AccessLaws.AdmissionRule` | commune/modules/server/access/access.py:81-99 | a call is admitted exactly when the counter, zeroed after a gap longer than one window, is at most ⌊rate⌋; admission stores `now` and counter + 1, a denial stores the old call time, the (possibly zeroed) counter and the diagnostics with `passed` false |
| `AccessLaws.FirstCallStartsFresh` | commune/modules/server/access/access.py:64 | an unseen address is admitted on its first call exactly when its rate is non-negative, and then holds one request stamped `now` |
| `AccessLaws.DenialDoesNotAdvance` | commune/modules/server/access/access.py:88-99 | a refused call never moves the last call time and never increases the counter; an admitted call stamps `now` |
| `AccessRuns.AdmittedWithoutReset` | commune/modules/server/access/access.py:81-99 | while every call falls within one window of the last admitted one, the i-th call from counter r is admitted exactly when r + i ≤ ⌊rate⌋ |
| `AccessRuns.WindowAdmissionBound` | commune/modules/server/access/access.py:81-99 | from any ledger, the calls inside one window-long interval get at most ⌊rate⌋ + 1 admissions, and none when the rate is negative |
| `AccessRuns.PrivilegedAlwaysAdmitted` | commune/modules/server/access/access.py:68-86 | admins and the own key are admitted on every call, at any frequency, until their counter reaches 10e42 + 1 |
| `AccessRuns.SelfTestScenario` | commune/modules/server/access/access.py:104-116 | with base_rate 2 and the defaults, six calls to "info" within a minute by an unstaked public caller are admitted, admitted, admitted, denied, denied, denied |
| `AccessSync.WithinIntervalNoFetch` | commune/modules/server/access/access.py:43-50 | within the interval the registry's answer makes no difference, and the snapshot becomes the stored stakes (an error if none are stored) |
| `AccessSync.PastIntervalRefreshes` | commune/modules/server/access/access.py:44-49 | past the interval a successful fetch replaces the snapshot wholesale, and a failed fetch is an error that keeps the old snapshot |
| `AccessSync.AsWrittenRefetchesWithinInterval` | commune/modules/server/access/access.py:41-49 | as written, a second sync right after a refresh reads the same stale store and calls the registry again |
| `AccessSync.AsWrittenEmptyStoreExample` | commune/modules/server/access/access.py:41-47 | with an empty store and a 30-second interval, syncs at times 100 and 101 both need the registry |
| `AccessSync.SyncPersisted` | commune/modules/server/access/access.py:41-49 | the refresh with the state written back: same outcome as `SyncStep`; a failure leaves the store alone, and a success stores the snapshot it published |
| `AccessSync.PersistedSkipsFetchWithinInterval` | commune/modules/server/access/access.py:41-49 | with the state written back, a sync within the interval after a refresh needs no registry and keeps the fetched snapshot |

## Left out

- The background loop (`sync_loop_thread`, the `c.thread` call in the constructor) is not modelled. It repeats `sync` forever on another thread; the model has one `Sync` step.
- Concurrent `verify` calls for the same address are not modelled. The model is sequential, so it says nothing about two calls racing on one entry.
- The clock is read twice in `verify` (lines 81 and 98) and twice in `sync` (lines 43 and 47). The model reads it once per call, as `now`.
- Times and stakes are integers, so fractional seconds are not modelled. Rates are exact reals, not floating point.
- Looking up the identity directory, constructing the registry client (line 45, including the `self.subspace` attribute it sets), `set_config`, `c.module('user')` and `module.client_access = False` are external calls. Their answers are arguments or are not modelled.
- A call dictionary without an `address` key raises before any logic runs. This is not modelled: every `Call` has an address.
- The text of error messages and the logging in `sync`'s handler are not modelled. A denial carries its kind, and a rate denial carries the ledger entry.
- `fn2rate`, the "public" entry of `role2rate`, and the class attribute `sync_time` (line 6) are accepted but never read by the code. They have no semantics here.
- A stored state may hold keys other than `stakes` and `sync_time`. These are not modelled.
- `AccessGate.Access.Sync` keeps the as-written behaviour: the refreshed state is not stored. The corrected refresh is `AccessSync.SyncPersisted`.

## Findings

| source | as written | input that shows it | evidently intended | confidence | as-written member | corrected member |
|---|---|---|---|---|---|---|
| commune/modules/server/access/access.py:41-49 | `sync` refreshes the state dictionary it read from the store, but never writes it back, so the stored sync time never advances and every sync past the interval calls the registry again | empty store, interval 30, syncs at times 100 and 101: both call the registry, and if the registry is down the second fails although a snapshot was taken one second earlier | store the refreshed state, so that a sync within the interval of a refresh reuses it without the registry | medium (depends on the store not being updated elsewhere), not executed | `AccessSync.AsWrittenRefetchesWithinInterval` | `AccessSync.PersistedSkipsFetchWithinInterval` |
