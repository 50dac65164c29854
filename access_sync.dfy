/** Laws of the interval-gated refresh of the stake snapshot, and the refresh as it
    behaves when the refreshed state is written back to the store. */
module AccessSync {
  import opened AccessModel

  /** Within the interval the registry is not consulted: whatever it would answer,
      the result is the same, and the snapshot becomes the stored stakes. */
  lemma WithinIntervalNoFetch(interval: int, stakes: map<Address, int>, state: StoredState,
                              fetched1: Option<map<Address, int>>, fetched2: Option<map<Address, int>>, now: int)
    requires now - SyncTimeOf(state) <= interval
    ensures SyncStep(interval, stakes, Some(state), fetched1, now)
            == SyncStep(interval, stakes, Some(state), fetched2, now)
    ensures var o := SyncStep(interval, stakes, Some(state), fetched1, now);
            if state.stakes.Some? then o == SyncOutcome(Synced(interval - (now - SyncTimeOf(state)),
                                                              now - SyncTimeOf(state)), state.stakes.value)
            else o == SyncOutcome(SyncError(MissingStakes), stakes)
  {
  }

  /** Past the interval a successful fetch replaces the snapshot wholesale; a failed
      fetch is an error that keeps the old snapshot. */
  lemma PastIntervalRefreshes(interval: int, stakes: map<Address, int>, state: StoredState,
                              fetched: Option<map<Address, int>>, now: int)
    requires now - SyncTimeOf(state) > interval
    ensures var o := SyncStep(interval, stakes, Some(state), fetched, now);
            && (fetched.Some? ==> o.stakes == fetched.value && o.response.Synced?)
            && (fetched.None? ==> o == SyncOutcome(SyncError(RegistryUnavailable), stakes))
  {
  }

  /** The refresh as written: the refreshed state is dropped, so a second sync that
      reads the same store goes back to the registry even right after a refresh. With
      nothing stored (sync time 0), every sync after time `interval` fetches, and a
      registry failure then fails the sync although a fresh snapshot was just taken. */
  lemma AsWrittenRefetchesWithinInterval(interval: int, stakes0: map<Address, int>, state: StoredState,
                                         m1: map<Address, int>, m2: map<Address, int>, now1: int, now2: int)
    requires now1 - SyncTimeOf(state) > interval
    requires now1 <= now2
    ensures var first := SyncStep(interval, stakes0, Some(state), Some(m1), now1);
            && first.stakes == m1
            && SyncStep(interval, first.stakes, Some(state), Some(m2), now2).stakes == m2
            && SyncStep(interval, first.stakes, Some(state), None, now2).response
               == SyncError(RegistryUnavailable)
  {
  }

  /** A concrete run: an empty store, the default interval of 30 seconds, syncs at
      times 100 and 101. The second one, one second after a refresh, still needs the
      registry. */
  lemma AsWrittenEmptyStoreExample()
    ensures var store := Some(StoredState(None, None));
            var first := SyncStep(30, map[], store, Some(map["a" := 5]), 100);
            first.stakes == map["a" := 5]
            && SyncStep(30, first.stakes, store, None, 101).response == SyncError(RegistryUnavailable)
  {
  }

  /** The refresh with the state written back: on success the store holds the state
      after the interval gate. */
  function SyncPersisted(interval: int, stakes: map<Address, int>, store: Option<StoredState>,
                         fetched: Option<map<Address, int>>, now: int): (r: (SyncOutcome, Option<StoredState>))
    ensures r.0 == SyncStep(interval, stakes, store, fetched, now)
    ensures r.0.response.SyncError? ==> r.1 == store
    ensures r.0.response.Synced? ==> r.1.Some? && r.1.value.stakes == Some(r.0.stakes)
  {
    var o := SyncStep(interval, stakes, store, fetched, now);
    if o.response.SyncError? then (o, store)
    else (o, Some(Refresh(interval, store.value, fetched, now).value))
  }

  /** With the state written back, a sync within the interval after a refresh needs no
      registry: it keeps the fetched snapshot and reports the time since the refresh. */
  lemma PersistedSkipsFetchWithinInterval(interval: int, stakes0: map<Address, int>,
                                          state: StoredState, m1: map<Address, int>,
                                          fetched2: Option<map<Address, int>>, now1: int, now2: int)
    requires now1 - SyncTimeOf(state) > interval
    requires now1 <= now2 <= now1 + interval
    ensures var first := SyncPersisted(interval, stakes0, Some(state), Some(m1), now1);
            var second := SyncPersisted(interval, first.0.stakes, first.1, fetched2, now2);
            second.0 == SyncOutcome(Synced(interval - (now2 - now1), now2 - now1), m1)
            && second.1 == first.1
  {
  }
}
