/** Lifetime counters and the self-pruning event log (src/gruvax/db/queries.py:1361-1410,
    1476-1501, 1557-1571). */
module Activity {
  import opened Sequences

  /** INTERVAL '168 hours', in seconds. */
  const WINDOW := 168 * 3600

  datatype Kind = Searched | Selected

  datatype Event = Event(profile: string, release: int, kind: Kind, at: int)

  type Key = (string, int)

  /** A row of record_stats. */
  datatype Stats = Stats(searches: nat, selections: nat, lastSearched: Option<int>, lastSelected: Option<int>,
                         searches7: nat, selections7: nat)

  /** The two tables. */
  datatype Store = Store(stats: map<Key, Stats>, log: seq<Event>)

  datatype Op = Increment(event: Event) | Reset

  function Of(key: Key, kind: Kind): Event -> bool {
    (e: Event) => e.profile == key.0 && e.release == key.1 && e.kind == kind
  }

  function Recent(now: int): Event -> bool { (e: Event) => e.at > now - WINDOW }

  /** What retention on the activity of a profile leaves. */
  function Kept(profile: string, now: int): Event -> bool {
    (e: Event) => !(e.profile == profile && e.at <= now - WINDOW)
  }

  /** count(*) over the log of the events of a record within the last seven days. */
  function WindowCount(log: seq<Event>, key: Key, kind: Kind, now: int): (n: nat) {
    |Filter(Filter(log, Recent(now)), Of(key, kind))|
  }

  function Lifetime(store: Store, key: Key, kind: Kind): (n: nat) {
    if key !in store.stats then 0
    else if kind == Searched then store.stats[key].searches else store.stats[key].selections
  }

  function Flag(b: bool): (n: nat) { if b then 1 else 0 }

  /** _UPSERT_RECORD_LIFETIME */
  function Upserted(stats: map<Key, Stats>, e: Event): (r: map<Key, Stats>) {
    var key, search := (e.profile, e.release), e.kind == Searched;
    var row := if key in stats then stats[key] else Stats(0, 0, None, None, 0, 0);
    stats[key := row.(searches := row.searches + Flag(search), selections := row.selections + Flag(!search),
                      lastSearched := if search then Some(e.at) else row.lastSearched,
                      lastSelected := if search then row.lastSelected else Some(e.at))]
  }

  function Pruned(log: seq<Event>, e: Event): (r: seq<Event>) { Filter(log, Kept(e.profile, e.at)) + [e] }

  /** _REFRESH_RECORD_WINDOW_CACHE */
  function Refreshed(stats: map<Key, Stats>, log: seq<Event>, key: Key, now: int): (r: map<Key, Stats>) {
    if key !in stats then stats
    else stats[key := stats[key].(searches7 := WindowCount(log, key, Searched, now),
                                  selections7 := WindowCount(log, key, Selected, now))]
  }

  function Step(store: Store, op: Op): (r: Store) {
    match op
    case Reset => Store(map[], [])
    case Increment(e) =>
      var log := Pruned(store.log, e);
      Store(Refreshed(Upserted(store.stats, e), log, (e.profile, e.release), e.at), log)
  }

  class ActivityStore {
    var stats: map<Key, Stats>
    var log: seq<Event>

    function View(): (s: Store) reads this { Store(stats, log) }

    /** The tables as the migration that adds the log finds them: totals, but no events. */
    constructor (totals: map<Key, Stats>)
      ensures View() == Store(totals, [])
    {
      stats, log := totals, [];
    }

    /** _increment_record_activity: one transaction, whose now() is the time of the event. */
    method IncrementRecordActivity(release: int, kind: Kind, profile: string, now: int)
      modifies this
      ensures View() == Step(old(View()), Increment(Event(profile, release, kind, now)))
    {
      var e := Event(profile, release, kind, now);
      stats := Upserted(stats, e);
      log := Filter(log, Kept(profile, now));
      log := log + [e];
      stats := Refreshed(stats, log, (profile, release), now);
    }

    /** reset_record_stats */
    method ResetRecordStats()
      modifies this
      ensures View() == Step(old(View()), Reset)
    {
      stats, log := map[], [];
    }
  }

  // ── Runs ───────────────────────────────────────────────────────────────────

  function Run(start: Store, ops: seq<Op>): (r: Store) {
    if ops == [] then start else Step(Run(start, ops[..|ops| - 1]), ops[|ops| - 1])
  }

  /** Every event since the last reset, never pruned. */
  function History(ops: seq<Op>): (r: seq<Event>) {
    if ops == [] then []
    else
      match ops[|ops| - 1]
      case Reset => []
      case Increment(e) => History(ops[..|ops| - 1]) + [e]
  }

  /** The clock has not run past `now` in any operation. */
  ghost predicate By(ops: seq<Op>, now: int) {
    forall i :: 0 <= i < |ops| && ops[i].Increment? ==> ops[i].event.at <= now
  }

  lemma {:induction false} FilterTwice(log: seq<Event>, p: Event -> bool, q: Event -> bool)
    requires forall e :: q(e) ==> p(e)
    ensures Filter(Filter(log, p), q) == Filter(log, q)
  {
    if log != [] {
      FilterTwice(log[1..], p, q);
      if p(log[0]) {
        assert ([log[0]] + Filter(log[1..], p))[1..] == Filter(log[1..], p);
      }
    }
  }

  /** Pruning never shows: at any time from the last operation on, the recent events of the pruned
      log are those of the whole history, in order. */
  lemma {:induction false} LogIsRecentHistory(start: Store, ops: seq<Op>, now: int)
    requires start.log == [] && By(ops, now)
    ensures Filter(Run(start, ops).log, Recent(now)) == Filter(History(ops), Recent(now))
  {
    if ops != [] {
      var n := |ops| - 1;
      LogIsRecentHistory(start, ops[..n], now);
      if ops[n].Increment? {
        var e, log := ops[n].event, Run(start, ops[..n]).log;
        FilterTwice(log, Kept(e.profile, e.at), Recent(now));
        FilterConcat(Filter(log, Kept(e.profile, e.at)), [e], Recent(now));
        FilterConcat(History(ops[..n]), [e], Recent(now));
      }
    }
  }

  /** The seven-day counts read from the log are the counts over the full history since the reset. */
  lemma WindowsAreExact(start: Store, ops: seq<Op>, key: Key, kind: Kind, now: int)
    requires start.log == [] && By(ops, now)
    ensures WindowCount(Run(start, ops).log, key, kind, now) == WindowCount(History(ops), key, kind, now)
  {
    LogIsRecentHistory(start, ops, now);
  }

  /** Operations come at non-decreasing times. */
  ghost predicate Clocked(ops: seq<Op>) {
    forall i :: 0 <= i < |ops| && ops[i].Increment? ==> By(ops[..i], ops[i].event.at)
  }

  /** The counts an increment caches are those of the full history at that moment. */
  lemma CacheIsExact(start: Store, ops: seq<Op>)
    requires start.log == [] && Clocked(ops) && ops != [] && ops[|ops| - 1].Increment?
    ensures var e := ops[|ops| - 1].event;
            var key := (e.profile, e.release);
            && key in Run(start, ops).stats
            && Run(start, ops).stats[key].searches7 == WindowCount(History(ops), key, Searched, e.at)
            && Run(start, ops).stats[key].selections7 == WindowCount(History(ops), key, Selected, e.at)
  {
    var n := |ops| - 1;
    var e := ops[n].event;
    assert By(ops, e.at) by {
      forall i | 0 <= i < |ops| && ops[i].Increment? ensures ops[i].event.at <= e.at {
        if i < n { assert ops[..n][i] == ops[i]; }
      }
    }
    WindowsAreExact(start, ops, (e.profile, e.release), Searched, e.at);
    WindowsAreExact(start, ops, (e.profile, e.release), Selected, e.at);
  }

  function Carried(start: Store, ops: seq<Op>, key: Key, kind: Kind): (n: nat) {
    if Reset in ops then 0 else Lifetime(start, key, kind)
  }

  lemma UpsertCounts(stats: map<Key, Stats>, log: seq<Event>, e: Event, key: Key, kind: Kind)
    ensures Lifetime(Store(Upserted(stats, e), log), key, kind) == Lifetime(Store(stats, log), key, kind) + Flag(Of(key, kind)(e))
  {
  }

  lemma RefreshKeepsTotals(stats: map<Key, Stats>, log: seq<Event>, of: Key, now: int, key: Key, kind: Kind)
    ensures Lifetime(Store(Refreshed(stats, log, of, now), log), key, kind) == Lifetime(Store(stats, log), key, kind)
  {
  }

  lemma StepCounts(store: Store, op: Op, key: Key, kind: Kind)
    ensures Lifetime(Step(store, op), key, kind)
            == if op == Reset then 0 else Lifetime(store, key, kind) + Flag(Of(key, kind)(op.event))
  {
    if op.Increment? {
      var e := op.event;
      UpsertCounts(store.stats, Pruned(store.log, e), e, key, kind);
      RefreshKeepsTotals(Upserted(store.stats, e), Pruned(store.log, e), (e.profile, e.release), e.at, key, kind);
    }
  }

  /** Nothing is lost or counted twice: a lifetime counter is the total carried over, unless reset,
      plus every event of the record since. */
  lemma {:induction false} LifetimeIsConserved(start: Store, ops: seq<Op>, key: Key, kind: Kind)
    ensures Lifetime(Run(start, ops), key, kind) == Carried(start, ops, key, kind) + |Filter(History(ops), Of(key, kind))|
  {
    if ops != [] {
      var n := |ops| - 1;
      LifetimeIsConserved(start, ops[..n], key, kind);
      StepCounts(Run(start, ops[..n]), ops[n], key, kind);
      assert ops == ops[..n] + [ops[n]];
      if ops[n].Increment? {
        FilterConcat(History(ops[..n]), [ops[n].event], Of(key, kind));
      }
    }
  }

  lemma {:induction false} FilterShorter(log: seq<Event>, p: Event -> bool, q: Event -> bool)
    ensures |Filter(Filter(log, p), q)| <= |Filter(log, q)|
  {
    if log != [] {
      FilterShorter(log[1..], p, q);
      if p(log[0]) {
        assert ([log[0]] + Filter(log[1..], p))[1..] == Filter(log[1..], p);
      }
    }
  }

  lemma {:induction false} LogWithinHistory(start: Store, ops: seq<Op>, key: Key, kind: Kind)
    requires start.log == []
    ensures |Filter(Run(start, ops).log, Of(key, kind))| <= |Filter(History(ops), Of(key, kind))|
  {
    if ops != [] {
      var n := |ops| - 1;
      LogWithinHistory(start, ops[..n], key, kind);
      if ops[n].Increment? {
        var e, log := ops[n].event, Run(start, ops[..n]).log;
        FilterShorter(log, Kept(e.profile, e.at), Of(key, kind));
        FilterConcat(Filter(log, Kept(e.profile, e.at)), [e], Of(key, kind));
        FilterConcat(History(ops[..n]), [e], Of(key, kind));
      }
    }
  }

  /** A lifetime counter is never below the retained events, nor below the window at any time. */
  lemma LifetimeCoversLog(start: Store, ops: seq<Op>, key: Key, kind: Kind, now: int)
    requires start.log == []
    ensures |Filter(Run(start, ops).log, Of(key, kind))| <= Lifetime(Run(start, ops), key, kind)
    ensures WindowCount(Run(start, ops).log, key, kind, now) <= Lifetime(Run(start, ops), key, kind)
  {
    LifetimeIsConserved(start, ops, key, kind);
    LogWithinHistory(start, ops, key, kind);
    FilterShorter(Run(start, ops).log, Recent(now), Of(key, kind));
  }

  // ── In terms of the events themselves ──────────────────────────────────────

  lemma {:induction false} FilterBoth(log: seq<Event>, p: Event -> bool, q: Event -> bool, both: Event -> bool)
    requires forall e :: both(e) <==> p(e) && q(e)
    ensures Filter(Filter(log, p), q) == Filter(log, both)
  {
    if log != [] {
      FilterBoth(log[1..], p, q, both);
      if p(log[0]) {
        assert ([log[0]] + Filter(log[1..], p))[1..] == Filter(log[1..], p);
      }
    }
  }

  /** The events of a record of one kind that are less than seven days, 604800 seconds, old. */
  function InWindow(key: Key, kind: Kind, now: int): Event -> bool {
    (e: Event) => e.profile == key.0 && e.release == key.1 && e.kind == kind && now - e.at < 604_800
  }

  /** A windowed count is the number of the record's events of that kind in the last seven days. */
  lemma WindowMeans(log: seq<Event>, key: Key, kind: Kind, now: int)
    ensures WindowCount(log, key, kind, now)
            == |set i | 0 <= i < |log| && log[i].profile == key.0 && log[i].release == key.1 && log[i].kind == kind
                        && now - log[i].at < 604_800|
  {
    FilterBoth(log, Recent(now), Of(key, kind), InWindow(key, kind, now));
    FilterCountsPositions(log, InWindow(key, kind, now));
    assert Positions(log, InWindow(key, kind, now))
        == set i | 0 <= i < |log| && log[i].profile == key.0 && log[i].release == key.1 && log[i].kind == kind
                   && now - log[i].at < 604_800;
  }

  /** The row a record started from, unless it was reset. */
  function Before(start: Store, ops: seq<Op>, key: Key): (row: Stats) {
    if Reset in ops || key !in start.stats then Stats(0, 0, None, None, 0, 0) else start.stats[key]
  }

  lemma OfMeans(key: Key, kind: Kind, log: seq<Event>)
    ensures |Filter(log, Of(key, kind))|
            == |set i | 0 <= i < |log| && log[i].profile == key.0 && log[i].release == key.1 && log[i].kind == kind|
  {
    FilterCountsPositions(log, Of(key, kind));
    assert Positions(log, Of(key, kind))
        == set i | 0 <= i < |log| && log[i].profile == key.0 && log[i].release == key.1 && log[i].kind == kind;
  }

  /** search_count counts the record's searches and selection_count its selections, no event left out
      or counted twice. */
  lemma TotalsMean(start: Store, ops: seq<Op>, key: Key)
    requires key in Run(start, ops).stats
    ensures var (h, row) := (History(ops), Run(start, ops).stats[key]);
            && row.searches == Before(start, ops, key).searches
                 + |set i | 0 <= i < |h| && h[i].profile == key.0 && h[i].release == key.1 && h[i].kind == Searched|
            && row.selections == Before(start, ops, key).selections
                 + |set i | 0 <= i < |h| && h[i].profile == key.0 && h[i].release == key.1 && h[i].kind == Selected|
  {
    LifetimeIsConserved(start, ops, key, Searched);
    LifetimeIsConserved(start, ops, key, Selected);
    OfMeans(key, Searched, History(ops));
    OfMeans(key, Selected, History(ops));
  }

  /** The position of the last event of a record of one kind; -1 if there is none. */
  function LastOf(log: seq<Event>, key: Key, kind: Kind): (i: int)
    ensures -1 <= i < |log|
    ensures i >= 0 ==> log[i].profile == key.0 && log[i].release == key.1 && log[i].kind == kind
    ensures forall j :: i < j < |log| ==> !(log[j].profile == key.0 && log[j].release == key.1 && log[j].kind == kind)
  {
    if log == [] then -1
    else
      var n := |log| - 1;
      if log[n].profile == key.0 && log[n].release == key.1 && log[n].kind == kind then n else LastOf(log[..n], key, kind)
  }

  function LastTime(log: seq<Event>, key: Key, kind: Kind, otherwise: Option<int>): (t: Option<int>) {
    var i := LastOf(log, key, kind);
    if i >= 0 then Some(log[i].at) else otherwise
  }

  lemma LastTimeSnoc(log: seq<Event>, e: Event, key: Key, kind: Kind, otherwise: Option<int>)
    ensures LastTime(log + [e], key, kind, otherwise)
            == if e.profile == key.0 && e.release == key.1 && e.kind == kind then Some(e.at) else LastTime(log, key, kind, otherwise)
  {
    assert (log + [e])[..|log|] == log;
  }

  /** The two times of a row. */
  function Times(store: Store, key: Key): (t: (Option<int>, Option<int>)) {
    if key in store.stats then (store.stats[key].lastSearched, store.stats[key].lastSelected) else (None, None)
  }

  lemma StepTimes(store: Store, op: Op, key: Key)
    ensures Times(Step(store, op), key) ==
              if op == Reset then (None, None)
              else
                var (t, e) := (Times(store, key), op.event);
                if (e.profile, e.release) != key then t else if e.kind == Searched then (Some(e.at), t.1) else (t.0, Some(e.at))
  {
  }

  /** The times of the record's last search and of its last selection; without one they are what
      they were when the log began. */
  function LastTimes(start: Store, ops: seq<Op>, key: Key): (t: (Option<int>, Option<int>)) {
    var was := if Reset in ops then (None, None) else Times(start, key);
    (LastTime(History(ops), key, Searched, was.0), LastTime(History(ops), key, Selected, was.1))
  }

  lemma LastTimesStep(start: Store, ops: seq<Op>, op: Op, key: Key)
    ensures LastTimes(start, ops + [op], key) ==
              if op == Reset then (None, None)
              else
                var (t, e) := (LastTimes(start, ops, key), op.event);
                if (e.profile, e.release) != key then t else if e.kind == Searched then (Some(e.at), t.1) else (t.0, Some(e.at))
  {
    var all := ops + [op];
    assert all[..|ops|] == ops;
    assert Reset in all <==> Reset in ops || op == Reset;
    var was := if Reset in ops then (None, None) else Times(start, key);
    if op.Increment? {
      LastTimeSnoc(History(ops), op.event, key, Searched, was.0);
      LastTimeSnoc(History(ops), op.event, key, Selected, was.1);
    }
  }

  /** last_searched_at is the time of the record's last search, last_selected_at that of its last
      selection. */
  lemma {:induction false} LastTimesAreExact(start: Store, ops: seq<Op>, key: Key)
    ensures Times(Run(start, ops), key) == LastTimes(start, ops, key)
  {
    if ops != [] {
      var n := |ops| - 1;
      LastTimesAreExact(start, ops[..n], key);
      assert ops == ops[..n] + [ops[n]];
      LastTimesStep(start, ops[..n], ops[n], key);
      StepTimes(Run(start, ops[..n]), ops[n], key);
    }
  }

  lemma StepKeepsCache(store: Store, op: Op, key: Key)
    requires op.Increment? && (op.event.profile, op.event.release) != key && key in store.stats
    ensures key in Step(store, op).stats && Step(store, op).stats[key] == store.stats[key]
  {
  }

  /** An increment removes from the log exactly the events of its own profile that are seven days
      old or older, and adds its event. */
  lemma PruningMeans(store: Store, e: Event, x: Event)
    ensures x in Step(store, Increment(e)).log <==>
              x == e || (x in store.log && (x.profile != e.profile || e.at - x.at < 604_800))
  {
    FilterMember(store.log, Kept(e.profile, e.at), x);
  }

  lemma RunSnoc(start: Store, ops: seq<Op>, op: Op)
    ensures Run(start, ops + [op]) == Step(Run(start, ops), op)
  {
    assert (ops + [op])[..|ops|] == ops;
  }

  /** The cached counts of a record are those of a history at a time. */
  ghost predicate Caches(store: Store, key: Key, history: seq<Event>, now: int) {
    && key in store.stats
    && store.stats[key].searches7 == WindowCount(history, key, Searched, now)
    && store.stats[key].selections7 == WindowCount(history, key, Selected, now)
  }

  /** The cached counts of a record stay those of its last increment, whatever other records do. */
  lemma {:induction false} CacheStays(start: Store, ops: seq<Op>, more: seq<Op>, key: Key)
    requires start.log == [] && Clocked(ops) && ops != [] && ops[|ops| - 1].Increment?
    requires key == (ops[|ops| - 1].event.profile, ops[|ops| - 1].event.release)
    requires forall op :: op in more ==> op.Increment? && (op.event.profile, op.event.release) != key
    ensures var caches := Caches(Run(start, ops + more), key, History(ops), ops[|ops| - 1].event.at); caches
    decreases |more|
  {
    if more == [] {
      assert ops + more == ops;
      CacheIsExact(start, ops);
    } else {
      var n := |more| - 1;
      assert ops + more == (ops + more[..n]) + [more[n]];
      assert more[n] in more;
      CacheStays(start, ops, more[..n], key);
      StepKeepsCache(Run(start, ops + more[..n]), more[n], key);
      RunSnoc(start, ops + more[..n], more[n]);
    }
  }
}
