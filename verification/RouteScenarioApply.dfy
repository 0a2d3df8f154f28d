/**
 Applying a route scenario: one write per differing item, each of which may fail on its own; both pool
 items go through one write.  A written value reads back normalised, once or more often.
 */
module RouteScenarioApply {
  import opened Bytes
  import opened RouteRules
  import opened RouteScenarios

  type Positive = n: int | n > 0 witness 1

  /** How often a value is normalised between being written and being read again. */
  type Trips = Key -> Positive

  predicate IsPool(key: Key) {
    key == LocalPool || key == ExternalPool
  }

  predicate Selected(only: seq<Key>, key: Key) {
    only == [] || key in only
  }

  /** What one run is asked to do, and which writes fail. */
  datatype Run = Run(content: Content, only: seq<Key>, failing: set<Key>, poolFails: bool)

  predicate Differs(c: Content, s: Settings, key: Key) {
    key in s && s[key] != Target(c, key)
  }

  /** The run attempts this item. */
  predicate Attempted(run: Run, s: Settings, key: Key) {
    Selected(run.only, key) && Differs(run.content, s, key)
  }

  predicate Fails(run: Run, key: Key) {
    if IsPool(key) then run.poolFails else key in run.failing
  }

  predicate PoolsWritten(run: Run, s: Settings) {
    !run.poolFails && (Attempted(run, s, LocalPool) || Attempted(run, s, ExternalPool))
  }

  /** An item after the run; a pool item that was not attempted is written back when the other one is. */
  function After(run: Run, s: Settings, trips: Trips, key: Key): RoutePolicy
    requires key in s
  {
    if Attempted(run, s, key) && !Fails(run, key) then Passes(Target(run.content, key), trips(key))
    else if IsPool(key) && PoolsWritten(run, s) then Passes(s[key], trips(key))
    else s[key]
  }

  function Applied(run: Run, s: Settings, trips: Trips): Settings {
    map key | key in s :: After(run, s, trips, key)
  }

  // ----- The code -----

  datatype Result = Result(key: Key, success: bool)

  datatype Response = Response(total: nat, success: nat, failed: nat, skipped: nat, items: seq<Result>)

  function CountSuccess(rs: seq<Result>): (n: nat)
    ensures n <= |rs|
  {
    if rs == [] then 0 else CountSuccess(rs[..|rs| - 1]) + if rs[|rs| - 1].success then 1 else 0
  }

  lemma {:induction false} NoFailure(rs: seq<Result>)
    ensures CountSuccess(rs) == |rs| <==> forall i :: 0 <= i < |rs| ==> rs[i].success
  {
    if rs != [] {
      var n := |rs| - 1;
      NoFailure(rs[..n]);
      assert forall i :: 0 <= i < n ==> rs[..n][i] == rs[i];
    }
  }

  /** The results report each attempted key once, with whether it failed. */
  ghost predicate Reports(run: Run, s: Settings, rs: seq<Result>) {
    && (forall i :: 0 <= i < |rs| ==> Attempted(run, s, rs[i].key) && rs[i].success == !Fails(run, rs[i].key))
    && (forall key :: Attempted(run, s, key) ==> Reported(rs, key))
    && EachOnce(rs)
  }

  ghost predicate EachOnce(rs: seq<Result>) {
    forall i, j :: 0 <= i < j < |rs| ==> rs[i].key != rs[j].key
  }

  ghost predicate Reported(rs: seq<Result>, key: Key) {
    exists i :: 0 <= i < |rs| && rs[i].key == key
  }

  /** The counts add up, each attempted item is reported, and nothing is counted failed unless a write failed. */
  ghost predicate Answers(run: Run, s: Settings, r: Response) {
    && r.success + r.failed + r.skipped == r.total
    && r.success == CountSuccess(r.items) && r.failed == |r.items| - r.success
    && Reports(run, s, r.items)
    && (r.failed == 0 <==> NothingFails(run, s))
  }

  lemma ResponseAnswers(run: Run, s: Settings, total: nat, skipped: nat, results: seq<Result>)
    requires Reports(run, s, results) && skipped + |results| == total
    ensures var success := CountSuccess(results);
      Answers(run, s, Response(total, success, |results| - success, skipped, results))
  {
    NoFailure(results);
    FailureFree(run, s, results);
  }

  /** The settings the run is asked to look at. */
  function Chosen(run: Run, s: Settings): set<Key> {
    set key | key in s && (run.only == [] || key in run.only)
  }

  class RouteService {
    var settings: Settings
    var active: Option<nat>
    const trips: Trips

    constructor (settings: Settings, trips: Trips)
      ensures this.settings == settings && this.active == None && this.trips == trips
    {
      this.settings, this.active, this.trips := settings, None, trips;
    }

    /** The setter of one account. */
    method SetAccount(key: Key, policy: RoutePolicy, fails: bool) returns (ok: bool)
      modifies this`settings
      ensures ok == !fails
      ensures settings == if ok then old(settings)[key := Passes(policy, trips(key))] else old(settings)
    {
      if fails {
        return false;
      }
      settings := settings[key := Passes(policy, trips(key))];
      ok := true;
    }

    /** The one write for both pool policies. */
    method SetPools(local: RoutePolicy, external: RoutePolicy, fails: bool) returns (ok: bool)
      modifies this`settings
      ensures ok == !fails
      ensures settings == if ok
                          then old(settings)[LocalPool := Passes(local, trips(LocalPool))]
                                            [ExternalPool := Passes(external, trips(ExternalPool))]
                          else old(settings)
    {
      if fails {
        return false;
      }
      settings := settings[LocalPool := Passes(local, trips(LocalPool))]
                          [ExternalPool := Passes(external, trips(ExternalPool))];
      ok := true;
    }

    /** `apply_route_scenario` on loaded content; `rereadFails` if the state cannot be read back. */
    method ApplyRouteScenario(id: nat, run: Run, rereadFails: bool) returns (r: Response)
      requires ValidSettings(settings)
      modifies this
      ensures settings == Applied(run, old(settings), trips)
      ensures Answers(run, old(settings), r) && r.total == |Chosen(run, old(settings))|
      ensures forall key :: key in settings && key !in Chosen(run, old(settings)) && !IsPool(key) ==>
                settings[key] == old(settings)[key]
      ensures active == old(active) || (active == Some(id) && r.failed == 0)
      ensures r.failed == 0 && run.only == [] ==> active == Some(id)
      ensures r.failed == 0 && !rereadFails
              && (forall key :: key in settings ==> settings[key] == Target(run.content, key)) ==>
                active == Some(id)
      ensures run.only != [] && active != old(active) ==>
                !rereadFails && forall key :: key in settings ==> settings[key] == Target(run.content, key)
    {
      ghost var s := settings;
      var selected := SelectedItems(Plan(run.content, settings), run.only);
      SelectedAre(run, s);
      var results, skipped := ApplySelected(run, selected);
      var success := CountSuccess(results);
      ResponseAnswers(run, s, |selected|, skipped, results);
      r := Response(|selected|, success, |results| - success, skipped, results);
      SelectedCount(run, s, selected);
      if r.failed == 0 && (run.only == [] || (!rereadFails && InSync(run.content, settings))) {
        active := Some(id);
      }
    }

    /**
     A full run that fails on some items, and a retry of those that meets no failure: the scenario becomes
     active exactly when every value that had to be written survives being written.
     */
    method ApplyThenRetry(id: nat, run: Run, retry: Run) returns (first: Response, second: Response)
      requires ValidSettings(settings) && LoadedContent(run.content) && Retries(run, settings, trips, retry)
      requires retry.only != [] && !NothingFails(run, settings)
      modifies this
      ensures first.failed > 0 && second.failed == 0
      ensures active == if Writable(run.content, old(settings)) then Some(id) else old(active)
    {
      ghost var s := settings;
      first := ApplyRouteScenario(id, run, false);
      AppliedIsValid(run, s, trips);
      RetryConvergesIff(run, s, trips, retry);
      second := ApplyRouteScenario(id, retry, false);
    }

    /** The accounts first, then the pools. */
    method ApplySelected(run: Run, selected: seq<Planned>) returns (results: seq<Result>, skipped: nat)
      requires ValidSettings(settings) && IsSelection(run, settings, selected)
      modifies this`settings
      ensures settings == Applied(run, old(settings), trips)
      ensures Reports(run, old(settings), results) && skipped + |results| == |selected|
    {
      ghost var s := settings;
      var accounts, pools;
      accounts, skipped, pools := ApplyAccounts(run, selected);
      results := ApplyPools(run, s, selected, accounts, pools);
    }

    /** One selected item: skipped, collected, or written and reported. */
    method ApplyItem(run: Run, ghost s: Settings, ghost done: set<Key>, item: Planned,
                     results: seq<Result>, skipped: nat, pools: seq<Key>)
      returns (results': seq<Result>, skipped': nat, pools': seq<Key>)
      requires item.key in s && item.key !in done && item.after == Target(run.content, item.key)
      requires Attempted(run, s, item.key) <==> item.before != item.after
      requires Progress(run, s, trips, done, settings, results, pools)
      modifies this`settings
      ensures skipped' + |results'| + |pools'| == skipped + |results| + |pools| + 1
      ensures Progress(run, s, trips, done + {item.key}, settings, results', pools')
    {
      ProgressNext(run, s, trips, done, item.key, settings, results, pools);
      results', skipped', pools' := results, skipped, pools;
      if item.before == item.after {
        skipped' := skipped + 1;
      } else if IsPool(item.key) {
        pools' := pools + [item.key];
      } else {
        var ok := SetAccount(item.key, item.after, item.key in run.failing);
        results' := results + [Result(item.key, ok)];
      }
    }

    /** The accounts of the selected items; pool items are only collected. */
    method ApplyAccounts(run: Run, selected: seq<Planned>)
      returns (results: seq<Result>, skipped: nat, pools: seq<Key>)
      requires ValidSettings(settings) && IsSelection(run, settings, selected)
      modifies this`settings
      ensures skipped + |results| + |pools| == |selected|
      ensures Progress(run, old(settings), trips, KeysIn(selected), settings, results, pools)
    {
      ghost var s := settings;
      ghost var done: set<Key> := {};
      results, skipped, pools := [], 0, [];
      ProgressStarts(run, s, trips);
      for n := 0 to |selected|
        invariant skipped + |results| + |pools| == n && done == KeysIn(selected[..n])
        invariant Progress(run, s, trips, done, settings, results, pools)
      {
        NextKey(run, s, selected, n);
        results, skipped, pools := ApplyItem(run, s, done, selected[n], results, skipped, pools);
        done := done + {selected[n].key};
      }
      assert selected[..|selected|] == selected;
    }

    /** The pool write, if any pool item was collected, and its results. */
    method ApplyPools(run: Run, ghost s: Settings, ghost selected: seq<Planned>, accounts: seq<Result>, pools: seq<Key>)
      returns (results: seq<Result>)
      requires ValidSettings(s) && IsSelection(run, s, selected)
      requires Progress(run, s, trips, KeysIn(selected), settings, accounts, pools)
      modifies this`settings
      ensures settings == Applied(run, s, trips)
      ensures Reports(run, s, results) && |results| == |accounts| + |pools|
    {
      PoolWriteIsApplied(run, s, trips, selected, settings, pools);
      if pools != [] {
        var local := if LocalPool in pools then run.content.local else settings[LocalPool];
        var external := if ExternalPool in pools then run.content.external else settings[ExternalPool];
        var ok := SetPools(local, external, run.poolFails);
      }
      results := PoolResults(accounts, pools, !run.poolFails);
      ReportsAll(run, s, selected, accounts, pools, results);
    }
  }

  method PoolResults(accounts: seq<Result>, pools: seq<Key>, ok: bool) returns (results: seq<Result>)
    ensures |results| == |accounts| + |pools|
    ensures forall j :: 0 <= j < |accounts| ==> results[j] == accounts[j]
    ensures forall j :: 0 <= j < |pools| ==> results[|accounts| + j] == Result(pools[j], ok)
  {
    results := accounts;
    for i := 0 to |pools|
      invariant |results| == |accounts| + i
      invariant forall j :: 0 <= j < |accounts| ==> results[j] == accounts[j]
      invariant forall j :: 0 <= j < i ==> results[|accounts| + j] == Result(pools[j], ok)
    {
      results := results + [Result(pools[i], ok)];
    }
  }

  /** Where the loop over the selected items stands once the keys of `done` are handled. */
  ghost predicate Progress(run: Run, s: Settings, trips: Trips, done: set<Key>, current: Settings,
                           results: seq<Result>, pools: seq<Key>) {
    && current == Partial(run, s, trips, done)
    && AccountsReported(run, s, done, results)
    && PoolsCollected(run, s, done, pools)
  }

  lemma ProgressStarts(run: Run, s: Settings, trips: Trips)
    ensures Progress(run, s, trips, {}, s, [], [])
  {
  }

  lemma ProgressNext(run: Run, s: Settings, trips: Trips, done: set<Key>, key: Key, current: Settings,
                     results: seq<Result>, pools: seq<Key>)
    requires key in s && key !in done && Progress(run, s, trips, done, current, results, pools)
    ensures var written := Passes(Target(run.content, key), trips(key));
            if !Attempted(run, s, key) then Progress(run, s, trips, done + {key}, current, results, pools)
            else if IsPool(key) then Progress(run, s, trips, done + {key}, current, results, pools + [key])
            else if Fails(run, key)
            then Progress(run, s, trips, done + {key}, current, results + [Result(key, false)], pools)
            else Progress(run, s, trips, done + {key}, current[key := written], results + [Result(key, true)], pools)
  {
    PartialNext(run, s, trips, done, key);
    ReportNext(run, s, done, key, results);
    CollectNext(run, s, done, key, pools);
  }

  /** The settings once the accounts among `done` have been handled, and the pools not yet. */
  function Partial(run: Run, s: Settings, trips: Trips, done: set<Key>): Settings {
    map key | key in s :: if !IsPool(key) && key in done then After(run, s, trips, key) else s[key]
  }

  lemma PartialNext(run: Run, s: Settings, trips: Trips, done: set<Key>, key: Key)
    requires key in s && key !in done
    ensures IsPool(key) || !Attempted(run, s, key) || Fails(run, key) ==>
              Partial(run, s, trips, done + {key}) == Partial(run, s, trips, done)
    ensures !IsPool(key) && Attempted(run, s, key) && !Fails(run, key) ==>
              Partial(run, s, trips, done + {key})
              == Partial(run, s, trips, done)[key := Passes(Target(run.content, key), trips(key))]
  {
  }

  lemma AccountsHandled(run: Run, s: Settings, trips: Trips, selected: seq<Planned>, key: Key)
    requires IsSelection(run, s, selected) && key in s && !IsPool(key)
    ensures Partial(run, s, trips, KeysIn(selected))[key] == After(run, s, trips, key)
  {
    if Attempted(run, s, key) {
      assert key in KeysIn(selected);
    }
  }

  lemma PartialIsApplied(run: Run, s: Settings, trips: Trips, selected: seq<Planned>, pools: Settings)
    requires ValidSettings(s) && IsSelection(run, s, selected) && pools.Keys == s.Keys
    requires forall key :: key in s && !IsPool(key) ==> pools[key] == Partial(run, s, trips, KeysIn(selected))[key]
    requires forall key :: key in s && IsPool(key) ==> pools[key] == After(run, s, trips, key)
    ensures pools == Applied(run, s, trips)
  {
    forall key | key in s ensures pools[key] == Applied(run, s, trips)[key] {
      if !IsPool(key) {
        AccountsHandled(run, s, trips, selected, key);
      }
    }
  }

  /** The settings after the pool write, which names the pools collected and writes back the other. */
  function AfterPoolWrite(run: Run, current: Settings, trips: Trips, pools: seq<Key>): Settings
    requires LocalPool in current && ExternalPool in current
  {
    if pools == [] || run.poolFails then current
    else
      var local := if LocalPool in pools then run.content.local else current[LocalPool];
      var external := if ExternalPool in pools then run.content.external else current[ExternalPool];
      current[LocalPool := Passes(local, trips(LocalPool))][ExternalPool := Passes(external, trips(ExternalPool))]
  }

  lemma PoolWriteIsApplied(
    run: Run, s: Settings, trips: Trips, selected: seq<Planned>, current: Settings, pools: seq<Key>)
    requires ValidSettings(s) && IsSelection(run, s, selected) && PoolsCollected(run, s, KeysIn(selected), pools)
    requires current == Partial(run, s, trips, KeysIn(selected))
    ensures AfterPoolWrite(run, current, trips, pools) == Applied(run, s, trips)
  {
    PoolsAttempted(run, s, selected, pools);
    PartialIsApplied(run, s, trips, selected, AfterPoolWrite(run, current, trips, pools));
  }

  // ----- Bookkeeping of the run -----

  function KeysIn(items: seq<Planned>): set<Key> {
    set p | p in items :: p.key
  }

  function SelectedItems(items: seq<Planned>, only: seq<Key>): seq<Planned> {
    if items == [] then []
    else if Selected(only, items[0].key) then [items[0]] + SelectedItems(items[1..], only)
    else SelectedItems(items[1..], only)
  }

  /** The selected items: each selected setting once, with its value and its target. */
  ghost predicate IsSelection(run: Run, s: Settings, selected: seq<Planned>) {
    && (forall i :: 0 <= i < |selected| ==>
          && selected[i].key in s && Selected(run.only, selected[i].key)
          && selected[i] == Planned(selected[i].key, s[selected[i].key], Target(run.content, selected[i].key)))
    && (forall i, j :: 0 <= i < j < |selected| ==> selected[i].key != selected[j].key)
    && (forall key :: key in s && Selected(run.only, key) ==> key in KeysIn(selected))
  }

  ghost predicate DistinctItems(ps: seq<Planned>) {
    forall i, j :: 0 <= i < j < |ps| ==> ps[i].key != ps[j].key
  }

  lemma {:induction false} SelectedItemsAre(items: seq<Planned>, only: seq<Key>)
    ensures forall p :: p in SelectedItems(items, only) <==> p in items && Selected(only, p.key)
    decreases |items|
  {
    if items != [] {
      SelectedItemsAre(items[1..], only);
      var rest := SelectedItems(items[1..], only);
      forall p ensures p in SelectedItems(items, only) <==> p in items && Selected(only, p.key) {
        assert p in items <==> p == items[0] || p in items[1..];
        assert p in [items[0]] + rest <==> p == items[0] || p in rest;
      }
    }
  }

  lemma ConsDistinct(p: Planned, rest: seq<Planned>)
    requires DistinctItems(rest) && forall q :: q in rest ==> q.key != p.key
    ensures DistinctItems([p] + rest)
  {
    var ps := [p] + rest;
    forall i, j | 0 <= i < j < |ps| ensures ps[i].key != ps[j].key {
      assert ps[j] == rest[j - 1] && rest[j - 1] in rest;
    }
  }

  lemma {:induction false} SelectedItemsDistinct(items: seq<Planned>, only: seq<Key>)
    requires DistinctItems(items)
    ensures DistinctItems(SelectedItems(items, only))
    decreases |items|
  {
    if items != [] {
      SelectedItemsDistinct(items[1..], only);
      SelectedItemsAre(items[1..], only);
      forall q | q in items[1..] ensures q.key != items[0].key {
        var j :| 0 <= j < |items[1..]| && items[1..][j] == q;
        assert items[j + 1] == q;
      }
      ConsDistinct(items[0], SelectedItems(items[1..], only));
    }
  }

  lemma {:induction false} DistinctCount(items: seq<Planned>)
    requires DistinctItems(items)
    ensures |KeysIn(items)| == |items|
  {
    if items != [] {
      var n := |items| - 1;
      DistinctCount(items[..n]);
      assert items == items[..n] + [items[n]];
      assert KeysIn(items) == KeysIn(items[..n]) + {items[n].key};
      forall p | p in items[..n] ensures p.key != items[n].key {
        var i :| 0 <= i < n && items[i] == p;
      }
    }
  }

  lemma SelectedCount(run: Run, s: Settings, selected: seq<Planned>)
    requires IsSelection(run, s, selected)
    ensures |selected| == |Chosen(run, s)|
  {
    DistinctCount(selected);
    assert KeysIn(selected) == Chosen(run, s);
  }

  lemma SelectedAre(run: Run, s: Settings)
    requires ValidSettings(s)
    ensures IsSelection(run, s, SelectedItems(Plan(run.content, s), run.only))
  {
    var items := Plan(run.content, s);
    PlanKeysAre(s);
    SelectedItemsAre(items, run.only);
    SelectedItemsDistinct(items, run.only);
    var selected := SelectedItems(items, run.only);
    forall i | 0 <= i < |selected|
      ensures && selected[i].key in s && Selected(run.only, selected[i].key)
              && selected[i] == Planned(selected[i].key, s[selected[i].key], Target(run.content, selected[i].key))
    {
      assert selected[i] in items;
    }
    forall key | key in s && Selected(run.only, key) ensures key in KeysIn(selected) {
      assert key in PlanKeys(s);
      var i :| 0 <= i < |PlanKeys(s)| && PlanKeys(s)[i] == key;
      assert items[i].key == key && items[i] in items && items[i] in selected;
    }
  }

  ghost predicate AccountsReported(run: Run, s: Settings, done: set<Key>, rs: seq<Result>) {
    && (forall i :: 0 <= i < |rs| ==>
          && rs[i].key in done && !IsPool(rs[i].key)
          && Attempted(run, s, rs[i].key) && rs[i].success == !Fails(run, rs[i].key))
    && EachOnce(rs)
    && (forall key :: key in done && !IsPool(key) && Attempted(run, s, key) ==> Reported(rs, key))
  }

  ghost predicate PoolsCollected(run: Run, s: Settings, done: set<Key>, pools: seq<Key>) {
    && (forall i :: 0 <= i < |pools| ==> pools[i] in done && IsPool(pools[i]) && Attempted(run, s, pools[i]))
    && NoRepeats(pools)
    && (forall key :: key in done && IsPool(key) && Attempted(run, s, key) ==> key in pools)
  }

  lemma ReportedStays(rs: seq<Result>, r: Result, key: Key)
    ensures Reported(rs, key) || r.key == key ==> Reported(rs + [r], key)
  {
    if Reported(rs, key) {
      var i :| 0 <= i < |rs| && rs[i].key == key;
      assert (rs + [r])[i].key == key;
    } else if r.key == key {
      assert (rs + [r])[|rs|].key == key;
    }
  }

  lemma ReportNext(run: Run, s: Settings, done: set<Key>, key: Key, rs: seq<Result>)
    requires AccountsReported(run, s, done, rs) && key !in done
    ensures IsPool(key) || !Attempted(run, s, key) ==> AccountsReported(run, s, done + {key}, rs)
    ensures !IsPool(key) && Attempted(run, s, key) ==>
              AccountsReported(run, s, done + {key}, rs + [Result(key, !Fails(run, key))])
  {
    var r := Result(key, !Fails(run, key));
    forall k ensures Reported(rs, k) || k == key ==> Reported(rs + [r], k) {
      ReportedStays(rs, r, k);
    }
  }

  lemma CollectNext(run: Run, s: Settings, done: set<Key>, key: Key, pools: seq<Key>)
    requires PoolsCollected(run, s, done, pools) && key !in done
    ensures !IsPool(key) || !Attempted(run, s, key) ==> PoolsCollected(run, s, done + {key}, pools)
    ensures IsPool(key) && Attempted(run, s, key) ==> PoolsCollected(run, s, done + {key}, pools + [key])
  {
  }

  lemma NextKey(run: Run, s: Settings, selected: seq<Planned>, n: nat)
    requires n < |selected| && IsSelection(run, s, selected)
    ensures KeysIn(selected[..n + 1]) == KeysIn(selected[..n]) + {selected[n].key}
    ensures selected[n].key !in KeysIn(selected[..n])
    ensures var key := selected[n].key;
            && key in s && selected[n].before == s[key] && selected[n].after == Target(run.content, key)
            && (Attempted(run, s, key) <==> selected[n].before != selected[n].after)
  {
    assert selected[..n + 1] == selected[..n] + [selected[n]];
    assert forall p :: p in selected[..n + 1] <==> p in selected[..n] || p == selected[n];
  }

  lemma PoolsAttempted(run: Run, s: Settings, selected: seq<Planned>, pools: seq<Key>)
    requires ValidSettings(s) && IsSelection(run, s, selected) && PoolsCollected(run, s, KeysIn(selected), pools)
    ensures forall key :: IsPool(key) ==> (key in pools <==> Attempted(run, s, key))
    ensures pools != [] <==> Attempted(run, s, LocalPool) || Attempted(run, s, ExternalPool)
  {
    forall key | IsPool(key) ensures key in pools <==> Attempted(run, s, key) {
      if Attempted(run, s, key) {
        assert key in KeysIn(selected);
      }
    }
    if pools != [] {
      assert pools[0] in pools;
    }
  }

  lemma ResultsDistinct(accounts: seq<Result>, pools: seq<Key>, results: seq<Result>)
    requires EachOnce(accounts) && forall i :: 0 <= i < |accounts| ==> !IsPool(accounts[i].key)
    requires NoRepeats(pools) && forall i :: 0 <= i < |pools| ==> IsPool(pools[i])
    requires |results| == |accounts| + |pools|
    requires forall j :: 0 <= j < |accounts| ==> results[j] == accounts[j]
    requires forall j :: 0 <= j < |pools| ==> results[|accounts| + j].key == pools[j]
    ensures EachOnce(results)
  {
    var n := |accounts|;
    forall i, j | 0 <= i < j < |results| ensures results[i].key != results[j].key {
      if j >= n {
        assert results[n + (j - n)].key == pools[j - n];
        if i >= n {
          assert results[n + (i - n)].key == pools[i - n];
        }
      }
    }
  }

  lemma ReportsAll(
    run: Run, s: Settings, selected: seq<Planned>, accounts: seq<Result>, pools: seq<Key>, results: seq<Result>)
    requires ValidSettings(s) && IsSelection(run, s, selected)
    requires AccountsReported(run, s, KeysIn(selected), accounts) && PoolsCollected(run, s, KeysIn(selected), pools)
    requires |results| == |accounts| + |pools|
    requires forall j :: 0 <= j < |accounts| ==> results[j] == accounts[j]
    requires forall j :: 0 <= j < |pools| ==> results[|accounts| + j] == Result(pools[j], !run.poolFails)
    ensures Reports(run, s, results)
  {
    ResultsDistinct(accounts, pools, results);
    forall i | 0 <= i < |results|
      ensures Attempted(run, s, results[i].key) && results[i].success == !Fails(run, results[i].key)
    {
      if i >= |accounts| {
        assert results[i] == Result(pools[i - |accounts|], !run.poolFails);
      }
    }
    forall key | Attempted(run, s, key) ensures Reported(results, key) {
      assert key in KeysIn(selected);
      if IsPool(key) {
        var j :| 0 <= j < |pools| && pools[j] == key;
        assert results[|accounts| + j].key == key;
      } else {
        var i :| 0 <= i < |accounts| && accounts[i].key == key;
        assert results[i].key == key;
      }
    }
  }

  lemma FailureFree(run: Run, s: Settings, rs: seq<Result>)
    requires Reports(run, s, rs)
    ensures (forall i :: 0 <= i < |rs| ==> rs[i].success) <==> forall key :: Attempted(run, s, key) ==> !Fails(run, key)
  {
    if forall i :: 0 <= i < |rs| ==> rs[i].success {
      forall key | Attempted(run, s, key) ensures !Fails(run, key) {
        assert Reported(rs, key);
        var i :| 0 <= i < |rs| && rs[i].key == key;
        assert rs[i].success;
      }
    }
  }

  // ----- What a run achieves -----

  /** The targets are as a load leaves them: normalised. */
  ghost predicate LoadedContent(c: Content) {
    forall key :: ShapedPolicy(Target(c, key))
  }

  lemma LoadingNormalises(c: Content)
    ensures LoadedContent(NormalizedContent(c))
  {
    forall key ensures ShapedPolicy(Target(NormalizedContent(c), key)) {
      TargetOfNormalized(c, key);
      NormalizedIsShaped(Target(c, key));
    }
  }

  /** What a run leaves behind can be read and planned against again. */
  lemma AppliedIsValid(run: Run, s: Settings, trips: Trips)
    requires ValidSettings(s) && LoadedContent(run.content)
    ensures ValidSettings(Applied(run, s, trips))
  {
    forall key | key in s ensures ShapedPolicy(After(run, s, trips, key)) {
      PassesAreShaped(Target(run.content, key), trips(key));
      PassesAreShaped(s[key], trips(key));
    }
  }

  /** A successful item reads back as its target exactly when no rule of the target ends in white space. */
  lemma SuccessReachesTargetIff(run: Run, s: Settings, trips: Trips, key: Key)
    requires ValidSettings(s) && LoadedContent(run.content) && Attempted(run, s, key) && !Fails(run, key)
    ensures Applied(run, s, trips)[key] == Target(run.content, key) <==> Stable(Target(run.content, key).rules)
  {
    PassesReturnIff(Target(run.content, key), trips(key));
  }

  /**
   Failed and unselected accounts are untouched; so are such pool items, unless they are written back with
   a rule that ends in white space.
   */
  lemma OthersUnchangedIff(run: Run, s: Settings, trips: Trips, key: Key)
    requires ValidSettings(s) && key in s && (!Attempted(run, s, key) || Fails(run, key))
    ensures Applied(run, s, trips)[key] == s[key]
       <==> !IsPool(key) || !PoolsWritten(run, s) || Stable(s[key].rules)
  {
    PassesReturnIff(s[key], trips(key));
  }

  /** An item in sync before the run is out of sync after it only if it was written back changed. */
  lemma DifferingSetNeverGrowsIff(run: Run, s: Settings, trips: Trips, key: Key)
    requires ValidSettings(s) && key in s && !Differs(run.content, s, key)
    ensures Differs(run.content, Applied(run, s, trips), key)
       <==> IsPool(key) && PoolsWritten(run, s) && !Stable(s[key].rules)
  {
    OthersUnchangedIff(run, s, trips, key);
  }

  ghost predicate NothingFails(run: Run, s: Settings) {
    forall key :: Attempted(run, s, key) ==> !Fails(run, key)
  }

  /**
   Every value that has to be written survives being written: no differing target has a rule that ends in
   white space, and if either pool differs, neither pool target has one, since both are written.
   */
  ghost predicate Writable(c: Content, s: Settings) {
    && (forall key :: Differs(c, s, key) ==> Stable(Target(c, key).rules))
    && (Differs(c, s, LocalPool) || Differs(c, s, ExternalPool) ==> Stable(c.local.rules) && Stable(c.external.rules))
  }

  /** One key's part in `Writable`. */
  ghost predicate WritableAt(c: Content, s: Settings, key: Key) {
    (Differs(c, s, key) || (IsPool(key) && (Differs(c, s, LocalPool) || Differs(c, s, ExternalPool)))) ==>
      Stable(Target(c, key).rules)
  }

  lemma WritableByKey(c: Content, s: Settings)
    requires ValidSettings(s)
    ensures Writable(c, s) <==> forall key :: key in s ==> WritableAt(c, s, key)
  {
    if forall key :: key in s ==> WritableAt(c, s, key) {
      assert WritableAt(c, s, LocalPool) && WritableAt(c, s, ExternalPool);
      forall key | Differs(c, s, key) ensures Stable(Target(c, key).rules) {
        assert WritableAt(c, s, key);
      }
    }
  }

  /**
   A full run without failures marks the scenario active.  It is in sync then, so that running it once
   more writes nothing, exactly when what had to be written was writable.
   */
  lemma FullRunInSyncIff(run: Run, s: Settings, trips: Trips)
    requires ValidSettings(s) && LoadedContent(run.content)
    requires run.only == [] && NothingFails(run, s)
    ensures InSync(run.content, Applied(run, s, trips)) <==> Writable(run.content, s)
    ensures (forall key :: !Attempted(run, Applied(run, s, trips), key)) <==> Writable(run.content, s)
  {
    WritableByKey(run.content, s);
    forall key | key in s
      ensures Applied(run, s, trips)[key] == Target(run.content, key) <==> WritableAt(run.content, s, key)
    {
      WrittenIff(run, s, trips, key);
    }
    InSyncIffNothingAttempted(run, Applied(run, s, trips));
  }

  /**
   For instance a failure-free full run that has to change the local pool only, and changes it to its
   target, still takes an external pool with the rule `/a ` out of sync, by writing it back.
   */
  lemma WrittenBackExample(trips: Trips)
    ensures var (local, external) := (RoutePolicy(DenyList, ["/b"]), RoutePolicy(DenyList, ["/a "]));
      var (c, s) := (Content(local, external, [], []), map[LocalPool := UNRESTRICTED, ExternalPool := external]);
      var run := Run(c, [], {}, false);
      && ValidSettings(s) && LoadedContent(c) && NothingFails(run, s)
      && (forall key :: Differs(c, s, key) <==> key == LocalPool) && Stable(local.rules)
      && !InSync(c, Applied(run, s, trips))
  {
    var local, external := RoutePolicy(DenyList, ["/b"]), RoutePolicy(DenyList, ["/a "]);
    var c, s := Content(local, external, [], []), map[LocalPool := UNRESTRICTED, ExternalPool := external];
    var run := Run(c, [], {}, false);
    assert Lower("/b") == "/b" && Lower("/a ") == "/a ";
    assert RuleShape("/b") && RuleShape("/a ");
    assert ShapedPolicy(local) && ShapedPolicy(external) && ShapedPolicy(UNRESTRICTED);
    assert !Stable(external.rules) by {
      assert IsSpace(Last(external.rules[0]));
    }
    assert Differs(c, s, LocalPool);
    FullRunInSyncIff(run, s, trips);
  }

  lemma PoolsWrittenInFull(run: Run, s: Settings)
    requires run.only == [] && NothingFails(run, s)
    ensures PoolsWritten(run, s) <==> Differs(run.content, s, LocalPool) || Differs(run.content, s, ExternalPool)
  {
    assert Attempted(run, s, LocalPool) ==> !Fails(run, LocalPool);
    assert Attempted(run, s, ExternalPool) ==> !Fails(run, ExternalPool);
  }

  lemma WrittenIff(run: Run, s: Settings, trips: Trips, key: Key)
    requires ValidSettings(s) && LoadedContent(run.content) && run.only == [] && NothingFails(run, s) && key in s
    ensures Applied(run, s, trips)[key] == Target(run.content, key) <==> WritableAt(run.content, s, key)
  {
    PoolsWrittenInFull(run, s);
    if Differs(run.content, s, key) {
      assert Attempted(run, s, key);
      SuccessReachesTargetIff(run, s, trips, key);
    } else {
      OthersUnchangedIff(run, s, trips, key);
    }
  }

  lemma InSyncIffNothingAttempted(run: Run, s: Settings)
    requires run.only == []
    ensures InSync(run.content, s) <==> forall key :: !Attempted(run, s, key)
  {
    if forall key :: !Attempted(run, s, key) {
      forall key | key in s ensures s[key] == Target(run.content, key) {
        assert !Attempted(run, s, key);
      }
    }
  }

  /** `retry` is a retry of the items `run` failed on, and itself meets no failure. */
  ghost predicate Retries(run: Run, s: Settings, trips: Trips, retry: Run) {
    && run.only == [] && retry.content == run.content
    && (forall key :: Attempted(run, s, key) && Fails(run, key) ==> Selected(retry.only, key))
    && NothingFails(retry, Applied(run, s, trips))
  }

  /** An account after both runs. */
  lemma AccountRetriedIff(run: Run, s: Settings, trips: Trips, retry: Run, key: Key)
    requires ValidSettings(s) && LoadedContent(run.content) && Retries(run, s, trips, retry)
    requires key in s && !IsPool(key)
    ensures Applied(retry, Applied(run, s, trips), trips)[key] == Target(run.content, key)
       <==> WritableAt(run.content, s, key)
  {
    var s1 := Applied(run, s, trips);
    AppliedIsValid(run, s, trips);
    if Attempted(run, s, key) && !Fails(run, key) {
      SuccessReachesTargetIff(run, s, trips, key);
    }
    if Attempted(retry, s1, key) {
      SuccessReachesTargetIff(retry, s1, trips, key);
    } else {
      OthersUnchangedIff(retry, s1, trips, key);
    }
  }

  /** However often a target with a rule that ends in white space is written, it does not come out. */
  lemma UnstableNeverReturns(target: RoutePolicy, j: nat, k: nat)
    requires ShapedPolicy(target) && !Stable(target.rules) && j + k > 0
    ensures Passes(Passes(target, j), k) != target
  {
    PassesAdd(target, j, k);
    PassesReturnIff(target, j + k);
  }

  /** A pool after the first run: untouched, or passed through one write. */
  lemma PoolOnce(run: Run, s: Settings, trips: Trips, key: Key)
    requires ValidSettings(s) && run.only == [] && IsPool(key)
    ensures Applied(run, s, trips)[key]
         == if PoolsWritten(run, s) then Passes(Target(run.content, key), trips(key)) else s[key]
  {
  }

  /** If a pool differs, one of the two runs writes the pools; otherwise neither does. */
  lemma PoolsWrittenIff(run: Run, s: Settings, trips: Trips, retry: Run)
    requires ValidSettings(s) && Retries(run, s, trips, retry)
    ensures PoolsWritten(run, s) || PoolsWritten(retry, Applied(run, s, trips))
       <==> Differs(run.content, s, LocalPool) || Differs(run.content, s, ExternalPool)
  {
    var s1 := Applied(run, s, trips);
    PoolOnce(run, s, trips, LocalPool);
    PoolOnce(run, s, trips, ExternalPool);
    if !PoolsWritten(run, s) {
      forall key | IsPool(key) ensures Differs(run.content, s, key) <==> Attempted(retry, s1, key) {
        if Differs(run.content, s, key) {
          assert Attempted(run, s, key) && Fails(run, key);
        }
      }
      assert IsPool(LocalPool) && IsPool(ExternalPool);
      assert Attempted(retry, s1, LocalPool) ==> !Fails(retry, LocalPool);
      assert Attempted(retry, s1, ExternalPool) ==> !Fails(retry, ExternalPool);
    }
  }

  /** A pool after a run that meets no failure: untouched, written, or written back. */
  lemma PoolOfRetry(retry: Run, s: Settings, trips: Trips, key: Key)
    requires ValidSettings(s) && NothingFails(retry, s) && IsPool(key)
    ensures Applied(retry, s, trips)[key]
         == if !PoolsWritten(retry, s) then s[key]
            else if Attempted(retry, s, key) then Passes(Target(retry.content, key), trips(key))
            else Passes(s[key], trips(key))
  {
  }

  /** A pool after both runs. */
  lemma PoolRetriedIff(run: Run, s: Settings, trips: Trips, retry: Run, key: Key)
    requires ValidSettings(s) && LoadedContent(run.content) && Retries(run, s, trips, retry) && IsPool(key)
    ensures Applied(retry, Applied(run, s, trips), trips)[key] == Target(run.content, key)
       <==> WritableAt(run.content, s, key)
  {
    var s1, target, k := Applied(run, s, trips), Target(run.content, key), trips(key);
    AppliedIsValid(run, s, trips);
    PoolsWrittenIff(run, s, trips, retry);
    PoolOnce(run, s, trips, key);
    PoolOfRetry(retry, s1, trips, key);
    if Stable(target.rules) {
      StablePool(run, s, trips, retry, key);
    } else {
      UnstableNeverReturns(target, k, 0);
      UnstableNeverReturns(target, 0, k);
      UnstableNeverReturns(target, k, k);
    }
  }

  lemma StablePool(run: Run, s: Settings, trips: Trips, retry: Run, key: Key)
    requires ValidSettings(s) && LoadedContent(run.content) && Retries(run, s, trips, retry) && IsPool(key)
    requires Stable(Target(run.content, key).rules) && ValidSettings(Applied(run, s, trips))
    ensures Applied(retry, Applied(run, s, trips), trips)[key] == Target(run.content, key)
  {
    var s1 := Applied(run, s, trips);
    PassesReturnIff(Target(run.content, key), trips(key));
    PoolOnce(run, s, trips, key);
    PoolOfRetry(retry, s1, trips, key);
    if s1[key] != Target(run.content, key) {
      assert Attempted(run, s, key) && Fails(run, key);
      assert Attempted(retry, s1, key);
    }
  }

  /**
   A full run that failed on any items, followed by a retry of those, ends in sync exactly when a full run
   without failures would have.
   */
  lemma RetryConvergesIff(run: Run, s: Settings, trips: Trips, retry: Run)
    requires ValidSettings(s) && LoadedContent(run.content) && Retries(run, s, trips, retry)
    ensures InSync(run.content, Applied(retry, Applied(run, s, trips), trips)) <==> Writable(run.content, s)
  {
    WritableByKey(run.content, s);
    var s2 := Applied(retry, Applied(run, s, trips), trips);
    forall key | key in s ensures s2[key] == Target(run.content, key) <==> WritableAt(run.content, s, key) {
      if IsPool(key) {
        PoolRetriedIff(run, s, trips, retry, key);
      } else {
        AccountRetriedIff(run, s, trips, retry, key);
      }
    }
  }
}
