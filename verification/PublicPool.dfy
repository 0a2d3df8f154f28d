/**
 The public pool page: a snapshot of the visible accounts, its status tabs and pages, and the cache that
 shares one build among viewers.  Tier names, masking and floating-point totals are parameters.
 */
module PublicPool {
  import opened Bytes
  import RouteRules

  // ----- Accounts -----

  datatype Mode = Hide | Power | ProMax | ProPlus

  datatype Usage = Finite(credits: real) | NotFinite

  datatype Info = Info(title: Option<string>, currentUsage: real, usageLimit: real, creditLimit: real,
                       creditRemaining: real, overage: Option<string>, checkedAt: string)

  datatype Credential = Credential(
    id: nat, disabled: bool, disabledReason: Option<string>, cooledDown: bool, rateLimited: bool, inFlight: nat,
    failures: nat, refreshFailures: nat, transientStreak: nat, lastErrorKind: Option<string>, usage: Usage,
    title: Option<string>, info: Option<Info>, other: string)

  datatype Cooldown = Cooldown(model: Option<string>, global: bool, remainingSecs: nat)

  type Cooldowns = map<nat, seq<Cooldown>>

  function CooldownsOf(cooldowns: Cooldowns, c: Credential): seq<Cooldown> {
    if c.id in cooldowns then cooldowns[c.id] else []
  }

  /** Subscription tiers of titles, masked accounts of type `A`, totals of credits, the later of two times. */
  datatype Env<A> = Env(tier: Option<string> -> string, show: (Credential, seq<Cooldown>) -> A,
                        credits: seq<Usage> -> Usage, later: (string, string) -> string)

  function ShownTitle(c: Credential): Option<string> {
    if c.info.Some? && c.info.value.title.Some? then c.info.value.title else c.title
  }

  predicate IsFree<A>(env: Env<A>, c: Credential) {
    env.tier(ShownTitle(c)) == "free"
  }

  function Disguise(mode: Mode): Option<(string, real)> {
    match mode
    case Power => Some(("KIRO POWER", 10000.0))
    case ProMax => Some(("KIRO PRO MAX", 5000.0))
    case ProPlus => Some(("KIRO PRO+", 2000.0))
    case Hide => None
  }

  /** The remainder of `x` by `limit`. */
  function Wrapped(x: real, limit: real): (r: real)
    requires limit >= 1.0 && x >= 0.0
    ensures 0.0 <= r < limit
    decreases x.Floor
  {
    if x < limit then x else Wrapped(x - limit, limit)
  }

  function Disguised(c: Credential, title: string, limit: real): Credential
    requires limit >= 1.0
  {
    var used := if c.usage.Finite? then Wrapped(if c.usage.credits < 0.0 then 0.0 else c.usage.credits, limit) else 0.0;
    var reason := if c.disabledReason == Some("QuotaExceeded") then None else c.disabledReason;
    var info := match c.info
      case None => None
      case Some(was) => Some(Info(Some(title), used, limit, limit, limit - used, Some("DISABLED"), was.checkedAt));
    c.(title := Some(title), disabledReason := reason, info := info)
  }

  /** What a viewer sees of one account. */
  function Shown<A>(env: Env<A>, c: Credential, mode: Mode): Option<Credential> {
    if !IsFree(env, c) then Some(c)
    else match Disguise(mode)
      case None => None
      case Some(tier) => Some(Disguised(c, tier.0, tier.1))
  }

  function Visible<A>(env: Env<A>, cs: seq<Credential>, mode: Mode): seq<Credential> {
    if cs == [] then []
    else
      (match Shown(env, cs[0], mode) case Some(c) => [c] case None => []) + Visible(env, cs[1..], mode)
  }

  // ----- Status tabs -----

  const TABS: seq<string> := ["normal", "cooling", "quota_exhausted", "account_error", "disabled"]

  predicate HasErrorReason(c: Credential) {
    c.disabledReason.Some? && c.disabledReason.value in [
      "InvalidRefreshToken", "InvalidConfig", "TemporarilySuspended", "AccountSuspended", "AccountLocked"]
  }

  predicate IsQuotaExhausted(c: Credential) {
    && !HasErrorReason(c)
    && (|| c.disabledReason == Some("QuotaExceeded")
        || (c.info.Some? && c.info.value.usageLimit > 0.0 && c.info.value.currentUsage >= c.info.value.usageLimit)
        || (c.info.Some? && c.info.value.creditLimit > 0.0 && c.info.value.creditRemaining <= 0.0))
  }

  predicate IsAccountError(c: Credential) {
    || HasErrorReason(c)
    || (!IsQuotaExhausted(c) && !c.disabled && c.lastErrorKind == Some("auth") && c.transientStreak > 0)
  }

  predicate IsCooling(c: Credential) {
    !c.disabled && c.cooledDown && !IsQuotaExhausted(c) && !IsAccountError(c)
  }

  predicate IsNormal(c: Credential) {
    !c.disabled && !c.cooledDown && !c.rateLimited && !IsQuotaExhausted(c) && !IsAccountError(c)
  }

  predicate InTab(c: Credential, tab: string) {
    match tab
    case "normal" => IsNormal(c)
    case "cooling" => IsCooling(c)
    case "quota_exhausted" => IsQuotaExhausted(c)
    case "account_error" => IsAccountError(c)
    case _ => tab == "disabled" && c.disabled
  }

  function TabsOf(c: Credential, tabs: seq<string>): seq<string> {
    if tabs == [] then [] else (if InTab(c, tabs[0]) then [tabs[0]] else []) + TabsOf(c, tabs[1..])
  }

  lemma {:induction false} TabsOfHas(c: Credential, tabs: seq<string>, tab: string)
    ensures tab in TabsOf(c, tabs) <==> tab in tabs && InTab(c, tab)
  {
    if tabs != [] {
      TabsOfHas(c, tabs[1..], tab);
      assert tab in tabs <==> tab == tabs[0] || tab in tabs[1..];
    }
  }

  /** Which titles make an account a Free one: that of its last check, or else its own. */
  predicate HasFreeTitle<A>(env: Env<A>, c: Credential) {
    env.tier(if c.info.Some? && c.info.value.title.Some? then c.info.value.title else c.title) == "free"
  }

  /** In Hide mode exactly the accounts without such a title are shown, in order and as they are. */
  lemma {:induction false} HiddenAreFree<A>(env: Env<A>, cs: seq<Credential>, c: Credential)
    ensures c in Visible(env, cs, Hide) <==> c in cs && !HasFreeTitle(env, c)
    ensures !(exists i :: 0 <= i < |cs| && HasFreeTitle(env, cs[i])) ==> Visible(env, cs, Hide) == cs
  {
    if cs != [] {
      HiddenAreFree(env, cs[1..], c);
      var rest := Visible(env, cs[1..], Hide);
      assert c in cs <==> c == cs[0] || c in cs[1..];
      assert HasFreeTitle(env, cs[0]) == IsFree(env, cs[0]);
      if IsFree(env, cs[0]) {
        assert Visible(env, cs, Hide) == [] + rest == rest;
      } else {
        assert Visible(env, cs, Hide) == [cs[0]] + rest;
        assert c in [cs[0]] + rest <==> c == cs[0] || c in rest;
        assert forall i :: 0 <= i < |cs| - 1 ==> cs[1..][i] == cs[i + 1];
      }
    }
  }

  /** The wrapped usage is what is left of the usage after some whole limits. */
  lemma {:induction false} WrappedIs(x: real, limit: real) returns (k: nat)
    requires limit >= 1.0 && x >= 0.0
    ensures x == Wrapped(x, limit) + k as real * limit
    decreases x.Floor
  {
    if x < limit {
      k := 0;
    } else {
      k := WrappedIs(x - limit, limit);
      k := k + 1;
    }
  }

  predicate PaidTier(mode: Mode, title: string, limit: real) {
    || (mode == Power && title == "KIRO POWER" && limit == 10000.0)
    || (mode == ProMax && title == "KIRO PRO MAX" && limit == 5000.0)
    || (mode == ProPlus && title == "KIRO PRO+" && limit == 2000.0)
  }

  /** What a disguised account looks like: a paid tier's title and limit, and usage below that limit. */
  lemma DisguisedAs<A>(env: Env<A>, c: Credential, mode: Mode) returns (title: string, limit: real)
    requires HasFreeTitle(env, c) && mode != Hide
    ensures PaidTier(mode, title, limit) && Shown(env, c, mode).Some?
    ensures var d := Shown(env, c, mode).value;
      && d == c.(title := Some(title), disabledReason := d.disabledReason, info := d.info)
      && d.disabledReason == (if c.disabledReason == Some("QuotaExceeded") then None else c.disabledReason)
      && d.info.Some? == c.info.Some?
      && (d.info.Some? ==>
            var i := d.info.value;
            && i.title == Some(title) && i.usageLimit == limit && i.creditLimit == limit
            && 0.0 <= i.currentUsage < limit && i.currentUsage + i.creditRemaining == limit
            && (c.usage == NotFinite ==> i.currentUsage == 0.0)
            && (c.usage.Finite? && 0.0 <= c.usage.credits < limit ==> i.currentUsage == c.usage.credits)
            && i.overage == Some("DISABLED") && i.checkedAt == c.info.value.checkedAt)
  {
    title, limit := Disguise(mode).value.0, Disguise(mode).value.1;
  }

  /** The four counted tabs as one status: the first of these rules that applies. */
  function StatusOf(c: Credential): Option<string> {
    var outOfQuota :=
      || c.disabledReason == Some("QuotaExceeded")
      || (c.info.Some? && c.info.value.usageLimit > 0.0 && c.info.value.currentUsage >= c.info.value.usageLimit)
      || (c.info.Some? && c.info.value.creditLimit > 0.0 && c.info.value.creditRemaining <= 0.0);
    if c.disabledReason.Some? && c.disabledReason.value in {
         "InvalidRefreshToken", "InvalidConfig", "TemporarilySuspended", "AccountSuspended", "AccountLocked"}
    then Some("account_error")
    else if outOfQuota then Some("quota_exhausted")
    else if c.disabled then None
    else if c.lastErrorKind == Some("auth") && c.transientStreak > 0 then Some("account_error")
    else if c.cooledDown then Some("cooling")
    else if c.rateLimited then None
    else Some("normal")
  }

  /** An account is under the tab of its status and no other, and under the last tab when it is disabled. */
  lemma TabIsStatus(c: Credential, tab: string)
    requires tab in TABS
    ensures InTab(c, tab) <==> if tab == "disabled" then c.disabled else StatusOf(c) == Some(tab)
  {
  }

  /** A disguised account shows quota left, so it is never listed as out of quota. */
  lemma DisguisedHasQuota<A>(env: Env<A>, c: Credential, mode: Mode)
    requires IsFree(env, c) && mode != Hide
    ensures Shown(env, c, mode).Some? && !IsQuotaExhausted(Shown(env, c, mode).value)
    ensures Shown(env, c, mode).value.id == c.id && Shown(env, c, mode).value.disabled == c.disabled
  {
    var tier := Disguise(mode).value;
    var d := Disguised(c, tier.0, tier.1);
    if d.info.Some? {
      assert 0.0 <= d.info.value.currentUsage < tier.1;
    }
  }

  // ----- The snapshot -----

  datatype Entry<A> = Entry(account: A, tabs: seq<string>)

  datatype Overview<R> = Overview(
    total: nat, enabled: nat, disabled: nat, schedulable: nat, coolingDown: nat, inUse: nat, failing: nat,
    normal: nat, cooling: nat, quotaExhausted: nat, accountError: nat, globalInFlight: nat, poolWide: R,
    consumedCredits: Usage, lastCheckedAt: Option<string>)

  datatype Snapshot<A, R> = Snapshot(freeAccounts: Mode, overview: Overview<R>, accounts: seq<Entry<A>>)

  function Entries<A>(env: Env<A>, cs: seq<Credential>, cooldowns: Cooldowns): seq<Entry<A>> {
    if cs == [] then []
    else [Entry(env.show(cs[0], CooldownsOf(cooldowns, cs[0])), TabsOf(cs[0], TABS))] + Entries(env, cs[1..], cooldowns)
  }

  function Count<T>(s: seq<T>, p: T -> bool): (n: nat)
    ensures n <= |s|
  {
    if s == [] then 0 else (if p(s[0]) then 1 else 0) + Count(s[1..], p)
  }

  function TabCount<A>(entries: seq<Entry<A>>, tab: string): nat {
    Count(entries, (e: Entry<A>) => tab in e.tabs)
  }

  predicate InGlobalCooldown(cooldowns: Cooldowns, c: Credential) {
    exists i :: 0 <= i < |CooldownsOf(cooldowns, c)| && CooldownsOf(cooldowns, c)[i].global
  }

  function Schedulable(cooldowns: Cooldowns): Credential -> bool {
    (c: Credential) => !c.disabled && !InGlobalCooldown(cooldowns, c)
  }

  predicate IsEnabled(c: Credential) {
    !c.disabled
  }

  predicate IsCoolingDown(c: Credential) {
    IsEnabled(c) && c.cooledDown
  }

  predicate IsInUse(c: Credential) {
    IsEnabled(c) && c.inFlight > 0
  }

  predicate IsFailing(c: Credential) {
    IsEnabled(c) && (c.failures > 0 || c.refreshFailures > 0)
  }

  function InFlight(cs: seq<Credential>): nat {
    if cs == [] then 0 else cs[0].inFlight + InFlight(cs[1..])
  }

  function Usages(cs: seq<Credential>): seq<Usage> {
    seq(|cs|, i requires 0 <= i < |cs| => cs[i].usage)
  }

  function LastChecked<A>(env: Env<A>, cs: seq<Credential>): Option<string> {
    if cs == [] then None
    else match (cs[0].info, LastChecked(env, cs[1..]))
      case (None, rest) => rest
      case (Some(info), None) => Some(info.checkedAt)
      case (Some(info), Some(t)) => Some(env.later(info.checkedAt, t))
  }

  /** What the page says about the accounts it shows; `poolWide` is the pool's own summary and clock. */
  function Summary<A, R>(env: Env<A>, cs: seq<Credential>, entries: seq<Entry<A>>, cooldowns: Cooldowns, poolWide: R)
    : Overview<R>
  {
    var enabled := Count(cs, IsEnabled);
    Overview(
      |cs|, enabled, |cs| - enabled, Count(cs, Schedulable(cooldowns)),
      Count(cs, IsCoolingDown), Count(cs, IsInUse), Count(cs, IsFailing),
      TabCount(entries, "normal"), TabCount(entries, "cooling"),
      TabCount(entries, "quota_exhausted"), TabCount(entries, "account_error"),
      InFlight(cs), poolWide, env.credits(Usages(cs)), LastChecked(env, cs))
  }

  function FromParts<A, R>(
    env: Env<A>, cs: seq<Credential>, mode: Mode, cooldowns: Cooldowns, poolWide: R): Snapshot<A, R>
  {
    var shown := Visible(env, cs, mode);
    var entries := Entries(env, shown, cooldowns);
    Snapshot(mode, Summary(env, shown, entries, cooldowns, poolWide), entries)
  }

  /** The places of those in a list. */
  function Places<T>(s: seq<T>, p: T -> bool): set<int> {
    set i | 0 <= i < |s| && p(s[i])
  }

  lemma {:induction false} CountSnoc<T>(s: seq<T>, x: T, p: T -> bool)
    ensures Count(s + [x], p) == Count(s, p) + if p(x) then 1 else 0
    decreases |s|
  {
    if s == [] {
      assert [x][1..] == [];
    } else {
      assert (s + [x])[1..] == s[1..] + [x];
      CountSnoc(s[1..], x, p);
    }
  }

  lemma {:induction false} CountIsSize<T>(s: seq<T>, p: T -> bool)
    ensures Count(s, p) == |Places(s, p)|
    decreases |s|
  {
    if s != [] {
      var n := |s| - 1;
      assert s == s[..n] + [s[n]];
      CountIsSize(s[..n], p);
      CountSnoc(s[..n], s[n], p);
      assert Places(s, p) == Places(s[..n], p) + if p(s[n]) then {n} else {};
    }
  }

  predicate AnyGlobal(s: seq<Cooldown>) {
    exists k :: 0 <= k < |s| && s[k].global
  }

  /** The accounts of a list that can be scheduled: not disabled, and not in a cooldown for all models. */
  function SchedulableAt(cs: seq<Credential>, cooldowns: Cooldowns): set<int> {
    set i | 0 <= i < |cs| && !cs[i].disabled && !(cs[i].id in cooldowns && AnyGlobal(cooldowns[cs[i].id]))
  }

  lemma SchedulableCount(cs: seq<Credential>, cooldowns: Cooldowns)
    ensures Count(cs, Schedulable(cooldowns)) == |SchedulableAt(cs, cooldowns)|
  {
    forall i | 0 <= i < |cs| ensures Schedulable(cooldowns)(cs[i]) <==> i in SchedulableAt(cs, cooldowns) {
      if cs[i].id in cooldowns && AnyGlobal(cooldowns[cs[i].id]) {
        var k :| 0 <= k < |cooldowns[cs[i].id]| && cooldowns[cs[i].id][k].global;
        assert CooldownsOf(cooldowns, cs[i])[k].global;
      }
    }
    CountOf(cs, Schedulable(cooldowns), SchedulableAt(cs, cooldowns));
  }

  /** The other counts of the overview, of the accounts shown. */
  lemma {:induction false} OverviewCountsAre<A, R>(
    env: Env<A>, cs: seq<Credential>, mode: Mode, cooldowns: Cooldowns, poolWide: R, shown: seq<Credential>)
    requires shown == Visible(env, cs, mode)
    ensures var o := FromParts(env, cs, mode, cooldowns, poolWide).overview;
      && o.total == |shown| == o.enabled + o.disabled && o.poolWide == poolWide
      && o.disabled == |set i | 0 <= i < |shown| && shown[i].disabled|
      && o.schedulable == |SchedulableAt(shown, cooldowns)|
      && o.coolingDown == |set i | 0 <= i < |shown| && !shown[i].disabled && shown[i].cooledDown|
      && o.inUse == |set i | 0 <= i < |shown| && !shown[i].disabled && shown[i].inFlight > 0|
      && o.consumedCredits == env.credits(seq(|shown|, i requires 0 <= i < |shown| => shown[i].usage))
      && o.globalInFlight == InFlight(shown) && o.lastCheckedAt == LastChecked(env, shown)
      && o.failing == |set i | 0 <= i < |shown| && !shown[i].disabled
                                && (shown[i].failures > 0 || shown[i].refreshFailures > 0)|
  {
    SummaryCounts(shown);
    EnabledOrOff(shown);
    SchedulableCount(shown, cooldowns);
  }

  lemma {:induction false} SummaryCounts(shown: seq<Credential>)
    ensures Count(shown, IsOff) == |set i | 0 <= i < |shown| && shown[i].disabled|
    ensures Count(shown, IsCoolingDown)
         == |set i | 0 <= i < |shown| && !shown[i].disabled && shown[i].cooledDown|
    ensures Count(shown, IsInUse) == |set i | 0 <= i < |shown| && !shown[i].disabled && shown[i].inFlight > 0|
    ensures Count(shown, IsFailing)
         == |set i | 0 <= i < |shown| && !shown[i].disabled
                     && (shown[i].failures > 0 || shown[i].refreshFailures > 0)|
  {
    CountOf(shown, IsOff, set i | 0 <= i < |shown| && shown[i].disabled);
    CountOf(shown, IsCoolingDown, set i | 0 <= i < |shown| && !shown[i].disabled && shown[i].cooledDown);
    CountOf(shown, IsInUse, set i | 0 <= i < |shown| && !shown[i].disabled && shown[i].inFlight > 0);
    CountOf(shown, IsFailing,
            set i | 0 <= i < |shown| && !shown[i].disabled && (shown[i].failures > 0 || shown[i].refreshFailures > 0));
  }

  /** The requests in flight add up, and the time shown is there when some account has been checked. */
  lemma {:induction false} TotalsAre<A>(env: Env<A>, cs: seq<Credential>, c: Credential)
    ensures InFlight([c]) == c.inFlight && InFlight(cs + [c]) == InFlight(cs) + c.inFlight
    ensures LastChecked(env, [c]) == (if c.info.Some? then Some(c.info.value.checkedAt) else None)
    ensures LastChecked(env, [c] + cs) ==
              match (c.info, LastChecked(env, cs))
              case (None, last) => last
              case (Some(info), None) => Some(info.checkedAt)
              case (Some(info), Some(last)) => Some(env.later(info.checkedAt, last))
    decreases |cs|
  {
    assert [c][1..] == [] && ([c] + cs)[1..] == cs;
    if cs == [] {
      assert cs + [c] == [c];
    } else {
      assert (cs + [c])[1..] == cs[1..] + [c];
      TotalsAre(env, cs[1..], c);
    }
  }

  lemma CountOf(cs: seq<Credential>, p: Credential -> bool, places: set<int>)
    requires forall i :: i in places <==> 0 <= i < |cs| && p(cs[i])
    ensures Count(cs, p) == |places|
  {
    CountIsSize(cs, p);
    assert Places(cs, p) == places;
  }

  predicate IsOff(c: Credential) {
    c.disabled
  }

  lemma {:induction false} EnabledOrOff(cs: seq<Credential>)
    ensures Count(cs, IsEnabled) + Count(cs, IsOff) == |cs|
  {
    if cs != [] {
      EnabledOrOff(cs[1..]);
    }
  }

  // ----- Hidden accounts leave no trace -----

  function Paid<A>(env: Env<A>, cs: seq<Credential>): seq<Credential> {
    if cs == [] then []
    else if IsFree(env, cs[0]) then Paid(env, cs[1..])
    else [cs[0]] + Paid(env, cs[1..])
  }

  /** Two pools that differ in Free accounts only, and in the cooldowns of those. */
  ghost predicate SameButFree<A>(env: Env<A>, cs: seq<Credential>, cd: Cooldowns, ds: seq<Credential>, dd: Cooldowns) {
    && Paid(env, cs) == Paid(env, ds)
    && forall c :: c in Paid(env, cs) ==> CooldownsOf(cd, c) == CooldownsOf(dd, c)
  }

  lemma {:induction false} HiddenIsPaid<A>(env: Env<A>, cs: seq<Credential>)
    ensures Visible(env, cs, Hide) == Paid(env, cs)
  {
    if cs != [] {
      HiddenIsPaid(env, cs[1..]);
    }
  }

  lemma {:induction false} EntriesAgree<A>(env: Env<A>, cs: seq<Credential>, cd: Cooldowns, dd: Cooldowns)
    requires forall c :: c in cs ==> CooldownsOf(cd, c) == CooldownsOf(dd, c)
    ensures Entries(env, cs, cd) == Entries(env, cs, dd)
    ensures Count(cs, Schedulable(cd)) == Count(cs, Schedulable(dd))
  {
    if cs != [] {
      assert cs[0] in cs;
      assert Schedulable(cd)(cs[0]) == Schedulable(dd)(cs[0]);
      EntriesAgree(env, cs[1..], cd, dd);
    }
  }

  /** In Hide mode the snapshot is the same whatever Free accounts the pool holds. */
  lemma HiddenAccountsLeaveNoTrace<A, R>(
    env: Env<A>, cs: seq<Credential>, cd: Cooldowns, ds: seq<Credential>, dd: Cooldowns, poolWide: R)
    requires SameButFree(env, cs, cd, ds, dd)
    ensures FromParts(env, cs, Hide, cd, poolWide) == FromParts(env, ds, Hide, dd, poolWide)
  {
    HiddenIsPaid(env, cs);
    HiddenIsPaid(env, ds);
    EntriesAgree(env, Paid(env, cs), cd, dd);
  }

  // ----- Tabs and pages -----

  const DEFAULT_LIMIT: nat := 20
  const MAX_LIMIT: nat := 1000
  const USIZE_MAX: nat := 0xFFFF_FFFF_FFFF_FFFF

  datatype Query = Query(page: Option<nat>, limit: Option<nat>, status: Option<string>)

  datatype Response<A, R> = Response(
    overview: Overview<R>, page: nat, limit: nat, totalPages: nat, filteredTotal: nat, items: seq<A>)

  function Tab(q: Query): Option<string> {
    if q.status.Some? && RouteRules.Trim(q.status.value) in TABS then Some(RouteRules.Trim(q.status.value)) else None
  }

  function Matching<A>(entries: seq<Entry<A>>, tab: Option<string>): seq<A> {
    if entries == [] then []
    else
      (if tab == None || tab.value in entries[0].tabs then [entries[0].account] else []) + Matching(entries[1..], tab)
  }

  function Limit(q: Query): (n: nat)
    ensures 1 <= n <= MAX_LIMIT
  {
    if q.limit == None || q.limit.value == 0 then DEFAULT_LIMIT
    else if q.limit.value < MAX_LIMIT then q.limit.value else MAX_LIMIT
  }

  function PageNumber(q: Query): nat {
    if q.page == None || q.page.value == 0 then 1 else q.page.value
  }

  function Times(n: nat, limit: nat): nat {
    if n == 0 then 0 else Times(n - 1, limit) + limit
  }

  lemma {:induction false} TimesIsProduct(n: nat, limit: nat)
    ensures Times(n, limit) == n * limit
  {
    if n > 0 {
      TimesIsProduct(n - 1, limit);
    }
  }

  /** Skipping saturates at the machine's largest index. */
  function Slice<A>(s: seq<A>, page: nat, limit: nat): seq<A>
    requires page >= 1
  {
    var product := Times(page - 1, limit);
    var skip := if product > USIZE_MAX then USIZE_MAX else product;
    var rest := if skip >= |s| then [] else s[skip..];
    if |rest| <= limit then rest else rest[..limit]
  }

  function DivCeil(n: nat, d: nat): nat
    requires d > 0
  {
    (n + d - 1) / d
  }

  function PageItems<A, R>(snapshot: Snapshot<A, R>, q: Query): seq<A> {
    Slice(Matching(snapshot.accounts, Tab(q)), PageNumber(q), Limit(q))
  }

  function Page<A, R>(snapshot: Snapshot<A, R>, q: Query): Response<A, R> {
    var matching := Matching(snapshot.accounts, Tab(q));
    Response(snapshot.overview, PageNumber(q), Limit(q), DivCeil(|matching|, Limit(q)), |matching|,
             PageItems(snapshot, q))
  }

  /** What a query asks for when it leaves things out or asks for too much. */
  lemma PageIs<A, R>(snapshot: Snapshot<A, R>, q: Query)
    ensures var r := Page(snapshot, q);
      && r.overview == snapshot.overview
      && r.page == (if q.page.Some? && q.page.value >= 1 then q.page.value else 1)
      && r.limit == (if q.limit in {None, Some(0)} then 20 else if q.limit.value > 1000 then 1000 else q.limit.value)
      && |r.items| <= r.limit && r.totalPages * r.limit >= r.filteredTotal > (r.totalPages - 1) * r.limit
      && (q.status == None ==> r.filteredTotal == |snapshot.accounts|)
  {
    var n, d := |Matching(snapshot.accounts, Tab(q))|, Limit(q);
    DivCeilBounds(n, d);
    if q.status == None {
      AllMatch(snapshot.accounts);
    }
  }

  lemma DivCeilBounds(n: nat, d: nat)
    requires d > 0
    ensures DivCeil(n, d) * d >= n > (DivCeil(n, d) - 1) * d
  {
  }

  lemma {:induction false} AllMatch<A>(entries: seq<Entry<A>>)
    ensures |Matching(entries, None)| == |entries|
  {
    if entries != [] {
      AllMatch(entries[1..]);
    }
  }

  /** The items of pages 1 to `n`, one after another. */
  function Pages<A, R>(snapshot: Snapshot<A, R>, q: Query, n: nat): seq<A> {
    if n == 0 then [] else Pages(snapshot, q, n - 1) + PageItems(snapshot, q.(page := Some(n)))
  }

  function Upto(n: nat, limit: nat, total: nat): (k: nat)
    ensures k <= total
  {
    if Times(n, limit) <= total then Times(n, limit) else total
  }

  lemma SliceIsNext<A>(s: seq<A>, n: nat, limit: nat)
    requires n >= 1 && limit >= 1 && |s| <= USIZE_MAX
    ensures Upto(n - 1, limit, |s|) <= Upto(n, limit, |s|)
    ensures Slice(s, n, limit) == s[Upto(n - 1, limit, |s|)..Upto(n, limit, |s|)]
  {
    assert Times(n, limit) == Times(n - 1, limit) + limit;
  }

  lemma PageIsSlice<A, R>(snapshot: Snapshot<A, R>, q: Query, n: nat)
    requires n >= 1
    ensures PageItems(snapshot, q.(page := Some(n))) == Slice(Matching(snapshot.accounts, Tab(q)), n, Limit(q))
  {
    var at := q.(page := Some(n));
    assert Limit(at) == Limit(q) && PageNumber(at) == n && Tab(at) == Tab(q);
  }

  function Slices<A>(s: seq<A>, limit: nat, n: nat): seq<A> {
    if n == 0 then [] else Slices(s, limit, n - 1) + Slice(s, n, limit)
  }

  lemma {:induction false} SlicesAreAPrefix<A>(s: seq<A>, limit: nat, n: nat)
    requires limit >= 1 && |s| <= USIZE_MAX
    ensures Slices(s, limit, n) == s[..Upto(n, limit, |s|)]
  {
    if n > 0 {
      SlicesAreAPrefix(s, limit, n - 1);
      SliceIsNext(s, n, limit);
    }
  }

  lemma {:induction false} PagesAreSlices<A, R>(snapshot: Snapshot<A, R>, q: Query, n: nat)
    ensures Pages(snapshot, q, n) == Slices(Matching(snapshot.accounts, Tab(q)), Limit(q), n)
  {
    if n > 0 {
      PagesAreSlices(snapshot, q, n - 1);
      PageIsSlice(snapshot, q, n);
    }
  }

  lemma CeilCovers(n: nat, d: nat)
    requires d > 0
    ensures DivCeil(n, d) * d >= n && (n > 0 ==> (DivCeil(n, d) - 1) * d < n)
  {
    var q := DivCeil(n, d);
    assert n + d - 1 == q * d + (n + d - 1) % d;
  }

  /** The pages of a tab are its accounts in order, each once; every announced page shows some, no later one does. */
  lemma PagesPartition<A, R>(snapshot: Snapshot<A, R>, q: Query)
    requires |Matching(snapshot.accounts, Tab(q))| <= USIZE_MAX
    ensures Pages(snapshot, q, Page(snapshot, q).totalPages) == Matching(snapshot.accounts, Tab(q))
    ensures forall n :: n >= 1 ==>
      (Page(snapshot, q.(page := Some(n))).items == [] <==> n > Page(snapshot, q).totalPages)
  {
    var m, d := Matching(snapshot.accounts, Tab(q)), Limit(q);
    var total := DivCeil(|m|, d);
    PagesAreSlices(snapshot, q, total);
    SlicesAreAPrefix(m, d, total);
    CeilIsEnough(|m|, d, total);
    assert m[..|m|] == m;
    forall n: nat | n >= 1
      ensures Page(snapshot, q.(page := Some(n))).items == [] <==> n > total
    {
      PageIsEmptyIff(snapshot, q, m, n, total);
    }
  }

  lemma PageIsEmptyIff<A, R>(snapshot: Snapshot<A, R>, q: Query, m: seq<A>, n: nat, total: nat)
    requires n >= 1 && m == Matching(snapshot.accounts, Tab(q)) && |m| <= USIZE_MAX && total == DivCeil(|m|, Limit(q))
    ensures PageItems(snapshot, q.(page := Some(n))) == [] <==> n > total
  {
    PageIsSlice(snapshot, q, n);
    LastPage(|m|, Limit(q), n, total);
  }

  lemma CeilIsEnough(len: nat, d: nat, q: nat)
    requires d >= 1 && q == DivCeil(len, d)
    ensures Upto(q, d, len) == len
  {
    CeilCovers(len, d);
    TimesIsProduct(q, d);
  }

  /** Page `n` begins before the end exactly when it is announced. */
  lemma LastPage(len: nat, d: nat, n: nat, q: nat)
    requires d >= 1 && n >= 1 && q == DivCeil(len, d)
    ensures Times(n - 1, d) < len <==> n <= q
  {
    CeilCovers(len, d);
    TimesIsProduct(n - 1, d);
    if n > q {
      TimesOrder(q, n - 1, d);
    } else {
      TimesOrder(n - 1, q - 1, d);
    }
  }

  lemma TimesOrder(a: nat, b: nat, d: nat)
    requires a <= b
    ensures a * d <= b * d
  {
  }

  lemma {:induction false} MatchingCounts<A>(entries: seq<Entry<A>>, tab: string)
    ensures |Matching(entries, Some(tab))| == TabCount(entries, tab)
  {
    if entries != [] {
      MatchingCounts(entries[1..], tab);
    }
  }

  lemma {:induction false} EntriesCount<A>(
    env: Env<A>, cs: seq<Credential>, cooldowns: Cooldowns, tab: string, p: Credential -> bool)
    requires tab in TABS && forall c :: p(c) == InTab(c, tab)
    ensures TabCount(Entries(env, cs, cooldowns), tab) == Count(cs, p)
  {
    if cs != [] {
      EntriesCount(env, cs[1..], cooldowns, tab, p);
      TabsOfHas(cs[0], TABS, tab);
      assert Entries(env, cs, cooldowns)[1..] == Entries(env, cs[1..], cooldowns);
    }
  }

  /** The counts in the overview are the sizes of the tabs they head, and those are what the rules say. */
  lemma OverviewCountsTabs<A, R>(
    env: Env<A>, cs: seq<Credential>, mode: Mode, cooldowns: Cooldowns, poolWide: R, q: Query)
    requires Tab(q).Some?
    ensures var s := FromParts(env, cs, mode, cooldowns, poolWide);
      && (Tab(q).value == "normal" ==>
            s.overview.normal == Page(s, q).filteredTotal == Count(Visible(env, cs, mode), IsNormal))
      && (Tab(q).value == "cooling" ==>
            s.overview.cooling == Page(s, q).filteredTotal == Count(Visible(env, cs, mode), IsCooling))
      && (Tab(q).value == "quota_exhausted" ==>
            s.overview.quotaExhausted == Page(s, q).filteredTotal == Count(Visible(env, cs, mode), IsQuotaExhausted))
      && (Tab(q).value == "account_error" ==>
            s.overview.accountError == Page(s, q).filteredTotal == Count(Visible(env, cs, mode), IsAccountError))
  {
    var shown := Visible(env, cs, mode);
    MatchingCounts(Entries(env, shown, cooldowns), Tab(q).value);
    match Tab(q).value
    case "normal" => EntriesCount(env, shown, cooldowns, "normal", IsNormal);
    case "cooling" => EntriesCount(env, shown, cooldowns, "cooling", IsCooling);
    case "quota_exhausted" => EntriesCount(env, shown, cooldowns, "quota_exhausted", IsQuotaExhausted);
    case "account_error" => EntriesCount(env, shown, cooldowns, "account_error", IsAccountError);
    case _ =>
  }

  /** Accounts under none of the four counted tabs: disabled by hand, or only rate limited. */
  predicate IsUncounted(c: Credential) {
    !IsQuotaExhausted(c) && !IsAccountError(c) && (c.disabled || (!c.cooledDown && c.rateLimited))
  }

  lemma {:induction false} CountsSplit(cs: seq<Credential>)
    ensures Count(cs, IsNormal) + Count(cs, IsCooling) + Count(cs, IsQuotaExhausted) + Count(cs, IsAccountError)
          + Count(cs, IsUncounted) == |cs|
  {
    if cs != [] {
      CountsSplit(cs[1..]);
    }
  }

  /** No account is counted twice: the four counts fall short of the total by exactly the uncounted accounts. */
  lemma OverviewCountsOnce<A, R>(env: Env<A>, cs: seq<Credential>, mode: Mode, cooldowns: Cooldowns, poolWide: R)
    ensures var o := FromParts(env, cs, mode, cooldowns, poolWide).overview;
      o.normal + o.cooling + o.quotaExhausted + o.accountError + Count(Visible(env, cs, mode), IsUncounted) == o.total
  {
    var shown := Visible(env, cs, mode);
    EntriesCount(env, shown, cooldowns, "normal", IsNormal);
    EntriesCount(env, shown, cooldowns, "cooling", IsCooling);
    EntriesCount(env, shown, cooldowns, "quota_exhausted", IsQuotaExhausted);
    EntriesCount(env, shown, cooldowns, "account_error", IsAccountError);
    CountsSplit(shown);
  }

  // ----- The cache -----

  const SNAPSHOT_TTL_MILLIS: nat := 5000

  datatype Built<A, R> = Built(at: nat, snapshot: Snapshot<A, R>)

  /** One view: the setting and the clock when it came, and what a build would give or that it fails. */
  datatype View<A, R> = View(mode: Mode, now: nat, done: nat, build: Option<Snapshot<A, R>>)

  predicate Fresh<A, R>(cache: Option<Built<A, R>>, v: View<A, R>) {
    cache.Some? && v.now - cache.value.at < SNAPSHOT_TTL_MILLIS && cache.value.snapshot.freeAccounts == v.mode
  }

  function Reply<A, R>(cache: Option<Built<A, R>>, v: View<A, R>): Option<Snapshot<A, R>> {
    if Fresh(cache, v) then Some(cache.value.snapshot)
    else if v.build.Some? then v.build
    else if cache.Some? && cache.value.snapshot.freeAccounts == v.mode then Some(cache.value.snapshot)
    else None
  }

  function Kept<A, R>(cache: Option<Built<A, R>>, v: View<A, R>): Option<Built<A, R>> {
    if !Fresh(cache, v) && v.build.Some? then Some(Built(v.done, v.build.value)) else cache
  }

  /** The replies to a run of views. */
  function Replies<A, R>(cache: Option<Built<A, R>>, views: seq<View<A, R>>): seq<Option<Snapshot<A, R>>>
    decreases |views|
  {
    if views == [] then [] else [Reply(cache, views[0])] + Replies(Kept(cache, views[0]), views[1..])
  }

  class PublicPoolState<A(==), R(==)> {
    var built: Option<Built<A, R>>

    constructor ()
      ensures built == None
    {
      built := None;
    }

    method ShowSnapshot(v: View<A, R>) returns (r: Option<Snapshot<A, R>>)
      modifies this
      ensures r == Reply(old(built), v) && built == Kept(old(built), v)
      ensures var was := old(built);
              var mine := was.Some? && was.value.snapshot.freeAccounts == v.mode;
              && (mine && v.now < was.value.at + 5000 ==> r == Some(was.value.snapshot) && built == was)
              && (!(mine && v.now < was.value.at + 5000) && v.build.Some? ==>
                    r == v.build && built == Some(Built(v.done, v.build.value)))
              && (v.build == None ==> r == (if mine then Some(was.value.snapshot) else None) && built == was)
    {
      if built.Some? && v.now - built.value.at < SNAPSHOT_TTL_MILLIS && built.value.snapshot.freeAccounts == v.mode {
        return Some(built.value.snapshot);
      }
      match v.build
      case Some(snapshot) =>
        built := Some(Built(v.done, snapshot));
        return Some(snapshot);
      case None =>
        if built.Some? && built.value.snapshot.freeAccounts == v.mode { return Some(built.value.snapshot); }
        return None;
    }
  }

  /** Builds are made for the setting of their view. */
  predicate Honest<A, R>(v: View<A, R>) {
    v.build.Some? ==> v.build.value.freeAccounts == v.mode
  }

  /** Two views at the same moment whose builds agree whenever Free accounts are hidden. */
  predicate Alike<A(==), R(==)>(v: View<A, R>, w: View<A, R>) {
    && Honest(v) && Honest(w)
    && v.mode == w.mode && v.now == w.now && v.done == w.done && v.build.Some? == w.build.Some?
    && (v.mode == Hide ==> v.build == w.build)
  }

  lemma BuildsAreAlike<A, R>(env: Env<A>, cs: seq<Credential>, cd: Cooldowns, ds: seq<Credential>, dd: Cooldowns,
                             poolWide: R, mode: Mode, now: nat, done: nat)
    requires SameButFree(env, cs, cd, ds, dd)
    ensures Alike(View(mode, now, done, Some(FromParts(env, cs, mode, cd, poolWide))),
                  View(mode, now, done, Some(FromParts(env, ds, mode, dd, poolWide))))
  {
    HiddenAccountsLeaveNoTrace(env, cs, cd, ds, dd, poolWide);
  }

  predicate AlikeCaches<A(==), R(==)>(c: Option<Built<A, R>>, d: Option<Built<A, R>>) {
    && c.Some? == d.Some?
    && (c.Some? ==> c.value.at == d.value.at && c.value.snapshot.freeAccounts == d.value.snapshot.freeAccounts)
    && (c.Some? && c.value.snapshot.freeAccounts == Hide ==> c == d)
  }

  /** What is shown was built for the current setting, whatever was cached before. */
  lemma {:induction false} RepliesFollowTheSetting<A, R>(cache: Option<Built<A, R>>, views: seq<View<A, R>>, i: nat)
    requires i < |views| && forall j :: 0 <= j < |views| ==> Honest(views[j])
    ensures |Replies(cache, views)| == |views|
    ensures Replies(cache, views)[i].Some? ==> Replies(cache, views)[i].value.freeAccounts == views[i].mode
    decreases |views|
  {
    if |views| > 1 {
      RepliesFollowTheSetting(Kept(cache, views[0]), views[1..], if i == 0 then 0 else i - 1);
    }
  }

  /**
   Over any run of views, setting changes and failed builds, two pools that differ in Free accounts only
   give the same replies whenever those are hidden, even if the cache was filled while they were shown.
   */
  lemma {:induction false} CacheLeaksNothing<A, R>(
    c: Option<Built<A, R>>, d: Option<Built<A, R>>, vs: seq<View<A, R>>, ws: seq<View<A, R>>, i: nat)
    requires AlikeCaches(c, d) && |vs| == |ws| && i < |vs|
    requires forall j :: 0 <= j < |vs| ==> Alike(vs[j], ws[j])
    ensures |Replies(c, vs)| == |Replies(d, ws)| == |vs|
    ensures vs[i].mode == Hide ==> Replies(c, vs)[i] == Replies(d, ws)[i]
    decreases |vs|
  {
    assert Alike(vs[0], ws[0]);
    if |vs| > 1 {
      CacheLeaksNothing(Kept(c, vs[0]), Kept(d, ws[0]), vs[1..], ws[1..], if i == 0 then 0 else i - 1);
    }
  }
}
