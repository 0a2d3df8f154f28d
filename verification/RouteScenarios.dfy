/**
 Route scenarios: named snapshots of the route policies of the two pools and of every account, which
 can be captured, planned against the current settings, and applied item by item.
 */
module RouteScenarios {
  import opened Bytes
  import opened RouteRules

  // ----- Content and settings -----

  datatype Key = LocalPool | ExternalPool | LocalAccount(id: nat) | ExternalAccount(id: nat)

  datatype AccountPolicy = AccountPolicy(id: nat, policy: RoutePolicy)

  datatype Content = Content(
    local: RoutePolicy,
    external: RoutePolicy,
    localAccounts: seq<AccountPolicy>,
    externalAccounts: seq<AccountPolicy>)

  /** The current settings as read: every value has been normalised by the read. */
  type Settings = map<Key, RoutePolicy>

  predicate ValidSettings(s: Settings) {
    && LocalPool in s && ExternalPool in s
    && forall key :: key in s ==> ShapedPolicy(s[key])
  }

  /** A later entry for the same account replaces an earlier one. */
  function ById(accounts: seq<AccountPolicy>): map<nat, RoutePolicy> {
    if accounts == [] then map[]
    else
      var last := accounts[|accounts| - 1];
      ById(accounts[..|accounts| - 1])[last.id := last.policy]
  }

  predicate IsMin(m: nat, s: set<nat>) {
    m in s && forall x :: x in s ==> m <= x
  }

  lemma {:induction false} MinExists(s: set<nat>) returns (m: nat)
    requires s != {}
    ensures IsMin(m, s)
    decreases |s|
  {
    m :| m in s;
    if s != {m} {
      var rest := s - {m};
      var n := MinExists(rest);
      assert forall y :: y in s ==> y == m || y in rest;
      if n < m {
        m := n;
      }
    }
  }

  function Min(s: set<nat>): (m: nat)
    requires s != {}
    ensures IsMin(m, s)
  {
    assert exists m :: IsMin(m, s) by {
      var m := MinExists(s);
    }
    var m :| IsMin(m, s);
    m
  }

  function Ascending(s: set<nat>): (ids: seq<nat>)
    ensures forall x :: x in ids <==> x in s
    ensures forall i, j :: 0 <= i < j < |ids| ==> ids[i] < ids[j]
  {
    if s == {} then []
    else
      var m := Min(s);
      var rest := Ascending(s - {m});
      assert forall i :: 0 <= i < |rest| ==> rest[i] in rest;
      [m] + rest
  }

  /** The entries of a map in ascending order of id. */
  function ToAccounts(m: map<nat, RoutePolicy>): (accounts: seq<AccountPolicy>)
    ensures |accounts| == |Ascending(m.Keys)|
    ensures forall i :: 0 <= i < |accounts| ==> accounts[i].id in m && accounts[i].policy == m[accounts[i].id]
  {
    var ids := Ascending(m.Keys);
    seq(|ids|, i requires 0 <= i < |ids| => assert ids[i] in ids; AccountPolicy(ids[i], m[ids[i]]))
  }

  lemma {:induction false} ByIdGives(accounts: seq<AccountPolicy>, m: map<nat, RoutePolicy>)
    requires forall i :: 0 <= i < |accounts| ==> accounts[i].id in m && accounts[i].policy == m[accounts[i].id]
    ensures forall id :: id in ById(accounts) ==> id in m && ById(accounts)[id] == m[id]
    ensures forall i :: 0 <= i < |accounts| ==> accounts[i].id in ById(accounts)
    decreases |accounts|
  {
    if accounts != [] {
      ByIdGives(accounts[..|accounts| - 1], m);
    }
  }

  /** Listing a map's entries and reading the list back gives the map. */
  lemma ByIdToAccounts(m: map<nat, RoutePolicy>)
    ensures ById(ToAccounts(m)) == m
  {
    var accounts, ids := ToAccounts(m), Ascending(m.Keys);
    ByIdGives(accounts, m);
    forall id | id in m ensures id in ById(accounts) {
      var i :| 0 <= i < |ids| && ids[i] == id;
      assert accounts[i].id == id;
    }
  }

  // ----- Normalisation of content -----

  function NormalizeEach(accounts: seq<AccountPolicy>): (r: seq<AccountPolicy>)
    ensures |r| == |accounts|
  {
    seq(|accounts|, i requires 0 <= i < |accounts| =>
      AccountPolicy(accounts[i].id, Normalized(accounts[i].policy)))
  }

  function NormalizeMap(m: map<nat, RoutePolicy>): map<nat, RoutePolicy> {
    map id | id in m :: Normalized(m[id])
  }

  function NormalizedContent(c: Content): Content {
    Content(Normalized(c.local), Normalized(c.external),
            ToAccounts(ById(NormalizeEach(c.localAccounts))), ToAccounts(ById(NormalizeEach(c.externalAccounts))))
  }

  lemma {:induction false} ByIdNormalizeEach(accounts: seq<AccountPolicy>)
    ensures ById(NormalizeEach(accounts)) == NormalizeMap(ById(accounts))
    decreases |accounts|
  {
    if accounts == [] {
      assert NormalizeEach(accounts) == [];
    } else {
      var n := |accounts| - 1;
      ByIdNormalizeEach(accounts[..n]);
      assert NormalizeEach(accounts)[..n] == NormalizeEach(accounts[..n]);
      NormalizeMapUpdate(ById(accounts[..n]), accounts[n].id, accounts[n].policy);
    }
  }

  lemma NormalizeMapUpdate(m: map<nat, RoutePolicy>, id: nat, policy: RoutePolicy)
    ensures NormalizeMap(m[id := policy]) == NormalizeMap(m)[id := Normalized(policy)]
  {
  }

  /** Where a scenario wants an item to be: its listed value, else unrestricted. */
  function Target(c: Content, key: Key): RoutePolicy {
    match key
    case LocalPool => c.local
    case ExternalPool => c.external
    case LocalAccount(id) => Listed(c.localAccounts, id)
    case ExternalAccount(id) => Listed(c.externalAccounts, id)
  }

  function Listed(accounts: seq<AccountPolicy>, id: nat): RoutePolicy {
    if id in ById(accounts) then ById(accounts)[id] else UNRESTRICTED
  }

  /** The last entry for an account is what the scenario wants of it; without one it is unrestricted. */
  lemma {:induction false} ListedIs(accounts: seq<AccountPolicy>, id: nat)
    ensures (forall i :: 0 <= i < |accounts| ==> accounts[i].id != id) ==>
              Listed(accounts, id) == RoutePolicy(AllowAll, [])
    ensures forall i :: 0 <= i < |accounts| && accounts[i].id == id
                        && (forall j :: i < j < |accounts| ==> accounts[j].id != id) ==>
              Listed(accounts, id) == accounts[i].policy
  {
    if accounts != [] {
      var n := |accounts| - 1;
      var front := accounts[..n];
      ListedIs(front, id);
      if accounts[n].id != id {
        assert Listed(accounts, id) == Listed(front, id);
        forall i | 0 <= i < n && accounts[i].id == id && (forall j :: i < j < |accounts| ==> accounts[j].id != id)
          ensures Listed(accounts, id) == accounts[i].policy
        {
          assert front[i] == accounts[i] && forall j :: i < j < n ==> front[j].id != id;
        }
      }
    }
  }

  function ListedIds(c: Content, local: bool): set<nat> {
    ById(if local then c.localAccounts else c.externalAccounts).Keys
  }

  /** Normalising content normalises every target and lists the same accounts. */
  lemma TargetOfNormalized(c: Content, key: Key)
    ensures Target(NormalizedContent(c), key) == Normalized(Target(c, key))
    ensures forall local :: ListedIds(NormalizedContent(c), local) == ListedIds(c, local)
  {
    ByIdNormalizeEach(c.localAccounts);
    ByIdNormalizeEach(c.externalAccounts);
    ByIdToAccounts(ById(NormalizeEach(c.localAccounts)));
    ByIdToAccounts(ById(NormalizeEach(c.externalAccounts)));
  }

  // ----- Planning -----

  datatype Planned = Planned(key: Key, before: RoutePolicy, after: RoutePolicy)

  function LocalIds(s: Settings): set<nat> {
    set key | key in s && key.LocalAccount? :: key.id
  }

  function ExternalIds(s: Settings): set<nat> {
    set key | key in s && key.ExternalAccount? :: key.id
  }

  /** One key per id, in order. */
  function AccountKeys(ids: set<nat>, local: bool): (keys: seq<Key>)
    ensures |keys| == |Ascending(ids)|
    ensures forall i :: 0 <= i < |keys| ==> keys[i] == KeyOf(local, Ascending(ids)[i])
  {
    var order := Ascending(ids);
    seq(|order|, i requires 0 <= i < |order| => KeyOf(local, order[i]))
  }

  lemma AccountKeysAre(ids: set<nat>, local: bool)
    ensures forall key :: key in AccountKeys(ids, local) ==> IsAccount(key, local) && key.id in ids
    ensures forall id :: id in ids ==> KeyOf(local, id) in AccountKeys(ids, local)
    ensures forall i, j :: 0 <= i < j < |AccountKeys(ids, local)| ==> AccountKeys(ids, local)[i] != AccountKeys(ids, local)[j]
  {
    var keys, order := AccountKeys(ids, local), Ascending(ids);
    forall key | key in keys ensures IsAccount(key, local) && key.id in ids {
      var i :| 0 <= i < |keys| && keys[i] == key;
      assert order[i] in order;
    }
    forall id | id in ids ensures KeyOf(local, id) in keys {
      var i :| 0 <= i < |order| && order[i] == id;
      assert keys[i] == KeyOf(local, id);
    }
  }

  predicate IsAccount(key: Key, local: bool) {
    if local then key.LocalAccount? else key.ExternalAccount?
  }

  /** The items in the order of the plan: the pools, then the accounts of each side by id. */
  function PlanKeys(s: Settings): seq<Key> {
    [LocalPool, ExternalPool] + (AccountKeys(LocalIds(s), true) + AccountKeys(ExternalIds(s), false))
  }

  ghost predicate NoRepeats(keys: seq<Key>) {
    forall i, j :: 0 <= i < j < |keys| ==> keys[i] != keys[j]
  }

  lemma AppendNoRepeats(a: seq<Key>, b: seq<Key>)
    requires NoRepeats(a) && NoRepeats(b) && forall key :: key in a ==> key !in b
    ensures NoRepeats(a + b)
  {
    var c := a + b;
    forall i, j | 0 <= i < j < |c| ensures c[i] != c[j] {
      if i < |a| <= j {
        assert c[i] in a && c[j] in b;
      }
    }
  }

  /** The plan covers every setting exactly once. */
  lemma PlanKeysAre(s: Settings)
    requires ValidSettings(s)
    ensures forall key :: key in PlanKeys(s) <==> key in s
    ensures NoRepeats(PlanKeys(s))
  {
    var a, b := AccountKeys(LocalIds(s), true), AccountKeys(ExternalIds(s), false);
    AccountKeysAre(LocalIds(s), true);
    AccountKeysAre(ExternalIds(s), false);
    AppendNoRepeats(a, b);
    AppendNoRepeats([LocalPool, ExternalPool], a + b);
    forall key ensures key in PlanKeys(s) <==> key in s {
      if key.LocalAccount? {
        assert key.id in LocalIds(s) <==> key in s;
      } else if key.ExternalAccount? {
        assert key.id in ExternalIds(s) <==> key in s;
      }
    }
  }

  /** The order of the plan. */
  predicate Before(a: Key, b: Key) {
    match (a, b)
    case (_, LocalPool) => false
    case (LocalPool, _) => true
    case (_, ExternalPool) => false
    case (ExternalPool, _) => true
    case (LocalAccount(i), LocalAccount(j)) => i < j
    case (LocalAccount(_), ExternalAccount(_)) => true
    case (ExternalAccount(_), LocalAccount(_)) => false
    case (ExternalAccount(i), ExternalAccount(j)) => i < j
  }

  lemma PlanKeyAt(s: Settings, i: nat)
    requires i < |PlanKeys(s)|
    ensures var (local, external) := (Ascending(LocalIds(s)), Ascending(ExternalIds(s)));
      PlanKeys(s)[i] == if i == 0 then LocalPool else if i == 1 then ExternalPool
                        else if i < 2 + |local| then LocalAccount(local[i - 2])
                        else ExternalAccount(external[i - 2 - |local|])
  {
  }

  lemma PlanIsInOrder(c: Content, s: Settings, i: nat, j: nat)
    requires ValidSettings(s) && i < j < |Plan(c, s)|
    ensures Before(Plan(c, s)[i].key, Plan(c, s)[j].key)
  {
    PlanKeyAt(s, i);
    PlanKeyAt(s, j);
  }

  function Plan(c: Content, s: Settings): (items: seq<Planned>)
    requires ValidSettings(s)
    ensures |items| == |PlanKeys(s)|
    ensures forall i :: 0 <= i < |items| ==> items[i].key == PlanKeys(s)[i] && items[i].key in s
                                             && items[i] == Planned(items[i].key, s[items[i].key], Target(c, items[i].key))
  {
    PlanKeysAre(s);
    var keys := PlanKeys(s);
    seq(|keys|, i requires 0 <= i < |keys| => assert keys[i] in keys; Planned(keys[i], s[keys[i]], Target(c, keys[i])))
  }

  /** The plan changes nothing, as the code checks item by item, exactly when every setting is at its target. */
  lemma PlanUnchangedIff(c: Content, s: Settings)
    requires ValidSettings(s)
    ensures (forall i :: 0 <= i < |Plan(c, s)| ==> Plan(c, s)[i].before == Plan(c, s)[i].after) <==> InSync(c, s)
  {
    PlanKeysAre(s);
    var items := Plan(c, s);
    if forall i :: 0 <= i < |items| ==> items[i].before == items[i].after {
      forall key | key in s ensures s[key] == Target(c, key) {
        assert key in PlanKeys(s);
        var i :| 0 <= i < |PlanKeys(s)| && PlanKeys(s)[i] == key;
        assert items[i].before == items[i].after;
      }
    }
  }

  /** The accounts a scenario lists that no longer exist. */
  ghost predicate Missing(c: Content, s: Settings, key: Key) {
    && key !in s
    && (key.LocalAccount? || key.ExternalAccount?)
    && key.id in ListedIds(c, key.LocalAccount?)
  }

  predicate InSync(c: Content, s: Settings) {
    forall key :: key in s ==> s[key] == Target(c, key)
  }

  // ----- Capturing the current settings -----

  function Restricted(s: Settings, local: bool): map<nat, RoutePolicy> {
    var ids := if local then LocalIds(s) else ExternalIds(s);
    map id | id in ids && KeyOf(local, id) in s && s[KeyOf(local, id)].mode != AllowAll :: s[KeyOf(local, id)]
  }

  function KeyOf(local: bool, id: nat): Key {
    if local then LocalAccount(id) else ExternalAccount(id)
  }

  /** `current_route_scenario_content`: only restricted accounts are listed. */
  function Capture(s: Settings): Content
    requires ValidSettings(s)
  {
    Content(s[LocalPool], s[ExternalPool], ToAccounts(Restricted(s, true)), ToAccounts(Restricted(s, false)))
  }

  /** A capture lists exactly the accounts that are restricted. */
  lemma CaptureLists(s: Settings, id: nat)
    requires ValidSettings(s)
    ensures id in ListedIds(Capture(s), true) <==> LocalAccount(id) in s && s[LocalAccount(id)].mode != AllowAll
    ensures id in ListedIds(Capture(s), false) <==> ExternalAccount(id) in s && s[ExternalAccount(id)].mode != AllowAll
  {
    ByIdToAccounts(Restricted(s, true));
    ByIdToAccounts(Restricted(s, false));
    assert LocalAccount(id) in s ==> LocalAccount(id).id in LocalIds(s);
    assert ExternalAccount(id) in s ==> ExternalAccount(id).id in ExternalIds(s);
  }

  /** Captured settings are in sync with themselves and list no missing account. */
  lemma CaptureIsInSync(s: Settings)
    requires ValidSettings(s)
    ensures InSync(Capture(s), s)
    ensures forall key :: !Missing(Capture(s), s, key)
  {
    ByIdToAccounts(Restricted(s, true));
    ByIdToAccounts(Restricted(s, false));
    forall key | key in s ensures s[key] == Target(Capture(s), key) {
      if key.LocalAccount? {
        assert key.id in LocalIds(s) && KeyOf(true, key.id) == key;
      } else if key.ExternalAccount? {
        assert key.id in ExternalIds(s) && KeyOf(false, key.id) == key;
      }
    }
  }

  /** After saving and loading the capture it is in sync exactly when no current rule ends in white space. */
  lemma SavedCaptureInSyncIff(s: Settings)
    requires ValidSettings(s)
    ensures InSync(NormalizedContent(Capture(s)), s) <==> forall key :: key in s ==> Stable(s[key].rules)
    ensures forall key :: !Missing(NormalizedContent(Capture(s)), s, key)
  {
    CaptureIsInSync(s);
    forall key ensures Target(NormalizedContent(Capture(s)), key) == Normalized(Target(Capture(s), key)) {
      TargetOfNormalized(Capture(s), key);
    }
    forall key ensures !Missing(NormalizedContent(Capture(s)), s, key) {
      TargetOfNormalized(Capture(s), key);
      assert !Missing(Capture(s), s, key);
    }
    forall key | key in s
      ensures s[key] == Target(NormalizedContent(Capture(s)), key) <==> Stable(s[key].rules)
    {
      SettledIff(s[key]);
    }
  }

  /** Loading normalises again what saving has normalised; content lists are last-wins per account. */
  lemma ContentNormalizationIdempotentIff(c: Content)
    ensures NormalizedContent(NormalizedContent(c)) == NormalizedContent(c)
       <==> && Stable(Normalized(c.local).rules) && Stable(Normalized(c.external).rules)
            && (forall id :: id in ById(c.localAccounts) ==> Stable(Normalized(ById(c.localAccounts)[id]).rules))
            && (forall id :: id in ById(c.externalAccounts) ==> Stable(Normalized(ById(c.externalAccounts)[id]).rules))
  {
    NormalizedSettlesIff(c.local);
    NormalizedSettlesIff(c.external);
    AccountsIdempotentIff(c.localAccounts);
    AccountsIdempotentIff(c.externalAccounts);
  }

  function NormalizedAccounts(accounts: seq<AccountPolicy>): seq<AccountPolicy> {
    ToAccounts(ById(NormalizeEach(accounts)))
  }

  lemma NormalizedAccountsById(accounts: seq<AccountPolicy>)
    ensures NormalizedAccounts(accounts) == ToAccounts(NormalizeMap(ById(accounts)))
    ensures ById(NormalizedAccounts(accounts)) == NormalizeMap(ById(accounts))
  {
    ByIdNormalizeEach(accounts);
    ByIdToAccounts(NormalizeMap(ById(accounts)));
  }

  lemma NormalizeMapTwiceIff(m: map<nat, RoutePolicy>)
    ensures NormalizeMap(NormalizeMap(m)) == NormalizeMap(m) <==> forall id :: id in m ==> Stable(Normalized(m[id]).rules)
  {
    var once, twice := NormalizeMap(m), NormalizeMap(NormalizeMap(m));
    forall id | id in m ensures twice[id] == once[id] <==> Stable(Normalized(m[id]).rules) {
      NormalizedSettlesIff(m[id]);
    }
  }

  lemma AccountsIdempotentIff(accounts: seq<AccountPolicy>)
    ensures NormalizedAccounts(NormalizedAccounts(accounts)) == NormalizedAccounts(accounts)
       <==> forall id :: id in ById(accounts) ==> Stable(Normalized(ById(accounts)[id]).rules)
  {
    var m := ById(accounts);
    NormalizedAccountsById(accounts);
    NormalizedAccountsById(NormalizedAccounts(accounts));
    NormalizeMapTwiceIff(m);
  }
}
