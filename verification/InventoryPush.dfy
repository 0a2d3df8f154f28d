/**
 Moving inventory accounts into the pool: claim the row, add the account to the pool, then record the
 outcome in the row.  A crash can fall between any two steps, and a reconciler repairs stale rows at
 startup.  Pushers, crashes, the clock, token rotation and the reconciler are steps of one system.

 An account is its true identity, which the program never sees; it only compares secret hashes.
 */
module InventoryPush {
  import opened Bytes

  const STALE_PUSH_SECS := 300

  datatype Status = Stored | Invalid | Pushing | Pushed

  datatype Row = Row(
    account: nat,
    status: Status,
    hash: Option<nat>,
    hasData: bool,
    pushedTo: Option<nat>,
    updatedAt: int,
    deleted: bool)

  datatype Entry = Entry(account: nat, hash: nat)

  // ----- The store: one SQL statement each -----

  type Rows = map<nat, Row>

  predicate Live(rows: Rows, id: nat) {
    id in rows && !rows[id].deleted
  }

  predicate Claimable(rows: Rows, id: nat) {
    Live(rows, id) && rows[id].status in {Stored, Invalid}
  }

  function BeginPush(rows: Rows, id: nat, now: int): Rows {
    if Claimable(rows, id) then rows[id := rows[id].(status := Pushing, updatedAt := now)] else rows
  }

  function FinishPush(rows: Rows, id: nat, cred: nat, now: int): Rows {
    if Live(rows, id)
    then rows[id := rows[id].(status := Pushed, hasData := false, pushedTo := Some(cred), updatedAt := now)]
    else rows
  }

  function AbortPush(rows: Rows, id: nat, now: int): Rows {
    if Live(rows, id) && rows[id].status == Pushing
    then rows[id := rows[id].(status := Stored, updatedAt := now)] else rows
  }

  function SoftDelete(rows: Rows, id: nat, now: int): Rows {
    if Live(rows, id) && rows[id].status != Pushing
    then rows[id := rows[id].(deleted := true, hasData := false, updatedAt := now)] else rows
  }

  predicate Young(rows: Rows, id: nat, now: int) {
    id in rows && now <= rows[id].updatedAt + STALE_PUSH_SECS
  }

  predicate StalePushing(rows: Rows, id: nat, now: int) {
    Live(rows, id) && rows[id].status == Pushing && rows[id].updatedAt < now - STALE_PUSH_SECS
  }

  // ----- The world and its steps -----

  /** A push under way: the row is claimed, the pool holds the account, or the pool refused it. */
  datatype Pusher = Claimed(row: nat) | Added(row: nat, cred: nat) | Refused(row: nat)

  datatype World = World(now: int, rows: Rows, pool: map<nat, Entry>, pushers: map<nat, Pusher>)

  datatype Step =
    | Claim(p: nat, row: nat)
    | AddOk(p: nat, cred: nat, hash: nat)     // the pool stores `hash`, rotated or not
    | AddHalf(p: nat, cred: nat, hash: nat)   // added, but a later part of the import failed
    | AddRefused(p: nat)                      // nothing was added
    | Finish(p: nat)
    | FinishLost(p: nat)                      // the update failed and its error was ignored
    | Abort(p: nat)
    | AbortLost(p: nat)
    | Crash                                   // every push under way is forgotten
    | Reconcile(row: nat)
    | Tick(secs: nat)
    | RotateInPool(cred: nat, hash: nat)
    | RenewInInventory(row: nat, hash: nat)
    | DeleteRow(row: nat)
    | RemoveFromPool(cred: nat)

  type Pool = map<nat, Entry>

  predicate PoolHolds(pool: Pool, account: nat) {
    exists c :: c in pool && pool[c].account == account
  }

  predicate PoolHasHash(pool: Pool, hash: Option<nat>) {
    hash.Some? && exists c :: c in pool && pool[c].hash == hash.value
  }

  /** What the reconciler looks up: a pool account with the row's hash. */
  ghost function PoolIdOf(pool: Pool, hash: Option<nat>): (r: Option<nat>)
    ensures r.Some? <==> PoolHasHash(pool, hash)
    ensures r.Some? ==> r.value in pool && pool[r.value].hash == hash.value
  {
    if PoolHasHash(pool, hash) then
      var c :| c in pool && pool[c].hash == hash.value;
      Some(c)
    else None
  }

  predicate FreshHash(w: World, hash: nat) {
    && (forall c :: c in w.pool ==> w.pool[c].hash != hash)
    && (forall id :: id in w.rows ==> w.rows[id].hash != Some(hash))
  }

  predicate CanAdd(w: World, p: nat, cred: nat, hash: nat) {
    && p in w.pushers && w.pushers[p].Claimed? && w.pushers[p].row in w.rows && cred !in w.pool
    && var own := w.rows[w.pushers[p].row].hash;
    && own.Some? && !PoolHasHash(w.pool, own) && (own == Some(hash) || FreshHash(w, hash))
  }

  /**
   When a step can happen.  A pool entry gets the row's own hash or one nobody has had, as does a
   rotation; the pool refuses a hash it already holds; time passes only while every live push is
   younger than the stale limit (`STALE_PUSH_SECS` bounds a push).
   */
  predicate Enabled(w: World, step: Step) {
    match step
    case Claim(p, id) => p !in w.pushers && Claimable(w.rows, id)
    case AddOk(p, cred, hash) => CanAdd(w, p, cred, hash)
    case AddHalf(p, cred, hash) => CanAdd(w, p, cred, hash)
    case AddRefused(p) => p in w.pushers && w.pushers[p].Claimed?
    case Finish(p) => p in w.pushers && w.pushers[p].Added?
    case FinishLost(p) => p in w.pushers && w.pushers[p].Added?
    case Abort(p) => p in w.pushers && w.pushers[p].Refused?
    case AbortLost(p) => p in w.pushers && w.pushers[p].Refused?
    case Crash => true
    case Reconcile(id) => StalePushing(w.rows, id, w.now)
    case Tick(secs) => forall p :: p in w.pushers ==> Young(w.rows, w.pushers[p].row, w.now + secs)
    case RotateInPool(cred, hash) => cred in w.pool && FreshHash(w, hash)
    case RenewInInventory(id, hash) => Claimable(w.rows, id) && FreshHash(w, hash)
    case DeleteRow(id) => true
    case RemoveFromPool(cred) => cred in w.pool
  }

  ghost function Next(w: World, step: Step): World
    requires Enabled(w, step)
  {
    match step
    case Claim(p, id) => w.(rows := BeginPush(w.rows, id, w.now), pushers := w.pushers[p := Claimed(id)])
    case AddOk(p, cred, hash) =>
      var id := w.pushers[p].row;
      w.(pool := w.pool[cred := Entry(w.rows[id].account, hash)], pushers := w.pushers[p := Added(id, cred)])
    case AddHalf(p, cred, hash) =>
      var id := w.pushers[p].row;
      w.(pool := w.pool[cred := Entry(w.rows[id].account, hash)], pushers := w.pushers[p := Refused(id)])
    case AddRefused(p) => w.(pushers := w.pushers[p := Refused(w.pushers[p].row)])
    case Finish(p) =>
      w.(rows := FinishPush(w.rows, w.pushers[p].row, w.pushers[p].cred, w.now), pushers := w.pushers - {p})
    case FinishLost(p) => w.(pushers := w.pushers - {p})
    case Abort(p) => w.(rows := AbortPush(w.rows, w.pushers[p].row, w.now), pushers := w.pushers - {p})
    case AbortLost(p) => w.(pushers := w.pushers - {p})
    case Crash => w.(pushers := map[])
    case Reconcile(id) =>
      var found := PoolIdOf(w.pool, w.rows[id].hash);
      w.(rows := if found.Some? then FinishPush(w.rows, id, found.value, w.now) else AbortPush(w.rows, id, w.now))
    case Tick(secs) => w.(now := w.now + secs)
    case RotateInPool(cred, hash) => w.(pool := w.pool[cred := w.pool[cred].(hash := hash)])
    case RenewInInventory(id, hash) =>
      w.(rows := w.rows[id := w.rows[id].(hash := Some(hash), status := Stored, updatedAt := w.now)])
    case DeleteRow(id) => w.(rows := SoftDelete(w.rows, id, w.now))
    case RemoveFromPool(cred) => w.(pool := w.pool - {cred})
  }

  // ----- What must hold -----

  /** The inventory may use (renew, push) the account of this row. */
  predicate Usable(w: World, id: nat) {
    Claimable(w.rows, id)
  }

  /** No account is usable in the inventory and present in the pool. */
  ghost predicate NeverTwice(w: World) {
    forall id :: Usable(w, id) ==> !PoolHolds(w.pool, w.rows[id].account)
  }

  /** Somebody still has the account's secrets. */
  ghost predicate Kept(w: World, account: nat) {
    || PoolHolds(w.pool, account)
    || exists id :: Live(w.rows, id) && w.rows[id].hasData && w.rows[id].account == account
  }

  ghost predicate DistinctRows(w: World) {
    forall i, j :: Live(w.rows, i) && Live(w.rows, j) && i != j
                   && w.rows[i].status != Pushed && w.rows[j].status != Pushed ==>
      w.rows[i].account != w.rows[j].account
  }

  /** A hash is the hash of one account's secret, in the pool and in every row. */
  ghost predicate HashIdentifies(w: World) {
    && (forall id, c :: id in w.rows && c in w.pool && w.rows[id].hash == Some(w.pool[c].hash) ==>
          w.rows[id].account == w.pool[c].account)
    && (forall i, j :: i in w.rows && j in w.rows && w.rows[i].hash.Some? && w.rows[i].hash == w.rows[j].hash ==>
          w.rows[i].account == w.rows[j].account)
  }

  ghost predicate OneEntryEach(w: World) {
    forall c, d :: c in w.pool && d in w.pool && c != d ==> w.pool[c].account != w.pool[d].account
  }

  ghost predicate RowsSound(w: World) {
    forall id :: Live(w.rows, id) && w.rows[id].status != Pushed ==> w.rows[id].hasData
  }

  ghost predicate PusherSound(w: World, p: nat) {
    p in w.pushers ==>
      var id := w.pushers[p].row;
      && Live(w.rows, id) && w.rows[id].status == Pushing
      && Young(w.rows, id, w.now)
      && (w.pushers[p].Added? || !PoolHolds(w.pool, w.rows[id].account))
  }

  ghost predicate PushersSound(w: World) {
    && (forall p :: PusherSound(w, p))
    && (forall p, q :: p in w.pushers && q in w.pushers && p != q ==> w.pushers[p].row != w.pushers[q].row)
  }

  ghost predicate Attended(pushers: map<nat, Pusher>, id: nat) {
    exists p :: p in pushers && pushers[p].row == id
  }

  /** The pool entry of this row's account cannot be recognised by the row's hash. */
  ghost predicate Unrecognisable(w: World, id: nat) {
    Live(w.rows, id) && w.rows[id].status == Pushing
    && PoolHolds(w.pool, w.rows[id].account) && !PoolHasHash(w.pool, w.rows[id].hash)
  }

  /** A push nobody is finishing any more can be recognised in the pool by its hash. */
  ghost predicate OrphansRecognisable(w: World) {
    forall id :: Unrecognisable(w, id) ==> Attended(w.pushers, id)
  }

  ghost predicate Inv(w: World) {
    && NeverTwice(w) && DistinctRows(w) && HashIdentifies(w) && OneEntryEach(w) && RowsSound(w)
    && PushersSound(w) && OrphansRecognisable(w)
  }

  /**
   The steps that keep an account recognisable.  The add is all or nothing; while the pool entry of a
   claimed row has a rotated hash, the push that added it is neither forgotten nor left unrecorded;
   and the pool does not rotate the secret of a push nobody is finishing.
   */
  ghost predicate Careful(w: World, step: Step)
    requires Enabled(w, step)
  {
    match step
    case AddHalf(_, _, _) => false
    case FinishLost(p) => !Unrecognisable(w, w.pushers[p].row)
    case Crash => forall id :: !Unrecognisable(w, id)
    case RotateInPool(cred, _) =>
      forall id :: Live(w.rows, id) && w.rows[id].status == Pushing && w.rows[id].account == w.pool[cred].account
        ==> Attended(w.pushers, id)
    case _ => true
  }

  // ----- Careful steps keep the invariant -----

  lemma StaleIsUnattended(w: World, id: nat)
    requires PushersSound(w) && StalePushing(w.rows, id, w.now)
    ensures !Attended(w.pushers, id)
  {
    forall p | p in w.pushers ensures w.pushers[p].row != id {
      assert PusherSound(w, p);
    }
  }

  lemma AttendedStays(before: map<nat, Pusher>, after: map<nat, Pusher>, id: nat)
    requires Attended(before, id)
    requires forall p :: p in before && before[p].row == id ==> p in after && after[p].row == id
    ensures Attended(after, id)
  {
    var p :| p in before && before[p].row == id;
    assert p in after && after[p].row == id;
  }

  lemma PoolGrows(before: Pool, after: Pool, hash: Option<nat>, account: nat)
    requires forall c :: c in before ==> c in after && after[c] == before[c]
    ensures PoolHasHash(before, hash) ==> PoolHasHash(after, hash)
    ensures PoolHolds(before, account) ==> PoolHolds(after, account)
  {
    if PoolHasHash(before, hash) {
      var c :| c in before && before[c].hash == hash.value;
      assert c in after && after[c].hash == hash.value;
    }
    if PoolHolds(before, account) {
      var c :| c in before && before[c].account == account;
      assert c in after && after[c].account == account;
    }
  }

  lemma ClaimKeepsRows(w: World, p: nat, id: nat)
    requires Inv(w) && Enabled(w, Claim(p, id))
    ensures var w' := Next(w, Claim(p, id));
      NeverTwice(w') && DistinctRows(w') && HashIdentifies(w') && OneEntryEach(w') && RowsSound(w')
  {
    var w' := Next(w, Claim(p, id));
    forall i | Usable(w', i) ensures !PoolHolds(w'.pool, w'.rows[i].account) {
      assert Usable(w, i);
    }
  }

  lemma ClaimKeepsPushers(w: World, p: nat, id: nat)
    requires Inv(w) && Enabled(w, Claim(p, id))
    ensures PushersSound(Next(w, Claim(p, id))) && OrphansRecognisable(Next(w, Claim(p, id)))
  {
    var w' := Next(w, Claim(p, id));
    assert Usable(w, id);
    forall q | q in w.pushers ensures w.pushers[q].row != id {
      assert PusherSound(w, q);
    }
    forall q ensures PusherSound(w', q) {
      assert PusherSound(w, q);
    }
    forall i | Unrecognisable(w', i) ensures Attended(w'.pushers, i) {
      assert Unrecognisable(w, i);
      AttendedStays(w.pushers, w'.pushers, i);
    }
  }

  lemma ClaimKeeps(w: World, p: nat, id: nat)
    requires Inv(w) && Enabled(w, Claim(p, id))
    ensures Inv(Next(w, Claim(p, id)))
  {
    ClaimKeepsRows(w, p, id);
    ClaimKeepsPushers(w, p, id);
  }

  /** After an add the pool holds one account more: that of the claimed row, which no other row has. */
  lemma AddKeepsPool(w: World, p: nat, cred: nat, hash: nat, w': World)
    requires Inv(w) && CanAdd(w, p, cred, hash) && w'.rows == w.rows && w'.now == w.now
    requires w'.pool == w.pool[cred := Entry(w.rows[w.pushers[p].row].account, hash)]
    ensures NeverTwice(w') && HashIdentifies(w') && OneEntryEach(w')
    ensures forall a :: PoolHolds(w'.pool, a) <==> PoolHolds(w.pool, a) || a == w.rows[w.pushers[p].row].account
  {
    var id := w.pushers[p].row;
    assert PusherSound(w, p);
    assert w'.pool[cred].account == w.rows[id].account;
    forall a ensures PoolHolds(w'.pool, a) <==> PoolHolds(w.pool, a) || a == w.rows[id].account {
      PoolGrows(w.pool, w'.pool, None, a);
    }
    forall i | Usable(w', i) ensures !PoolHolds(w'.pool, w'.rows[i].account) {
      assert Usable(w, i);
    }
  }

  lemma AddOkKeepsPushers(w: World, p: nat, cred: nat, hash: nat)
    requires Inv(w) && Enabled(w, AddOk(p, cred, hash))
    ensures PushersSound(Next(w, AddOk(p, cred, hash)))
  {
    var w' := Next(w, AddOk(p, cred, hash));
    AddKeepsPool(w, p, cred, hash, w');
    assert PusherSound(w, p);
    forall q ensures PusherSound(w', q) {
      assert PusherSound(w, q);
    }
  }

  lemma AddOkKeepsOrphans(w: World, p: nat, cred: nat, hash: nat, i: nat)
    requires Inv(w) && Enabled(w, AddOk(p, cred, hash)) && Unrecognisable(Next(w, AddOk(p, cred, hash)), i)
    ensures Attended(Next(w, AddOk(p, cred, hash)).pushers, i)
  {
    var w' := Next(w, AddOk(p, cred, hash));
    var id := w.pushers[p].row;
    if i == id {
      assert p in w'.pushers && w'.pushers[p].row == id;
    } else {
      AddKeepsPool(w, p, cred, hash, w');
      assert PusherSound(w, p);
      PoolGrows(w.pool, w'.pool, w.rows[i].hash, 0);
      assert Unrecognisable(w, i);
      AttendedStays(w.pushers, w'.pushers, i);
    }
  }

  lemma AddOkKeeps(w: World, p: nat, cred: nat, hash: nat)
    requires Inv(w) && Enabled(w, AddOk(p, cred, hash))
    ensures Inv(Next(w, AddOk(p, cred, hash)))
  {
    var w' := Next(w, AddOk(p, cred, hash));
    AddKeepsPool(w, p, cred, hash, w');
    AddOkKeepsPushers(w, p, cred, hash);
    forall i | Unrecognisable(w', i) ensures Attended(w'.pushers, i) {
      AddOkKeepsOrphans(w, p, cred, hash, i);
    }
  }

  lemma AddRefusedKeeps(w: World, p: nat)
    requires Inv(w) && Enabled(w, AddRefused(p))
    ensures Inv(Next(w, AddRefused(p)))
  {
    var w' := Next(w, AddRefused(p));
    forall q ensures PusherSound(w', q) {
      assert PusherSound(w, q);
      assert PusherSound(w, p);
    }
    forall i | Unrecognisable(w', i) ensures Attended(w'.pushers, i) {
      assert Unrecognisable(w, i);
      AttendedStays(w.pushers, w'.pushers, i);
    }
    forall i | Usable(w', i) ensures !PoolHolds(w'.pool, w'.rows[i].account) {
      assert Usable(w, i);
    }
  }

  /** Dropping pushers keeps everything but the attention they gave. */
  lemma DropKeeps(w: World, gone: set<nat>)
    requires Inv(w)
    requires forall id :: Unrecognisable(w, id) ==> Attended(w.pushers - gone, id)
    ensures Inv(w.(pushers := w.pushers - gone))
  {
    var w' := w.(pushers := w.pushers - gone);
    forall q ensures PusherSound(w', q) {
      assert PusherSound(w, q);
    }
    forall i | Unrecognisable(w', i) ensures Attended(w'.pushers, i) {
      assert Unrecognisable(w, i);
    }
    forall i | Usable(w', i) ensures !PoolHolds(w'.pool, w'.rows[i].account) {
      assert Usable(w, i);
    }
  }

  lemma ForgetKeeps(w: World, p: nat)
    requires Inv(w) && p in w.pushers && !Unrecognisable(w, w.pushers[p].row)
    ensures Inv(w.(pushers := w.pushers - {p}))
  {
    var w' := w.(pushers := w.pushers - {p});
    forall id | Unrecognisable(w, id) ensures Attended(w'.pushers, id) {
      AttendedStays(w.pushers, w'.pushers, id);
    }
    DropKeeps(w, {p});
  }

  lemma CrashKeeps(w: World)
    requires Inv(w) && forall id :: !Unrecognisable(w, id)
    ensures Inv(Next(w, Crash))
  {
    DropKeeps(w, w.pushers.Keys);
    assert w.pushers - w.pushers.Keys == map[];
  }

  /** A row takes another state that keeps its account safe: what holds of rows and pool still does. */
  lemma RowUpdateKeepsRows(w: World, id: nat, row: Row, w': World)
    requires Inv(w) && Live(w.rows, id) && w'.rows == w.rows[id := row] && w'.pool == w.pool
    requires row.account == w.rows[id].account
    requires row.hash == w.rows[id].hash || (row.hash.Some? && FreshHash(w, row.hash.value))
    requires || row.deleted || row.status == Pushed
             || (row.status == Stored && row.hasData && w.rows[id].status != Pushed && !PoolHolds(w.pool, row.account))
    ensures NeverTwice(w') && DistinctRows(w') && HashIdentifies(w') && OneEntryEach(w') && RowsSound(w')
  {
    forall i | Usable(w', i) ensures !PoolHolds(w'.pool, w'.rows[i].account) {
      if i != id {
        assert Usable(w, i);
      }
    }
  }

  /** The pushes that go on have other rows, so nothing changes for them. */
  lemma RowUpdateKeepsPushers(w: World, id: nat, row: Row, gone: set<nat>, w': World)
    requires Inv(w) && w'.rows == w.rows[id := row] && w'.pool == w.pool && w'.now == w.now
    requires w'.pushers == w.pushers - gone
    requires forall p :: p in w.pushers ==> (w.pushers[p].row == id <==> p in gone)
    requires row.deleted || row.status != Pushing
    ensures PushersSound(w') && OrphansRecognisable(w')
  {
    forall q ensures PusherSound(w', q) {
      assert PusherSound(w, q);
    }
    forall i | Unrecognisable(w', i) ensures Attended(w'.pushers, i) {
      assert Unrecognisable(w, i);
      AttendedStays(w.pushers, w'.pushers, i);
    }
  }

  /** Recording an outcome for a row that no pusher holds any more. */
  lemma SettleKeeps(w: World, id: nat, row: Row)
    requires Inv(w) && Live(w.rows, id) && w.rows[id].status == Pushing && !Attended(w.pushers, id)
    requires row.account == w.rows[id].account && row.hash == w.rows[id].hash && !row.deleted
    requires row.status == Pushed || (row.status == Stored && row.hasData && !PoolHolds(w.pool, row.account))
    ensures Inv(w.(rows := w.rows[id := row]))
  {
    var w' := w.(rows := w.rows[id := row]);
    RowUpdateKeepsRows(w, id, row, w');
    RowUpdateKeepsPushers(w, id, row, {}, w');
  }

  /** The same while its own pusher is still there: the pusher goes with it. */
  lemma OutcomeKeeps(w: World, p: nat, row: Row)
    requires Inv(w) && p in w.pushers && w.pushers[p].row in w.rows
    requires var before := w.rows[w.pushers[p].row];
             row.account == before.account && row.hash == before.hash && !row.deleted
    requires row.status == Pushed || (row.status == Stored && row.hasData && !PoolHolds(w.pool, row.account))
    ensures Inv(w.(rows := w.rows[w.pushers[p].row := row], pushers := w.pushers - {p}))
  {
    var id := w.pushers[p].row;
    var w' := w.(rows := w.rows[id := row], pushers := w.pushers - {p});
    assert PusherSound(w, p);
    RowUpdateKeepsRows(w, id, row, w');
    RowUpdateKeepsPushers(w, id, row, {p}, w');
  }

  lemma FinishOrAbortKeeps(w: World, step: Step)
    requires Inv(w) && Enabled(w, step) && (step.Finish? || step.Abort?)
    ensures Inv(Next(w, step))
  {
    var p := step.p;
    assert PusherSound(w, p);
    var id := w.pushers[p].row;
    OutcomeKeeps(w, p, Next(w, step).rows[id]);
  }

  lemma ReconcileKeeps(w: World, id: nat)
    requires Inv(w) && Enabled(w, Reconcile(id))
    ensures Inv(Next(w, Reconcile(id)))
  {
    StaleIsUnattended(w, id);
    assert !Unrecognisable(w, id);
    SettleKeeps(w, id, Next(w, Reconcile(id)).rows[id]);
  }

  lemma TickKeeps(w: World, secs: nat)
    requires Inv(w) && Enabled(w, Tick(secs))
    ensures Inv(Next(w, Tick(secs)))
  {
    var w' := Next(w, Tick(secs));
    forall q ensures PusherSound(w', q) {
      assert PusherSound(w, q);
    }
    forall i | Unrecognisable(w', i) ensures Attended(w'.pushers, i) {
      assert Unrecognisable(w, i);
      AttendedStays(w.pushers, w'.pushers, i);
    }
    forall i | Usable(w', i) ensures !PoolHolds(w'.pool, w'.rows[i].account) {
      assert Usable(w, i);
    }
  }

  lemma RotateHolds(w: World, cred: nat, hash: nat)
    requires Enabled(w, RotateInPool(cred, hash))
    ensures forall a :: PoolHolds(Next(w, RotateInPool(cred, hash)).pool, a) <==> PoolHolds(w.pool, a)
  {
    var w' := Next(w, RotateInPool(cred, hash));
    forall a ensures PoolHolds(w'.pool, a) <==> PoolHolds(w.pool, a) {
      if PoolHolds(w.pool, a) {
        var c :| c in w.pool && w.pool[c].account == a;
        assert c in w'.pool && w'.pool[c].account == a;
      }
      if PoolHolds(w'.pool, a) {
        var c :| c in w'.pool && w'.pool[c].account == a;
        assert c in w.pool && w.pool[c].account == a;
      }
    }
  }

  lemma RotateKeeps(w: World, cred: nat, hash: nat)
    requires Inv(w) && Enabled(w, RotateInPool(cred, hash)) && Careful(w, RotateInPool(cred, hash))
    ensures Inv(Next(w, RotateInPool(cred, hash)))
  {
    var w' := Next(w, RotateInPool(cred, hash));
    RotateHolds(w, cred, hash);
    forall q ensures PusherSound(w', q) {
      assert PusherSound(w, q);
    }
    forall i | Unrecognisable(w', i) ensures Attended(w'.pushers, i) {
      if w.rows[i].account != w.pool[cred].account {
        HashElsewhere(w, w', cred, i);
        assert Unrecognisable(w, i);
      }
      AttendedStays(w.pushers, w'.pushers, i);
    }
    forall i | Usable(w', i) ensures !PoolHolds(w'.pool, w'.rows[i].account) {
      assert Usable(w, i);
    }
  }

  lemma HashElsewhere(w: World, w': World, cred: nat, i: nat)
    requires HashIdentifies(w) && i in w.rows && cred in w.pool && w.rows[i].account != w.pool[cred].account
    requires forall c :: c in w.pool && c != cred ==> c in w'.pool && w'.pool[c] == w.pool[c]
    ensures PoolHasHash(w.pool, w.rows[i].hash) ==> PoolHasHash(w'.pool, w.rows[i].hash)
  {
    if PoolHasHash(w.pool, w.rows[i].hash) {
      var c :| c in w.pool && w.pool[c].hash == w.rows[i].hash.value;
      assert c in w'.pool && w'.pool[c].hash == w.rows[i].hash.value;
    }
  }

  lemma RowChangeKeeps(w: World, id: nat, row: Row)
    requires Inv(w) && Live(w.rows, id) && w.rows[id].status != Pushing && row.account == w.rows[id].account
    requires row.hash == w.rows[id].hash || (row.hash.Some? && FreshHash(w, row.hash.value))
    requires row.deleted || (row.status == Stored && row.hasData && w.rows[id].status in {Stored, Invalid})
    ensures Inv(w.(rows := w.rows[id := row]))
  {
    var w' := w.(rows := w.rows[id := row]);
    assert Usable(w, id) || row.deleted;
    forall p | p in w.pushers ensures w.pushers[p].row != id {
      assert PusherSound(w, p);
    }
    RowUpdateKeepsRows(w, id, row, w');
    RowUpdateKeepsPushers(w, id, row, {}, w');
  }

  lemma RenewKeeps(w: World, id: nat, hash: nat)
    requires Inv(w) && Enabled(w, RenewInInventory(id, hash))
    ensures Inv(Next(w, RenewInInventory(id, hash)))
  {
    RowChangeKeeps(w, id, Next(w, RenewInInventory(id, hash)).rows[id]);
  }

  lemma DeleteKeeps(w: World, id: nat)
    requires Inv(w)
    ensures Inv(Next(w, DeleteRow(id)))
  {
    if Live(w.rows, id) && w.rows[id].status != Pushing {
      RowChangeKeeps(w, id, Next(w, DeleteRow(id)).rows[id]);
    }
  }

  lemma RemoveKeeps(w: World, cred: nat)
    requires Inv(w) && Enabled(w, RemoveFromPool(cred))
    ensures Inv(Next(w, RemoveFromPool(cred)))
  {
    var w' := Next(w, RemoveFromPool(cred));
    forall a ensures PoolHolds(w'.pool, a) ==> PoolHolds(w.pool, a) && a != w.pool[cred].account {
      PoolGrows(w'.pool, w.pool, None, a);
    }
    forall q ensures PusherSound(w', q) {
      assert PusherSound(w, q);
    }
    forall i | Unrecognisable(w', i) ensures Attended(w'.pushers, i) {
      HashElsewhere(w, w', cred, i);
      assert Unrecognisable(w, i);
      AttendedStays(w.pushers, w'.pushers, i);
    }
    forall i | Usable(w', i) ensures !PoolHolds(w'.pool, w'.rows[i].account) {
      assert Usable(w, i);
    }
  }

  /** Every careful step keeps the invariant. */
  lemma CarefulStepKeepsInv(w: World, step: Step)
    requires Inv(w) && Enabled(w, step) && Careful(w, step)
    ensures Inv(Next(w, step))
  {
    match step {
      case Claim(p, id) => ClaimKeeps(w, p, id);
      case AddOk(p, cred, hash) => AddOkKeeps(w, p, cred, hash);
      case AddRefused(p) => AddRefusedKeeps(w, p);
      case Finish(_) => FinishOrAbortKeeps(w, step);
      case Abort(_) => FinishOrAbortKeeps(w, step);
      case FinishLost(p) => ForgetKeeps(w, p);
      case AbortLost(p) =>
        assert PusherSound(w, p);
        ForgetKeeps(w, p);
      case Crash => CrashKeeps(w);
      case Reconcile(id) => ReconcileKeeps(w, id);
      case Tick(secs) => TickKeeps(w, secs);
      case RotateInPool(cred, hash) => RotateKeeps(w, cred, hash);
      case RenewInInventory(id, hash) => RenewKeeps(w, id, hash);
      case DeleteRow(id) => DeleteKeeps(w, id);
      case RemoveFromPool(cred) => RemoveKeeps(w, cred);
      case _ =>
    }
  }

  // ----- Every run -----

  ghost predicate Valid(w: World, trace: seq<Step>)
    decreases |trace|
  {
    trace == [] || (Enabled(w, trace[0]) && Valid(Next(w, trace[0]), trace[1..]))
  }

  ghost function Run(w: World, trace: seq<Step>): World
    requires Valid(w, trace)
    decreases |trace|
  {
    if trace == [] then w else Run(Next(w, trace[0]), trace[1..])
  }

  lemma RunCons(w: World, step: Step, rest: seq<Step>)
    requires Enabled(w, step) && Valid(Next(w, step), rest)
    ensures Valid(w, [step] + rest) && Run(w, [step] + rest) == Run(Next(w, step), rest)
  {
    assert ([step] + rest)[1..] == rest;
  }

  ghost predicate CarefulRun(w: World, trace: seq<Step>)
    requires Valid(w, trace)
    decreases |trace|
  {
    trace == [] || (Careful(w, trace[0]) && CarefulRun(Next(w, trace[0]), trace[1..]))
  }

  /** Over every careful run, with crashes anywhere, no account is usable twice. */
  lemma {:induction false} CarefulRunsAreSafe(w: World, trace: seq<Step>)
    requires Inv(w) && Valid(w, trace) && CarefulRun(w, trace)
    ensures Inv(Run(w, trace)) && NeverTwice(Run(w, trace))
    decreases |trace|
  {
    if trace != [] {
      CarefulStepKeepsInv(w, trace[0]);
      CarefulRunsAreSafe(Next(w, trace[0]), trace[1..]);
    }
  }

  // ----- Care is needed -----

  /** A careful step, then careful steps. */
  lemma CarefulCons(w: World, step: Step, rest: seq<Step>)
    requires Enabled(w, step) && Careful(w, step)
    requires Valid(Next(w, step), rest) && CarefulRun(Next(w, step), rest)
    ensures Valid(w, [step] + rest) && CarefulRun(w, [step] + rest)
    ensures Run(w, [step] + rest) == Run(Next(w, step), rest)
  {
    RunCons(w, step, rest);
    assert ([step] + rest)[1..] == rest;
  }

  /** A row whose push nobody is finishing, and whose pool entry its hash does not lead to. */
  ghost predicate Orphan(w: World, id: nat) {
    Unrecognisable(w, id) && !Attended(w.pushers, id)
  }

  /** The last step of a push under way, which records or undoes it. */
  function Ending(pusher: Pusher, p: nat): Step {
    if pusher.Added? then Finish(p) else Abort(p)
  }

  lemma EndingKeepsOrphan(w: World, p: nat, id: nat)
    requires Orphan(w, id) && p in w.pushers && !w.pushers[p].Claimed?
    ensures var w' := Next(w, Ending(w.pushers[p], p)); Orphan(w', id) && w'.pushers == w.pushers - {p}
  {
    assert w.pushers[p].row != id;
    var w' := Next(w, Ending(w.pushers[p], p));
    assert w'.rows[id] == w.rows[id] && w'.pool == w.pool;
  }

  lemma RefusalKeepsOrphan(w: World, p: nat, id: nat)
    requires Orphan(w, id) && p in w.pushers && w.pushers[p].Claimed?
    ensures var w' := Next(w, AddRefused(p));
      Orphan(w', id) && w'.pushers == w.pushers[p := Refused(w.pushers[p].row)]
  {
    assert w.pushers[p].row != id;
  }

  /** All other pushes can come to an ordinary end while an orphan stays as it is. */
  lemma {:induction false} PushesEnd(w: World, id: nat) returns (trace: seq<Step>)
    requires Orphan(w, id)
    ensures Valid(w, trace) && CarefulRun(w, trace)
    ensures Orphan(Run(w, trace), id) && Run(w, trace).pushers == map[]
    decreases |w.pushers|
  {
    trace := [];
    if w.pushers != map[] {
      var p :| p in w.pushers;
      if w.pushers[p].Claimed? {
        var w1 := Next(w, AddRefused(p));
        RefusalKeepsOrphan(w, p, id);
        var w2 := Next(w1, Abort(p));
        EndingKeepsOrphan(w1, p, id);
        FewerPushers(w.pushers, w2.pushers, p);
        var rest := PushesEnd(w2, id);
        CarefulCons(w1, Abort(p), rest);
        CarefulCons(w, AddRefused(p), [Abort(p)] + rest);
        trace := [AddRefused(p)] + ([Abort(p)] + rest);
      } else {
        var step := Ending(w.pushers[p], p);
        EndingKeepsOrphan(w, p, id);
        FewerPushers(w.pushers, Next(w, step).pushers, p);
        var rest := PushesEnd(Next(w, step), id);
        CarefulCons(w, step, rest);
        trace := [step] + rest;
      }
    }
  }

  lemma FewerPushers(before: map<nat, Pusher>, after: map<nat, Pusher>, p: nat)
    requires p in before && after.Keys == before.Keys - {p}
    ensures |after| < |before|
  {
    assert |after| == |after.Keys| && |before| == |before.Keys|;
  }

  /** Once it is stale, an orphan is handed back to the inventory although the pool holds its account. */
  lemma StaleOrphanIsDoubled(w: World, id: nat) returns (trace: seq<Step>)
    requires Orphan(w, id) && w.pushers == map[]
    ensures Valid(w, trace) && CarefulRun(w, trace) && !NeverTwice(Run(w, trace))
  {
    var due := w.rows[id].updatedAt + STALE_PUSH_SECS + 1;
    var secs := if due > w.now then due - w.now else 0;
    var w1 := Next(w, Tick(secs));
    assert Enabled(w1, Reconcile(id));
    var w2 := Next(w1, Reconcile(id));
    assert Usable(w2, id);
    CarefulCons(w1, Reconcile(id), []);
    CarefulCons(w, Tick(secs), [Reconcile(id)] + []);
    trace := [Tick(secs)] + ([Reconcile(id)] + []);
  }

  lemma {:induction false} CarefulAppend(w: World, a: seq<Step>, b: seq<Step>)
    requires Valid(w, a) && CarefulRun(w, a) && Valid(Run(w, a), b) && CarefulRun(Run(w, a), b)
    ensures Valid(w, a + b) && CarefulRun(w, a + b) && Run(w, a + b) == Run(Run(w, a), b)
    decreases |a|
  {
    if a == [] {
      assert a + b == b;
    } else {
      CarefulAppend(Next(w, a[0]), a[1..], b);
      CarefulCons(w, a[0], a[1..] + b);
      assert a + b == [a[0]] + (a[1..] + b);
    }
  }

  /** From any state with an orphan, careful steps alone lead to an account usable twice. */
  lemma OrphanIsDoubled(w: World, id: nat) returns (trace: seq<Step>)
    requires Orphan(w, id)
    ensures Valid(w, trace) && CarefulRun(w, trace) && !NeverTwice(Run(w, trace))
  {
    var ends := PushesEnd(w, id);
    var last := StaleOrphanIsDoubled(Run(w, ends), id);
    CarefulAppend(w, ends, last);
    trace := ends + last;
  }

  lemma HalfAddIsDoubled(w: World, p: nat, cred: nat, hash: nat) returns (trace: seq<Step>)
    requires Inv(w) && Enabled(w, AddHalf(p, cred, hash))
    ensures var w1 := Next(w, AddHalf(p, cred, hash));
      Valid(w1, trace) && CarefulRun(w1, trace) && !NeverTwice(Run(w1, trace))
  {
    assert PusherSound(w, p);
    var id := w.pushers[p].row;
    var w1 := Next(w, AddHalf(p, cred, hash));
    assert w1.pool[cred].account == w.rows[id].account;
    var w2 := Next(w1, Abort(p));
    assert cred in w2.pool && w2.pool[cred].account == w2.rows[id].account;
    assert Usable(w2, id);
    CarefulCons(w1, Abort(p), []);
    trace := [Abort(p)] + [];
  }

  /** After any careless step, careful steps alone can lead to an account usable twice. */
  lemma CarelessStepCanDouble(w: World, step: Step) returns (trace: seq<Step>)
    requires Inv(w) && Enabled(w, step) && !Careful(w, step)
    ensures Valid(Next(w, step), trace) && CarefulRun(Next(w, step), trace)
    ensures !NeverTwice(Run(Next(w, step), trace))
  {
    var w1 := Next(w, step);
    match step {
      case AddHalf(p, cred, hash) =>
        trace := HalfAddIsDoubled(w, p, cred, hash);
      case FinishLost(p) =>
        var id := w.pushers[p].row;
        LostFinishOrphans(w, p);
        trace := OrphanIsDoubled(w1, id);
      case Crash =>
        var id :| Unrecognisable(w, id);
        assert Orphan(w1, id);
        trace := OrphanIsDoubled(w1, id);
      case RotateInPool(cred, hash) =>
        var id :| Live(w.rows, id) && w.rows[id].status == Pushing
                  && w.rows[id].account == w.pool[cred].account && !Attended(w.pushers, id);
        RotateHolds(w, cred, hash);
        assert w.pool[cred].account == w.rows[id].account;
        RotatedIsUnrecognisable(w, cred, hash, id);
        trace := OrphanIsDoubled(w1, id);
      case _ =>
        trace := [];
    }
  }

  /** Care is exactly what is needed: a step is careful exactly when no careful run after it doubles an account. */
  lemma CarefulIff(w: World, step: Step)
    requires Inv(w) && Enabled(w, step)
    ensures Careful(w, step) <==>
            forall trace :: Valid(Next(w, step), trace) && CarefulRun(Next(w, step), trace) ==>
              NeverTwice(Run(Next(w, step), trace))
  {
    var w1 := Next(w, step);
    if Careful(w, step) {
      CarefulStepKeepsInv(w, step);
      forall trace | Valid(w1, trace) && CarefulRun(w1, trace) ensures NeverTwice(Run(w1, trace)) {
        CarefulRunsAreSafe(w1, trace);
      }
    } else {
      var trace := CarelessStepCanDouble(w, step);
      assert Valid(w1, trace) && CarefulRun(w1, trace) && !NeverTwice(Run(w1, trace));
    }
  }

  lemma LostFinishOrphans(w: World, p: nat)
    requires PushersSound(w) && Enabled(w, FinishLost(p)) && Unrecognisable(w, w.pushers[p].row)
    ensures Orphan(Next(w, FinishLost(p)), w.pushers[p].row)
  {
    var id, w1 := w.pushers[p].row, Next(w, FinishLost(p));
    forall q | q in w1.pushers ensures w1.pushers[q].row != id {
      assert q in w.pushers && q != p;
    }
  }

  lemma RotatedIsUnrecognisable(w: World, cred: nat, hash: nat, id: nat)
    requires HashIdentifies(w) && OneEntryEach(w) && Enabled(w, RotateInPool(cred, hash))
    requires Live(w.rows, id) && w.rows[id].status == Pushing && w.rows[id].account == w.pool[cred].account
    ensures Unrecognisable(Next(w, RotateInPool(cred, hash)), id)
  {
    var w' := Next(w, RotateInPool(cred, hash));
    assert cred in w'.pool && w'.pool[cred].account == w'.rows[id].account;
    forall c | c in w'.pool ensures w.rows[id].hash != Some(w'.pool[c].hash) {
      assert c in w.pool;
    }
  }

  // ----- Nothing is lost -----

  ghost predicate AddedHeld(w: World) {
    forall p :: p in w.pushers && w.pushers[p].Added? ==>
      && w.pushers[p].cred in w.pool && w.pushers[p].row in w.rows
      && w.pool[w.pushers[p].cred].account == w.rows[w.pushers[p].row].account
  }

  /** Only deletions by an operator lose an account: every other step, careful or not, keeps it somewhere. */
  lemma StepKeepsAccounts(w: World, step: Step, account: nat)
    requires AddedHeld(w) && HashIdentifies(w) && RowsSound(w) && Enabled(w, step)
    requires !step.DeleteRow? && !step.RemoveFromPool?
    requires Kept(w, account)
    ensures Kept(Next(w, step), account)
  {
    var w' := Next(w, step);
    if PoolHolds(w.pool, account) {
      var c :| c in w.pool && w.pool[c].account == account;
      assert c in w'.pool && w'.pool[c].account == account;
    } else {
      var id :| Live(w.rows, id) && w.rows[id].hasData && w.rows[id].account == account;
      assert Live(w'.rows, id) && w'.rows[id].hasData && w'.rows[id].account == account;
    }
  }

  lemma StepKeepsAddedHeld(w: World, step: Step)
    requires AddedHeld(w) && Enabled(w, step) && !step.RemoveFromPool?
    ensures AddedHeld(Next(w, step))
  {
  }

  /** Over every careful run without deletions, an account once held is held for good. */
  lemma {:induction false} CarefulRunsLoseNothing(w: World, trace: seq<Step>, account: nat)
    requires Inv(w) && AddedHeld(w) && Kept(w, account)
    requires Valid(w, trace) && CarefulRun(w, trace)
    requires forall i :: 0 <= i < |trace| ==> !trace[i].DeleteRow? && !trace[i].RemoveFromPool?
    ensures Kept(Run(w, trace), account)
    decreases |trace|
  {
    if trace != [] {
      var w' := Next(w, trace[0]);
      CarefulStepKeepsInv(w, trace[0]);
      StepKeepsAccounts(w, trace[0], account);
      StepKeepsAddedHeld(w, trace[0]);
      CarefulRunsLoseNothing(w', trace[1..], account);
    }
  }

  /**
   The pool import refreshes an OAuth token before it stores it.  When that rotates the token, a crash
   before the row is recorded leaves an account that the reconciler will not recognise.
   */
  lemma RotatingAddThenCrash(w: World, p: nat, cred: nat, hash: nat) returns (trace: seq<Step>)
    requires Inv(w) && Enabled(w, AddOk(p, cred, hash)) && w.rows[w.pushers[p].row].hash != Some(hash)
    ensures var w2 := Next(Next(w, AddOk(p, cred, hash)), Crash);
            Valid(w2, trace) && CarefulRun(w2, trace) && !NeverTwice(Run(w2, trace))
  {
    var w1 := Next(w, AddOk(p, cred, hash));
    var id := w.pushers[p].row;
    AddOkKeeps(w, p, cred, hash);
    assert PusherSound(w, p);
    assert cred in w1.pool && w1.pool[cred].account == w1.rows[id].account;
    assert Unrecognisable(w1, id);
    trace := CarelessStepCanDouble(w1, Crash);
  }

  // ----- Reconciling at startup -----

  /** What the reconciler makes of a stale row, given a pool account with its hash or none. */
  function Settled(row: Row, found: Option<nat>, now: int): Row {
    if found.Some?
    then row.(status := Pushed, hasData := false, pushedTo := found, updatedAt := now)
    else row.(status := Stored, updatedAt := now)
  }

  ghost function SettledIn(w: World, ids: seq<nat>, id: nat): Row
    requires id in w.rows
  {
    if id in ids then Settled(w.rows[id], PoolIdOf(w.pool, w.rows[id].hash), w.now) else w.rows[id]
  }

  function Reconciles(ids: seq<nat>): seq<Step> {
    if ids == [] then [] else [Reconcile(ids[0])] + Reconciles(ids[1..])
  }

  /** Reconciling stale rows, in any order, settles each by the pool's hashes and touches nothing else. */
  lemma {:induction false} ReconcileSettles(w: World, ids: seq<nat>)
    requires forall i :: 0 <= i < |ids| ==> StalePushing(w.rows, ids[i], w.now)
    requires forall i, j :: 0 <= i < j < |ids| ==> ids[i] != ids[j]
    ensures Valid(w, Reconciles(ids)) && CarefulRun(w, Reconciles(ids))
    ensures var w' := Run(w, Reconciles(ids));
            && w' == w.(rows := w'.rows) && w'.rows.Keys == w.rows.Keys
            && forall id :: id in w.rows ==> w'.rows[id] == SettledIn(w, ids, id)
    decreases |ids|
  {
    if ids != [] {
      var w1 := Next(w, Reconcile(ids[0]));
      ReconcileSettles(w1, ids[1..]);
      RunCons(w, Reconcile(ids[0]), Reconciles(ids[1..]));
      assert ([Reconcile(ids[0])] + Reconciles(ids[1..]))[1..] == Reconciles(ids[1..]);
    }
  }

  /** The row ends pushed or stored, and pushed exactly when the pool holds its hash. */
  predicate SettledByHash(w: World, w': World, id: nat) {
    && id in w.rows && id in w'.rows && w'.rows[id].status in {Pushed, Stored}
    && (w'.rows[id].status == Pushed <==> PoolHasHash(w.pool, w.rows[id].hash))
  }

  lemma RowIsSettled(w: World, w': World, ids: seq<nat>, id: nat)
    requires id in w.rows && id in w'.rows && w'.rows[id] == SettledIn(w, ids, id) && w'.now == w.now
    requires id in ids <==> StalePushing(w.rows, id, w.now)
    ensures !StalePushing(w'.rows, id, w'.now) && (id in ids ==> SettledByHash(w, w', id))
  {
  }

  /**
   After a startup reconcile of all stale rows no row is stale, each is pushed exactly when the pool
   holds its hash, and no account is usable twice.
   */
  lemma ReconcileRepairs(w: World, ids: seq<nat>)
    requires Inv(w)
    requires forall id :: id in ids <==> StalePushing(w.rows, id, w.now)
    requires forall i, j :: 0 <= i < j < |ids| ==> ids[i] != ids[j]
    ensures Valid(w, Reconciles(ids))
    ensures var w' := Run(w, Reconciles(ids));
            && Inv(w') && NeverTwice(w')
            && (forall id :: !StalePushing(w'.rows, id, w'.now))
            && (forall id :: id in ids ==> SettledByHash(w, w', id))
  {
    ReconcileSettles(w, ids);
    CarefulRunsAreSafe(w, Reconciles(ids));
    var w' := Run(w, Reconciles(ids));
    forall id | id in w.rows
      ensures !StalePushing(w'.rows, id, w'.now) && (id in ids ==> SettledByHash(w, w', id))
    {
      RowIsSettled(w, w', ids, id);
    }
  }

  // ----- The code -----

  /** The first account of the pool snapshot with this hash. */
  function FirstMatch(snapshot: seq<(nat, nat)>, hash: Option<nat>): (r: Option<nat>)
    ensures r.Some? <==> hash.Some? && exists i :: 0 <= i < |snapshot| && snapshot[i].1 == hash.value
    ensures r.Some? ==> exists i :: 0 <= i < |snapshot| && snapshot[i] == (r.value, hash.value)
                                    && forall j :: 0 <= j < i ==> snapshot[j].1 != hash.value
  {
    if snapshot == [] || hash.None? then None
    else if snapshot[0].1 == hash.value then Some(snapshot[0].0)
    else FirstMatch(snapshot[1..], hash)
  }

  function Dedup(ids: seq<nat>, seen: set<nat>): (r: seq<nat>)
    ensures forall x :: x in r <==> x in ids && x !in seen
    ensures forall i, j :: 0 <= i < j < |r| ==> r[i] != r[j]
  {
    if ids == [] then []
    else if ids[0] in seen then Dedup(ids[1..], seen)
    else [ids[0]] + Dedup(ids[1..], seen + {ids[0]})
  }

  /** First occurrences keep their order: one more id goes to the end unless it has been seen. */
  lemma {:induction false} DedupAppend(ids: seq<nat>, id: nat, seen: set<nat>)
    ensures Dedup(ids + [id], seen) == Dedup(ids, seen) + if id in ids || id in seen then [] else [id]
    decreases |ids|
  {
    if ids == [] {
      assert [id][1..] == [];
    } else {
      assert (ids + [id])[1..] == ids[1..] + [id];
      DedupAppend(ids[1..], id, if ids[0] in seen then seen else seen + {ids[0]});
    }
  }

  const MAX_IMPORT := 500

  datatype PushItem = PushItem(id: nat, ok: bool, credential: Option<nat>)

  /** The pool's answer for each row: the new account's id, or a refusal that added nothing. */
  type PoolAnswers = map<nat, nat>

  /** The rows whose claim fails in the store, and those whose outcome cannot be recorded, which is ignored. */
  datatype StoreFaults = StoreFaults(claim: set<nat>, record: set<nat>)

  /** What a push that is not interrupted makes of a row. */
  function PushedRow(row: Row, id: nat, answers: PoolAnswers, faults: StoreFaults, now: int): Row {
    if row.deleted || row.status !in {Stored, Invalid} || id in faults.claim then row
    else if id in faults.record then row.(status := Pushing, updatedAt := now)
    else Settled(row, AnswerFor(answers, id), now)
  }

  function AnswerFor(answers: PoolAnswers, id: nat): Option<nat> {
    if id in answers then Some(answers[id]) else None
  }

  function PushedIn(rows: Rows, ids: seq<nat>, answers: PoolAnswers, faults: StoreFaults, id: nat, now: int): Row
    requires id in rows
  {
    if id in ids then PushedRow(rows[id], id, answers, faults, now) else rows[id]
  }

  /** The rows after the first `ids` have been pushed. */
  ghost predicate PushedSoFar(
    was: Rows, rows: Rows, ids: seq<nat>, answers: PoolAnswers, faults: StoreFaults, now: int)
  {
    rows.Keys == was.Keys && forall id :: id in rows ==> rows[id] == PushedIn(was, ids, answers, faults, id, now)
  }

  lemma PushedNext(was: Rows, rows: Rows, ids: seq<nat>, answers: PoolAnswers, faults: StoreFaults, id: nat, now: int)
    requires PushedSoFar(was, rows, ids, answers, faults, now) && id !in ids
    ensures Claimable(rows, id) == Claimable(was, id)
    ensures PushedSoFar(was, PushOne(rows, id, answers, faults, now), ids + [id], answers, faults, now)
  {
  }

  /** The store's statements for one id, as the loop runs them. */
  function PushOne(rows: Rows, id: nat, answers: PoolAnswers, faults: StoreFaults, now: int): Rows {
    if id in faults.claim || !Claimable(rows, id) then rows
    else
      var begun := BeginPush(rows, id, now);
      if id in faults.record then begun
      else if id in answers then FinishPush(begun, id, answers[id], now)
      else AbortPush(begun, id, now)
  }

  /** How a push that is not interrupted leaves a row. */
  ghost predicate PushEnds(was: Row, row: Row, claimFails: bool, recordFails: bool, answer: Option<nat>, now: int) {
    if was.deleted || was.status in {Pushing, Pushed} || claimFails then row == was
    else
      && row.account == was.account && row.hash == was.hash && !row.deleted && row.updatedAt == now
      && (if recordFails || answer.None? then row.hasData == was.hasData && row.pushedTo == was.pushedTo
          else !row.hasData && row.pushedTo == answer)
      && row.status == if recordFails then Pushing else if answer.Some? then Pushed else Stored
  }

  /** What is reported of an id: pushed exactly when its row was claimed and the pool took the account. */
  ghost predicate ReportsPush(item: PushItem, was: Rows, answers: PoolAnswers, faults: StoreFaults, id: nat) {
    && item.id == id
    && (item.ok <==> && id in was && !was[id].deleted && was[id].status in {Stored, Invalid}
                     && id !in faults.claim && id in answers)
    && item.credential == if item.ok then Some(answers[id]) else None
  }

  lemma PushedRowEnds(rows: Rows, id: nat, answers: PoolAnswers, faults: StoreFaults, now: int)
    requires id in rows
    ensures PushEnds(rows[id], PushedRow(rows[id], id, answers, faults, now), id in faults.claim, id in faults.record,
                     if id in answers then Some(answers[id]) else None, now)
  {
    match rows[id].status {
      case Stored =>
      case Invalid =>
      case Pushing =>
      case Pushed =>
    }
  }

  function StaleIds(rows: Rows, now: int): set<nat> {
    set id | id in rows && StalePushing(rows, id, now)
  }

  function ReconciledRow(rows: Rows, done: set<nat>, snapshot: seq<(nat, nat)>, id: nat, now: int): Row
    requires id in rows
  {
    if id in done then Settled(rows[id], FirstMatch(snapshot, rows[id].hash), now) else rows[id]
  }

  lemma ReportStays(
    was: Rows, rows: Rows, ids: seq<nat>, answers: PoolAnswers, faults: StoreFaults, id: nat, now: int)
    requires PushedSoFar(was, rows, ids, answers, faults, now) && id !in ids
    ensures forall item :: ReportsPush(item, rows, answers, faults, id) ==> ReportsPush(item, was, answers, faults, id)
  {
    assert id in rows ==> rows[id] == was[id];
  }

  lemma RowsEnd(
    was: Rows, rows: Rows, ids: seq<nat>, distinct: seq<nat>, answers: PoolAnswers, faults: StoreFaults, now: int)
    requires PushedSoFar(was, rows, distinct, answers, faults, now) && forall id :: id in distinct <==> id in ids
    ensures PushedSoFar(was, rows, ids, answers, faults, now)
    ensures forall id :: id in rows && id !in ids ==> rows[id] == was[id]
    ensures forall id :: id in rows && id in ids ==>
              PushEnds(was[id], rows[id], id in faults.claim, id in faults.record,
                       if id in answers then Some(answers[id]) else None, now)
  {
    forall id | id in rows && id in ids
      ensures PushEnds(was[id], rows[id], id in faults.claim, id in faults.record,
                       if id in answers then Some(answers[id]) else None, now)
    {
      PushedRowEnds(was, id, answers, faults, now);
    }
  }

  /** The rows with `done` reconciled. */
  ghost predicate ReconciledSo(was: Rows, rows: Rows, done: set<nat>, snapshot: seq<(nat, nat)>, now: int) {
    && rows.Keys == was.Keys
    && forall id :: id in rows ==> rows[id] == ReconciledRow(was, done, snapshot, id, now)
  }

  lemma ReconciledNext(was: Rows, rows: Rows, done: set<nat>, snapshot: seq<(nat, nat)>, now: int, id: nat)
    requires ReconciledSo(was, rows, done, snapshot, now) && id in was && id !in done
    ensures rows[id] == was[id]
    ensures var rows' := rows[id := Settled(rows[id], FirstMatch(snapshot, rows[id].hash), now)];
      ReconciledSo(was, rows', done + {id}, snapshot, now)
  {
  }

  class InventoryStore {
    var rows: Rows

    constructor (rows: Rows)
      ensures this.rows == rows
    {
      this.rows := rows;
    }

    method Begin(id: nat, now: int) returns (row: Option<Row>)
      modifies this
      ensures rows == BeginPush(old(rows), id, now)
      ensures row.Some? <==> id in old(rows) && !old(rows)[id].deleted && old(rows)[id].status in {Stored, Invalid}
      ensures row.Some? ==>
                var was := old(rows)[id];
                && row.value == Row(was.account, Pushing, was.hash, was.hasData, was.pushedTo, now, false)
                && rows == old(rows)[id := row.value]
      ensures row.None? ==> rows == old(rows)
    {
      if id in rows && !rows[id].deleted && rows[id].status in {Stored, Invalid} {
        rows := rows[id := rows[id].(status := Pushing, updatedAt := now)];
        return Some(rows[id]);
      }
      row := None;
    }

    method Finish(id: nat, credential: nat, now: int)
      modifies this
      ensures rows == FinishPush(old(rows), id, credential, now)
      ensures id in old(rows) && !old(rows)[id].deleted ==>
                var was := old(rows)[id];
                rows == old(rows)[id := Row(was.account, Pushed, was.hash, false, Some(credential), now, false)]
      ensures id !in old(rows) || old(rows)[id].deleted ==> rows == old(rows)
    {
      if id in rows && !rows[id].deleted {
        var row := rows[id].(status := Pushed, hasData := false, pushedTo := Some(credential), updatedAt := now);
        rows := rows[id := row];
      }
    }

    method Abort(id: nat, now: int)
      modifies this
      ensures rows == AbortPush(old(rows), id, now)
      ensures id in old(rows) && !old(rows)[id].deleted && old(rows)[id].status == Pushing ==>
                var was := old(rows)[id];
                rows == old(rows)[id := Row(was.account, Stored, was.hash, was.hasData, was.pushedTo, now, false)]
      ensures id !in old(rows) || old(rows)[id].deleted || old(rows)[id].status != Pushing ==> rows == old(rows)
    {
      if id in rows && !rows[id].deleted && rows[id].status == Pushing {
        rows := rows[id := rows[id].(status := Stored, updatedAt := now)];
      }
    }

    /** One id of the batch. */
    method PushId(id: nat, answers: PoolAnswers, faults: StoreFaults, now: int) returns (item: PushItem)
      modifies this
      ensures rows == PushOne(old(rows), id, answers, faults, now)
      ensures ReportsPush(item, old(rows), answers, faults, id)
    {
      if id in faults.claim {
        return PushItem(id, false, None);
      }
      var row := Begin(id, now);
      if row.None? {
        return PushItem(id, false, None);
      }
      if id in answers {
        if id !in faults.record {
          Finish(id, answers[id], now);
        }
        item := PushItem(id, true, Some(answers[id]));
      } else {
        if id !in faults.record {
          Abort(id, now);
        }
        item := PushItem(id, false, None);
      }
    }

    /** `push_inventory` when no crash interrupts it. */
    method PushInventory(ids: seq<nat>, answers: PoolAnswers, faults: StoreFaults, now: int)
      returns (items: Option<seq<PushItem>>)
      modifies this
      ensures items.None? <==> ids == [] || |ids| > MAX_IMPORT
      ensures items.None? ==> rows == old(rows)
      ensures items.Some? ==>
                && PushedSoFar(old(rows), rows, ids, answers, faults, now)
                && |items.value| == |Dedup(ids, {})|
                && (forall i :: 0 <= i < |items.value| ==>
                      ReportsPush(items.value[i], old(rows), answers, faults, Dedup(ids, {})[i]))
                && rows.Keys == old(rows).Keys
                && (forall id :: id in rows && id !in ids ==> rows[id] == old(rows)[id])
                && (forall id :: id in rows && id in ids ==>
                      PushEnds(old(rows)[id], rows[id], id in faults.claim, id in faults.record,
                               if id in answers then Some(answers[id]) else None, now))
    {
      if ids == [] || |ids| > MAX_IMPORT {
        return None;
      }
      var distinct := Dedup(ids, {});
      var done: seq<PushItem> := [];
      for n := 0 to |distinct|
        invariant |done| == n
        invariant PushedSoFar(old(rows), rows, distinct[..n], answers, faults, now)
        invariant forall i :: 0 <= i < n ==> ReportsPush(done[i], old(rows), answers, faults, distinct[i])
      {
        assert distinct[..n + 1] == distinct[..n] + [distinct[n]];
        assert distinct[n] !in distinct[..n];
        PushedNext(old(rows), rows, distinct[..n], answers, faults, distinct[n], now);
        ReportStays(old(rows), rows, distinct[..n], answers, faults, distinct[n], now);
        var item := PushId(distinct[n], answers, faults, now);
        done := done + [item];
      }
      assert distinct[..|distinct|] == distinct;
      RowsEnd(old(rows), rows, ids, distinct, answers, faults, now);
      items := Some(done);
    }

    /**
     `reconcile_inventory_pushes` over the pool snapshot, in any order.  It ends with an error at the first
     row whose update fails, leaving the rows not reached for the next start.
     */
    method ReconcilePushes(snapshot: seq<(nat, nat)>, failing: set<nat>, now: int)
      returns (reconciled: Option<nat>, ghost done: set<nat>)
      modifies this
      ensures ReconciledSo(old(rows), rows, done, snapshot, now)
      ensures forall id :: id in rows && id !in done ==> rows[id] == old(rows)[id]
      ensures forall id :: id in rows && id in done ==>
                var (was, found) := (old(rows)[id], FirstMatch(snapshot, old(rows)[id].hash));
                rows[id] == if found.Some? then Row(was.account, Pushed, was.hash, false, found, now, was.deleted)
                            else Row(was.account, Stored, was.hash, was.hasData, was.pushedTo, now, was.deleted)
      ensures forall id :: id in done ==>
                id in old(rows) && !old(rows)[id].deleted && old(rows)[id].status == Pushing
                && old(rows)[id].updatedAt < now - STALE_PUSH_SECS
      ensures done <= StaleIds(old(rows), now) && done !! failing
      ensures reconciled.Some? <==> StaleIds(old(rows), now) !! failing
      ensures reconciled.Some? ==> done == StaleIds(old(rows), now) && reconciled.value == |done|
    {
      ghost var stale := StaleIds(rows, now);
      var todo := StaleIds(rows, now);
      var count := 0;
      done := {};
      while todo != {}
        invariant todo <= stale && done == stale - todo && count + |todo| == |stale| && done !! failing
        invariant ReconciledSo(old(rows), rows, done, snapshot, now)
        decreases todo
      {
        var id :| id in todo;
        if id in failing {
          return None, done;
        }
        ReconciledNext(old(rows), rows, done, snapshot, now, id);
        Settle(id, FirstMatch(snapshot, rows[id].hash), now);
        todo := todo - {id};
        done := done + {id};
        count := count + 1;
      }
      assert done == stale;
      reconciled := Some(count);
    }

    method Settle(id: nat, found: Option<nat>, now: int)
      requires Live(rows, id) && rows[id].status == Pushing
      modifies this
      ensures rows == old(rows)[id := Settled(old(rows)[id], found, now)]
    {
      if found.Some? {
        Finish(id, found.value, now);
      } else {
        Abort(id, now);
      }
    }
  }
}
