/**
 Importing a batch of accounts into the inventory: duplicates are detected against the pool, within
 the batch, and against the stored rows, by secret hash and by login identity.
 */
module InventoryImport {
  import opened Bytes

  /** The text functions the keys are built with; the digest is written in hexadecimal. */
  datatype Text = Text(
    sha256Hex: string -> string,
    trim: string -> string,
    asciiLower: string -> string,
    lower: string -> string)

  predicate IsHexDigit(c: char) {
    '0' <= c <= '9' || 'a' <= c <= 'f'
  }

  ghost predicate Digests(text: Text) {
    forall s, i :: 0 <= i < |text.sha256Hex(s)| ==> IsHexDigit(text.sha256Hex(s)[i])
  }

  datatype Credential = Credential(
    isApiKey: bool,
    authMethod: Option<string>,
    kiroApiKey: Option<string>,
    refreshToken: Option<string>,
    email: Option<string>,
    profileArn: Option<string>)

  // ----- Keys -----

  function HashOf(text: Text, secret: Option<string>): Option<string> {
    if secret.Some? && secret.value != "" then Some(text.sha256Hex(secret.value)) else None
  }

  function ApiKeyHash(text: Text, c: Credential): Option<string> {
    if c.isApiKey then HashOf(text, c.kiroApiKey) else None
  }

  function RefreshTokenHash(text: Text, c: Credential): Option<string> {
    if c.isApiKey then None else HashOf(text, c.refreshToken)
  }

  function SecretKey(text: Text, c: Credential): Option<string> {
    var refresh := RefreshTokenHash(text, c);
    if refresh.Some? then refresh else ApiKeyHash(text, c)
  }

  function Trimmed(text: Text, s: Option<string>): Option<string> {
    if s.Some? && text.trim(s.value) != "" then Some(text.trim(s.value)) else None
  }

  function IdentityKey(text: Text, c: Credential): Option<string> {
    var kind := text.asciiLower(if c.authMethod.Some? then c.authMethod.value else "oauth");
    var email := Trimmed(text, c.email);
    var arn := Trimmed(text, c.profileArn);
    if email.Some? then Some(kind + "|email|" + text.lower(email.value))
    else if arn.Some? then Some(kind + "|arn|" + arn.value)
    else None
  }

  function KeysOf(text: Text, c: Credential): set<string> {
    ToSet(SecretKey(text, c)) + ToSet(IdentityKey(text, c))
  }

  function ToSet(k: Option<string>): set<string> {
    if k.Some? then {k.value} else {}
  }

  lemma DigestHasNoBar(text: Text, s: string)
    requires Digests(text)
    ensures '|' !in text.sha256Hex(s)
  {
    forall i | 0 <= i < |text.sha256Hex(s)| ensures text.sha256Hex(s)[i] != '|' {
      assert IsHexDigit(text.sha256Hex(s)[i]);
    }
  }

  /** A secret hash never equals an identity key, so one set can hold both kinds. */
  lemma KeysCannotCollide(text: Text, a: Credential, b: Credential)
    requires Digests(text) && SecretKey(text, a).Some? && IdentityKey(text, b).Some?
    ensures SecretKey(text, a).value != IdentityKey(text, b).value
  {
    var secret := if a.isApiKey then a.kiroApiKey else a.refreshToken;
    DigestHasNoBar(text, secret.value);
    var kind := text.asciiLower(if b.authMethod.Some? then b.authMethod.value else "oauth");
    assert IdentityKey(text, b).value[|kind|] == '|';
  }

  function KindOf(text: Text, c: Credential): string {
    text.asciiLower(if c.authMethod.Some? then c.authMethod.value else "oauth")
  }

  predicate HasEmail(text: Text, c: Credential) {
    c.email.Some? && text.trim(c.email.value) != ""
  }

  predicate HasArn(text: Text, c: Credential) {
    c.profileArn.Some? && text.trim(c.profileArn.value) != ""
  }

  /** One login: the same kind and e-mail, whatever its case and outer white space; failing e-mails, the same ARN. */
  predicate SameLogin(text: Text, a: Credential, b: Credential) {
    && KindOf(text, a) == KindOf(text, b)
    && (if HasEmail(text, a) || HasEmail(text, b) then
          && HasEmail(text, a) && HasEmail(text, b)
          && text.lower(text.trim(a.email.value)) == text.lower(text.trim(b.email.value))
        else
          && HasArn(text, a) && HasArn(text, b)
          && text.trim(a.profileArn.value) == text.trim(b.profileArn.value))
  }

  lemma BarsSplit(a: string, x: string, b: string, y: string)
    requires '|' !in a && '|' !in b && a + ("|" + x) == b + ("|" + y)
    ensures a == b && x == y
  {
    var s := a + ("|" + x);
    assert s[|a|] == '|' && s[|b|] == '|';
    forall i | 0 <= i < |a| ensures s[i] != '|' {
      assert s[i] == a[i];
    }
    forall i | 0 <= i < |b| ensures s[i] != '|' {
      assert s[i] == b[i];
    }
    assert |a| == |b|;
    assert a == s[..|a|] && b == s[..|b|];
    assert ("|" + x)[1..] == x && ("|" + y)[1..] == y && s[|a|..] == "|" + x;
  }

  /** An account has an identity key exactly when it has an e-mail or an ARN, and logins have their own. */
  lemma SameIdentityIff(text: Text, a: Credential, b: Credential)
    requires '|' !in KindOf(text, a) && '|' !in KindOf(text, b)
    ensures IdentityKey(text, a).Some? <==> HasEmail(text, a) || HasArn(text, a)
    ensures IdentityKey(text, a).Some? && IdentityKey(text, b).Some? ==>
              (IdentityKey(text, a) == IdentityKey(text, b) <==> SameLogin(text, a, b))
  {
    if IdentityKey(text, a).Some? && IdentityKey(text, b).Some? {
      var x, y := Behind(text, a), Behind(text, b);
      assert IdentityKey(text, a).value == KindOf(text, a) + ("|" + x);
      assert IdentityKey(text, b).value == KindOf(text, b) + ("|" + y);
      if IdentityKey(text, a) == IdentityKey(text, b) {
        BarsSplit(KindOf(text, a), x, KindOf(text, b), y);
        BehindIff(text, a, b);
      }
    }
  }

  /** What stands behind the kind and its bar. */
  function Behind(text: Text, c: Credential): string
    requires IdentityKey(text, c).Some?
  {
    if HasEmail(text, c) then "email|" + text.lower(text.trim(c.email.value))
    else "arn|" + text.trim(c.profileArn.value)
  }

  lemma BehindIff(text: Text, a: Credential, b: Credential)
    requires IdentityKey(text, a).Some? && IdentityKey(text, b).Some? && Behind(text, a) == Behind(text, b)
    ensures HasEmail(text, a) == HasEmail(text, b)
    ensures HasEmail(text, a) ==> text.lower(text.trim(a.email.value)) == text.lower(text.trim(b.email.value))
    ensures !HasEmail(text, a) ==> text.trim(a.profileArn.value) == text.trim(b.profileArn.value)
  {
    var x, y := Behind(text, a), Behind(text, b);
    assert x[0] == if HasEmail(text, a) then 'e' else 'a';
    assert y[0] == if HasEmail(text, b) then 'e' else 'a';
    if HasEmail(text, a) {
      assert x[6..] == text.lower(text.trim(a.email.value)) && y[6..] == text.lower(text.trim(b.email.value));
    } else {
      assert x[4..] == text.trim(a.profileArn.value) && y[4..] == text.trim(b.profileArn.value);
    }
  }

  /** A kind with a bar in it can make two logins look the same. */
  lemma KindWithBarCollides(text: Text)
    requires forall s :: text.trim(s) == s && text.asciiLower(s) == s
    ensures var a := Credential(false, Some("k"), None, None, None, Some("z|arn|w"));
      var b := Credential(false, Some("k|arn|z"), None, None, None, Some("w"));
      IdentityKey(text, a) == IdentityKey(text, b) && IdentityKey(text, a).Some? && !SameLogin(text, a, b)
  {
    assert "k" + "|arn|" + "z|arn|w" == "k|arn|z" + "|arn|" + "w";
  }

  /** The secret of an account is its API key or its refresh token, by its kind, unless that is empty. */
  lemma SecretKeyIs(text: Text, c: Credential)
    ensures var secret := if c.isApiKey then c.kiroApiKey else c.refreshToken;
      SecretKey(text, c)
      == if secret.Some? && secret.value != "" then Some(text.sha256Hex(secret.value)) else None
  {
  }

  // ----- The pool, the batch and the stored rows -----

  datatype PoolLookup = PoolLookup(hashes: set<string>, identities: set<string>)

  predicate InPool(text: Text, pool: PoolLookup, c: Credential) {
    ToSet(SecretKey(text, c)) * pool.hashes != {} || ToSet(IdentityKey(text, c)) * pool.identities != {}
  }

  /** The pool has an account exactly when it has its secret's hash among the hashes or its identity among those. */
  lemma InPoolIff(text: Text, pool: PoolLookup, c: Credential)
    ensures InPool(text, pool, c) <==>
              || (SecretKey(text, c).Some? && SecretKey(text, c).value in pool.hashes)
              || (IdentityKey(text, c).Some? && IdentityKey(text, c).value in pool.identities)
  {
    if SecretKey(text, c).Some? && SecretKey(text, c).value in pool.hashes {
      assert SecretKey(text, c).value in ToSet(SecretKey(text, c)) * pool.hashes;
    }
    if IdentityKey(text, c).Some? && IdentityKey(text, c).value in pool.identities {
      assert IdentityKey(text, c).value in ToSet(IdentityKey(text, c)) * pool.identities;
    }
  }

  datatype Duplicate = NotDuplicate | DuplicateInPool | DuplicateInBatch

  /** `duplicate_reason`: a key already seen ends the check, and the keys before it stay recorded. */
  method DuplicateReason(text: Text, pool: PoolLookup, c: Credential, seen: set<string>)
    returns (reason: Duplicate, seen': set<string>)
    requires Digests(text)
    ensures reason == DuplicateInPool <==> InPool(text, pool, c)
    ensures reason == DuplicateInPool ==> seen' == seen
    ensures reason == DuplicateInBatch <==> !InPool(text, pool, c) && KeysOf(text, c) * seen != {}
    ensures reason == DuplicateInBatch ==> seen' == seen + ToSet(SecretKey(text, c))
    ensures reason == NotDuplicate ==> seen' == seen + KeysOf(text, c)
  {
    var secret, identity := SecretKey(text, c), IdentityKey(text, c);
    seen' := seen;
    if (secret.Some? && secret.value in pool.hashes) || (identity.Some? && identity.value in pool.identities) {
      assert InPool(text, pool, c) by {
        assert secret.Some? && secret.value in pool.hashes ==> secret.value in ToSet(secret) * pool.hashes;
        assert identity.Some? && identity.value in pool.identities ==>
            identity.value in ToSet(identity) * pool.identities;
      }
      return DuplicateInPool, seen';
    }
    if secret.Some? {
      if secret.value in seen' {
        assert secret.value in KeysOf(text, c) * seen;
        return DuplicateInBatch, seen';
      }
      seen' := seen' + {secret.value};
    }
    if identity.Some? {
      if secret.Some? {
        KeysCannotCollide(text, c, c);
      }
      if identity.value in seen' {
        assert identity.value in KeysOf(text, c) * seen;
        return DuplicateInBatch, seen';
      }
      seen' := seen' + {identity.value};
    }
    reason := NotDuplicate;
  }

  /** A stored row's keys. */
  datatype Stored = Stored(refreshTokenHash: Option<string>, apiKeyHash: Option<string>, identity: Option<string>)

  function RowFor(text: Text, c: Credential): Stored {
    Stored(RefreshTokenHash(text, c), ApiKeyHash(text, c), IdentityKey(text, c))
  }

  /** The rows `find_duplicates` selects: one matching column is enough. */
  predicate Matches(row: Stored, wanted: Stored) {
    || (wanted.refreshTokenHash.Some? && row.refreshTokenHash == wanted.refreshTokenHash)
    || (wanted.apiKeyHash.Some? && row.apiKeyHash == wanted.apiKeyHash)
    || (wanted.identity.Some? && row.identity == wanted.identity)
  }

  predicate AnyMatches(rows: seq<Stored>, wanted: Stored) {
    exists i :: 0 <= i < |rows| && Matches(rows[i], wanted)
  }

  // ----- Requests and items -----

  const MAX_IMPORT := 500

  /** A requested account: unusable, or parsed, with what the store answers when asked about it. */
  datatype Request = Unusable | Usable(credential: Credential, queryFails: bool, encodingFails: bool, insertFails: bool)

  datatype Item = Imported | SkippedInPool | SkippedInBatch | SkippedStored | SkippedInsert | Failed

  predicate Skipped(item: Item) {
    item in {SkippedInPool, SkippedInBatch, SkippedStored, SkippedInsert}
  }

  datatype Response = Response(total: nat, imported: nat, skipped: nat, failed: nat, items: seq<Item>)

  function CountImported(items: seq<Item>): nat {
    if items == [] then 0 else CountImported(items[..|items| - 1]) + if items[|items| - 1].Imported? then 1 else 0
  }

  function CountSkipped(items: seq<Item>): nat {
    if items == [] then 0 else CountSkipped(items[..|items| - 1]) + if Skipped(items[|items| - 1]) then 1 else 0
  }

  function CountFailed(items: seq<Item>): nat {
    if items == [] then 0 else CountFailed(items[..|items| - 1]) + if items[|items| - 1].Failed? then 1 else 0
  }

  /** Every item is imported, skipped or failed, and only one of them. */
  lemma {:induction false} CountsCoverItems(items: seq<Item>)
    ensures CountImported(items) + CountSkipped(items) + CountFailed(items) == |items|
  {
    if items != [] {
      CountsCoverItems(items[..|items| - 1]);
    }
  }

  // ----- What each item should be -----

  /** The keys on record of an account: all of them, unless a duplicate ended the check. */
  function RecordedBy(text: Text, request: Request, item: Item): set<string> {
    match request
    case Unusable => {}
    case Usable(c, _, _, _) =>
      match item
      case SkippedInPool => {}
      case SkippedInBatch => ToSet(SecretKey(text, c))
      case _ => KeysOf(text, c)
  }

  /** The keys on record once `items` have been examined. */
  function Recorded(text: Text, batch: seq<Request>, items: seq<Item>): set<string>
    requires |items| <= |batch|
  {
    if items == [] then {}
    else
      var n := |items| - 1;
      Recorded(text, batch, items[..n]) + RecordedBy(text, batch[n], items[n])
  }

  /** The rows in the store by then. */
  function RowsAfter(text: Text, stored: seq<Stored>, batch: seq<Request>, items: seq<Item>): seq<Stored>
    requires |items| <= |batch|
  {
    if items == [] then stored
    else
      var n := |items| - 1;
      RowsAfter(text, stored, batch, items[..n])
      + if items[n].Imported? && batch[n].Usable? then [RowFor(text, batch[n].credential)] else []
  }

  /** No duplicate so far as the pool and the batch go. */
  ghost predicate New(text: Text, pool: PoolLookup, seen: set<string>, c: Credential) {
    !InPool(text, pool, c) && KeysOf(text, c) * seen == {}
  }

  /** The store finds no duplicate either. */
  ghost predicate Unknown(text: Text, pool: PoolLookup, seen: set<string>, rows: seq<Stored>, r: Request)
    requires r.Usable?
  {
    New(text, pool, seen, r.credential) && !r.queryFails && !AnyMatches(rows, RowFor(text, r.credential))
  }

  /** The item of one request, for each of the six exactly when, given the keys on record and the rows stored. */
  ghost predicate ItemRight(
    text: Text, pool: PoolLookup, seen: set<string>, rows: seq<Stored>, r: Request, item: Item)
  {
    match r
    case Unusable => item == Failed
    case Usable(c, queryFails, encodingFails, insertFails) =>
      && (item == SkippedInPool <==> InPool(text, pool, c))
      && (item == SkippedInBatch <==> !InPool(text, pool, c) && KeysOf(text, c) * seen != {})
      && (item == Failed <==> New(text, pool, seen, c) && queryFails)
      && (item == SkippedStored <==> New(text, pool, seen, c) && !queryFails && AnyMatches(rows, RowFor(text, c)))
      && (item == SkippedInsert <==> Unknown(text, pool, seen, rows, r) && insertFails)
      && (item == Imported <==> Unknown(text, pool, seen, rows, r) && !insertFails)
      && (Unknown(text, pool, seen, rows, r) ==> !encodingFails)
  }

  ghost predicate ItemRightAt(
    text: Text, pool: PoolLookup, stored: seq<Stored>, batch: seq<Request>, items: seq<Item>, j: nat)
    requires j < |items| <= |batch|
  {
    var seen, rows := Recorded(text, batch, items[..j]), RowsAfter(text, stored, batch, items[..j]);
    ItemRight(text, pool, seen, rows, batch[j], items[j])
  }

  ghost predicate ItemsRight(
    text: Text, pool: PoolLookup, stored: seq<Stored>, batch: seq<Request>, items: seq<Item>)
  {
    |items| <= |batch| && forall j :: 0 <= j < |items| ==> ItemRightAt(text, pool, stored, batch, items, j)
  }

  lemma AppendRight(
    text: Text, pool: PoolLookup, stored: seq<Stored>, batch: seq<Request>, items: seq<Item>, item: Item)
    requires |items| < |batch| && ItemsRight(text, pool, stored, batch, items)
    requires ItemRight(text, pool, Recorded(text, batch, items), RowsAfter(text, stored, batch, items),
                       batch[|items|], item)
    ensures ItemsRight(text, pool, stored, batch, items + [item])
  {
    var items', n := items + [item], |items|;
    forall j | 0 <= j < |items'| ensures ItemRightAt(text, pool, stored, batch, items', j) {
      if j < n {
        assert ItemRightAt(text, pool, stored, batch, items, j);
        assert items'[..j] == items[..j];
      } else {
        assert items'[..n] == items;
      }
    }
  }

  // ----- What follows for the whole import -----

  /** A key is on record exactly when an examined account has put it there. */
  lemma {:induction false} RecordedIff(text: Text, batch: seq<Request>, items: seq<Item>, k: string)
    requires |items| <= |batch|
    ensures k in Recorded(text, batch, items)
       <==> exists i :: 0 <= i < |items| && k in RecordedBy(text, batch[i], items[i])
  {
    if items != [] {
      var n := |items| - 1;
      RecordedIff(text, batch, items[..n], k);
      if i :| 0 <= i < n && k in RecordedBy(text, batch[i], items[..n][i]) {
        assert k in RecordedBy(text, batch[i], items[i]);
      }
      if i :| 0 <= i < n && k in RecordedBy(text, batch[i], items[i]) {
        assert k in RecordedBy(text, batch[i], items[..n][i]);
      }
    }
  }

  ghost predicate ImportedAt(batch: seq<Request>, items: seq<Item>, i: int) {
    0 <= i < |items| <= |batch| && items[i] == Imported && batch[i].Usable?
  }

  ghost predicate SharesKey(text: Text, a: Credential, b: Credential) {
    KeysOf(text, a) * KeysOf(text, b) != {}
  }

  /** Imported accounts share no key with each other, the pool or the rows stored before them. */
  ghost predicate ImportsDistinct(
    text: Text, pool: PoolLookup, stored: seq<Stored>, batch: seq<Request>, items: seq<Item>)
  {
    && (forall i, j :: ImportedAt(batch, items, i) && ImportedAt(batch, items, j) && i < j ==>
          !SharesKey(text, batch[i].credential, batch[j].credential))
    && (forall i :: ImportedAt(batch, items, i) ==>
          !InPool(text, pool, batch[i].credential) && !AnyMatches(stored, RowFor(text, batch[i].credential)))
  }

  lemma EarlierImportDiffers(
    text: Text, pool: PoolLookup, stored: seq<Stored>, batch: seq<Request>, items: seq<Item>, i: nat, j: nat)
    requires ItemsRight(text, pool, stored, batch, items) && i < j
    requires ImportedAt(batch, items, i) && ImportedAt(batch, items, j)
    ensures !SharesKey(text, batch[i].credential, batch[j].credential)
  {
    assert ItemRightAt(text, pool, stored, batch, items, j);
    var a, b, seen := KeysOf(text, batch[i].credential), KeysOf(text, batch[j].credential),
      Recorded(text, batch, items[..j]);
    forall k | k in a ensures k in seen {
      assert k in RecordedBy(text, batch[i], items[..j][i]);
      RecordedIff(text, batch, items[..j], k);
    }
    assert a * b <= b * seen;
  }

  lemma {:induction false} RowsGrow(text: Text, stored: seq<Stored>, batch: seq<Request>, items: seq<Item>)
    requires |items| <= |batch|
    ensures stored <= RowsAfter(text, stored, batch, items)
    ensures (forall j :: 0 <= j < |items| && items[j].Imported? ==> batch[j].Usable?) ==>
              |RowsAfter(text, stored, batch, items)| == |stored| + CountImported(items)
  {
    if items != [] {
      RowsGrow(text, stored, batch, items[..|items| - 1]);
    }
  }

  lemma ImportIsNew(
    text: Text, pool: PoolLookup, stored: seq<Stored>, batch: seq<Request>, items: seq<Item>, i: nat)
    requires ItemsRight(text, pool, stored, batch, items) && ImportedAt(batch, items, i)
    ensures !InPool(text, pool, batch[i].credential) && !AnyMatches(stored, RowFor(text, batch[i].credential))
  {
    assert ItemRightAt(text, pool, stored, batch, items, i);
    var rows := RowsAfter(text, stored, batch, items[..i]);
    RowsGrow(text, stored, batch, items[..i]);
    forall k | 0 <= k < |stored| ensures !Matches(stored[k], RowFor(text, batch[i].credential)) {
      assert rows[k] == stored[k];
    }
  }

  /** One row more for each imported account, all of them distinct and new. */
  lemma ImportIsSound(
    text: Text, pool: PoolLookup, stored: seq<Stored>, batch: seq<Request>, items: seq<Item>)
    requires ItemsRight(text, pool, stored, batch, items)
    ensures ImportsDistinct(text, pool, stored, batch, items)
    ensures stored <= RowsAfter(text, stored, batch, items)
    ensures |RowsAfter(text, stored, batch, items)| == |stored| + CountImported(items)
  {
    RowsGrow(text, stored, batch, items);
    forall j | 0 <= j < |items| && items[j].Imported? ensures batch[j].Usable? {
      assert ItemRightAt(text, pool, stored, batch, items, j);
    }
    forall i, j | ImportedAt(batch, items, i) && ImportedAt(batch, items, j) && i < j
      ensures !SharesKey(text, batch[i].credential, batch[j].credential)
    {
      EarlierImportDiffers(text, pool, stored, batch, items, i, j);
    }
    forall i | ImportedAt(batch, items, i)
      ensures !InPool(text, pool, batch[i].credential) && !AnyMatches(stored, RowFor(text, batch[i].credential))
    {
      ImportIsNew(text, pool, stored, batch, items, i);
    }
  }

  /** A skip in the batch is due to an account before it that shares a key and was not skipped for the pool. */
  lemma BatchSkipHasReason(
    text: Text, pool: PoolLookup, stored: seq<Stored>, batch: seq<Request>, items: seq<Item>, j: nat)
    returns (i: nat)
    requires ItemsRight(text, pool, stored, batch, items) && j < |items|
    requires batch[j].Usable? && items[j] == SkippedInBatch
    ensures i < j && batch[i].Usable? && items[i] != SkippedInPool
    ensures SharesKey(text, batch[i].credential, batch[j].credential)
  {
    assert ItemRightAt(text, pool, stored, batch, items, j);
    var k :| k in KeysOf(text, batch[j].credential) * Recorded(text, batch, items[..j]);
    RecordedIff(text, batch, items[..j], k);
    i :| 0 <= i < j && k in RecordedBy(text, batch[i], items[..j][i]);
    assert k in KeysOf(text, batch[i].credential) * KeysOf(text, batch[j].credential);
  }

  /** The row has the account's token hash, key hash or identity in the column for it. */
  ghost predicate HasColumnOf(text: Text, row: Stored, c: Credential) {
    || (!c.isApiKey && SecretKey(text, c).Some? && row.refreshTokenHash == SecretKey(text, c))
    || (c.isApiKey && SecretKey(text, c).Some? && row.apiKeyHash == SecretKey(text, c))
    || (IdentityKey(text, c).Some? && row.identity == IdentityKey(text, c))
  }

  /** A stored row answers for an account exactly when one of its columns is the account's. */
  lemma AnyMatchesIff(text: Text, rows: seq<Stored>, c: Credential)
    ensures AnyMatches(rows, RowFor(text, c)) <==> exists row :: row in rows && HasColumnOf(text, row, c)
  {
    forall i | 0 <= i < |rows| ensures Matches(rows[i], RowFor(text, c)) <==> HasColumnOf(text, rows[i], c) {
    }
    if AnyMatches(rows, RowFor(text, c)) {
      var i :| 0 <= i < |rows| && Matches(rows[i], RowFor(text, c));
      assert rows[i] in rows;
    }
  }

  // ----- The import -----

  /** Refused before anything is examined, given up at an account that cannot be encoded, or answered. */
  datatype ImportResult = Refused | GaveUp | Answered(response: Response)

  /** `import_inventory`, from the parsed requests on; `items` are those examined. */
  method ImportInventory(text: Text, pool: PoolLookup, stored: seq<Stored>, batch: seq<Request>)
    returns (result: ImportResult, items: seq<Item>, rows: seq<Stored>)
    requires Digests(text)
    ensures result.Refused? <==> batch == [] || |batch| > MAX_IMPORT
    ensures result.Refused? ==> items == []
    ensures ItemsRight(text, pool, stored, batch, items) && rows == RowsAfter(text, stored, batch, items)
    ensures ImportsDistinct(text, pool, stored, batch, items)
    ensures stored <= rows && |rows| == |stored| + CountImported(items)
    ensures result.GaveUp? ==>
              && |items| < |batch| && batch[|items|].Usable? && batch[|items|].encodingFails
              && Unknown(text, pool, Recorded(text, batch, items), rows, batch[|items|])
    ensures result.Answered? ==>
              var r := result.response;
              && r.items == items && r.total == |items| == |batch|
              && r.imported + r.skipped + r.failed == r.total
              && r.imported == CountImported(items) && r.skipped == CountSkipped(items)
  {
    items, rows := [], stored;
    if batch == [] || |batch| > MAX_IMPORT {
      return Refused, items, rows;
    }
    var seen: set<string> := {};
    for n := 0 to |batch|
      invariant |items| == n && ItemsRight(text, pool, stored, batch, items)
      invariant seen == Recorded(text, batch, items) && rows == RowsAfter(text, stored, batch, items)
    {
      var item;
      var rows', seen' := rows, seen;
      if batch[n].Unusable? {
        item := Failed;
      } else {
        var c := batch[n].credential;
        var reason;
        reason, seen' := DuplicateReason(text, pool, c, seen);
        if reason == DuplicateInPool {
          item := SkippedInPool;
        } else if reason == DuplicateInBatch {
          item := SkippedInBatch;
        } else if batch[n].queryFails {
          item := Failed;
        } else if AnyMatches(rows, RowFor(text, c)) {
          item := SkippedStored;
        } else if batch[n].encodingFails {
          ImportIsSound(text, pool, stored, batch, items);
          return GaveUp, items, rows;
        } else if batch[n].insertFails {
          item := SkippedInsert;
        } else {
          rows' := rows + [RowFor(text, c)];
          item := Imported;
        }
      }
      AppendRight(text, pool, stored, batch, items, item);
      assert (items + [item])[..n] == items;
      items, rows, seen := items + [item], rows', seen';
    }
    CountsCoverItems(items);
    ImportIsSound(text, pool, stored, batch, items);
    var imported, skipped := CountImported(items), CountSkipped(items);
    result := Answered(Response(|batch|, imported, skipped, |batch| - imported - skipped, items));
  }
}
