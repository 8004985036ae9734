/** The records and collaborators the two services drive: the account, client and scope
    stores (abstract tables), the calls made on them and on the caches, the account gate
    both services run first, and the pagination arithmetic both list operations share. */
module Collaborators {
  import opened Errors
  import opened CacheKeys

  // ---------------------------------------------------------------------------
  // Records
  // ---------------------------------------------------------------------------

  datatype SysAccount = SysAccount(id: int, isDisable: bool)

  /** `model.OauthClient` without its timestamps and its JSON copy column. */
  datatype OauthClient = OauthClient(
    id: string, sysAccountId: int, name: string, secret: string,
    domain: string, scope: string, iconPath: string)

  /** `apires.ListOauthClientItem` without its timestamps. */
  datatype ClientSummary = ClientSummary(id: string, secret: string, domain: string, name: string)

  /** `model.OauthScope`: one catalog entry and the endpoint it guards. */
  datatype OauthScope = OauthScope(
    id: int, scope: string, path: string, httpMethod: string,
    name: string, description: string, isDisable: bool)

  /** One page of a listing with the clamped paging values and the store count. */
  datatype ListPage<T> = ListPage(list: seq<T>, total: int, currentPage: int, perPage: int)

  // ---------------------------------------------------------------------------
  // Collaborator calls
  // ---------------------------------------------------------------------------

  /** Every call a service makes on a store or a cache, in the order it makes them. A
      service is given the set of calls that fail; a failing store call returns an error
      and changes nothing. */
  datatype Call =
    | FindAccount(accountId: int)
    | CountClients
    | FindClients(limit: int, offset: int)
    | FindClient(clientId: string)
    | InsertClient(client: OauthClient)
    | UpdateClient(client: OauthClient)
    | FindEnabledScopes
    | CountScopes
    | FindScopes(limit: int, offset: int)
    | FindScopeById(scopeId: int)
    | FindScopeByScope(scope: string)
    | InsertScope(record: OauthScope)
    | UpdateScope(record: OauthScope)
    | Cache(cacheCall: CacheCall)

  // ---------------------------------------------------------------------------
  // Account gate
  // ---------------------------------------------------------------------------

  const FindAccountError: AppError := Unknown("find account error.")
  const AccountNotFoundError: AppError := NotFound("account not found.")
  /** Both services report a failed scope lookup this way. */
  const FindScopeError: AppError := Unknown("find scope error.")

  /** The check every service operation runs first: a failed lookup is a 500, a missing or
      disabled account a 400 ResourceNotFoundError, and only an active account passes. */
  function AccountGate(accounts: map<int, SysAccount>, accountId: int, fails: set<Call>): (r: Option<AppError>)
    ensures r.None? <==> FindAccount(accountId) !in fails && accountId in accounts && !accounts[accountId].isDisable
    ensures FindAccount(accountId) in fails ==> r == Some(FindAccountError) && r.value.status == 500
    ensures FindAccount(accountId) !in fails && r.Some? ==>
      r == Some(AccountNotFoundError) && r.value.code == ResourceNotFoundError
  {
    if FindAccount(accountId) in fails then Some(FindAccountError)
    else if accountId !in accounts || accounts[accountId].isDisable then Some(AccountNotFoundError)
    else None
  }

  // ---------------------------------------------------------------------------
  // Pagination (Go `int` is 64 bits wide)
  // ---------------------------------------------------------------------------

  const MinInt64: int := -0x8000_0000_0000_0000
  const MaxInt64: int := 0x7fff_ffff_ffff_ffff

  predicate IsInt64(x: int)
  {
    MinInt64 <= x <= MaxInt64
  }

  /** Two's-complement wrap-around of a Go `int` result. */
  function Wrap64(x: int): (r: int)
    ensures IsInt64(r)
    ensures IsInt64(x) ==> r == x
    ensures (r - x) % 0x1_0000_0000_0000_0000 == 0
  {
    (x - MinInt64) % 0x1_0000_0000_0000_0000 + MinInt64
  }

  /** `if page <= 1 { page = 1 }`: at least 1, and a value already at least 1 is kept. */
  function ClampPage(x: int): (r: int)
    ensures r >= 1
    ensures x >= 1 ==> r == x
    ensures x < 1 ==> r == 1
  {
    if x <= 1 then 1 else x
  }

  /** `offset := (page - 1) * perPage` on clamped values, in 64-bit arithmetic: a 64-bit
      value, and the exact non-negative product whenever that product fits. */
  function PageOffset(page: int, perPage: int): (offset: int)
    ensures IsInt64(offset)
    ensures var exact := (ClampPage(page) - 1) * ClampPage(perPage);
      exact >= 0 && (exact <= MaxInt64 ==> offset == exact)
  {
    var p, pp := ClampPage(page), ClampPage(perPage);
    assert (p - 1) * pp >= 0 by {
      assert p - 1 >= 0 && pp >= 0;
    }
    Wrap64((p - 1) * pp)
  }

  /** The product can leave the 64-bit range for pages and sizes that are themselves
      64-bit values; the wrapped offset is then negative. */
  lemma PageOffsetWraps()
    ensures IsInt64(0x4000_0000_0000_0000) && PageOffset(0x4000_0000_0000_0000, 4) == -4
  {
    assert (ClampPage(0x4000_0000_0000_0000) - 1) * ClampPage(4) == 0xffff_ffff_ffff_fffc;
  }

  /** The first row a `Limit(limit, offset)` query reads. The store writes an `OFFSET` clause
      only for a positive start, so a zero or negative offset reads from the first row. */
  function StoreStart(offset: int): (start: nat)
    ensures offset > 0 ==> start == offset
    ensures offset <= 0 ==> start == 0
  {
    if offset > 0 then offset else 0
  }

  /** A wrapped offset therefore reads the first page rather than failing. */
  lemma WrappedOffsetReadsFirstPage<T>(rows: seq<T>)
    ensures Page(rows, 4, StoreStart(PageOffset(0x4000_0000_0000_0000, 4))) == Page(rows, 4, 0)
  {
    PageOffsetWraps();
  }

  /** `LIMIT limit OFFSET offset` over the rows in store order. */
  function Page<T>(rows: seq<T>, limit: int, offset: int): (r: seq<T>)
    requires limit >= 0 && offset >= 0
    ensures |r| == if offset >= |rows| then 0 else if |rows| - offset < limit then |rows| - offset else limit
    ensures forall k :: 0 <= k < |r| ==> r[k] == rows[offset + k]
  {
    if offset >= |rows| then []
    else if offset + limit > |rows| then rows[offset..]
    else rows[offset..offset + limit]
  }

  // ---------------------------------------------------------------------------
  // Tables: a store table is a sequence of rows in insertion order, and a lookup or an
  // update goes through one column, given as a key function.
  // ---------------------------------------------------------------------------

  /** The column is a key: no two rows share a value in it. */
  ghost predicate UniqueKeys<R, K>(rows: seq<R>, key: R -> K)
  {
    forall i, j :: 0 <= i < j < |rows| ==> key(rows[i]) != key(rows[j])
  }

  /** `FindOne`/`Get` on one column: the first row holding `k` there. */
  function FindRow<R, K(==)>(rows: seq<R>, key: R -> K, k: K): (r: Option<R>)
    ensures r.None? <==> forall j :: 0 <= j < |rows| ==> key(rows[j]) != k
    ensures r.Some? ==> key(r.value) == k && exists j :: 0 <= j < |rows| && rows[j] == r.value
  {
    if |rows| == 0 then None
    else if key(rows[0]) == k then Some(rows[0])
    else
      var r := FindRow(rows[1..], key, k);
      assert r.Some? ==> exists j :: 0 <= j < |rows| && rows[j] == r.value by {
        if r.Some? {
          var j :| 0 <= j < |rows[1..]| && rows[1..][j] == r.value;
          assert rows[j + 1] == r.value;
        }
      }
      r
  }

  /** `Update` on one column: every row whose key equals the record's is overwritten. */
  function ReplaceRow<R, K(==)>(rows: seq<R>, key: R -> K, rec: R): (r: seq<R>)
    ensures |r| == |rows|
    ensures forall j :: 0 <= j < |rows| ==> r[j] == if key(rows[j]) == key(rec) then rec else rows[j]
  {
    seq(|rows|, j requires 0 <= j < |rows| => if key(rows[j]) == key(rec) then rec else rows[j])
  }

  /** On a key column, the lookup returns the one row that holds the key. */
  lemma {:induction false} FirstRow<R, K>(rows: seq<R>, key: R -> K, j: nat)
    requires UniqueKeys(rows, key) && j < |rows|
    ensures FindRow(rows, key, key(rows[j])) == Some(rows[j])
  {
    if j > 0 {
      assert rows[1..][j - 1] == rows[j];
      FirstRow(rows[1..], key, j - 1);
    }
  }

  /** On a key column, overwriting the row that holds the record's key leaves every other
      row as it was. */
  lemma ReplaceRowElsewhere<R, K>(rows: seq<R>, key: R -> K, rec: R, i: nat, j: nat)
    requires UniqueKeys(rows, key) && i < |rows| && j < |rows| && i != j
    requires key(rows[i]) == key(rec)
    ensures ReplaceRow(rows, key, rec)[j] == rows[j]
  {
    if i < j {
      assert key(rows[i]) != key(rows[j]);
    } else {
      assert key(rows[j]) != key(rows[i]);
    }
  }

  /** Overwriting a stored row by its key keeps the column a key, and afterwards the lookup
      by that key returns the new record. */
  lemma ReplaceRowEffect<R, K>(rows: seq<R>, key: R -> K, rec: R)
    requires UniqueKeys(rows, key)
    requires FindRow(rows, key, key(rec)).Some?
    ensures UniqueKeys(ReplaceRow(rows, key, rec), key)
    ensures FindRow(ReplaceRow(rows, key, rec), key, key(rec)) == Some(rec)
  {
    var r := ReplaceRow(rows, key, rec);
    var j :| 0 <= j < |rows| && key(rows[j]) == key(rec);
    assert r[j] == rec;
    FirstRow(r, key, j);
  }

  // ---------------------------------------------------------------------------
  // Client table
  // ---------------------------------------------------------------------------

  /** The key column of the client table. */
  function ClientId(c: OauthClient): string
  {
    c.id
  }

  /** The listing columns of the client rows. */
  function Summaries(rows: seq<OauthClient>): (r: seq<ClientSummary>)
    ensures |r| == |rows|
    ensures forall k :: 0 <= k < |rows| ==>
      r[k] == ClientSummary(rows[k].id, rows[k].secret, rows[k].domain, rows[k].name)
  {
    seq(|rows|, k requires 0 <= k < |rows| =>
      ClientSummary(rows[k].id, rows[k].secret, rows[k].domain, rows[k].name))
  }

  // ---------------------------------------------------------------------------
  // Scope table
  // ---------------------------------------------------------------------------

  /** The key columns of the scope table. */
  function ScopeId(s: OauthScope): int
  {
    s.id
  }

  function ScopeString(s: OauthScope): string
  {
    s.scope
  }

  /** The catalog invariant: ids and scope strings unique, ids below the next id. */
  ghost predicate ValidScopeTable(rows: seq<OauthScope>, nextId: int)
  {
    && UniqueKeys(rows, ScopeId)
    && UniqueKeys(rows, ScopeString)
    && (forall k :: 0 <= k < |rows| ==> rows[k].id < nextId)
  }

  /** `FindScope`: the scope strings of the enabled rows, in store order. */
  function EnabledScopes(rows: seq<OauthScope>): (r: seq<string>)
    ensures forall k :: 0 <= k < |rows| && !rows[k].isDisable ==> rows[k].scope in r
    ensures forall s :: s in r ==> exists k :: 0 <= k < |rows| && !rows[k].isDisable && rows[k].scope == s
  {
    if |rows| == 0 then []
    else
      var rest := EnabledScopes(rows[1..]);
      assert forall k :: 1 <= k < |rows| && !rows[k].isDisable ==> rows[k].scope in rest by {
        forall k | 1 <= k < |rows| && !rows[k].isDisable
          ensures rows[k].scope in rest
        {
          assert rows[1..][k - 1] == rows[k];
        }
      }
      assert forall s :: s in rest ==> exists k :: 1 <= k < |rows| && !rows[k].isDisable && rows[k].scope == s by {
        forall s | s in rest
          ensures exists k :: 1 <= k < |rows| && !rows[k].isDisable && rows[k].scope == s
        {
          var k :| 0 <= k < |rows[1..]| && !rows[1..][k].isDisable && rows[1..][k].scope == s;
          assert rows[k + 1] == rows[1..][k];
        }
      }
      if rows[0].isDisable then rest else [rows[0].scope] + rest
  }
}
