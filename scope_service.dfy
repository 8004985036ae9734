/** `internal/oauth/scope/service/service.go`: the scope-catalog service. The scope table
    and the next id the store assigns are fields the operations update; every store and
    cache call is appended to `calls`, and the calls named in `fails` return an error. */
module ScopeService {
  import opened Errors
  import opened CacheKeys
  import opened Collaborators

  /** `apireq.AddOauthScope`. */
  datatype AddScopeRequest = AddScopeRequest(
    accountId: int, scope: string, path: string, httpMethod: string, name: string, description: string)

  /** `apireq.EditOauthScope`. */
  datatype EditScopeRequest = EditScopeRequest(
    accountId: int, name: string, description: string, isDisable: bool)

  const CountScopeError: AppError := Unknown("count scope error.")
  const ScopeNotFoundError: AppError := NotFound("scope not found.")
  const ScopeDuplicateError: AppError := NotFound("scope duplicate error.")
  const InsertScopeError: AppError := Unknown("insert scope error.")
  const UpdateScopeError: AppError := Unknown("update scope error.")

  /** The row `AddScope` inserts (its id is the store's to assign): always enabled. */
  function NewScope(req: AddScopeRequest): (m: OauthScope)
    ensures !m.isDisable
    ensures m.scope == req.scope && m.path == req.path && m.httpMethod == req.httpMethod
    ensures m.name == req.name && m.description == req.description
  {
    OauthScope(0, req.scope, req.path, req.httpMethod, req.name, req.description, false)
  }

  /** The row `EditScope` writes back: only the name, the description and the disabled
      flag come from the request; the id, the scope string and the guarded endpoint stay. */
  function EditedScope(stored: OauthScope, req: EditScopeRequest): (m: OauthScope)
    ensures m.id == stored.id && m.scope == stored.scope
    ensures m.path == stored.path && m.httpMethod == stored.httpMethod
    ensures m.name == req.name && m.description == req.description && m.isDisable == req.isDisable
  {
    stored.(name := req.name, description := req.description, isDisable := req.isDisable)
  }

  /** Appending a row with a fresh id and an unused scope string keeps the catalog valid,
      and the scopes clients may be granted gain exactly that scope. */
  lemma AppendScopeEffect(rows: seq<OauthScope>, nextId: int, m: OauthScope)
    requires ValidScopeTable(rows, nextId)
    requires m.id == nextId && !m.isDisable
    requires FindRow(rows, ScopeString, m.scope).None?
    ensures ValidScopeTable(rows + [m], nextId + 1)
    ensures forall s :: s in EnabledScopes(rows + [m]) <==> s == m.scope || s in EnabledScopes(rows)
  {
    var r := rows + [m];
    forall s ensures s in EnabledScopes(r) <==> s == m.scope || s in EnabledScopes(rows) {
      if s in EnabledScopes(r) {
        var k :| 0 <= k < |r| && !r[k].isDisable && r[k].scope == s;
        if k < |rows| {
          assert rows[k] == r[k];
        }
      }
      if s == m.scope {
        assert r[|rows|] == m;
      }
      if s in EnabledScopes(rows) {
        var k :| 0 <= k < |rows| && !rows[k].isDisable && rows[k].scope == s;
        assert r[k] == rows[k];
      }
    }
  }

  /** Writing back an edited row keeps the catalog valid and the row found by its id. */
  lemma ReplaceScopeKeepsTable(rows: seq<OauthScope>, nextId: int, stored: OauthScope, req: EditScopeRequest)
    requires ValidScopeTable(rows, nextId)
    requires FindRow(rows, ScopeId, stored.id) == Some(stored)
    ensures ValidScopeTable(ReplaceRow(rows, ScopeId, EditedScope(stored, req)), nextId)
    ensures FindRow(ReplaceRow(rows, ScopeId, EditedScope(stored, req)), ScopeId, stored.id) == Some(EditedScope(stored, req))
  {
    var m := EditedScope(stored, req);
    var r := ReplaceRow(rows, ScopeId, m);
    var j :| 0 <= j < |rows| && rows[j] == stored;
    assert r[j] == m;
    assert forall k :: 0 <= k < |rows| ==> r[k].id == rows[k].id && r[k].scope == rows[k].scope;
    FirstRow(r, ScopeId, j);
  }

  /** After an edit, the scopes clients may be granted change only in the edited scope,
      which is grantable exactly when the edit leaves it enabled. */
  lemma ReplaceScopeEnabled(rows: seq<OauthScope>, nextId: int, stored: OauthScope, req: EditScopeRequest)
    requires ValidScopeTable(rows, nextId)
    requires FindRow(rows, ScopeId, stored.id) == Some(stored)
    ensures forall s :: s in EnabledScopes(ReplaceRow(rows, ScopeId, EditedScope(stored, req))) <==>
      if s == stored.scope then !req.isDisable else s in EnabledScopes(rows)
  {
    var m := EditedScope(stored, req);
    var r := ReplaceRow(rows, ScopeId, m);
    var j :| 0 <= j < |rows| && rows[j] == stored;
    assert r[j] == m;
    forall s ensures s in EnabledScopes(r) <==> if s == stored.scope then !req.isDisable else s in EnabledScopes(rows) {
      if s in EnabledScopes(r) {
        var k :| 0 <= k < |r| && !r[k].isDisable && r[k].scope == s;
        if k != j {
          ReplaceRowElsewhere(rows, ScopeId, m, j, k);
        }
      }
      if s != stored.scope && s in EnabledScopes(rows) {
        var k :| 0 <= k < |rows| && !rows[k].isDisable && rows[k].scope == s;
        ReplaceRowElsewhere(rows, ScopeId, m, j, k);
      }
    }
  }

  class Service {
    const accounts: map<int, SysAccount>
    var scopes: seq<OauthScope>
    var nextId: int
    var calls: seq<Call>

    ghost predicate Valid()
      reads this
    {
      ValidScopeTable(scopes, nextId)
    }

    constructor (accounts: map<int, SysAccount>, scopes: seq<OauthScope>, nextId: int)
      requires ValidScopeTable(scopes, nextId)
      ensures Valid()
      ensures this.accounts == accounts && this.scopes == scopes && this.nextId == nextId && calls == []
    {
      this.accounts := accounts;
      this.scopes := scopes;
      this.nextId := nextId;
      calls := [];
    }

    /** One page of scope rows, with the clamped paging values and the total. */
    method ListScope(sysAccId: int, page: int, perPage: int, fails: set<Call>)
      returns (r: Result<ListPage<OauthScope>>)
      requires IsInt64(page) && IsInt64(perPage)
      modifies this`calls
      ensures var gate := AccountGate(accounts, sysAccId, fails);
        var pp := ClampPage(perPage);
        var offset := PageOffset(page, perPage);
        if gate.Some? then
          r == Failure(gate.value) && calls == old(calls) + [FindAccount(sysAccId)]
        else if CountScopes in fails then
          r == Failure(CountScopeError) && calls == old(calls) + [FindAccount(sysAccId), CountScopes]
        else
          && calls == old(calls) + [FindAccount(sysAccId), CountScopes, FindScopes(pp, offset)]
          && r == if FindScopes(pp, offset) in fails then Failure(FindScopeError)
                  else Success(ListPage(Page(scopes, pp, StoreStart(offset)), |scopes|, ClampPage(page), pp))
      ensures r.Success? ==>
        && r.value.currentPage >= 1 && r.value.perPage >= 1
        && |r.value.list| <= r.value.perPage && r.value.total == |scopes|
    {
      calls := calls + [FindAccount(sysAccId)];
      var gate := AccountGate(accounts, sysAccId, fails);
      if gate.Some? {
        return Failure(gate.value);
      }
      calls := calls + [CountScopes];
      if CountScopes in fails {
        return Failure(CountScopeError);
      }
      var total := |scopes|;
      var p := page;
      if p <= 1 {
        p := 1;
      }
      var pp := perPage;
      if pp <= 1 {
        pp := 1;
      }
      var offset := Wrap64((p - 1) * pp);
      calls := calls + [FindScopes(pp, offset)];
      if FindScopes(pp, offset) in fails {
        return Failure(FindScopeError);
      }
      r := Success(ListPage(Page(scopes, pp, StoreStart(offset)), total, p, pp));
    }

    /** One scope row by id. */
    method GetScope(sysAccId: int, scopeId: int, fails: set<Call>) returns (r: Result<OauthScope>)
      modifies this`calls
      ensures var gate := AccountGate(accounts, sysAccId, fails);
        var found := FindRow(scopes, ScopeId, scopeId);
        if gate.Some? then
          r == Failure(gate.value) && calls == old(calls) + [FindAccount(sysAccId)]
        else
          && calls == old(calls) + [FindAccount(sysAccId), FindScopeById(scopeId)]
          && r == if FindScopeById(scopeId) in fails then Failure(FindScopeError)
                  else if found.None? then Failure(ScopeNotFoundError)
                  else Success(found.value)
      ensures r.Success? ==> r.value.id == scopeId && r.value in scopes
    {
      calls := calls + [FindAccount(sysAccId)];
      var gate := AccountGate(accounts, sysAccId, fails);
      if gate.Some? {
        return Failure(gate.value);
      }
      calls := calls + [FindScopeById(scopeId)];
      if FindScopeById(scopeId) in fails {
        return Failure(FindScopeError);
      }
      var scp := FindRow(scopes, ScopeId, scopeId);
      if scp.None? {
        return Failure(ScopeNotFoundError);
      }
      r := Success(scp.value);
    }

    /** Adds an enabled scope whose string is not yet in the catalog, then drops every
        client's cached scope list (a failure of that drop is only logged). */
    method AddScope(req: AddScopeRequest, fails: set<Call>) returns (err: Option<AppError>)
      requires Valid()
      modifies this
      ensures Valid()
      ensures var gate := AccountGate(accounts, req.accountId, fails);
        var head := old(calls) + [FindAccount(req.accountId), FindScopeByScope(req.scope)];
        if gate.Some? then
          && err == gate && scopes == old(scopes) && nextId == old(nextId)
          && calls == old(calls) + [FindAccount(req.accountId)]
        else if FindScopeByScope(req.scope) in fails then
          err == Some(FindScopeError) && scopes == old(scopes) && nextId == old(nextId) && calls == head
        else if FindRow(old(scopes), ScopeString, req.scope).Some? then
          err == Some(ScopeDuplicateError) && scopes == old(scopes) && nextId == old(nextId) && calls == head
        else if InsertScope(NewScope(req)) in fails then
          && err == Some(InsertScopeError) && scopes == old(scopes) && nextId == old(nextId)
          && calls == head + [InsertScope(NewScope(req))]
        else
          && err == None
          && scopes == old(scopes) + [NewScope(req).(id := old(nextId))]
          && nextId == old(nextId) + 1
          && calls == head + [InsertScope(NewScope(req)), Cache(DeleteAllClientScopeList)]
      ensures err.None? ==> forall s :: s in EnabledScopes(scopes) <==> s == req.scope || s in EnabledScopes(old(scopes))
    {
      calls := calls + [FindAccount(req.accountId)];
      var gate := AccountGate(accounts, req.accountId, fails);
      if gate.Some? {
        return gate;
      }
      calls := calls + [FindScopeByScope(req.scope)];
      if FindScopeByScope(req.scope) in fails {
        return Some(FindScopeError);
      }
      if FindRow(scopes, ScopeString, req.scope).Some? {
        return Some(ScopeDuplicateError);
      }
      var m := OauthScope(0, req.scope, req.path, req.httpMethod, req.name, req.description, false);
      calls := calls + [InsertScope(m)];
      if InsertScope(m) in fails {
        return Some(InsertScopeError);
      }
      AppendScopeEffect(scopes, nextId, m.(id := nextId));
      scopes := scopes + [m.(id := nextId)];
      nextId := nextId + 1;
      calls := calls + [Cache(DeleteAllClientScopeList)];
      err := None;
    }

    /** Renames, redescribes and enables or disables a scope, then drops the cached scope
        lookup of the endpoint it guards and every client's cached scope list (failures of
        those drops are only logged). */
    method EditScope(scopeId: int, req: EditScopeRequest, fails: set<Call>) returns (err: Option<AppError>)
      requires Valid()
      modifies this
      ensures Valid() && nextId == old(nextId)
      ensures AccountGate(accounts, req.accountId, fails).Some? ==>
        && err == AccountGate(accounts, req.accountId, fails)
        && scopes == old(scopes) && calls == old(calls) + [FindAccount(req.accountId)]
      ensures AccountGate(accounts, req.accountId, fails).None? ==>
        var found := FindRow(old(scopes), ScopeId, scopeId);
        var head := old(calls) + [FindAccount(req.accountId), FindScopeById(scopeId)];
        if FindScopeById(scopeId) in fails then
          err == Some(FindScopeError) && scopes == old(scopes) && calls == head
        else if found.None? then
          err == Some(ScopeNotFoundError) && scopes == old(scopes) && calls == head
        else if UpdateScope(EditedScope(found.value, req)) in fails then
          && err == Some(UpdateScopeError) && scopes == old(scopes)
          && calls == head + [UpdateScope(EditedScope(found.value, req))]
        else
          var m := EditedScope(found.value, req);
          && err == None
          && scopes == ReplaceRow(old(scopes), ScopeId, m)
          && FindRow(scopes, ScopeId, scopeId) == Some(m)
          && calls == head + [UpdateScope(m), Cache(DeleteScopeLookup(m.path, m.httpMethod)),
                              Cache(DeleteAllClientScopeList)]
      ensures err.None? ==> forall s :: s in EnabledScopes(scopes) <==>
        if s == FindRow(old(scopes), ScopeId, scopeId).value.scope then !req.isDisable
        else s in EnabledScopes(old(scopes))
    {
      calls := calls + [FindAccount(req.accountId)];
      var gate := AccountGate(accounts, req.accountId, fails);
      if gate.Some? {
        return gate;
      }
      calls := calls + [FindScopeById(scopeId)];
      assert calls == old(calls) + [FindAccount(req.accountId), FindScopeById(scopeId)];
      if FindScopeById(scopeId) in fails {
        return Some(FindScopeError);
      }
      var scp := FindRow(scopes, ScopeId, scopeId);
      if scp.None? {
        return Some(ScopeNotFoundError);
      }
      err := SaveScope(scp.value, req, fails);
    }

    /** The write-back half of `EditScope`: writes the edited row, then drops the cached
        scope lookup of its endpoint and every client's cached scope list. */
    method SaveScope(stored: OauthScope, req: EditScopeRequest, fails: set<Call>) returns (err: Option<AppError>)
      requires Valid() && FindRow(scopes, ScopeId, stored.id) == Some(stored)
      modifies this`scopes, this`calls
      ensures Valid()
      ensures var m := EditedScope(stored, req);
        if UpdateScope(m) in fails then
          err == Some(UpdateScopeError) && scopes == old(scopes) && calls == old(calls) + [UpdateScope(m)]
        else
          && err == None
          && scopes == ReplaceRow(old(scopes), ScopeId, m)
          && FindRow(scopes, ScopeId, stored.id) == Some(m)
          && calls == old(calls) + [UpdateScope(m), Cache(DeleteScopeLookup(m.path, m.httpMethod)),
                                    Cache(DeleteAllClientScopeList)]
      ensures err.None? ==> forall s :: s in EnabledScopes(scopes) <==>
        if s == stored.scope then !req.isDisable else s in EnabledScopes(old(scopes))
    {
      var m := EditedScope(stored, req);
      if UpdateScope(m) in fails {
        calls := calls + [UpdateScope(m)];
        return Some(UpdateScopeError);
      }
      ReplaceScopeKeepsTable(scopes, nextId, stored, req);
      ReplaceScopeEnabled(scopes, nextId, stored, req);
      scopes := ReplaceRow(scopes, ScopeId, m);
      calls := calls + [UpdateScope(m), Cache(DeleteScopeLookup(m.path, m.httpMethod)), Cache(DeleteAllClientScopeList)];
      err := None;
    }
  }
}
