/** `internal/oauth/client/service/service.go`: the client-app service. The client table
    is a field the operations update; the account table is fixed for the service's life;
    every store and cache call is appended to `calls`, and the calls named in `fails`
    return an error. */
module ClientService {
  import opened Errors
  import opened GoStrings
  import opened ScopeModel
  import opened ScopeProperties
  import opened Library
  import opened CacheKeys
  import opened Collaborators

  /** `apireq.AddOauthClientWithFile` without the uploaded file. */
  datatype AddClientRequest = AddClientRequest(
    accountId: int, id: string, name: string, secret: string, domain: string)

  /** `apireq.EditOauthClientWithFile` without the uploaded file; the flag only selects
      upload work that the service leaves undone. */
  datatype EditClientRequest = EditClientRequest(
    accountId: int, name: string, secret: string, domain: string,
    hasImage: bool, scopeList: ScopeList)

  /** `apires.OauthClient`: the stored client and its projected catalog tree. */
  datatype ClientView = ClientView(client: OauthClient, scopeList: ScopeList)

  const CountClientError: AppError := Unknown("count client error.")
  const FindClientError: AppError := Unknown("find client error.")
  const ClientNotFoundError: AppError := NotFound("client not found.")
  const ClientDuplicateError: AppError := NotFound("client id duplicate error.")
  const UpdateClientError: AppError := Unknown("update client error.")

  /** `k` is the first submitted scope the catalog does not know. */
  ghost predicate FirstUnknown(t: ScopeList, scopes: seq<string>, k: int)
  {
    && 0 <= k < |scopes| && !Known(t, scopes[k])
    && forall j :: 0 <= j < k ==> Known(t, scopes[j])
  }

  /** The record `EditClient` writes: the id and icon of the stored client, the account
      and texts of the request, and the validated scopes joined by spaces. */
  function EditedClient(stored: OauthClient, req: EditClientRequest, scopes: seq<string>): (m: OauthClient)
    ensures m.id == stored.id && m.iconPath == stored.iconPath
    ensures m.sysAccountId == req.accountId && m.name == req.name
    ensures m.secret == req.secret && m.domain == req.domain
    ensures |scopes| >= 1 && (forall k :: 0 <= k < |scopes| ==> ' ' !in scopes[k]) ==>
      Split(m.scope, ' ') == scopes
  {
    var m := OauthClient(stored.id, req.accountId, req.name, req.secret, req.domain, Join(scopes, ' '), stored.iconPath);
    if |scopes| >= 1 && (forall k :: 0 <= k < |scopes| ==> ' ' !in scopes[k]) then
      SplitJoin(scopes, ' ');
      m
    else
      m
  }

  /** The index of the first unknown scope at or after `i`, when those before `i` are all
      known. */
  function FirstUnknownFrom(t: ScopeList, scopes: seq<string>, i: nat): (k: nat)
    requires i <= |scopes|
    requires forall j :: 0 <= j < i ==> Known(t, scopes[j])
    requires exists j :: i <= j < |scopes| && !Known(t, scopes[j])
    ensures FirstUnknown(t, scopes, k)
    decreases |scopes| - i
  {
    if !Known(t, scopes[i]) then i else FirstUnknownFrom(t, scopes, i + 1)
  }

  /** The error, client table and call log an edit ends with. */
  datatype Outcome = Outcome(err: Option<AppError>, clients: seq<OauthClient>, calls: seq<Call>)

  /** The part of `EditClient` after the client is found: load the enabled scopes and
      build the catalog, then validate and save. */
  ghost function EditStage(clients: seq<OauthClient>, calls: seq<Call>, stored: OauthClient,
                           req: EditClientRequest, scopes: seq<string>, scopeRows: seq<OauthScope>,
                           fails: set<Call>): Outcome
  {
    var loaded := calls + [FindEnabledScopes];
    var catalog := CatalogTree(EnabledScopes(scopeRows));
    if FindEnabledScopes in fails then Outcome(Some(FindScopeError), clients, loaded)
    else if catalog.Failure? then Outcome(Some(catalog.error), clients, loaded)
    else ValidateStage(clients, loaded, stored, req, scopes, catalog.value, fails)
  }

  /** Reject the first scope the catalog `t` does not know, or save the edited record. */
  ghost function ValidateStage(clients: seq<OauthClient>, calls: seq<Call>, stored: OauthClient,
                               req: EditClientRequest, scopes: seq<string>, t: ScopeList,
                               fails: set<Call>): Outcome
  {
    if exists j :: 0 <= j < |scopes| && !Known(t, scopes[j]) then
      Outcome(Some(CandidateError(t, scopes[FirstUnknownFrom(t, scopes, 0)])), clients, calls)
    else UpdateStage(clients, calls, EditedClient(stored, req, scopes), fails)
  }

  /** Write the record; after a successful write, drop the client's cached scope list. */
  ghost function UpdateStage(clients: seq<OauthClient>, calls: seq<Call>, m: OauthClient, fails: set<Call>): Outcome
  {
    if UpdateClient(m) in fails then Outcome(Some(UpdateClientError), clients, calls + [UpdateClient(m)])
    else Outcome(None, ReplaceRow(clients, ClientId, m), calls + [UpdateClient(m), Cache(DeleteClientScopeList(m.id))])
  }

  /** A failed write leaves the table as it was; a successful one keeps ids unique and
      leaves the record as the row its id looks up. */
  lemma UpdateStageTable(clients: seq<OauthClient>, calls: seq<Call>, m: OauthClient, fails: set<Call>)
    requires UniqueKeys(clients, ClientId) && FindRow(clients, ClientId, m.id).Some?
    ensures var o := UpdateStage(clients, calls, m, fails);
      && UniqueKeys(o.clients, ClientId)
      && (o.err.None? <==> UpdateClient(m) !in fails)
      && (o.err.Some? ==> o.clients == clients)
      && (o.err.None? ==> FindRow(o.clients, ClientId, m.id) == Some(m))
  {
    if UpdateClient(m) !in fails {
      ReplaceRowEffect(clients, ClientId, m);
    }
  }

  /** The client's cached scope list is dropped exactly when the write succeeds, as the
      last call. */
  lemma UpdateStageCalls(clients: seq<OauthClient>, calls: seq<Call>, m: OauthClient, fails: set<Call>)
    ensures var o := UpdateStage(clients, calls, m, fails);
      && (o.err.None? <==> Cache(DeleteClientScopeList(m.id)) in o.calls[|calls|..])
      && (o.err.None? ==> o.calls[|o.calls| - 1] == Cache(DeleteClientScopeList(m.id)))
  {
    var o := UpdateStage(clients, calls, m, fails);
    if o.err.None? {
      assert o.calls[|calls|..][1] == Cache(DeleteClientScopeList(m.id));
    } else {
      assert o.calls[|calls|..] == [UpdateClient(m)];
    }
  }

  /** A failed edit leaves the table as it was; a successful one keeps ids unique and
      leaves the edited record as the row the id looks up. */
  lemma EditStageTable(clients: seq<OauthClient>, calls: seq<Call>, stored: OauthClient,
                       req: EditClientRequest, scopes: seq<string>, scopeRows: seq<OauthScope>, fails: set<Call>)
    requires UniqueKeys(clients, ClientId) && FindRow(clients, ClientId, stored.id) == Some(stored)
    ensures var o := EditStage(clients, calls, stored, req, scopes, scopeRows, fails);
      && UniqueKeys(o.clients, ClientId)
      && (o.err.Some? ==> o.clients == clients)
      && (o.err.None? ==> FindRow(o.clients, ClientId, stored.id) == Some(EditedClient(stored, req, scopes)))
  {
    UpdateStageTable(clients, calls + [FindEnabledScopes], EditedClient(stored, req, scopes), fails);
  }

  /** An edit succeeds exactly with a loaded, buildable catalog that knows every submitted
      scope and a write that goes through. */
  lemma EditStageSuccess(clients: seq<OauthClient>, calls: seq<Call>, stored: OauthClient,
                         req: EditClientRequest, scopes: seq<string>, scopeRows: seq<OauthScope>, fails: set<Call>)
    ensures var catalog := CatalogTree(EnabledScopes(scopeRows));
      EditStage(clients, calls, stored, req, scopes, scopeRows, fails).err.None? <==>
        && FindEnabledScopes !in fails && catalog.Success?
        && (forall k :: 0 <= k < |scopes| ==> Known(catalog.value, scopes[k]))
        && UpdateClient(EditedClient(stored, req, scopes)) !in fails
  {
  }

  /** The client's cached scope list is dropped exactly when the edit succeeds, and it is
      the last call the edit makes. */
  lemma EditStageInvalidation(clients: seq<OauthClient>, calls: seq<Call>, stored: OauthClient,
                              req: EditClientRequest, scopes: seq<string>, scopeRows: seq<OauthScope>,
                              fails: set<Call>)
    ensures var o := EditStage(clients, calls, stored, req, scopes, scopeRows, fails);
      && (o.err.None? <==> Cache(DeleteClientScopeList(stored.id)) in o.calls[|calls|..])
      && (o.err.None? ==> o.calls[|o.calls| - 1] == Cache(DeleteClientScopeList(stored.id)))
  {
    var loaded := calls + [FindEnabledScopes];
    var m := EditedClient(stored, req, scopes);
    var o := EditStage(clients, calls, stored, req, scopes, scopeRows, fails);
    UpdateStageCalls(clients, loaded, m, fails);
    if o.calls == UpdateStage(clients, loaded, m, fails).calls {
      assert o.calls[|calls|..] == [FindEnabledScopes] + o.calls[|loaded|..];
    } else {
      assert o.calls[|calls|..] == [FindEnabledScopes];
    }
  }

  /** A rejected submission reports the error of its first unknown scope. */
  lemma EditStageRejects(clients: seq<OauthClient>, calls: seq<Call>, stored: OauthClient,
                         req: EditClientRequest, scopes: seq<string>, t: ScopeList, fails: set<Call>, k: int)
    requires FirstUnknown(t, scopes, k)
    ensures ValidateStage(clients, calls, stored, req, scopes, t, fails)
              == Outcome(Some(CandidateError(t, scopes[k])), clients, calls)
  {
    var f := FirstUnknownFrom(t, scopes, 0);
    assert f == k;
  }

  /** What a later `GetClient` shows for a client whose scopes `EditClient` stored: when
      the submitted scopes are catalog-valid, space-free and not redundant, the projected
      tree grants exactly them. */
  lemma StoredScopeRoundTrip(enabled: seq<string>, scopes: seq<string>)
    requires CatalogTree(enabled).Success?
    requires |scopes| >= 1
    requires forall k :: 0 <= k < |scopes| ==> Known(CatalogTree(enabled).value, scopes[k]) && ' ' !in scopes[k]
    requires NonRedundant(scopes)
    ensures forall s :: s in GrantedScopes(ApplyTokens(CatalogTree(enabled).value, Split(Join(scopes, ' '), ' ')))
                    <==> s in scopes
  {
    SplitJoin(scopes, ' ');
    FlattenAfterProjection(enabled, scopes);
  }

  /** Clearing every scope: the stored string is empty and the projected tree grants
      nothing beyond the fresh catalog. */
  lemma EmptyScopesStoreNothing(enabled: seq<string>, stored: OauthClient, req: EditClientRequest)
    requires CatalogTree(enabled).Success?
    ensures EditedClient(stored, req, []).scope == []
    ensures ApplyTokens(CatalogTree(enabled).value, Split(EditedClient(stored, req, []).scope, ' '))
              == CatalogTree(enabled).value
  {
    ApplyEmptyScopeString(CatalogTree(enabled).value);
  }

  class Service {
    const accounts: map<int, SysAccount>
    var clients: seq<OauthClient>
    var calls: seq<Call>

    ghost predicate Valid()
      reads this
    {
      UniqueKeys(clients, ClientId)
    }

    constructor (accounts: map<int, SysAccount>, clients: seq<OauthClient>)
      requires UniqueKeys(clients, ClientId)
      ensures Valid()
      ensures this.accounts == accounts && this.clients == clients && calls == []
    {
      this.accounts := accounts;
      this.clients := clients;
      calls := [];
    }

    /** One page of client summaries, with the clamped paging values and the total. */
    method ListClient(sysAccId: int, page: int, perPage: int, fails: set<Call>)
      returns (r: Result<ListPage<ClientSummary>>)
      requires IsInt64(page) && IsInt64(perPage)
      modifies this`calls
      ensures var gate := AccountGate(accounts, sysAccId, fails);
        var pp := ClampPage(perPage);
        var offset := PageOffset(page, perPage);
        if gate.Some? then
          r == Failure(gate.value) && calls == old(calls) + [FindAccount(sysAccId)]
        else if CountClients in fails then
          r == Failure(CountClientError) && calls == old(calls) + [FindAccount(sysAccId), CountClients]
        else
          && calls == old(calls) + [FindAccount(sysAccId), CountClients, FindClients(pp, offset)]
          && r == if FindClients(pp, offset) in fails then Failure(FindClientError)
                  else Success(ListPage(Page(Summaries(clients), pp, StoreStart(offset)), |clients|, ClampPage(page), pp))
      ensures r.Success? ==>
        && r.value.currentPage >= 1 && r.value.perPage >= 1
        && |r.value.list| <= r.value.perPage && r.value.total == |clients|
    {
      calls := calls + [FindAccount(sysAccId)];
      var gate := AccountGate(accounts, sysAccId, fails);
      if gate.Some? {
        return Failure(gate.value);
      }
      calls := calls + [CountClients];
      if CountClients in fails {
        return Failure(CountClientError);
      }
      var total := |clients|;
      var p := page;
      if p <= 1 {
        p := 1;
      }
      var pp := perPage;
      if pp <= 1 {
        pp := 1;
      }
      var offset := Wrap64((p - 1) * pp);
      calls := calls + [FindClients(pp, offset)];
      if FindClients(pp, offset) in fails {
        return Failure(FindClientError);
      }
      var list := Page(Summaries(clients), pp, StoreStart(offset));
      r := Success(ListPage(list, total, p, pp));
    }

    /** A client with the catalog tree projected through its stored scope string. */
    method GetClient(sysAccId: int, clientId: string, scopeRows: seq<OauthScope>, fails: set<Call>)
      returns (r: Result<ClientView>)
      modifies this`calls
      ensures var gate := AccountGate(accounts, sysAccId, fails);
        var found := FindRow(clients, ClientId, clientId);
        var head := old(calls) + [FindAccount(sysAccId), FindClient(clientId)];
        var catalog := CatalogTree(EnabledScopes(scopeRows));
        if gate.Some? then
          r == Failure(gate.value) && calls == old(calls) + [FindAccount(sysAccId)]
        else if FindClient(clientId) in fails then
          r == Failure(FindClientError) && calls == head
        else if found.None? then
          r == Failure(ClientNotFoundError) && calls == head
        else
          && calls == head + [FindEnabledScopes]
          && r == if FindEnabledScopes in fails then Failure(FindScopeError)
                  else if catalog.Failure? then Failure(catalog.error)
                  else Success(ClientView(found.value, ApplyTokens(catalog.value, Split(found.value.scope, ' '))))
      ensures r.Success? ==>
        && r.value.client.id == clientId
        && IsCatalogTree(CatalogTree(EnabledScopes(scopeRows)).value)
        && SameShape(CatalogTree(EnabledScopes(scopeRows)).value, r.value.scopeList)
    {
      calls := calls + [FindAccount(sysAccId)];
      var gate := AccountGate(accounts, sysAccId, fails);
      if gate.Some? {
        return Failure(gate.value);
      }
      calls := calls + [FindClient(clientId)];
      if FindClient(clientId) in fails {
        return Failure(FindClientError);
      }
      var clt := FindRow(clients, ClientId, clientId);
      if clt.None? {
        return Failure(ClientNotFoundError);
      }
      calls := calls + [FindEnabledScopes];
      if FindEnabledScopes in fails {
        return Failure(FindScopeError);
      }
      var catalog := GenerateScopeList(EnabledScopes(scopeRows));
      if catalog.Failure? {
        return Failure(catalog.error);
      }
      var scopeList := GenerateClientScopeList(catalog.value, clt.value.scope);
      r := Success(ClientView(clt.value, scopeList));
    }

    /** Registers a client id not yet taken. A failing insert is swallowed: the operation
        still reports success and the table is unchanged. */
    method AddClient(req: AddClientRequest, fails: set<Call>) returns (err: Option<AppError>)
      requires Valid()
      modifies this
      ensures Valid()
      ensures var gate := AccountGate(accounts, req.accountId, fails);
        var m := OauthClient(req.id, req.accountId, req.name, req.secret, req.domain, "", "");
        var head := old(calls) + [FindAccount(req.accountId), FindClient(req.id)];
        if gate.Some? then
          err == gate && clients == old(clients) && calls == old(calls) + [FindAccount(req.accountId)]
        else if FindClient(req.id) in fails then
          err == Some(FindClientError) && clients == old(clients) && calls == head
        else if FindRow(old(clients), ClientId, req.id).Some? then
          err == Some(ClientDuplicateError) && clients == old(clients) && calls == head
        else
          && err == None
          && calls == head + [InsertClient(m)]
          && clients == if InsertClient(m) in fails then old(clients) else old(clients) + [m]
      ensures err.None? && clients != old(clients) ==> FindRow(clients, ClientId, req.id).Some?
    {
      calls := calls + [FindAccount(req.accountId)];
      var gate := AccountGate(accounts, req.accountId, fails);
      if gate.Some? {
        return gate;
      }
      calls := calls + [FindClient(req.id)];
      if FindClient(req.id) in fails {
        return Some(FindClientError);
      }
      if FindRow(clients, ClientId, req.id).Some? {
        return Some(ClientDuplicateError);
      }
      var m := OauthClient(req.id, req.accountId, req.name, req.secret, req.domain, "", "");
      calls := calls + [InsertClient(m)];
      if InsertClient(m) !in fails {
        clients := clients + [m];
        FirstRow(clients, ClientId, |clients| - 1);
      }
      err := None;
    }

    /** Replaces a client's texts and scopes. The submitted tree is flattened and every
        scope checked against the catalog of enabled scopes; the stored string is the
        validated scopes joined by spaces; a successful update drops the client's cached
        scope list (a failure of that drop is only logged). */
    method EditClient(clientId: string, req: EditClientRequest, scopeRows: seq<OauthScope>, fails: set<Call>)
      returns (err: Option<AppError>, ghost submitted: seq<string>)
      requires Valid()
      modifies this
      ensures Valid()
      ensures AccountGate(accounts, req.accountId, fails).Some? ==>
        && err == AccountGate(accounts, req.accountId, fails)
        && clients == old(clients) && calls == old(calls) + [FindAccount(req.accountId)]
      ensures AccountGate(accounts, req.accountId, fails).None? && FindClient(clientId) in fails ==>
        && err == Some(FindClientError) && clients == old(clients)
        && calls == old(calls) + [FindAccount(req.accountId), FindClient(clientId)]
      ensures (AccountGate(accounts, req.accountId, fails).None? && FindClient(clientId) !in fails
               && FindRow(old(clients), ClientId, clientId).None?) ==>
        && err == Some(ClientNotFoundError) && clients == old(clients)
        && calls == old(calls) + [FindAccount(req.accountId), FindClient(clientId)]
      ensures (AccountGate(accounts, req.accountId, fails).None? && FindClient(clientId) !in fails
               && FindRow(old(clients), ClientId, clientId).Some?) ==>
        && multiset(submitted) == GrantedScopes(req.scopeList)
        && EditStage(old(clients), old(calls) + [FindAccount(req.accountId), FindClient(clientId)],
                     FindRow(old(clients), ClientId, clientId).value, req, submitted, scopeRows, fails)
           == Outcome(err, clients, calls)
      ensures err.None? ==> forall s :: s in submitted ==> Known(CatalogTree(EnabledScopes(scopeRows)).value, s)
    {
      calls := calls + [FindAccount(req.accountId)];
      var gate := AccountGate(accounts, req.accountId, fails);
      submitted := [];
      if gate.Some? {
        return gate, submitted;
      }
      calls := calls + [FindClient(clientId)];
      if FindClient(clientId) in fails {
        return Some(FindClientError), submitted;
      }
      var clt := FindRow(clients, ClientId, clientId);
      if clt.None? {
        return Some(ClientNotFoundError), submitted;
      }
      var scopes := GetScopesFromScopeList(req.scopeList);
      submitted := scopes;
      ghost var before := calls;
      assert before == old(calls) + [FindAccount(req.accountId), FindClient(clientId)];
      err := SaveEdit(clt.value, req, scopes, scopeRows, fails);
      EditStageSuccess(old(clients), before, clt.value, req, scopes, scopeRows, fails);
    }

    /** `EditClient` from the scope lookup on, for a client already found. */
    method SaveEdit(stored: OauthClient, req: EditClientRequest, scopes: seq<string>,
                    scopeRows: seq<OauthScope>, fails: set<Call>) returns (err: Option<AppError>)
      requires Valid() && FindRow(clients, ClientId, stored.id) == Some(stored)
      modifies this
      ensures Valid()
      ensures Outcome(err, clients, calls) == EditStage(old(clients), old(calls), stored, req, scopes, scopeRows, fails)
    {
      EditStageTable(clients, calls, stored, req, scopes, scopeRows, fails);
      calls := calls + [FindEnabledScopes];
      if FindEnabledScopes in fails {
        return Some(FindScopeError);
      }
      var catalog := GenerateScopeList(EnabledScopes(scopeRows));
      if catalog.Failure? {
        return Some(catalog.error);
      }
      assert EditStage(old(clients), old(calls), stored, req, scopes, scopeRows, fails)
          == ValidateStage(clients, calls, stored, req, scopes, catalog.value, fails);
      var validScopes := ValidateScopes(catalog.value, scopes);
      if validScopes.Failure? {
        ghost var k :| FirstUnknown(catalog.value, scopes, k) && validScopes.error == CandidateError(catalog.value, scopes[k]);
        EditStageRejects(clients, calls, stored, req, scopes, catalog.value, fails, k);
        return Some(validScopes.error);
      }
      var m := OauthClient(stored.id, req.accountId, req.name, req.secret, req.domain,
                           Join(validScopes.value, ' '), stored.iconPath);
      assert m == EditedClient(stored, req, scopes);
      assert ValidateStage(clients, calls, stored, req, scopes, catalog.value, fails)
          == UpdateStage(clients, calls, m, fails);
      calls := calls + [UpdateClient(m)];
      if UpdateClient(m) in fails {
        return Some(UpdateClientError);
      }
      clients := ReplaceRow(clients, ClientId, m);
      calls := calls + [Cache(DeleteClientScopeList(stored.id))];
      err := None;
    }
  }
}
