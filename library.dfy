/** The imperative functions of `internal/oauth/library/scope.go`, each a loop proved
    against its reference definition in ScopeModel. */
module Library {
  import opened Errors
  import opened GoStrings
  import opened ScopeModel
  import opened ScopeProperties

  /** `GenerateScopeList`: builds the catalog tree from the enabled scope strings, failing
      on the first entry that does not parse at level 2. */
  method GenerateScopeList(scopes: seq<string>) returns (r: Result<ScopeList>)
    ensures r == CatalogTree(scopes)
    ensures r.Success? <==> forall k :: 0 <= k < |scopes| ==> IsCatalogEntry(scopes[k])
    ensures r.Success? ==> IsCatalogTree(r.value)
    ensures r.Failure? ==> exists k :: FirstRejectedEntry(scopes, k) && r.error == CatalogEntryError(scopes[k])
  {
    var scopeList: ScopeList := map[];
    var n := 0;
    while n < |scopes|
      invariant 0 <= n <= |scopes|
      invariant CatalogTree(scopes[..n]) == Success(scopeList)
    {
      var scope := scopes[n];
      var p := ParseScope(scope);
      if p.err.Some? {
        r := Failure(p.err.value);
        assert scopes[..n + 1][..n] == scopes[..n];
        CatalogTreeUnchangedAfterFailure(scopes, n + 1);
        CatalogTreeAccepts(scopes);
        CatalogTreeError(scopes);
        return;
      }
      if p.level != 2 {
        r := Failure(LevelError);
        assert scopes[..n + 1][..n] == scopes[..n];
        CatalogTreeUnchangedAfterFailure(scopes, n + 1);
        CatalogTreeAccepts(scopes);
        CatalogTreeError(scopes);
        return;
      }
      var cat := if p.category in scopeList then scopeList[p.category] else ScopeCategory(p.category, map[], false);
      AddLeafSteps(scopeList, p.category, p.item);
      if p.item !in cat.items {
        cat := cat.(items := cat.items[p.item := ScopeItem(p.item, false)]);
      }
      scopeList := scopeList[p.category := cat];
      CatalogTreeExtends(scopes, n);
      n := n + 1;
    }
    assert scopes[..n] == scopes;
    r := Success(scopeList);
    CatalogTreeAccepts(scopes);
    CatalogTreeContents(scopes);
  }

  /** `AddLeaf` as the loop performs it: take the category (or a new, empty one), add the
      item when it is missing, and write the category back. */
  lemma AddLeafSteps(t: ScopeList, c: string, i: string)
    ensures var existing := if c in t then t[c] else ScopeCategory(c, map[], false);
      && (i in existing.items ==> t[c := existing] == AddLeaf(t, c, i))
      && (i !in existing.items ==>
            t[c := existing.(items := existing.items[i := ScopeItem(i, false)])] == AddLeaf(t, c, i))
  {
  }

  /** One more accepted entry adds its leaf to the tree built so far. */
  lemma CatalogTreeExtends(scopes: seq<string>, n: nat)
    requires n < |scopes| && CatalogTree(scopes[..n]).Success? && IsCatalogEntry(scopes[n])
    ensures var p := ParseScope(scopes[n]);
      CatalogTree(scopes[..n + 1]) == Success(AddLeaf(CatalogTree(scopes[..n]).value, p.category, p.item))
  {
    assert scopes[..n + 1][..n] == scopes[..n];
  }

  /** Once a prefix fails to build, every longer prefix fails with the same error. */
  lemma {:induction false} CatalogTreeUnchangedAfterFailure(scopes: seq<string>, n: nat)
    requires n <= |scopes| && CatalogTree(scopes[..n]).Failure?
    ensures CatalogTree(scopes) == CatalogTree(scopes[..n])
    decreases |scopes| - n
  {
    if n < |scopes| {
      assert scopes[..n + 1][..n] == scopes[..n];
      CatalogTreeUnchangedAfterFailure(scopes, n + 1);
    } else {
      assert scopes[..n] == scopes;
    }
  }

  /** `GenerateClientScopeList`: applies a client's stored, space-separated scope string
      to the tree. The source flips the flags of the shared nodes in place and returns the
      same pointer (with a nil error); here the updated tree is returned. */
  method GenerateClientScopeList(scopeList: ScopeList, clientScopeStr: string) returns (r: ScopeList)
    ensures r == ApplyTokens(scopeList, Split(clientScopeStr, ' '))
    ensures SameShape(scopeList, r)
    ensures clientScopeStr == [] ==> r == scopeList
  {
    var clientScopes := Split(clientScopeStr, ' ');
    r := scopeList;
    var n := 0;
    while n < |clientScopes|
      invariant 0 <= n <= |clientScopes|
      invariant ApplyTokens(r, clientScopes[n..]) == ApplyTokens(scopeList, clientScopes)
    {
      var p := ParseScope(clientScopes[n]);
      assert ApplyTokens(r, clientScopes[n..]) == ApplyTokens(ApplyToken(r, clientScopes[n]), clientScopes[n + 1..]);
      if p.err.None? {
        if p.level == 1 {
          if p.category in r {
            r := r[p.category := r[p.category].(isAuth := true)];
          }
        } else if p.category in r && p.item in r[p.category].items {
          var cat := r[p.category];
          r := r[p.category := cat.(items := cat.items[p.item := cat.items[p.item].(isAuth := true)])];
        }
      }
      n := n + 1;
    }
    ApplyTokensEffect(scopeList, clientScopes);
    if clientScopeStr == [] {
      ApplyEmptyScopeString(scopeList);
    }
  }

  /** `GetScopesFromScopeList`: flattens a submitted tree into scope strings. Categories and
      items are visited in an unspecified order (Go map iteration), so the result is stated
      as a multiset. */
  method GetScopesFromScopeList(scopeList: ScopeList) returns (scopes: seq<string>)
    ensures multiset(scopes) == GrantedScopes(scopeList)
  {
    scopes := [];
    var rest := scopeList;
    while rest != map[]
      invariant multiset(scopes) + GrantedScopes(rest) == GrantedScopes(scopeList)
      decreases |rest|
    {
      var key :| key in rest;
      var category := rest[key];
      GrantedScopesPick(rest, key);
      assert |rest - {key}| < |rest| by { assert (rest - {key}).Keys < rest.Keys; }
      rest := rest - {key};
      if category.isAuth {
        scopes := scopes + [category.name];
        continue;
      }
      var itemScopes := GrantedItemScopes(category.name, category.items);
      scopes := scopes + itemScopes;
    }
    EmptySums("");
  }

  /** The inner loop of `GetScopesFromScopeList`: `category.item` for every granted item,
      in an unspecified order. */
  method GrantedItemScopes(categoryName: string, items: map<string, ScopeItem>) returns (scopes: seq<string>)
    ensures multiset(scopes) == ItemScopes(categoryName, items)
  {
    scopes := [];
    var rest := items;
    while rest != map[]
      invariant multiset(scopes) + ItemScopes(categoryName, rest) == ItemScopes(categoryName, items)
      decreases |rest|
    {
      var key :| key in rest;
      var item := rest[key];
      ItemScopesPick(categoryName, rest, key);
      assert |rest - {key}| < |rest| by { assert (rest - {key}).Keys < rest.Keys; }
      rest := rest - {key};
      if item.isAuth {
        scopes := scopes + [categoryName + "." + item.name];
      }
    }
    EmptySums(categoryName);
  }

  lemma EmptySums(name: string)
    ensures GrantedScopes(map[]) == multiset{}
    ensures ItemScopes(name, map[]) == multiset{}
  {
  }

  lemma GrantedScopesPick(t: ScopeList, key: string)
    requires key in t
    ensures GrantedScopes(t) == CategoryScopes(t[key]) + GrantedScopes(t - {key})
  {
    SumMapPick(t, CategoryEmit(), key);
  }

  lemma ItemScopesPick(name: string, items: map<string, ScopeItem>, key: string)
    requires key in items
    ensures ItemScopes(name, items)
      == (if items[key].isAuth then multiset{name + "." + items[key].name} else multiset{})
         + ItemScopes(name, items - {key})
  {
    SumMapPick(items, ItemEmit(name), key);
  }

  /** `ValidateScopes`: checks the submitted scopes against the catalog tree, failing on
      the first one that does not parse, names an unknown category, or (at level 2) an
      unknown item; otherwise returns them all, in input order. */
  method ValidateScopes(scopeList: ScopeList, scopes: seq<string>) returns (r: Result<seq<string>>)
    ensures r.Success? <==> forall k :: 0 <= k < |scopes| ==> Known(scopeList, scopes[k])
    ensures r.Success? ==> r.value == scopes
    ensures r.Failure? ==> exists k ::
      && 0 <= k < |scopes| && !Known(scopeList, scopes[k])
      && (forall j :: 0 <= j < k ==> Known(scopeList, scopes[j]))
      && r.error == CandidateError(scopeList, scopes[k])
  {
    var validScopes: seq<string> := [];
    var n := 0;
    while n < |scopes|
      invariant 0 <= n <= |scopes|
      invariant validScopes == scopes[..n]
      invariant forall j :: 0 <= j < n ==> Known(scopeList, scopes[j])
    {
      var scope := scopes[n];
      var p := ParseScope(scope);
      if p.err.Some? {
        return Failure(p.err.value);
      }
      if p.level == 1 {
        if p.category !in scopeList {
          return Failure(UnknownScopeError);
        }
        validScopes := validScopes + [scope];
      } else {
        if p.category !in scopeList {
          return Failure(UnknownScopeError);
        }
        if p.item !in scopeList[p.category].items {
          return Failure(UnknownScopeError);
        }
        validScopes := validScopes + [scope];
      }
      n := n + 1;
    }
    assert scopes[..n] == scopes;
    return Success(validScopes);
  }
}
