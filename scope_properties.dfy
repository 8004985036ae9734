/** Properties of the scope engine's reference definitions: what the catalog tree holds,
    what projecting a client's scope string does to it, what flattening emits, and how the
    three compose. */
module ScopeProperties {
  import opened Errors
  import opened GoStrings
  import opened ScopeModel

  // ---------------------------------------------------------------------------
  // Catalog tree
  // ---------------------------------------------------------------------------

  /** `k` is the first catalog entry that is rejected. */
  ghost predicate FirstRejectedEntry(scopes: seq<string>, k: int)
  {
    && 0 <= k < |scopes| && !IsCatalogEntry(scopes[k])
    && forall j :: 0 <= j < k ==> IsCatalogEntry(scopes[j])
  }

  /** The catalog holds the leaf `c.i` (with dot-free parts) verbatim. */
  ghost predicate InCatalog(scopes: seq<string>, c: string, i: string)
  {
    '.' !in c && '.' !in i && c + "." + i in scopes
  }

  /** The catalog tree is built iff every entry is a level-2 scope. */
  lemma {:induction false} CatalogTreeAccepts(scopes: seq<string>)
    ensures CatalogTree(scopes).Success? <==> forall k :: 0 <= k < |scopes| ==> IsCatalogEntry(scopes[k])
    decreases |scopes|
  {
    if |scopes| > 0 {
      var n := |scopes| - 1;
      var prefix := scopes[..n];
      CatalogTreeAccepts(prefix);
      assert forall k :: 0 <= k < n ==> scopes[k] == prefix[k];
    }
  }

  /** A failed build reports the error of the first rejected entry (and returns no tree). */
  lemma {:induction false} CatalogTreeError(scopes: seq<string>)
    requires CatalogTree(scopes).Failure?
    ensures exists k :: FirstRejectedEntry(scopes, k) && CatalogTree(scopes).error == CatalogEntryError(scopes[k])
    decreases |scopes|
  {
    var n := |scopes| - 1;
    var prefix := scopes[..n];
    if CatalogTree(prefix).Failure? {
      assert CatalogTree(scopes) == CatalogTree(prefix);
      CatalogTreeError(prefix);
      var k :| FirstRejectedEntry(prefix, k) && CatalogTree(prefix).error == CatalogEntryError(prefix[k]);
      FirstRejectedInPrefix(scopes, n, k);
    } else {
      assert CatalogTree(scopes) == Failure(CatalogEntryError(scopes[n]));
      CatalogTreeAccepts(prefix);
      assert forall j :: 0 <= j < n ==> scopes[j] == prefix[j];
      assert FirstRejectedEntry(scopes, n);
    }
  }

  /** The first rejected entry of a prefix is the first rejected entry of the whole list. */
  lemma FirstRejectedInPrefix(scopes: seq<string>, n: nat, k: int)
    requires n <= |scopes| && FirstRejectedEntry(scopes[..n], k)
    ensures FirstRejectedEntry(scopes, k) && scopes[k] == scopes[..n][k]
  {
    forall j | 0 <= j < k
      ensures IsCatalogEntry(scopes[j])
    {
      assert scopes[j] == scopes[..n][j];
    }
  }

  /** Adding a leaf keeps the catalog shape and adds exactly that (category, item) pair. */
  lemma AddLeafEffect(t: ScopeList, c: string, i: string)
    requires IsCatalogTree(t)
    ensures IsCatalogTree(AddLeaf(t, c, i))
    ensures forall c', i' :: (c' in AddLeaf(t, c, i) && i' in AddLeaf(t, c, i)[c'].items) <==>
                             ((c' in t && i' in t[c'].items) || (c' == c && i' == i))
  {
  }

  /** On success the catalog tree is all-false with names equal to keys, and it holds
      category `c` with item `i` exactly when `c.i` is one of the catalog strings. */
  lemma {:induction false} CatalogTreeContents(scopes: seq<string>)
    requires CatalogTree(scopes).Success?
    ensures IsCatalogTree(CatalogTree(scopes).value)
    ensures var t := CatalogTree(scopes).value;
      forall c, i :: (c in t && i in t[c].items) <==> InCatalog(scopes, c, i)
    decreases |scopes|
  {
    if |scopes| > 0 {
      var n := |scopes| - 1;
      var prefix := scopes[..n];
      var last := scopes[n];
      CatalogTreeContents(prefix);
      var tp := CatalogTree(prefix).value;
      var p := ParseScope(last);
      AddLeafEffect(tp, p.category, p.item);
      var t := CatalogTree(scopes).value;
      assert t == AddLeaf(tp, p.category, p.item);
      assert scopes == prefix + [last];
      assert ParseScope(last) == Parsed(2, p.category, p.item, None);
      forall c, i ensures (c in t && i in t[c].items) <==> InCatalog(scopes, c, i) {
        ParseLevelTwoIff(last, c, i);
        assert (c in tp && i in tp[c].items) <==> InCatalog(prefix, c, i);
        assert (c + "." + i in scopes) <==> (c + "." + i in prefix || c + "." + i == last);
      }
    }
  }

  /** Two catalog-shaped trees with the same (category, item) pairs are equal. */
  lemma CatalogTreesEqual(t: ScopeList, u: ScopeList)
    requires IsCatalogTree(t) && IsCatalogTree(u)
    requires forall c, i :: (c in t && i in t[c].items) <==> (c in u && i in u[c].items)
    ensures t == u
  {
    forall c | c in t ensures c in u {
      var i :| i in t[c].items;
    }
    forall c | c in u ensures c in t {
      var i :| i in u[c].items;
    }
    forall c | c in t ensures t[c] == u[c] {
      assert t[c].items == u[c].items;
    }
  }

  /** Rebuilding from the same catalog strings, in any order and with any repetition,
      gives the same tree. */
  lemma CatalogTreeOrderFree(s1: seq<string>, s2: seq<string>)
    requires CatalogTree(s1).Success?
    requires forall x :: x in s1 <==> x in s2
    ensures CatalogTree(s2) == CatalogTree(s1)
  {
    CatalogTreeAccepts(s1);
    forall k | 0 <= k < |s2| ensures IsCatalogEntry(s2[k]) {
      assert s2[k] in s1;
      var j :| 0 <= j < |s1| && s1[j] == s2[k];
    }
    CatalogTreeAccepts(s2);
    var t1 := CatalogTree(s1).value;
    var t2 := CatalogTree(s2).value;
    CatalogTreeContents(s1);
    CatalogTreeContents(s2);
    forall c, i ensures (c in t1 && i in t1[c].items) <==> (c in t2 && i in t2[c].items) {
      assert InCatalog(s1, c, i) <==> InCatalog(s2, c, i);
    }
    CatalogTreesEqual(t1, t2);
  }

  /** Repeating a catalog string changes neither the tree nor the error. */
  lemma CatalogTreeIgnoresDuplicates(scopes: seq<string>, k: nat)
    requires k < |scopes|
    ensures CatalogTree(scopes + [scopes[k]]) == CatalogTree(scopes)
  {
    var s := scopes + [scopes[k]];
    assert s[..|s| - 1] == scopes;
    if CatalogTree(scopes).Success? {
      CatalogTreeOrderFree(scopes, s);
    }
  }

  // ---------------------------------------------------------------------------
  // Client projection
  // ---------------------------------------------------------------------------

  /** One token keeps the shape, sets only the flag it names, and clears nothing. */
  lemma ApplyTokenEffect(t: ScopeList, token: string)
    ensures SameShape(t, ApplyToken(t, token))
    ensures var r := ApplyToken(t, token);
      forall c :: c in t ==> (r[c].isAuth <==> t[c].isAuth || ParseScope(token) == Parsed(1, c, "", None))
    ensures var r := ApplyToken(t, token);
      forall c, i :: c in t && i in t[c].items ==>
        (r[c].items[i].isAuth <==> t[c].items[i].isAuth || ParseScope(token) == Parsed(2, c, i, None))
  {
  }

  /** Projecting a client's tokens adds and removes no node, renames nothing, and sets a
      flag exactly when it was already set or some token names that node at its own level:
      a category flag only for a level-1 token, an item flag only for a level-2 token. */
  lemma {:induction false} ApplyTokensEffect(t: ScopeList, tokens: seq<string>)
    ensures SameShape(t, ApplyTokens(t, tokens))
    ensures var r := ApplyTokens(t, tokens);
      forall c :: c in t ==> (r[c].isAuth <==> t[c].isAuth || GrantsCategory(tokens, c))
    ensures var r := ApplyTokens(t, tokens);
      forall c, i :: c in t && i in t[c].items ==>
        (r[c].items[i].isAuth <==> t[c].items[i].isAuth || GrantsItem(tokens, c, i))
    decreases |tokens|
  {
    if |tokens| > 0 {
      var t1 := ApplyToken(t, tokens[0]);
      var rest := tokens[1..];
      ApplyTokenEffect(t, tokens[0]);
      ApplyTokensEffect(t1, rest);
      var r := ApplyTokens(t, tokens);
      forall c | c in t ensures GrantsCategory(tokens, c) <==>
        ParseScope(tokens[0]) == Parsed(1, c, "", None) || GrantsCategory(rest, c)
      {
        if GrantsCategory(rest, c) {
          var k :| 0 <= k < |rest| && ParseScope(rest[k]) == Parsed(1, c, "", None);
          assert tokens[k + 1] == rest[k];
        }
        if GrantsCategory(tokens, c) {
          var k :| 0 <= k < |tokens| && ParseScope(tokens[k]) == Parsed(1, c, "", None);
          if k > 0 { assert rest[k - 1] == tokens[k]; }
        }
      }
      forall c, i | c in t && i in t[c].items ensures GrantsItem(tokens, c, i) <==>
        ParseScope(tokens[0]) == Parsed(2, c, i, None) || GrantsItem(rest, c, i)
      {
        if GrantsItem(rest, c, i) {
          var k :| 0 <= k < |rest| && ParseScope(rest[k]) == Parsed(2, c, i, None);
          assert tokens[k + 1] == rest[k];
        }
        if GrantsItem(tokens, c, i) {
          var k :| 0 <= k < |tokens| && ParseScope(tokens[k]) == Parsed(2, c, i, None);
          if k > 0 { assert rest[k - 1] == tokens[k]; }
        }
      }
    }
  }

  /** An empty stored scope string leaves the tree as it was. */
  lemma ApplyEmptyScopeString(t: ScopeList)
    ensures ApplyTokens(t, Split("", ' ')) == t
  {
    assert Split("", ' ') == [""];
    assert ApplyTokens(t, [""]) == ApplyTokens(ApplyToken(t, ""), []);
  }

  /** A category is granted as a whole only by a non-empty token equal to its name. */
  lemma GrantsCategoryIff(tokens: seq<string>, c: string)
    ensures GrantsCategory(tokens, c) <==> c != [] && '.' !in c && c in tokens
  {
    if c != [] && '.' !in c && c in tokens {
      var k :| 0 <= k < |tokens| && tokens[k] == c;
      ParseLevelOneIff(tokens[k], c);
    }
    if GrantsCategory(tokens, c) {
      var k :| 0 <= k < |tokens| && ParseScope(tokens[k]) == Parsed(1, c, "", None);
      ParseLevelOneIff(tokens[k], c);
    }
  }

  /** An item is granted only by a token equal to `category.item`. */
  lemma GrantsItemIff(tokens: seq<string>, c: string, i: string)
    ensures GrantsItem(tokens, c, i) <==> '.' !in c && '.' !in i && c + "." + i in tokens
  {
    if '.' !in c && '.' !in i && c + "." + i in tokens {
      var k :| 0 <= k < |tokens| && tokens[k] == c + "." + i;
      ParseLevelTwoIff(tokens[k], c, i);
    }
    if GrantsItem(tokens, c, i) {
      var k :| 0 <= k < |tokens| && ParseScope(tokens[k]) == Parsed(2, c, i, None);
      ParseLevelTwoIff(tokens[k], c, i);
    }
  }

  // ---------------------------------------------------------------------------
  // Flattening
  // ---------------------------------------------------------------------------

  /** Any entry may be taken first: the sum does not depend on the iteration order. */
  lemma {:induction false} SumMapPick<V>(m: map<string, V>, f: (string, V) -> multiset<string>, k: string)
    requires k in m
    ensures SumMap(m, f) == f(k, m[k]) + SumMap(m - {k}, f)
    decreases |m|
  {
    var j :| j in m && SumMap(m, f) == f(j, m[j]) + SumMap(m - {j}, f);
    if j != k {
      var mj := m - {j};
      var mk := m - {k};
      assert |mj| < |m| by { assert mj.Keys < m.Keys; }
      assert |mk| < |m| by { assert mk.Keys < m.Keys; }
      SumMapPick(mj, f, k);
      SumMapPick(mk, f, j);
      assert mj - {k} == mk - {j};
    }
  }

  /** An element is in the sum iff some entry contributes it. */
  lemma {:induction false} SumMapMember<V>(m: map<string, V>, f: (string, V) -> multiset<string>, s: string)
    ensures s in SumMap(m, f) <==> exists k :: k in m && s in f(k, m[k])
    decreases |m|
  {
    if m != map[] {
      var j :| j in m;
      SumMapPick(m, f, j);
      var mj := m - {j};
      assert |mj| < |m| by { assert mj.Keys < m.Keys; }
      SumMapMember(mj, f, s);
      if exists k :: k in m && s in f(k, m[k]) {
        var k :| k in m && s in f(k, m[k]);
        if k != j { assert k in mj; }
      }
    }
  }

  /** Category `c` of `t` contributes scope `s` to the flattened list. */
  ghost predicate Emits(t: ScopeList, c: string, s: string)
    requires c in t
  {
    if t[c].isAuth then s == t[c].name
    else exists i :: i in t[c].items && t[c].items[i].isAuth && s == t[c].name + "." + t[c].items[i].name
  }

  /** Flattening emits a granted category's name and none of its items, and
      `category.item` for each granted item of an ungranted category; nothing else. */
  lemma GrantedScopesMember(t: ScopeList, s: string)
    ensures s in GrantedScopes(t) <==> exists c :: c in t && Emits(t, c, s)
  {
    SumMapMember(t, CategoryEmit(), s);
    forall c | c in t ensures s in CategoryEmit()(c, t[c]) <==> Emits(t, c, s) {
      var cat := t[c];
      assert CategoryEmit()(c, cat) == CategoryScopes(cat);
      if !cat.isAuth {
        var f := ItemEmit(cat.name);
        SumMapMember(cat.items, f, s);
        forall i | i in cat.items
          ensures s in f(i, cat.items[i]) <==> cat.items[i].isAuth && s == cat.name + "." + cat.items[i].name
        {
        }
        assert s in ItemScopes(cat.name, cat.items) <==> exists i :: i in cat.items && s in f(i, cat.items[i]);
      }
    }
  }

  // ---------------------------------------------------------------------------
  // Composition
  // ---------------------------------------------------------------------------

  /** No level-2 token sits under a category that a level-1 token already grants. */
  ghost predicate NonRedundant(tokens: seq<string>)
  {
    forall k :: 0 <= k < |tokens| && ParseScope(tokens[k]).level == 2 ==>
      !GrantsCategory(tokens, ParseScope(tokens[k]).category)
  }

  /** Flattening undoes projection: granting a list of catalog-valid, non-redundant tokens
      on a fresh catalog tree and flattening the result gives back exactly those tokens
      (as a set). */
  lemma FlattenAfterProjection(scopes: seq<string>, tokens: seq<string>)
    requires CatalogTree(scopes).Success?
    requires forall k :: 0 <= k < |tokens| ==> Known(CatalogTree(scopes).value, tokens[k])
    requires NonRedundant(tokens)
    ensures forall s :: s in GrantedScopes(ApplyTokens(CatalogTree(scopes).value, tokens)) <==> s in tokens
  {
    var t := CatalogTree(scopes).value;
    var r := ApplyTokens(t, tokens);
    CatalogTreeContents(scopes);
    ApplyTokensEffect(t, tokens);
    forall s ensures s in GrantedScopes(r) <==> s in tokens {
      GrantedScopesMember(r, s);
      if s in tokens {
        TokenIsEmitted(t, tokens, s);
      }
      if exists c :: c in r && Emits(r, c, s) {
        var c :| c in r && Emits(r, c, s);
        EmittedIsToken(t, tokens, c, s);
      }
    }
  }

  /** Half of FlattenAfterProjection: every token is emitted by its own category. */
  lemma TokenIsEmitted(t: ScopeList, tokens: seq<string>, s: string)
    requires IsCatalogTree(t)
    requires forall k :: 0 <= k < |tokens| ==> Known(t, tokens[k])
    requires NonRedundant(tokens)
    requires s in tokens
    ensures var r := ApplyTokens(t, tokens); ParseScope(s).category in r && Emits(r, ParseScope(s).category, s)
  {
    var r := ApplyTokens(t, tokens);
    ApplyTokensEffect(t, tokens);
    var k :| 0 <= k < |tokens| && tokens[k] == s;
    var p := ParseScope(s);
    assert Known(t, s);
    ParseScopeSpec(s);
    var c := p.category;
    assert r[c].name == c;
    if p.level == 1 {
      assert GrantsCategory(tokens, c);
      assert r[c].isAuth;
    } else {
      var i := p.item;
      assert GrantsItem(tokens, c, i);
      assert !GrantsCategory(tokens, c);
      assert !r[c].isAuth;
      assert r[c].items[i].isAuth && r[c].items[i].name == i;
    }
  }

  /** Half of FlattenAfterProjection: everything emitted is one of the tokens. */
  lemma EmittedIsToken(t: ScopeList, tokens: seq<string>, c: string, s: string)
    requires IsCatalogTree(t)
    requires c in ApplyTokens(t, tokens) && Emits(ApplyTokens(t, tokens), c, s)
    ensures s in tokens
  {
    var r := ApplyTokens(t, tokens);
    ApplyTokensEffect(t, tokens);
    assert r[c].name == c;
    if r[c].isAuth {
      assert GrantsCategory(tokens, c);
      GrantsCategoryIff(tokens, c);
    } else {
      var i :| i in r[c].items && r[c].items[i].isAuth && s == r[c].name + "." + r[c].items[i].name;
      assert r[c].items[i].name == i;
      assert GrantsItem(tokens, c, i);
      GrantsItemIff(tokens, c, i);
    }
  }

  /** The end-to-end authorization answer for a catalog leaf `c.i`: after projecting a
      client's stored scope string, `CheckScope` grants `c.i` exactly when the string holds
      the token `c` (non-empty) or the token `c.i`. */
  lemma CheckScopeAfterProjection(scopes: seq<string>, clientScopeStr: string, c: string, i: string)
    requires CatalogTree(scopes).Success?
    requires InCatalog(scopes, c, i)
    ensures var tokens := Split(clientScopeStr, ' ');
      CheckScope(ApplyTokens(CatalogTree(scopes).value, tokens), c + "." + i)
        == Success((c != [] && c in tokens) || c + "." + i in tokens)
  {
    var t := CatalogTree(scopes).value;
    var tokens := Split(clientScopeStr, ' ');
    CatalogTreeContents(scopes);
    assert InCatalog(scopes, c, i);
    ApplyTokensEffect(t, tokens);
    ParseLeaf(c, i);
    GrantsCategoryIff(tokens, c);
    GrantsItemIff(tokens, c, i);
  }

  /** A scope whose category is not in the catalog is never authorized, whatever the
      client's stored string says. */
  lemma CheckScopeUnknownCategory(scopes: seq<string>, clientScopeStr: string, scope: string)
    requires CatalogTree(scopes).Success?
    requires ParseScope(scope).err.None? && ParseScope(scope).category !in CatalogTree(scopes).value
    ensures CheckScope(ApplyTokens(CatalogTree(scopes).value, Split(clientScopeStr, ' ')), scope) == Success(false)
  {
    ApplyTokensEffect(CatalogTree(scopes).value, Split(clientScopeStr, ' '));
  }
}
