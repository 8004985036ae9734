/** The scope grammar and the two-level scope tree of `internal/oauth/library/scope.go`:
    the types, `ParseScope`, `CheckScope`, and the reference definitions that the
    imperative library functions (module Library) are proved against. */
module ScopeModel {
  import opened Errors
  import opened GoStrings

  // ---------------------------------------------------------------------------
  // Scope grammar
  // ---------------------------------------------------------------------------

  const EmptyScopeError: AppError := ParamInvalid("scope empty error.")
  const FormatError: AppError := ParamInvalid("scope format error.")
  const LevelError: AppError := ParamInvalid("scope level error.")
  const UnknownScopeError: AppError := ParamInvalid("scope not found error.")

  /** The four results of `ParseScope`: level, category, item and error. */
  datatype Parsed = Parsed(level: int, category: string, item: string, err: Option<AppError>)

  /** `ParseScope`: a scope is `category` (level 1) or `category.item` (level 2); the
      empty string and strings of three or more segments are rejected with level 0 and
      empty parts. Lemma ParseScopeSpec states how the parts relate to the input. */
  function ParseScope(scope: string): (r: Parsed)
    ensures r.err.Some? ==> r.level == 0 && r.category == [] && r.item == []
    ensures r.err.None? ==> (r.level == 1 || r.level == 2) && '.' !in r.category && '.' !in r.item
    ensures r.err.None? && r.level == 1 ==> r.category != [] && r.item == []
  {
    if |scope| == 0 then Parsed(0, "", "", Some(EmptyScopeError))
    else
      var arr := Split(scope, '.');
      if |arr| == 1 then
        assert Join(arr, '.') == arr[0];
        Parsed(1, arr[0], "", None)
      else if |arr| == 2 then Parsed(2, arr[0], arr[1], None)
      else Parsed(0, "", "", Some(FormatError))
  }

  /** What `ParseScope` returns: the empty-scope error for "", the format error for three
      or more segments, and otherwise the level equal to the number of segments with the
      segments as category and item, so that the input is `category` or
      `category.item`. */
  lemma ParseScopeSpec(scope: string)
    ensures var r := ParseScope(scope);
      && (scope == [] ==> r == Parsed(0, "", "", Some(EmptyScopeError)))
      && (scope != [] && Occurrences(scope, '.') >= 2 ==> r == Parsed(0, "", "", Some(FormatError)))
      && (r.err.None? <==> scope != [] && Occurrences(scope, '.') <= 1)
      && (r.err.None? ==>
          && r.level == |Split(scope, '.')|
          && r.category == Split(scope, '.')[0]
          && (r.level == 1 ==> scope == r.category)
          && (r.level == 2 ==> r.item == Split(scope, '.')[1] && scope == r.category + "." + r.item))
  {
    SplitCount(scope, '.');
    var arr := Split(scope, '.');
    if scope != [] && |arr| == 2 {
      assert arr == [arr[0]] + [arr[1]];
      assert Join(arr, '.') == arr[0] + "." + arr[1];
    }
  }

  /** A non-empty dot-free category parses as exactly that level-1 scope. */
  lemma ParseCategory(c: string)
    requires c != [] && '.' !in c
    ensures ParseScope(c) == Parsed(1, c, "", None)
  {
    assert Split(c, '.') == [c];
  }

  /** `category.item` with dot-free parts parses back into those parts. */
  lemma ParseLeaf(c: string, i: string)
    requires '.' !in c && '.' !in i
    ensures ParseScope(c + "." + i) == Parsed(2, c, i, None)
  {
    assert Join([c, i], '.') == c + "." + i by {
      assert [c, i][1..] == [i];
    }
    SplitJoin([c, i], '.');
  }

  /** The level-1 parse results name exactly the non-empty dot-free strings. */
  lemma ParseLevelOneIff(s: string, c: string)
    ensures ParseScope(s) == Parsed(1, c, "", None) <==> s == c && c != [] && '.' !in c
  {
    ParseScopeSpec(s);
    if s == c && c != [] && '.' !in c {
      ParseCategory(c);
    }
  }

  /** The level-2 parse results name exactly the strings `c.i` with dot-free parts. */
  lemma ParseLevelTwoIff(s: string, c: string, i: string)
    ensures ParseScope(s) == Parsed(2, c, i, None) <==> s == c + "." + i && '.' !in c && '.' !in i
  {
    ParseScopeSpec(s);
    if s == c + "." + i && '.' !in c && '.' !in i {
      ParseLeaf(c, i);
    }
  }

  // ---------------------------------------------------------------------------
  // The scope tree (`model.ScopeList`)
  // ---------------------------------------------------------------------------

  datatype ScopeItem = ScopeItem(name: string, isAuth: bool)

  datatype ScopeCategory = ScopeCategory(name: string, items: map<string, ScopeItem>, isAuth: bool)

  /** Category name to category node. */
  type ScopeList = map<string, ScopeCategory>

  /** The shape `GenerateScopeList` builds: every node named by its key, every flag false,
      every category holding at least one item. */
  ghost predicate IsCatalogTree(t: ScopeList)
  {
    forall c :: c in t ==>
      && t[c].name == c && !t[c].isAuth && t[c].items != map[]
      && forall i :: i in t[c].items ==> t[c].items[i] == ScopeItem(i, false)
  }

  /** Two trees with the same keys, node names and item keys: they differ in flags only. */
  ghost predicate SameShape(t: ScopeList, u: ScopeList)
  {
    && t.Keys == u.Keys
    && forall c :: c in t ==>
      && u[c].name == t[c].name && u[c].items.Keys == t[c].items.Keys
      && forall i :: i in t[c].items ==> u[c].items[i].name == t[c].items[i].name
  }

  // ---------------------------------------------------------------------------
  // Catalog tree (reference for `GenerateScopeList`)
  // ---------------------------------------------------------------------------

  /** A catalog entry is accepted when it parses at level 2. */
  predicate IsCatalogEntry(s: string)
  {
    var p := ParseScope(s);
    p.err.None? && p.level == 2
  }

  /** The error `GenerateScopeList` reports for a rejected catalog entry. */
  function CatalogEntryError(s: string): (e: AppError)
    requires !IsCatalogEntry(s)
  {
    var p := ParseScope(s);
    if p.err.Some? then p.err.value else LevelError
  }

  /** Adds the item `i` under category `c`, creating either node if it is missing. */
  function AddLeaf(t: ScopeList, c: string, i: string): (t': ScopeList)
  {
    var cat := if c in t then t[c] else ScopeCategory(c, map[], false);
    var cat' := if i in cat.items then cat else cat.(items := cat.items[i := ScopeItem(i, false)]);
    t[c := cat']
  }

  /** The tree built from the catalog strings, left to right; the first rejected entry
      makes the whole result that entry's error. */
  function CatalogTree(scopes: seq<string>): (r: Result<ScopeList>)
    decreases |scopes|
  {
    if |scopes| == 0 then Success(map[])
    else
      match CatalogTree(scopes[..|scopes| - 1])
      case Failure(e) => Failure(e)
      case Success(t) =>
        var last := scopes[|scopes| - 1];
        if !IsCatalogEntry(last) then Failure(CatalogEntryError(last))
        else
          var p := ParseScope(last);
          Success(AddLeaf(t, p.category, p.item))
  }

  // ---------------------------------------------------------------------------
  // Client projection (reference for `GenerateClientScopeList`)
  // ---------------------------------------------------------------------------

  /** One stored token applied to the tree: a level-1 token flags its category, a level-2
      token flags its item; unparsable tokens and unknown names change nothing. */
  function ApplyToken(t: ScopeList, token: string): (t': ScopeList)
  {
    var p := ParseScope(token);
    if p.err.Some? then t
    else if p.level == 1 then
      if p.category in t then t[p.category := t[p.category].(isAuth := true)] else t
    else if p.category in t && p.item in t[p.category].items then
      var cat := t[p.category];
      t[p.category := cat.(items := cat.items[p.item := cat.items[p.item].(isAuth := true)])]
    else t
  }

  /** The tokens applied from first to last. */
  function ApplyTokens(t: ScopeList, tokens: seq<string>): (t': ScopeList)
    decreases |tokens|
  {
    if |tokens| == 0 then t else ApplyTokens(ApplyToken(t, tokens[0]), tokens[1..])
  }

  /** Some token of the list grants category `c` as a whole. */
  ghost predicate GrantsCategory(tokens: seq<string>, c: string)
  {
    exists k :: 0 <= k < |tokens| && ParseScope(tokens[k]) == Parsed(1, c, "", None)
  }

  /** Some token of the list grants item `i` of category `c`. */
  ghost predicate GrantsItem(tokens: seq<string>, c: string, i: string)
  {
    exists k :: 0 <= k < |tokens| && ParseScope(tokens[k]) == Parsed(2, c, i, None)
  }

  // ---------------------------------------------------------------------------
  // Flattening (reference for `GetScopesFromScopeList`)
  // ---------------------------------------------------------------------------

  /** The sum over a map of a multiset per entry; the order of the entries is immaterial
      (lemma SumMapPick), as with Go's map iteration. */
  ghost function SumMap<V>(m: map<string, V>, f: (string, V) -> multiset<string>): multiset<string>
    decreases |m|
  {
    if m == map[] then multiset{}
    else
      var k :| k in m;
      assert |m - {k}| < |m| by { assert m.Keys - {k} < m.Keys; }
      f(k, m[k]) + SumMap(m - {k}, f)
  }

  /** What one item contributes: `category.item` when it is granted. */
  ghost function ItemEmit(categoryName: string): (string, ScopeItem) -> multiset<string>
  {
    (k: string, it: ScopeItem) => if it.isAuth then multiset{categoryName + "." + it.name} else multiset{}
  }

  /** The scopes contributed by the granted items of an ungranted category. */
  ghost function ItemScopes(categoryName: string, items: map<string, ScopeItem>): multiset<string>
  {
    SumMap(items, ItemEmit(categoryName))
  }

  /** A granted category contributes its name alone; otherwise its granted items. */
  ghost function CategoryScopes(cat: ScopeCategory): multiset<string>
  {
    if cat.isAuth then multiset{cat.name} else ItemScopes(cat.name, cat.items)
  }

  ghost function CategoryEmit(): (string, ScopeCategory) -> multiset<string>
  {
    (k: string, cat: ScopeCategory) => CategoryScopes(cat)
  }

  /** The scopes a tree grants, as a multiset. */
  ghost function GrantedScopes(t: ScopeList): multiset<string>
  {
    SumMap(t, CategoryEmit())
  }

  // ---------------------------------------------------------------------------
  // Validation (reference for `ValidateScopes`) and the authorization query
  // ---------------------------------------------------------------------------

  /** A candidate passes validation: it parses, its category exists and, at level 2,
      so does its item. */
  predicate Known(t: ScopeList, s: string)
  {
    var p := ParseScope(s);
    && p.err.None?
    && p.category in t
    && (p.level == 2 ==> p.item in t[p.category].items)
  }

  /** The error `ValidateScopes` reports for a rejected candidate. */
  function CandidateError(t: ScopeList, s: string): (e: AppError)
    requires !Known(t, s)
  {
    var p := ParseScope(s);
    if p.err.Some? then p.err.value else UnknownScopeError
  }

  /** `CheckScope`: is `scope` authorized by the flags of the tree? A level-1 query on an
      ungranted category falls through to the lookup of the empty item name, as the
      source does. */
  function CheckScope(t: ScopeList, scope: string): (r: Result<bool>)
    ensures ParseScope(scope).err.Some? ==> r == Failure(ParseScope(scope).err.value)
    ensures ParseScope(scope).err.None? ==> r.Success? && var p := ParseScope(scope);
      && (p.category !in t ==> !r.value)
      && (p.category in t && t[p.category].isAuth ==> r.value)
      && (p.category in t && !t[p.category].isAuth ==>
            (r.value <==> p.item in t[p.category].items && t[p.category].items[p.item].isAuth))
  {
    var p := ParseScope(scope);
    if p.err.Some? then Failure(p.err.value)
    else if p.category !in t then Success(false)
    else if t[p.category].isAuth then Success(true)
    else if p.item !in t[p.category].items then Success(false)
    else Success(t[p.category].items[p.item].isAuth)
  }
}
