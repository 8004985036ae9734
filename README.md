# OAuth2 console scope engine: a Dafny model

This project models the scope engine of the OAuth2 console (`internal/oauth/library/scope.go`)
and the two services that drive it: the client service and the scope service. It also models
the cache-key helpers that decide which Redis keys the services invalidate.

A scope is either `category` or `category.item`. A client's granted scopes are stored as one
string of tokens separated by single spaces, in the style of section 3.3 of RFC 6749. The
engine does the following:

- parses a scope (`ParseScope`);
- builds a two-level catalog tree from the enabled catalog strings (`GenerateScopeList`);
- projects a client's stored string onto that tree (`GenerateClientScopeList`);
- flattens a submitted tree back into tokens (`GetScopesFromScopeList`);
- validates tokens against the catalog, stopping at the first bad one (`ValidateScopes`);
- answers authorization queries (`CheckScope`).

The services wrap the engine in a fixed sequence: account gate, lookup or uniqueness check,
scope derivation or validation, store write, then best-effort cache invalidation.

Layout:

- `errors.dfy`: the `AppError` values (status, code, message) and the Option/Result wrappers
  that replace Go's `(value, error)` pairs.
- `go_strings.dfy`: Go's `strings.Split` and `strings.Join` on one separator character, with
  their round trip.
- `scope_model.dfy`:
  - `ParseScope` and `CheckScope`;
  - the scope tree as `map<string, ScopeCategory>` with value-typed items;
  - the reference definitions the imperative code is proved against: `CatalogTree` (a
    fail-fast left fold), `ApplyTokens` (the projection), `GrantedScopes` (the flattening,
    as a multiset) and `Known` (the validation test).
- `scope_properties.dfy`: properties of those definitions:
  - exact catalog contents;
  - independence from order and duplicates;
  - what projection sets and never touches;
  - flattening undoing projection;
  - end-to-end `CheckScope` answers.
- `library.dfy`: the loops of `scope.go` as methods proved against the reference definitions.
- `cache_keys.dfy`: the key helpers of `internal/oauth/client/repository.go` and
  `internal/oauth/scope/repository.go`, the Redis command each invalidation issues, and glob
  matching for the sweep pattern.
- `collaborators.dfy`: the store records and the account gate shared by both services, the
  64-bit pagination arithmetic, the table operations the stores perform, and the log of store
  and cache calls.
- `client_service.dfy` and `scope_service.dfy`: the two services as classes. Each holds its
  table and a log of every call it makes. Each operation takes the set of calls that fail, so
  every error path is a branch of its contract.

## Model

| member | source | states |
|---|---|---|
| GoStrings.Split | internal/oauth/library/scope.go:176 | `strings.Split`: at least one part, no part contains the separator, and joining the parts with the separator rebuilds the input (so `""` splits to `[""]`) |
| GoStrings.SplitCount | internal/oauth/library/scope.go:176-177 | the number of parts, which is the level `ParseScope` reports, is the number of separators plus one |
| GoStrings.JoinSeparators | internal/oauth/client/service/service.go:245 | `strings.Join` of separator-free parts puts exactly one separator between neighbours: `n` parts give `n - 1` separators |
| GoStrings.SplitJoin | internal/oauth/client/service/service.go:245 | splitting a joined list gives the list back when no element contains the separator |
| ScopeModel.ParseScope | internal/oauth/library/scope.go:166-190 | on error, level 0 with empty category and item; on success, level 1 or 2 with dot-free parts, and a non-empty category and empty item at level 1 |
| ScopeModel.ParseScopeSpec | internal/oauth/library/scope.go:171-189 | `""` gives the empty-scope error; two or more dots give the format error; success iff the input is non-empty with at most one dot; the level is the segment count, the category the first segment, the item the second; the input is exactly `category` or `category.item` (so `"a."` is level 2 with item `""`) |
| ScopeModel.ParseCategory | internal/oauth/library/scope.go:176-181 | a non-empty dot-free string parses as a level-1 category |
| ScopeModel.ParseLeaf | internal/oauth/library/scope.go:176-184 | `c.i` with dot-free parts parses as level 2 with category `c` and item `i` |
| ScopeModel.ParseLevelOneIff | internal/oauth/library/scope.go:176-189 | a parse is `(1, c, "")` exactly when the input is `c`, non-empty and dot-free |
| ScopeModel.ParseLevelTwoIff | internal/oauth/library/scope.go:176-189 | a parse is `(2, c, i)` exactly when the input is `c.i` with dot-free parts |
| ScopeModel.CheckScope | internal/oauth/library/scope.go:70-95 | parse errors propagate; an unknown category gives false; a granted category gives true; otherwise true iff the named item exists and is granted |
| ScopeProperties.CatalogTreeAccepts | internal/oauth/library/scope.go:136-145 | the catalog builds iff every entry parses at level 2 |
| ScopeProperties.CatalogTreeError | internal/oauth/library/scope.go:136-145 | a failed build reports the error of the first rejected entry (parse error, or level error) |
| ScopeProperties.AddLeafEffect | internal/oauth/library/scope.go:147-160 | inserting a leaf keeps the catalog shape and adds exactly that (category, item) pair |
| ScopeProperties.CatalogTreeContents | internal/oauth/library/scope.go:133-164 | a built tree has all flags false and every node named by its key, and has category `c` with item `i` iff `c.i` is an entry |
| ScopeProperties.CatalogTreesEqual | internal/oauth/library/scope.go:147-160 | two catalog-shaped trees with the same (category, item) pairs are equal |
| ScopeProperties.CatalogTreeOrderFree | internal/oauth/library/scope.go:136-163 | entry lists with the same elements, in any order and with any repetition, build the same tree |
| ScopeProperties.CatalogTreeIgnoresDuplicates | internal/oauth/library/scope.go:147-160 | repeating an entry leaves the tree unchanged |
| ScopeProperties.ApplyTokenEffect | internal/oauth/library/scope.go:100-127 | one token never adds or removes keys or clears a flag; it sets a category flag only for a level-1 token naming it and an item flag only for a level-2 token naming it |
| ScopeProperties.ApplyTokensEffect | internal/oauth/library/scope.go:97-131 | projection keeps the shape; a category is granted iff it was, or some level-1 token names it; an item iff it was, or some level-2 token names it; no propagation between levels |
| ScopeProperties.ApplyEmptyScopeString | internal/oauth/library/scope.go:99-105 | an empty stored string leaves the tree unchanged |
| ScopeProperties.GrantsCategoryIff | internal/oauth/library/scope.go:102-115 | a token list grants category `c` iff `c` is non-empty, dot-free and one of the tokens |
| ScopeProperties.GrantsItemIff | internal/oauth/library/scope.go:102-126 | a token list grants item `c.i` iff both parts are dot-free and `c.i` is one of the tokens |
| ScopeProperties.SumMapPick | internal/oauth/library/scope.go:53-65 | the sum over a map is one chosen entry plus the sum over the rest, for whichever key iteration picks |
| ScopeProperties.SumMapMember | internal/oauth/library/scope.go:53-65 | a scope is in the sum iff some entry emits it |
| ScopeProperties.GrantedScopesMember | internal/oauth/library/scope.go:50-68 | a scope is flattened iff it is the name of a granted category, or `name.item` for a granted item of an ungranted category |
| ScopeProperties.FlattenAfterProjection | internal/oauth/library/scope.go:50-68 | projecting catalog-valid, non-redundant tokens onto a fresh catalog and flattening gives back exactly those tokens, as a set |
| ScopeProperties.TokenIsEmitted | internal/oauth/library/scope.go:53-64 | each such token is emitted by its own category after projection |
| ScopeProperties.EmittedIsToken | internal/oauth/library/scope.go:53-64 | whatever the projected catalog emits was one of the tokens |
| ScopeProperties.CheckScopeAfterProjection | internal/oauth/library/scope.go:70-95 | for a catalog leaf `c.i` and any stored string, `CheckScope` on the projected tree answers true iff the string holds token `c` or token `c.i` |
| ScopeProperties.CheckScopeUnknownCategory | internal/oauth/library/scope.go:78-81 | a scope whose category is not in the catalog is refused whatever the stored string says |
| Library.GenerateScopeList | internal/oauth/library/scope.go:133-164 | the loop builds `CatalogTree(scopes)`: success iff every entry is level 2, a catalog-shaped tree on success, the first rejected entry's error otherwise |
| Library.CatalogTreeUnchangedAfterFailure | internal/oauth/library/scope.go:139-145 | once a prefix fails, the whole list fails with the same error, so no partial tree is returned |
| Library.GenerateClientScopeList | internal/oauth/library/scope.go:97-131 | the loop yields `ApplyTokens` of the string split on single spaces, keeps the shape, and leaves the tree unchanged for an empty string |
| Library.GetScopesFromScopeList | internal/oauth/library/scope.go:50-68 | the emitted scopes, as a multiset, are exactly `GrantedScopes` of the tree, whatever order the map iteration picks |
| Library.GrantedItemScopes | internal/oauth/library/scope.go:59-64 | the inner loop emits `category.item` exactly for the granted items |
| Library.GrantedScopesPick | internal/oauth/library/scope.go:53-58 | the flattening of a tree is one chosen category's scopes plus those of the others |
| Library.ItemScopesPick | internal/oauth/library/scope.go:59-64 | the flattening of a category's items is one chosen item's scope plus those of the others |
| Library.EmptySums | internal/oauth/library/scope.go:52 | an empty tree, or an empty item map, flattens to nothing |
| Library.ValidateScopes | internal/oauth/library/scope.go:10-48 | success iff every token is known (parses, its category exists, and at level 2 its item exists); on success the input list itself in input order; otherwise the error of the first unknown token |
| ClientKeys.GetClientScopeListKey | internal/oauth/client/repository.go:22-24 | the key is `client:` + id + `:scope_list`, 18 characters longer than the id |
| ClientKeys.ClientScopeListKeyInjective | internal/oauth/client/repository.go:22-24 | distinct client ids give distinct keys |
| ScopeKeys.GetScopeHashKey | internal/oauth/scope/repository.go:21-23 | the lookup hash is the constant key `scope`, which is never a client's scope-list key |
| ScopeKeys.GetScopeKey | internal/oauth/scope/repository.go:25-27 | the field is `path:method`, with the separator right after the path |
| ScopeKeys.LastColon | internal/oauth/scope/repository.go:25-27 | finds the last `:` of a field, or reports that there is none |
| ScopeKeys.ScopeKeyRecoverable | internal/oauth/scope/repository.go:25-27 | when the method has no `:`, splitting the field at its last `:` recovers path and method |
| Glob.MatchLiteral | internal/oauth/client/repository/redis.go:24-27 | a pattern without `*` matches only itself |
| Glob.MatchLiteralPrefix | internal/oauth/client/repository/redis.go:24-27 | a literal prefix of a pattern must match the same prefix of the key |
| Glob.MatchStarSuffix | internal/oauth/client/repository/redis.go:24-27 | `*` then a literal matches exactly the keys ending in that literal |
| CacheKeys.CommandOf | internal/oauth/client/repository/redis.go:17-43 | a client invalidation issues `Del` of that client's scope-list key only; the catalog-wide one scans for the pattern `GetClientScopeListKey("*")`; an endpoint invalidation (the scope store's `DeleteOne`, internal/oauth/scope/repository/redis.go lines 17-22) issues `HDel` on hash `GetScopeHashKey()`, on a field that splits back into the endpoint's path and method when the method has no `:` |
| CacheKeys.SweepMatchesExactlyClientKeys | internal/oauth/client/repository/redis.go:24-27 | the sweep pattern `GetClientScopeListKey("*")` matches a key iff it is some client's scope-list key |
| CacheKeys.ClientInvalidationRemovesOneKey | internal/oauth/client/repository/redis.go:17-21 | the per-client invalidation deletes exactly `GetClientScopeListKey(clientId)` |
| CacheKeys.SweepRemovesAllClientKeys | internal/oauth/client/repository/redis.go:24-43 | the catalog-wide invalidation deletes every per-client key and nothing else |
| CacheKeys.EndpointInvalidationTarget | internal/oauth/scope/repository/redis.go:17-22 | the endpoint invalidation deletes field `path:method` of hash `scope` |
| Collaborators.AccountGate | internal/oauth/client/service/service.go:35-44 | an active account passes; a failed lookup gives 500 UnknownError "find account error."; a missing or disabled account gives 400 ResourceNotFoundError "account not found." |
| Collaborators.Wrap64 | internal/oauth/client/service/service.go:60 | Go `int` arithmetic: the result is a 64-bit value congruent to the exact one, and equal to it when it fits |
| Collaborators.ClampPage | internal/oauth/client/service/service.go:52-58 | the clamped page or page size is at least 1, equals the input when that is at least 1, and is 1 otherwise |
| Collaborators.PageOffset | internal/oauth/client/service/service.go:60 | the offset is a 64-bit value, and it is the exact non-negative `(page-1)*perPage` of the clamped values whenever that fits in 64 bits |
| Collaborators.PageOffsetWraps | internal/oauth/client/service/service.go:60 | for page 2^62 and page size 4, both 64-bit values, the product overflows and the offset wraps to -4 |
| Collaborators.StoreStart | internal/oauth/client/repository/repository.go:29 | the first row a `Limit(limit, offset)` query reads: the offset when positive, otherwise row 0 |
| Collaborators.WrappedOffsetReadsFirstPage | internal/oauth/scope/repository/repository.go:27 | the wrapped offset of page 2^62, page size 4, reads the same rows as offset 0 |
| Collaborators.Page | internal/oauth/client/service/service.go:62 | `LIMIT`/`OFFSET`: at most `limit` rows, the rows starting at `offset`, in store order |
| Collaborators.FindRow | internal/oauth/client/service/service.go:92-100 | the lookup on one column finds nothing iff no row holds the value there, and otherwise a stored row holding it; used by client id, scope id and scope string |
| Collaborators.ReplaceRow | internal/oauth/client/service/service.go:249 | the update on one column overwrites exactly the rows whose value there is the record's, and leaves the others |
| Collaborators.FirstRow | internal/oauth/client/service/service.go:197 | on a column with unique values, the lookup returns the one row holding the value |
| Collaborators.ReplaceRowElsewhere | internal/oauth/scope/service/service.go:183 | on a column with unique values, overwriting the row that holds the record's value leaves every other row as it was |
| Collaborators.ReplaceRowEffect | internal/oauth/client/service/service.go:249-258 | overwriting a stored row by its key keeps the column unique, and the lookup then returns the new record |
| Collaborators.Summaries | internal/oauth/client/repository.go:11 | the listing carries id, secret, domain and name of every row, in order |
| Collaborators.EnabledScopes | internal/oauth/client/service/service.go:211 | the enabled catalog holds the scope string of every enabled row and nothing else |
| ClientService.EditedClient | internal/oauth/client/service/service.go:239-247 | the written record keeps the stored id and icon, takes account, name, secret and domain from the request, and its scope string splits back into the validated tokens |
| ClientService.FirstUnknownFrom | internal/oauth/library/scope.go:14-19 | locates the first token the catalog does not know |
| ClientService.UpdateStageTable | internal/oauth/client/service/service.go:249-258 | the write succeeds iff `Update` does; a failed write leaves the table as it was; a successful one keeps ids unique and stores the record under its id |
| ClientService.UpdateStageCalls | internal/oauth/client/service/service.go:249-266 | the client's cached list is dropped iff the write succeeds, as the last call |
| ClientService.EditStageTable | internal/oauth/client/service/service.go:211-258 | an edit that fails anywhere leaves the client table unchanged; one that succeeds stores the edited record under the client's id |
| ClientService.EditStageSuccess | internal/oauth/client/service/service.go:211-258 | an edit succeeds iff the enabled scopes load, the catalog builds, every submitted scope is known, and the update goes through |
| ClientService.EditStageInvalidation | internal/oauth/client/service/service.go:249-266 | the client's cached scope list is dropped iff the edit succeeds, as its last call |
| ClientService.EditStageRejects | internal/oauth/client/service/service.go:224-227 | a rejected submission reports the error of its first unknown scope and writes nothing |
| ClientService.StoredScopeRoundTrip | internal/oauth/client/service/service.go:245 | after an edit stores catalog-valid, space-free, non-redundant scopes, projecting the stored string onto the catalog grants exactly those scopes |
| ClientService.EmptyScopesStoreNothing | internal/oauth/client/service/service.go:245 | clearing every scope stores `""`, whose projection leaves the catalog ungranted |
| ClientService.Service.constructor | internal/oauth/client/service/service.go:25-31 | a service over a client table with unique ids and an empty call log |
| ClientService.Service.ListClient | internal/oauth/client/service/service.go:33-76 | the account gate; then `Count` (failure: 500 "count client error."); then `Find(perPage, offset)` on the clamped values (failure: 500 "find client error."); the response holds the page read from `StoreStart(offset)`, the count and the clamped values; the exact calls made on each path, and no write |
| ClientService.Service.GetClient | internal/oauth/client/service/service.go:78-135 | the account gate; an unknown id gives 400 "client not found."; otherwise the stored client with the catalog built from the enabled scopes and the client's stored string projected onto it; catalog errors propagate; the exact calls made, and no write |
| ClientService.Service.AddClient | internal/oauth/client/service/service.go:137-181 | the account gate; an existing id gives 400 "client id duplicate error." and inserts nothing; otherwise it inserts the request fields with empty scope and icon and returns success even when the insert fails; ids stay unique |
| ClientService.Service.EditClient | internal/oauth/client/service/service.go:183-267 | the account gate; an unknown client gives 400 "client not found."; otherwise the submitted tree is flattened and the rest follows `EditStage`: no write and no cache call on a load, catalog or validation error, and on success every stored scope is catalog-known |
| ClientService.Service.SaveEdit | internal/oauth/client/service/service.go:210-266 | load, build, validate, update and invalidate, ending in exactly the outcome, table and call log of `EditStage`; ids stay unique |
| ScopeService.NewScope | internal/oauth/scope/service/service.go:129-137 | the inserted row carries the request's scope, path, method, name and description, and is enabled |
| ScopeService.EditedScope | internal/oauth/scope/service/service.go:179-181 | the edit changes only name, description and the disabled flag; id, scope string, path and method are the stored ones |
| ScopeService.AppendScopeEffect | internal/oauth/scope/service/service.go:118-143 | inserting a new scope string under a fresh id keeps ids and scope strings unique, and the grantable catalog gains exactly that scope |
| ScopeService.ReplaceScopeKeepsTable | internal/oauth/scope/service/service.go:179-187 | writing the edited row back keeps the table valid, and the lookup by id returns it |
| ScopeService.ReplaceScopeEnabled | internal/oauth/scope/service/service.go:179-187 | after an edit the grantable catalog changes only in the edited scope, which is grantable iff the edit leaves it enabled |
| ScopeService.Service.constructor | internal/oauth/scope/service/service.go:24-31 | a service over a valid scope table with an empty call log |
| ScopeService.Service.ListScope | internal/oauth/scope/service/service.go:33-76 | the account gate; then `Count` (failure: 500 "count scope error."); then `Find(perPage, offset)` on the clamped values (failure: 500 "find scope error."); the page read from `StoreStart(offset)`, the count and the clamped values; the exact calls made, and no write |
| ScopeService.Service.GetScope | internal/oauth/scope/service/service.go:78-102 | the account gate; a failed lookup gives 500 "find scope error."; an unknown id gives 400 "scope not found."; otherwise the stored row with that id; no write |
| ScopeService.Service.AddScope | internal/oauth/scope/service/service.go:104-152 | the account gate; an existing scope string gives 400 "scope duplicate error." with no insert; an insert failure gives 500 "insert scope error." with no invalidation; otherwise it appends the enabled row under the next id, then sweeps every client's cached list once |
| ScopeService.Service.EditScope | internal/oauth/scope/service/service.go:154-202 | the account gate; an unknown id gives 400 "scope not found." with no update; an update failure gives 500 "update scope error." and skips both invalidations; otherwise it writes the edited row and then drops the endpoint lookup `path:method` and every client's cached list, once each, in that order; the grantable catalog changes only in the edited scope |
| ScopeService.Service.SaveScope | internal/oauth/scope/service/service.go:179-201 | the write-back half of the edit: the update, then the two invalidations only when it succeeds; the table stays valid, the id looks up the edited row, and the grantable catalog changes only in the edited scope |

## Left out

- HTTP handlers, routing and wiring: request binding, validation tags, JSON decoding of the
  submitted tree, and the JWT account check. A nil `HasImage` or `ScopeList` pointer, which
  would panic in the Go code, cannot arise in the model; nor can a nil category or item inside
  a decoded tree (such as `{"user": null}`, dereferenced by the flattening loop), since the
  model's tree maps names to values, not pointers.
- The xorm stores are abstract tables (`seq` rows). Two behaviours of the real stores are not
  modelled:
  - `Get` with a condition struct ignores zero-valued fields, so a lookup by id 0 or by an
    empty scope string matches any row. The model looks up by exact value.
  - The scope table's `Update` skips zero-valued fields, so an empty name or description
    would not be written. Request validation rejects both before the service runs, and the
    model writes the whole edited record. The client table's `Update` names its columns and
    writes every one of them, an empty scope string included, as the model does. The
    disabled flag of a scope row is a pointer and is always written.
- Timestamps, the JSON `Data` column, scope ids chosen by the database (the model uses a
  counter), and the database-side result order (the model uses table order).
- File upload and icon handling: the source leaves them as TODOs, and the model keeps the
  stored icon path.
- The Redis cluster itself: `ForEachMaster`, `Scan` and `Del` are modelled as one delete of the
  matching keys. Glob patterns support `*` only, which is all these services build. Cache errors
  are only logged by the services and do not affect their results; the call log records the
  call either way.
- Logging, token issuing and the seeder.
- Library.GenerateClientScopeList: returns the updated tree as a value instead of flipping
  flags in place on shared nodes, so aliasing between the catalog and the result is not
  captured.
- Library.GetScopesFromScopeList: Go map iteration order is modelled as an arbitrary choice of
  key, and the result is stated as a multiset, not a sequence.
- The SQL that xorm writes for `Limit(limit, offset)` is not part of this model.
  `Collaborators.StoreStart` follows xorm's MySQL writer, which adds an `OFFSET` clause only
  for a positive start. A page offset that wraps to a negative 64-bit value
  (`Collaborators.PageOffsetWraps`) therefore reads the first page in `ListClient` and
  `ListScope`.
- ScopeModel.CheckScope: a level-1 query on an ungranted category looks up the item `""`, as the
  source does. It is therefore true when the catalog has a granted item named `""` (entry `c.`).
