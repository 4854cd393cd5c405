# OdooRPC relation resolution, modelled in Dafny

`OdooRPC` is a TypeScript client for Odoo's JSON-RPC interface. Besides thin
verbs over the `raw` call (`read`, `readMany`, `list`, `searchId`,
`searchIds`, `searchMany`, `searchOne`, `create`, `write`, `unlink`), it
resolves relational fields in both directions:

- **`getFieldRelation`** looks up, in the service's own metadata collections
  `ir.model` and `ir.model.fields`, which collection a field points to and
  whether it is `many2many`.
- **`resolveRead`** replaces each record's raw foreign key (an `[id, label]`
  pair, or an id list for `many2many`) by the related record(s). For each
  field it gathers the ids of all records, fetches them in one `readMany`, and
  overwrites the field on the caller's record objects in place.
- **`resolveWrite`** replaces a natural-key value (under the field's alias, or
  its name) by the id(s) of the related records whose `foreignField` holds
  it. It builds an Odoo prefix-notation domain `['|', c1, '|', c2, ..., cn]`
  with `push` and `splice`, searches, and renames the key on a shallow copy.

The remote service is replaced by in-memory data: a `Service` is a base URL
and one sequence of records per collection. `read` answers as Odoo's `read`
does: the rows for each requested id, in the order of the request; a
repeated id repeats its row and an id that no row carries is skipped. `search`/`search_read` return the rows
satisfying a domain of `'|'` operators and `=` clauses, AND-ed at top level.
An unknown collection or a malformed domain is a `RemoteError`.

The modules, in dependency order:

| file | module | what |
|---|---|---|
| values.dfy | `Values` | JavaScript/JSON values, records, domain terms, errors, `Result` |
| seqs.dfy | `Seqs` | `Array.prototype.filter` / `find` and their laws |
| domains.dfy | `Domains` | what the in-memory service makes of a domain |
| transport.dfy | `Transport` | `raw`: the URL guard and the service-side `read`/`search`/`search_read` |
| verbs.dfy | `Verbs` | the read/search verbs with their empty-result guards; id normalisation of `write`/`unlink` |
| metadata.dfy | `Metadata` | `getFieldRelation` |
| expand.dfy | `Expand` | `resolveRead`, on `ParentRecord` objects updated in place |
| ordomain.dfy | `OrDomains` | the domain builder of `resolveWrite` |
| collapse.dfy | `Collapse` | `resolveWrite` |
| roundtrip.dfy | `Roundtrip` | writing with `resolveWrite`, reading back with `resolveRead` |
| client.dfy | `Client` | `read`, `readMany`, `write` composed with the resolvers |

Each state-changing or looping operation is a method proved against a
specification function. `CollectRelatedIds`, `OverwriteField`, `ResolveField`
and `ResolveRead` are proved against `CollectIds`, `ExpandRow` and
`ExpandAll`. `BuildDomain` is proved against `DomainFor`; `ResolveWriteField`
and `ResolveWrite` against `CollapseField` and `CollapseAll`. Lemmas then
state what those functions mean, measured against independent reference
definitions:

- `FirstMatchRelation`: a direct `find` over the metadata tables.
- `ResolvedValue`: what one record's value resolves to when its own ids are
  read on their own, with no batch.
- `OrDomain`: the declarative right-nested OR.
- `DirectValue`: the pick made from the whole collection, with no search.

Behaviour of the source that the model makes explicit:

- Every relation type other than `many2many` is read as `[value[0]]`. For a
  `one2many` field, whose value is an id list, `resolveRead` therefore
  requests and keeps only the first related record (`Expand.RecordIds`).
- `list`'s own "Nothing found" guard can never fire, because `searchMany` has
  already failed on an empty page (`Verbs.List`).
- `resolveRead` on records whose `many2many` lists are all empty fails with
  NotFound: it sends an empty batch to `readMany`, which rejects an empty
  answer (`Expand.EmptyManyBatchFails`).
- On the read side, a pair whose id no row carries resolves to `undefined`
  only when another record of the same batch found its id. When no record of
  the batch finds its id, and in particular for a single record, `readMany`
  gets an empty answer and `resolveRead` fails with NotFound
  (`Expand.DanglingSingleFails`, `Expand.BatchWithoutMatchFails`).
- On the write side, a field that is not `many2many` whose scalar value no
  record carries fails with NotFound: the domain `[[ff, '=', v]]` selects
  nothing, so `searchMany` fails before `find` runs. A TypeError (`.id` of
  the `undefined` that `find` returns) comes only when the search returns
  rows that `includes` then rejects, which a list or object value always
  causes (`Collapse.SingleWithoutMatchFails`).
- `rec.alias || rec.name` falls back to the name for an empty alias as well
  as for a missing one (`Collapse.Key`).
- When two records share a `many2many` id, the batch requests it twice,
  `read` returns its row twice, and the `filter` gives each record that asks
  for it that row twice (`Expand.SharedIdRepeats`). Batching is invisible to a record only
  when no `many2many` id is shared between records (`Expand.ExpandAllSpec`).
- For an empty natural-key list, `splice(-2, 1)` on an empty array removes
  nothing. The search therefore runs with the empty domain and selects the
  whole collection (`OrDomains.DomainForSelects`).

## Model

| member | source | states |
|---|---|---|
| Transport.Table | src/index.ts:418-420 | `raw` fails with MalformedUrl exactly when the URL is empty or does not start with `http`; otherwise it reaches the named collection, and an unknown collection is a remote error naming it |
| Transport.EmptyDomainSelectsAll | src/index.ts:258-259 | the empty domain `list` sends is well formed and selects every row |
| Transport.ReadRowsMembers | src/index.ts:236-239 | the service's `read` answers with exactly the rows whose id was requested |
| Transport.ReadRowsConcat | src/index.ts:236-239 | reading a concatenation of id lists reads each list in turn, in request order |
| Transport.FilterUniqueId | src/index.ts:236-239 | with unique ids, the rows carrying a row's id are that row alone |
| Verbs.Read | src/index.ts:215-222 | `read` propagates transport errors, fails with NotFound exactly when the service returns no row, succeeds exactly when a row with the id exists, and returns the first such row |
| Verbs.ReadMany | src/index.ts:236-242 | `readMany` fails with NotFound exactly when no row has any of the ids, succeeds exactly when some row has one, and then returns the non-empty answer of `read`: the rows for each requested id in request order |
| Verbs.SearchMany | src/index.ts:300-307 | `searchMany` propagates transport errors, fails with NotFound exactly when the search returns nothing, succeeds exactly when it returns rows, and then returns them unchanged |
| Verbs.SearchOne | src/index.ts:320-328 | `searchOne` fails with NotFound exactly when nothing matches, succeeds exactly when some row satisfies the domain, and returns the first row that does |
| Verbs.SearchId | src/index.ts:274-280 | `searchId` propagates transport errors, fails with NotFound exactly when `search` returns no id, succeeds exactly when it returns some, and then returns the id of the first row satisfying the domain |
| Verbs.SearchIds | src/index.ts:282-292 | `searchIds` propagates transport errors, fails with NotFound exactly when `search` returns no id, succeeds exactly when it returns some, and then returns the ids of all rows satisfying the domain, in order |
| Verbs.List | src/index.ts:249-272 | `list` succeeds exactly when the requested page of the collection is non-empty and returns that page; its own "Nothing found" error is never raised; `list({model})` is `List(svc, model, 0, 100)` |
| Verbs.NormalizeIds | src/index.ts:353-355 | a list of ids is kept, and any other value becomes a one-element list |
| Verbs.NormalizeIdsCanonical | src/index.ts:379-381 | a scalar id and the one-element list holding it normalise alike, and normalising twice changes nothing |
| Metadata.GetFieldRelationFirstMatch | src/index.ts:111-128 | the relation is `relation`/`ttype` of the first `ir.model.fields` row with the first matching `ir.model` row's id and the field's name; either lookup finding nothing is NotFound, with the same error order as a direct lookup |
| Metadata.ModelLookup | src/index.ts:112-115 | the first lookup is `find` on `ir.model` by collection name |
| Metadata.FieldLookup | src/index.ts:116-122 | the second lookup is `find` on `ir.model.fields` by model id and field name |
| Metadata.SearchOneIsFind | src/index.ts:321-328 | `searchOne` with equality clauses is the first row satisfying all of them, or NotFound |
| Expand.CollectRelatedIds | src/index.ts:138-143 | the `push` loop yields the concatenation, in record order, of each record's id list (many2many) or `[value[0]]`; a record whose ids cannot be read is the error |
| Expand.CollectIdsUnion | src/index.ts:138-147 | the one batch fetched per field holds every id of every record and nothing else |
| Expand.CollectIdsAt | src/index.ts:138-143 | the batch is the ids of the records before a record, then its own ids, then the ids of the records after it |
| Expand.OwnIdsApart | src/index.ts:138-143 | when no many2many id is shared between records, a record's own ids occur nowhere else in the batch |
| Expand.BatchPickSingle | src/index.ts:148-155 | with unique ids, `find` over the batch picks the same row for a record's id as `find` over a read of that id alone |
| Expand.BatchPickMany | src/index.ts:148-155 | when a record's ids occur nowhere else in the batch, `filter` over the batch keeps exactly the rows a read of its own ids returns, in their order |
| Expand.ExpandedValueFromBatch | src/index.ts:148-155 | without shared many2many ids, picking a record's rows out of the batch gives what a read of its own ids alone gives |
| Expand.ExpandRowsAt | src/index.ts:148-155 | each record rewritten from the batch gets what its own raw value resolves to |
| Expand.ResolvedInMany | src/index.ts:150-153 | a many2many value read on its own resolves to the rows `read` returns for its ids |
| Expand.OverwriteField | src/index.ts:148-156 | the `map` overwrites each distinct record object's field with its expanded value and leaves every other object untouched |
| Expand.ResolveField | src/index.ts:136-159 | one field on the record objects: they end up as the field's expansion of their old contents, or the call fails with the expansion's error |
| Expand.ResolveRead | src/index.ts:130-162 | `resolveRead` returns the very payload it was given (a single record stays single, an array stays the same array) and leaves the objects holding the expansion of all fields, or fails with the first failing field's error |
| Expand.ExpandFieldKeeps | src/index.ts:148-156 | resolving a field changes no other value of any record |
| Expand.ExpandFieldSpec | src/index.ts:136-159 | after one field, every record keeps its keys and other values, and the field holds what a read of its own ids alone gives, provided ids are unique and no many2many id is shared between records |
| Expand.ExpandAllSpec | src/index.ts:130-162 | after all fields, every record keeps its keys and every unresolved value, and every resolved field holds what a read of its own ids alone gives, provided ids are unique and no many2many id is shared between records |
| Expand.ExpandAllPrefixErr | src/index.ts:135-160 | a failing field makes the whole resolution fail with its error |
| Expand.ExpandAllKeeps | src/index.ts:148-156 | resolving fields leaves every other key's value unchanged |
| Expand.SharedIdRepeats | src/index.ts:138-155 | two records sharing a many2many id: the batch holds it twice, `read` returns its row twice, and each of the two records gets that row twice, where a read of the first record's own ids gives it once |
| Expand.BatchWithoutMatchFails | src/index.ts:144-147 | a batch none of whose ids any row carries makes the field fail with NotFound for exactly that batch |
| Expand.EmptyManyBatchFails | src/index.ts:144-147 | once the earlier fields are resolved, a many2many field whose lists are all empty makes `resolveRead` fail with NotFound for the empty id list |
| Expand.DanglingSingleFails | src/index.ts:144-147 | a lone record whose pair names an id no row carries resolves to `undefined` when read on its own, yet makes `resolveRead` fail with NotFound for that id |
| OrDomains.BuildDomain | src/index.ts:173-183 | the `push` loop and `splice` build exactly the right-nested OR of one clause per element for a list, and one clause for any other value |
| OrDomains.PairsPush | src/index.ts:177-179 | each `push` appends `'|'` and the element's clause |
| OrDomains.SpliceLastOr | src/index.ts:180 | removing the element two from the end of the pushed pairs leaves the OR domain, including `[]` for no element |
| OrDomains.OrDomainShape | src/index.ts:176-180 | for n values the domain has 2n-1 terms: `'|'` at positions 0, 2, ..., 2n-4, the i-th clause at 2i+1, the last clause at the end |
| OrDomains.OrDomainParsesAsOneTerm | src/index.ts:176-180 | the domain is one well-formed prefix term whatever follows it |
| OrDomains.OrExprHolds | src/index.ts:176-180 | a record satisfies the OR exactly when its foreign field holds one of the values |
| OrDomains.DomainForSelects | src/index.ts:173-187 | the domain selects every row for an empty list, the rows holding an element for a non-empty list, and the rows holding the value otherwise |
| Collapse.ResolveWriteField | src/index.ts:171-203 | one field on the copy: the result is the field's collapse or its error |
| Collapse.ResolveWrite | src/index.ts:164-206 | `resolveWrite` on a shallow copy computes the collapse of all fields in order, or the first failing field's error |
| Collapse.CollapsedFromSearch | src/index.ts:184-200 | picking from the search results equals picking from the whole collection, because the domain never drops a row the pick keeps |
| Collapse.SearchManyRows | src/index.ts:184-187 | the search returns every row of the target collection the domain selects |
| Collapse.SearchManyFails | src/index.ts:305-307 | on a known collection with a well-formed domain the search fails only with NotFound |
| Collapse.RenamedKeys | src/index.ts:192-193 | `delete` then assignment removes the key, sets the name and keeps every other key |
| Collapse.CollapseFieldSpec | src/index.ts:171-203 | after one field the key is gone, the name holds the id(s) its value resolves to in the whole collection, and every other key is unchanged |
| Collapse.SingleWithoutMatchFails | src/index.ts:184-200 | a field that is not many2many and whose value matches no row fails; for a scalar value always with `searchMany`'s NotFound for the domain; for a list or object value with TypeError whenever the search finds rows |
| Collapse.CollapseAllPrefixErr | src/index.ts:170-204 | a failing field makes the whole resolution fail with its error |
| Collapse.CollapseAllSpec | src/index.ts:164-206 | after all fields touching disjoint keys, every alias key is deleted, every name holds its resolved id(s), and every untouched key keeps its value and presence |
| Roundtrip.ExpandAfterCollapseSingle | src/index.ts:197-200 | the id stored for a natural key, read back as an `[id, label]` pair, expands to the row whose foreign field is that key |
| Roundtrip.ExpandAfterCollapseMany | src/index.ts:194-196 | the ids stored for a list of natural keys expand to exactly the rows holding one of them; their projection on the foreign field is exactly the keys some row holds |
| Roundtrip.ReadRowsOfIds | src/index.ts:144-147 | with unique ids, reading the ids of some rows gives back those rows, in their order |
| Roundtrip.ReadBackRows | src/index.ts:150-153 | the ids of some rows, expanded as a many2many value, give back those rows |
| Client.ReadResolved | src/index.ts:208-227 | `read` with fields to resolve returns the single record `resolveRead` produces from the row read, or the first error |
| Client.ReadManyResolved | src/index.ts:229-247 | `readMany` with fields to resolve returns the expansion of the rows read, or the first error |
| Client.WriteArguments | src/index.ts:347-358 | `write` sends the ids as a list and the values after `resolveWrite` when there are fields to resolve |

## Left out

- The JSON-RPC envelope, Axios and `res.error` propagation in `raw` (src/index.ts:421-452) are network I/O. The service is in-memory tables, and a remote fault is `RemoteError`.
- The login handshake (`loginPromise`, `uid`) is asynchronous session plumbing and is not modelled.
- `sendNote`, `sendMessage`, and the remote `create`/`write`/`unlink` calls are one-line transport wrappers. `Client.WriteArguments` models what `write` sends. `create` returns `data` rather than the new id; that is not modelled.
- The `fields` and `context` keyword arguments of the verbs are not modelled. `list`'s `offset` and `limit` are parameters of `Verbs.List`; its defaults make `list({model})` the call `List(svc, model, 0, 100)`.
- `searchMany`, `searchOne` and `list` with `resolveFields` compose with `resolveRead` exactly as `read` and `readMany` do; only the latter two are modelled (`Client`).
- `searchAndWrite` is not part of this model.
- `Promise.all`: fields are resolved one after the other. When several fields fail, JavaScript rejects with whichever fails first in time; the model reports the first failing field in list order.
- Expand.ResolveRead: requires distinct field names, so that each concurrent field pipeline touches a key no other one reads.
- Expand.ResolveRead: requires distinct record objects. A record object listed twice in a batch would be overwritten twice, the second time from its already expanded value.
- Expand.ResolveRead: requires that no many2many field holds a string. JavaScript would spread its characters and test substrings.
- Expand.ResolveRead: on failure the contract says nothing about the record objects. Fields resolved before the failing one may already have overwritten them.
- Collapse.SingleWithoutMatchFails: the in-memory service compares values exactly, so a search with `=` always agrees with `includes` on a scalar. A real service may match rows whose stored value JavaScript's `includes` considers unequal to the value sent, for instance after a type conversion; the TypeError that then follows for a scalar is not modelled.
- Expand.ExpandAllSpec: requires unique ids in every collection, as Odoo guarantees, and that no many2many id is shared between records of the batch. Without the latter, batching is visible: `Expand.SharedIdRepeats` shows a record receiving a related row twice.
- Expand.ExpandFieldSpec: the same two requirements, for one field.
- Collapse.ResolveWrite: requires that the fields touch pairwise disjoint keys (alias and name), so that the concurrent pipelines cannot see each other's writes on the shared copy.
- Collapse.ResolveWrite: requires that no many2many natural key is a string, for the same substring reason.
- Client.ReadResolved: inherits `ResolveRead`'s preconditions on the row read.
- Client.ReadManyResolved: inherits `ResolveRead`'s preconditions on the rows read.
- Client.WriteArguments: inherits `ResolveWrite`'s preconditions.
- JavaScript values: no numbers other than integers, so no `NaN` or `-0` in `includes`. `null` is not distinguished from `undefined`: the service treats an `=` clause on an undefined value as "field absent".
