# In-memory product store

A model of the product store in `api/server.js`. The server keeps its products
in one module-level array and serves five routes. Each route handler is a thin
wrapper around one operation on that array:

- list returns the array as it is;
- get returns the first record whose `id` equals the path id, or 404;
- create appends `{ id: String(products.length + 1), ...body }`;
- update replaces the first match with the shallow merge `{ ...old, ...body }`, or 404;
- delete keeps only the records whose `id` differs and always succeeds.

The project has three modules:

- `Decimal` models JavaScript's `String(n)` on the naturals the store passes it
  (`DecimalString`). It proves that this numeral reads back to n, and that every
  canonical numeral is `String` of its own value. So the function is injective.
- `Products` holds the record types and the pure meaning of each operation.
  `NewRecord` is the create spread, `Merge` the update spread, `FirstMatch` is
  `findIndex`, `Lookup` is `find`, and `Without` is the delete `filter`. It also
  holds the lemmas about runs of requests (`Apply`, `Run`).
- `Server` holds the class `Store` with the `products` field and one method per
  handler. Each method is proved against the functions in `Products`, and
  create, update and delete are also proved equal to `Apply`. So the lemmas
  about runs of requests hold for the class too.
  `EndpointWalkthrough` is a verified client, helped by `CreateTestRecord` and
  `UpdateTestRecord`. It replays the flow of `api/server.test.js` (create,
  list, get, update, delete) and asserts each answer. It adds two steps of
  its own: a get of a missing id, and a get after the delete.

A record is a `map<string, Value>`. `Value` is either a string or an opaque
token that stands for every other JSON value. The store only ever compares a
record's `id` with the path id using `===`, so only strings can match. A
missing `id` (undefined) or a non-string `id` never matches. The spread
`{ ...a, ...b }` is Dafny's map union `a + b`, in which `b` wins.

Three behaviours of the code differ from what a CRUD store usually promises:

- On create, `...req.body` is spread after `id`, so a body `id` overrides the
  assigned id (`NewRecord`, `BodyIdDuplicatesId`).
- On update, the body is spread last, so a body `id` replaces the stored id
  (`Merge`).
- Ids come from `length + 1`, so they repeat after a delete: create, create,
  delete "1", create stores two records with id "2"
  (`DeleteThenCreateDuplicatesId`). Ids are unique only for runs with no
  delete and no body that sets `id` (`UniqueIdsWithoutDeletes`).

The object invariant `Store.Valid` says only that every record has an `id`
key. Create always writes one, and a merge never drops a key. The id values
need not be strings and need not be distinct.

`Store.List`, `Store.FindIndex` and `Store.Get` have no `modifies` clause. So
a get, including one that finds nothing, leaves the store unchanged.

## Model

| member | source | states |
|---|---|---|
| `Decimal.DecimalString` | api/server.js:19 | `String(n)` is a canonical decimal numeral: non-empty, all digits, and its first digit is '0' exactly when n is 0 |
| `Decimal.DecimalRoundTrip` | api/server.js:19 | reading back the numeral `String(n)` gives n |
| `Decimal.CanonicalRoundTrip` | api/server.js:19 | every canonical numeral is `String` of the number it denotes |
| `Decimal.DecimalStringInjective` | api/server.js:19 | `String(a) == String(b)` exactly when a == b |
| `Products.HasIdStrict` | api/server.js:13 | strict `===` on `id`, as in `find`, `findIndex` (line 25) and the `filter` (line 32): a record with no `id`, or a non-string `id`, matches no id; a record matches at most one id |
| `Products.NewRecord` | api/server.js:19 | the created record has exactly the body's keys plus `id`; every body field is copied verbatim, the body's `id` included; without a body `id`, `id` is `String(count + 1)` |
| `Products.Merge` | api/server.js:27 | the merged record has the union of the keys; body keys take the body's value, `id` too; every other key keeps its old value |
| `Products.FirstMatch` | api/server.js:25 | `findIndex`: -1 when no record has the id, otherwise the lowest index whose record has it |
| `Products.Lookup` | api/server.js:13-14 | `find`: not-found exactly when no record has the id; otherwise a record at an index with the id and no match before it |
| `Products.Without` | api/server.js:32 | every kept record came from the store and does not have the id; the result is no longer than the store |
| `Products.WithoutCounts` | api/server.js:32 | the filter keeps every copy of each record without the id and drops every copy of each record with it |
| `Products.WithoutConcat` | api/server.js:32 | filtering a concatenation is concatenating the filtered parts, so relative order is kept |
| `Products.WithoutNoMatch` | api/server.js:32 | deleting an id that no record has leaves the store unchanged |
| `Products.DeleteIdempotent` | api/server.js:32 | a second delete of the same id changes nothing |
| `Products.GetAfterDelete` | api/server.js:13-14 | after delete(x), get(x) is not-found |
| `Products.Apply` | api/server.js:18-34 | a create grows the store by one and keeps the old records as a prefix; an update keeps the length; a delete never grows the store |
| `Products.ApplyKeepsNumbering` | api/server.js:19 | a create or update whose body has no `id` keeps "record i has id `String(i + 1)`" |
| `Products.RunKeepsNumbering` | api/server.js:19 | a run of such creates and updates keeps that numbering; the store grows by the number of creates |
| `Products.UniqueIdsWithoutDeletes` | api/server.js:19 | from an empty store, with no delete and no body `id`, the k-th created record has id `String(k)` and all ids are pairwise distinct |
| `Products.DeleteThenCreateDuplicatesId` | api/server.js:19-20 | create, create, delete "1", create leaves two records, both with id "2" |
| `Products.BodyIdDuplicatesId` | api/server.js:19 | two creates whose bodies carry the same `id` store two records with that id |
| `Server.CreateTestRecord` | api/server.test.js:14-19 | creating `{name, price}` in an empty store yields `{id: "1", name, price}` |
| `Server.UpdateTestRecord` | api/server.test.js:30-34 | updating that record with a new name and price keeps `id` "1" and takes the new name and price |
| `Server.Store.constructor` | api/server.js:9 | the store starts empty |
| `Server.Store.List` | api/server.js:11 | list returns the stored sequence as it is, and every listed record has an `id` field |
| `Server.Store.FindIndex` | api/server.js:25 | the loop returns `FirstMatch` of the store: -1 exactly when no record has the id |
| `Server.Store.Get` | api/server.js:12-16 | get returns `Lookup` of the store: a record exactly when some record has the id; it changes nothing |
| `Server.Store.Create` | api/server.js:18-22 | create appends exactly `NewRecord(old length, body)` and returns that same record; the old records keep their positions; the new store is `Apply` of the create |
| `Server.Store.Update` | api/server.js:24-29 | with no match: not-found and the store is unchanged; otherwise only the first matching index is replaced by the merge, and the returned record is the stored one; the new store is `Apply` of the update |
| `Server.Store.Delete` | api/server.js:31-34 | the store becomes `Without(old store, id)`, which is `Apply` of the delete, and the answer is always "Product deleted successfully" |

## Left out

- Express wiring: app construction, routing by method and path, the `cors()`
  middleware, `express.json()` body parsing, `app.listen` and `module.exports`
  (api/server.js:1-7, 36). They are library plumbing around the handlers.
- Port selection from `PORT` in the environment (api/server.js:6). It is
  configuration only.
- HTTP status codes and JSON serialisation. Get and update return `Ok` or
  `NotFound`. `NotFound` stands for the 404 answer, whose body text "Product
  not found" is not modelled. Delete returns its fixed message.
- Key order inside a record, and the contents of non-string values such as
  the float prices in the tests. The store never computes on them.
- Bodies that are not JSON objects (arrays, primitives, a missing body).
  Every body is modelled as a map from field name to value.
- Concurrency. Each handler runs to completion on one event loop, so there is
  nothing to interleave.
- The test file api/server.test.js is not itself modelled. Its flow is
  replayed by `EndpointWalkthrough`.
- DecimalString: follows `String(n)` only below 10^21. From there on,
  JavaScript switches to exponent form. No store grows that large.
- Store.Create: the sequence is unbounded. JavaScript's `push` throws once the
  array holds 2^32 - 1 records. No store reaches that bound in practice.
