# Student record store

A model of the in-memory store behind the demo REST API in `server.js`. The store has two
process-wide tables. `students` starts with three seeded records `{id, name, RollNumber,
email, grade}`. `users` starts empty. The handlers list, get, create, update and delete students,
register users, check a login and report stats. Each handler is one synchronous step on the two
tables. Its response is a status code (200, 201, 400, 401 or 404) and, on success, the record it
reports.

The model has four modules:

- `Wrappers` holds `Option`.
- `Fields` holds a request-body field, `Option<string>`, and JavaScript truthiness on it:
  present and not `""`.
- `StudentTable` holds the student record, the seed and the pure table functions. Those are the
  `Math.max(..., 0) + 1` numbering, `find`/`findIndex` by a parsed id, the partial update of one
  record and `splice` of one record. The table invariant `Wellformed` says that ids are
  distinct and positive and that every roll number equals its id.
- `TableLemmas` holds what the table promises across operations. Create, update and delete keep
  the invariant. New ids increase by one per create. A lookup after each change finds the created
  or patched record, and nothing once a record is deleted. Delete removes exactly one record.
- `Server` holds the `Store` class with the two tables as `seq` fields. Create, update, delete
  and register are methods that reassign the fields. List, get-by-id and stats are functions
  reading them. Login is a function of its two fields alone.

The path parameter is modelled as the result of `parseInt`: `Option<int>`, where `None` stands
for NaN. NaN equals no id, so every lookup with it yields 404.

The max+1 rule has one behaviour worth knowing. Ids are unique among the records present, but
not over time. `TableLemmas.IdReusedAfterDeletingNewest` proves that if the newest record is
deleted, the next create hands out its id again.

## Model

| member | source | states |
|---|---|---|
| `StudentTable.Seed` | server.js:16-20 | the seed has three records with ids 1, 2, 3 and satisfies the table invariant (distinct positive ids, roll number = id) |
| `StudentTable.MaxOrZero` | server.js:87 | `Math.max(...xs, 0)` is at least 0, at least every value, and is 0 or one of the values |
| `StudentTable.NextId` | server.js:87 | the new id is at least 1, above every existing id, and is 1 or one more than an existing id |
| `StudentTable.NextRoll` | server.js:89 | the new roll number is at least 1, above every existing roll number, and is 1 or one more than an existing one |
| `StudentTable.FindIndex` | server.js:113 | `findIndex` gives -1 exactly when no record has the id; otherwise the index of the first record that has it |
| `StudentTable.Find` | server.js:53 | `find` yields a record exactly when some record has the id, and then the first record in table order that has it; NaN finds nothing |
| `StudentTable.Patch` | server.js:122-126 | each truthy field overwrites the stored value; a missing or empty field keeps the old value; id and roll number never change |
| `StudentTable.RemoveAt` | server.js:154 | `splice(i, 1)` leaves one record fewer; records before i stay put and records after i shift down by one, in order |
| `TableLemmas.NextRollIsNextId` | server.js:87-89 | when every roll number equals its id, the two max+1 rules give the same number |
| `TableLemmas.MaxOrZeroAppendAbove` | server.js:87 | appending a value above the maximum makes it the new maximum |
| `TableLemmas.CreateAdvancesNextId` | server.js:86-94 | after a create, the next id is exactly one more, so consecutive new ids strictly increase |
| `TableLemmas.UpdateKeepsNextId` | server.js:124-126 | an update leaves the next id unchanged |
| `TableLemmas.DeleteNeverRaisesNextId` | server.js:154 | a delete never raises the next id |
| `TableLemmas.IdReusedAfterDeletingNewest` | server.js:86-94 | after create then delete of the new record the table is back to its old value, so the next create reuses the deleted id |
| `TableLemmas.CreatePreservesWellformed` | server.js:86-94 | create keeps ids distinct and positive and roll number = id |
| `TableLemmas.UpdatePreservesWellformed` | server.js:122-126 | update keeps ids distinct and positive and roll number = id |
| `TableLemmas.PatchIdempotent` | server.js:122-126 | applying the same update body twice gives the same record as applying it once |
| `TableLemmas.DeletePreservesWellformed` | server.js:145-154 | delete keeps ids distinct and positive and roll number = id |
| `TableLemmas.DeleteRemovesOneRecord` | server.js:154-159 | the old table is the new table plus exactly the returned record, as multisets |
| `TableLemmas.FindAfterCreate` | server.js:86-94 | a record just created is found by its id |
| `TableLemmas.FindAfterUpdate` | server.js:113-131 | after an update the id finds the patched record |
| `TableLemmas.FindAfterDelete` | server.js:145-159 | with distinct ids, a deleted id finds nothing afterwards |
| `Server.Status.Code` | server.js:55-232 | each outcome maps to its own HTTP code: success 200, creation 201 (lines 96, 232), bad request 400 (lines 80, 176, 216), unauthorized 401 (line 196), not found 404 (lines 55, 116, 148) |
| `Server.Login` | server.js:171-200 | 400 iff email or password is missing or empty; 200 with the admin user iff the pair is `admin@test.com`/`password123`; 401 otherwise; no table is read or changed |
| `Server.Store.constructor` | server.js:16-22 | process start holds the seed students and no users, and the store invariant holds |
| `Server.Store.ListStudents` | server.js:32-40 | the list is exactly the current table and `count` is its length |
| `Server.Store.GetStudent` | server.js:51-63 | 200 with the first table record carrying the id iff some record has it; 404 without data otherwise |
| `Server.Store.GetStats` | server.js:247-258 | `totalStudents` and `totalUsers` are the current table sizes |
| `Server.Store.CreateStudent` | server.js:75-100 | 400 with both tables unchanged unless name, email and grade are truthy; else 201 and the max+1 record appended and returned, earlier records and users unchanged; the store invariant is kept |
| `Server.Store.UpdateStudent` | server.js:111-131 | 404 with no change when no record has the id; else only that record is replaced by its patch and returned, the length and all other records and users unchanged; the invariant is kept |
| `Server.Store.DeleteStudent` | server.js:143-159 | 404 with no change when no record has the id; else the first record with the id is removed and returned, the rest keep their order; the invariant is kept |
| `Server.Store.Register` | server.js:211-236 | 400 with no change unless email, password and name are truthy; else 201 and a user with id `|users| + 1` and no password appended; students unchanged; user ids stay 1..n |

## Left out

- Express, cors and body-parser setup, routing, the JSON envelope (`success`, `message`) and
  `app.listen` with its console output (server.js:1-13, 289-307) are transport and I/O. A
  response is modelled as its status and its `data` only.
- The health check (server.js:27-29) only returns a clock reading.
- Timestamps and tokens come from the clock (server.js:28, 39, 187, 226-227, 257). `User` has no
  token and no `createdAt`. The login reply's token is not modelled.
- The try/catch 500 paths, the error middleware (server.js:270-277) and the unmatched-route 404
  (server.js:280-286) are not modelled. Given a parsed body object, nothing in the modelled
  operations throws; the one realistic exception left is an engine limit on the `Math.max`
  spread over a huge array.
- Every request body is assumed to be a parsed object, which body-parser 1.x guarantees by
  setting `req.body` to `{}` when nothing is parsed. Under body-parser 2.x a request without a
  parsed body (for example one with no Content-Type) leaves `req.body` undefined. The
  destructuring at server.js:77, 122, 173 and 213 then throws, and the handler answers 500.
  That answer is not modelled: the model gives 400 for create, login and register, and for
  update on an existing id it gives 200 with the record unchanged.
- The stats literals `classes: 3` and `enrollmentRate: '100%'` are constants with nothing to
  prove.
- Body fields of non-string JSON types (numbers, booleans, objects) are not modelled. A field is
  a string or absent.
- `parseInt` itself is not modelled. Its result enters as `Option<int>`.
- NextId, NextRoll: computed on unbounded integers. In JavaScript ids are doubles, so above
  2^53 `max + 1` rounds back to the maximum and two records could share an id; Number precision
  beyond 2^53 is not modelled.
- Concurrency is not modelled. The handlers run one at a time on a single thread.
- Aliasing is not modelled. Update assigns the fields of `students[i]` in place; the model
  replaces the record value at index i. Every response is serialised, so no caller can hold a
  reference to a stored record.
- The React UI (src/App.jsx, src/pages/examples/Student.jsx) is a static list with a visibility
  toggle. It does not use this store.
