# CRUD services: storage semantics, validation and merge-patch

This project models the storage logic under three small CRUD web services:

- **Items** (`one.py`) is an in-process dictionary from an integer key to an item record. It supports read, create (refused on a taken key), full replace and delete. It is modelled as the class `Items.ItemStore`, which holds a `map<int, Item>` field. Each handler is a method that returns an `Outcome` (`Ok`, `NotFound`, `AlreadyExists`, ...).
- **Users** (`task2.py`) is a `users` table keyed by a 128-bit uuid. It has:
  - request-body validators for the phone number (10 digits) and the e-mail address;
  - a row class that validates every assignment (`validate_assignment=True`) and stamps `updated_at` after each one;
  - a merge-patch that assigns only the sent fields, in a `setattr` loop;
  - the table's constraints: unique e-mail, unique phone number, unique (e-mail, phone) pair, and the primary key. The database checks these at commit time, and a refused commit is rolled back.

  It is modelled as the class `Users.UserStore` over a `map<Uuid, User>`. `Consistent` is the table invariant, and every handler keeps it.
- **Heroes** (`two.py`) is a `heroes` table keyed by an auto-increment integer, with a merge-patch of `name`, `age` and `secret_name`. It is modelled as the class `Heroes.HeroStore`. Its auto-increment counter guarantees that a new id is never in use.

The module `Common` holds what the three services share: `Option`, `Outcome`, validation results, one merged field (`Patched`) and offset/limit pagination (`Page`).

A PATCH body is modelled with `Option<Option<T>>` per field. The outer `None` means the field was not sent, so it is absent from `exclude_unset`. `Some(None)` means the client sent an explicit null.

Things the services get from outside are parameters:
- the wall clock is `now`;
- uuid4 generation is `freshId`. If that id is already taken, the commit fails on the primary key;
- the `email_validator` check is the function `emailOk`, a field of `UserStore`. With its default settings that library checks the address syntax and also looks the domain up in DNS to see that it accepts mail. The model treats its answer for a given address as fixed over time, which the invariant "every stored address passes `emailOk`" relies on;
- the e-mail column's collation is the function `emailKey`, a field of `UserStore`. Two addresses clash on the unique constraints exactly when their keys are equal. The server's default collation ignores case and accents, so `A@x.com` and `a@x.com` clash; the folding itself is left abstract;
- the database's row order for listings is `order`, a sequence that lists every key exactly once.

Behaviour of the code that the model makes explicit:
- **An empty user patch.** It performs no assignment, so the assignment hook never runs and `updated_at` stays as it was (`Users.Merged`, `Users.EmptyPatchKeepsUser`). `updated_at` therefore does not advance on every PATCH.
- **Explicit nulls in a user patch.** The patch validators let an explicit null through, just as they do an absent field (task2.py:81, task2.py:91). The handler then assigns it to the row (task2.py:152). The row class validates that assignment against the column's type (`str` or `int`), so a null is refused there. The error is raised before the `try` at task2.py:153, so it is not caught: the request fails and nothing is written (`ServerError`, `Users.NullPatchRefused`). The same assignment validation re-runs the row's e-mail and phone validators, which a validated patch always passes (`Users.ValidatedPatchAssignable`). No row object ever holds a null, which is why `User`'s attributes are not optional.
- **Hero patches.** The hero table class does not validate assignments. A hero patch with a null `name` or `secret_name` puts the null in the row. That breaks a NOT NULL column at commit, `update_hero` does not catch the error, so the request fails and nothing is written (`DbError`).
- **Timestamps.** The model stamps `updated_at` with `now` after every accepted assignment. That is the behaviour the model configuration declares at task2.py:20-28.
- **Pagination limits.** A `limit` above 100 is a validation error (`Query(le=100)`). It is neither clamped nor silently honoured.

## Model

| member | source | states |
|---|---|---|
| `Items.ItemStore.ReadData` | one.py:15-19 | a present key yields exactly the stored item; an absent key yields NotFound |
| `Items.ItemStore.CreateData` | one.py:23-28 | on a taken key, AlreadyExists whatever the payload, and the dictionary is unchanged; on a fresh key, exactly that key is added with the given item and every other key keeps its item |
| `Items.ItemStore.UpdateData` | one.py:32-37 | on an absent key, NotFound and no change; on a present key, the whole record is replaced; the key set never changes |
| `Items.ItemStore.DeleteData` | one.py:41-46 | on an absent key, NotFound and no change; otherwise exactly that key is removed and every other entry is kept |
| `Items.CreateThenRead` | one.py:24-28 | after a create on a fresh key, a read of that key returns exactly the sent item |
| `Items.CreateTwice` | one.py:24-26 | a second create on the same key is refused whatever its payload, and the first item stays |
| `Items.ReplaceDropsDescription` | one.py:9-12 | a replace that omits the description leaves the description null rather than the old value |
| `Items.DeleteTwice` | one.py:42-45 | deleting a key twice: the first call succeeds and the second yields NotFound |
| `Users.DigitsRoundTrip` | task2.py:49-50 | the decimal digits of a number read back as that number |
| `Users.DigitCount` | task2.py:49-50 | a number has at most k decimal digits exactly when it is below 10^k (induction on k) |
| `Users.TenDigits` | task2.py:49-50 | the range [1000000000, 9999999999] is exactly the non-negative numbers with 10 decimal digits, as the error message says |
| `Users.ValidatePhNumber` | task2.py:46-51 | accepts iff 1000000000 <= n <= 9999999999, equivalently iff n has exactly 10 digits; on acceptance returns n unchanged; otherwise rejects with the "exactly 10 digits" message |
| `Users.ValidateUpdatePhNumber` | task2.py:88-93 | accepts a null value; on a present value accepts exactly when the create validator does |
| `Users.ValidateEmailFormat` | task2.py:37-44 | accepts exactly the addresses the e-mail library accepts; otherwise rejects with "Invalid email format" |
| `Users.ValidateUpdateEmailFormat` | task2.py:78-86 | a null address passes; a present one is judged as on create |
| `Users.ValidateUserCreate` | task2.py:31-51 | a create body is accepted iff its e-mail and phone number pass; a rejection carries one error per failing field, with its message, and no other |
| `Users.ValidateUserUpdate` | task2.py:72-93 | a patch is accepted iff every sent non-null e-mail and phone number passes; a patch that sends neither is always accepted; a rejection carries one error per failing sent field, with its message, and no other |
| `Users.NewUser` | task2.py:121 | a new row carries the body's fields, the given id, and created_at = updated_at = now |
| `Users.Merged` | task2.py:150-152 | the merge succeeds exactly when every sent value is assignable (not null, and passing the row's validators); then a sent field takes the sent value, an unsent field keeps its value, user_id and created_at never change, and updated_at moves to now unless nothing was sent; an empty patch leaves the row as it was |
| `Users.ValidatedPatchAssignable` | task2.py:78-93 | once the patch validators accept a patch, the row class refuses an assignment of it exactly when it sends an explicit null |
| `Users.Setattr` | task2.py:20-51 | one validated assignment: a null is refused for every field, an e-mail or phone number must pass the row's validator; an accepted one changes exactly that field and sets updated_at to now, and never the id or created_at |
| `Users.Replay` | task2.py:151-152 | a sequence of assignments never changes user_id or created_at; no assignments leave the row as it was; after at least one accepted assignment updated_at is now |
| `Users.SentFields` | task2.py:150 | the `exclude_unset` dictionary is empty exactly when nothing was sent |
| `Users.ReplayIsMerged` | task2.py:151-152 | performing the sent assignments one by one, stopping at the first refused one, yields the field-wise merged row, and fails exactly when the merge does |
| `Users.ApplyUpdate` | task2.py:150-152 | the assignment loop over the sent fields, which a refused assignment ends, produces exactly the merged row or the failure |
| `Users.PairUnique` | task2.py:56 | in a consistent table no two rows share the pair (e-mail key, ph_number), so the composite constraint follows from the e-mail one |
| `Users.Collides` | task2.py:34-35 | two rows clash on the e-mail constraint when their addresses are equal under the column's collation, and on the phone constraint when their numbers are equal |
| `Users.CommitAllowed` | task2.py:34-35 | a row can be committed beside the other rows when it clashes with none of them |
| `Users.CanInsert` | task2.py:57 | an insert also needs an id no row has |
| `Users.Consistent` | task2.py:32-57 | the table invariant: each row is stored under its own id, holds values its validators accept, and no two rows clash |
| `Users.CommitKeepsConsistent` | task2.py:34-35 | writing a valid row that the database accepts (no e-mail equal under the collation, no equal phone number) keeps the table invariant |
| `Users.RemoveKeepsConsistent` | task2.py:168-169 | removing a row keeps the table invariant |
| `Users.MergedStored` | task2.py:37-51 | the assignments the row class accepts leave the row's e-mail and phone number valid |
| `Users.UserStore.CreateUser` | task2.py:119-129 | an invalid body is rejected and the table is unchanged; a refused commit (a taken id, an e-mail equal to a stored one under the collation, or a taken phone number) is rolled back and the table is unchanged; otherwise exactly the new row is added under the fresh id; the invariant holds throughout |
| `Users.UserStore.ReadUsers` | task2.py:132-134 | a limit above 100 is rejected; an accepted page holds at most `limit` stored rows, taken in the database's order from `offset` |
| `Users.UserStore.ReadUser` | task2.py:137-142 | a present id yields exactly the stored row; a missing id yields NotFound |
| `Users.UserStore.UpdateUser` | task2.py:145-160 | an invalid patch is rejected with the validators' errors; a missing id yields NotFound; a validated patch with an explicit null fails at the assignment (ServerError); a commit that clashes under the collation or on the phone number is rolled back; on any failure the table is unchanged; on success only that row changes, to the merged row, with user_id and created_at kept; the invariant holds |
| `Users.UserStore.DeleteUser` | task2.py:163-170 | a missing id yields NotFound and no change; otherwise only that row is removed |
| `Users.EmptyPatchKeepsUser` | task2.py:150-152 | an empty patch on a stored user succeeds and changes nothing |
| `Users.DuplicateEmailRefused` | task2.py:123-127 | creating a user whose e-mail equals a stored one under the column's collation (for instance, differs only in case) fails, and the table is as before |
| `Users.NullPatchRefused` | task2.py:150-153 | a validated patch that sends an explicit null fails and leaves the table as it was |
| `Heroes.NewHero` | two.py:62-63 | a new row carries the body's fields under the assigned id |
| `Heroes.Merge` | two.py:93-94 | a sent field takes the sent value (null included); an unsent field keeps its value; the id never changes; an empty patch leaves the hero as it was |
| `Heroes.MergeIdempotent` | two.py:93-94 | sending the same patch twice has the effect of sending it once |
| `Heroes.MergeThen` | two.py:93-94 | two patches in a row equal one patch in which the later sent fields win |
| `Heroes.AgeOnlyPatch` | two.py:27-30 | a patch with only `age` changes the age and leaves name, secret_name and id untouched |
| `Heroes.NotNullOk` | two.py:13-19 | `name` and `secret_name` are NOT NULL columns; `age` is nullable |
| `Heroes.HeroStore.CreateHero` | two.py:61-67 | the hero is stored under the auto-increment id, which no stored hero has; existing heroes are untouched |
| `Heroes.HeroStore.ReadHeroes` | two.py:70-77 | a limit above 100 is rejected; an accepted page holds at most `limit` stored heroes in the database's order |
| `Heroes.HeroStore.ReadHero` | two.py:80-85 | a present id yields exactly the stored hero; a missing id yields NotFound |
| `Heroes.HeroStore.UpdateHero` | two.py:88-98 | a missing id yields NotFound and no change; a patch that nulls a NOT NULL column fails with no change; otherwise only that hero changes, to the merged row; the key set and the id are kept |
| `Heroes.HeroStore.DeleteHero` | two.py:101-108 | a missing id yields NotFound and no change; otherwise exactly that hero is removed and the counter is not rewound |
| `Heroes.PatchAge` | two.py:93-94 | patching only the age of a stored hero succeeds and changes only its age |
| `Heroes.DeleteTwice` | two.py:102-108 | deleting a hero twice: the first call succeeds and the second yields NotFound |
| `Heroes.CreateThenRead` | two.py:62-67 | a created hero reads back under its new id with the sent fields |
| `Common.Page` | two.py:74-76 | an OFFSET/LIMIT query: rejected when limit > 100; otherwise refused by the database (DbError) when offset or limit is negative; when accepted, a contiguous run of the input from `offset` of exactly min(`limit`, rows remaining) rows, and empty past the end |
| `Common.RowsInOrder` | task2.py:134 | the rows of a table listed in the database's order: one row per listed key, each the row stored under that key |

## Left out

- HTTP routing, the async handlers and the status codes: handlers are methods and errors are `Outcome` values.
- The database engine, sessions, connection settings, credentials and table creation at startup (task2.py:96-117, two.py:32-58): each table is a map field of a store object.
- The `email_validator` library, including its DNS lookup, is the function `emailOk`, because that library and the network are not part of this model. Its answer is taken as fixed over time.
- The collation of the e-mail column is the function `emailKey`: the case and accent folding of the database server is not part of this model.
- The clock and uuid4 generation: both are parameters (`now`, `freshId`), so updated_at >= created_at is not proved. The model reads the clock once per request. The code fills `created_at` and `updated_at` of a new row from two separate `default_factory` calls (task2.py:18-19), so the two may differ slightly; `Users.NewUser` gives both the same reading.
- The `validate_assignment` toggle inside the `updated_at` hook (task2.py:25, task2.py:27) only keeps the hook from re-triggering itself, so it is not modelled. The text of the error a refused assignment raises is not modelled either (`ServerError` carries none).
- The float `price` of an item is an opaque type parameter, because it is only stored and returned.
- The database error text passed back on a failed commit, and races between concurrent requests: these are I/O and concurrency concerns.
- The row order of listings is the parameter `order`. A negative offset or limit is modelled as a query the database rejects (`DbError`).
- Column widths and pydantic type coercion: the 32-bit `age` column, string lengths, and conversion of request strings to numbers. The phone range already fits the BigInteger column.
- The response projections of the routes (`response_model=UserPublic`, `response_model=HeroPublic`): the handlers return the whole stored row. `HeroPublic` has no `secret_name`, so no hero route sends it back to a client; that projection is not modelled.
- The loop inside `sqlmodel_update` is library code, so the hero merge is the function `Heroes.Merge`. The user merge is a method because its loop is in the handler.
- The row objects the session fetches and mutates in place are modelled as values. A handler writes the merged value back into the map, so aliasing between the session's object and the returned object is not modelled.
