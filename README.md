# Registration and payment-proof backend: a Dafny model

The repository is a thin HTTP layer (`index.js`) over a document store with
two collections. `POST /register` upserts a user keyed on `phone`; `POST
/payment-proof` appends a payment-proof record; `GET /users` and `GET
/payments` list a collection newest first. This project models what the file
itself decides and states what it assumes of the store:

- `js_values.dfy` (module `JsValues`): the values a JSON body hands a handler
  (`Undefined | Null | Bool | Num | Str`) and JavaScript truthiness over them.
- `validation.dfy` (module `Validation`): the two request guards as pure
  functions, their fixed 400 messages, and lemmas about the edge cases. The
  main one is that `amount = 0` is accepted, while `0` in `name`, `phone` or
  `planTitle` is refused (the screenshot guard lets `0` and `false` through
  too).
- `ordering.dfy` (module `Ordering`): the `createdAt`-descending order of
  both listings, specified as a permutation with non-increasing keys.
- `store.dfy` (module `Store`): the record shapes of `userSchema` and
  `paymentSchema`, the assumed semantics of `findOneAndUpdate(..., { upsert:
  true, new: true })` (`Upsert`) and of `Payment.create` (`NewPayment`), and
  a class `Database` holding the two collections and a clock. Its methods
  `Register`, `SubmitPayment`, `ListUsers` and `ListPayments` are the four
  handlers. Each returns `Ok`, `ValidationError(message)` or
  `StoreError(message)`, i.e. HTTP 200, 400 or 500.
- `wrappers.dfy` (module `Wrappers`): `Option`.

The object invariant `Database.Valid()` has two parts:

- `UsersWellFormed`: phones are unique, `createdAt` strictly increases in
  insertion order, every timestamp is below the clock, and every user passed
  the register check.
- `PaymentsWellFormed`: the same timestamp facts for payments, and every
  payment passed the payment check.

The schema declares no unique index on `phone` (index.js:31). For any
sequence of requests handled one after another, uniqueness holds because
every write goes through the upsert, and the lemmas about `Upsert` prove
that it does. Concurrent requests are another matter; the list of what is left out says why.

A store failure is an input: each method takes `fault: Option<string>`. With
`Some(m)` the method answers `StoreError(m)` and changes nothing. So for
every method, a failed validation or store call leaves both collections and
the clock unchanged, and a success changes only the targeted collection and the clock.

The schema declares `screenshotBase64` a required String (index.js:45), but
the guard at index.js:101-103 refuses only `undefined`, `null` and `""`, so `false` and
`0` pass it (`Validation.ScreenshotCheckAdmitsFalsy`). Likewise a truthy
non-string `name` (`true`, `5`) passes the falsy checks. What Mongoose then
does with such values is casting, which is not modelled.

## Model

| member | source | states |
|---|---|---|
| `JsValues.Truthy` | index.js:59 | `!!v` holds exactly when `v` is not one of the five falsy JSON values `undefined`, `null`, `false`, `0`, `""` |
| `JsValues.Nullish` | index.js:104-105 | the `=== undefined \|\| === null` test holds exactly for `undefined` and `null`, and implies falsiness |
| `Validation.RegisterAccepts` | index.js:59 | a register request passes exactly when neither `name` nor `phone` is a falsy value |
| `Validation.PaymentAccepts` | index.js:97-106 | a payment request passes exactly when `name`, `phone` and `planTitle` are not falsy, `screenshotBase64` is not `undefined`/`null`/`""`, and `amount` is not `undefined`/`null` |
| `Validation.RegisterRejectsFalsy` | index.js:59-61 | any falsy `name` or `phone` is refused |
| `Validation.ZeroAmountAccepted` | index.js:96-106 | `amount = 0` is falsy yet accepted when `name`, `phone` and `planTitle` are truthy and the screenshot passes its guard |
| `Validation.IssueTypeIrrelevant` | index.js:93-106 | the verdict does not depend on `issueType`, so omitting it never causes a rejection |
| `Validation.ScreenshotCheckAdmitsFalsy` | index.js:101-103 | `screenshotBase64` of `false` or `0` passes the guard, `""` does not |
| `Validation.PaymentNamePhoneAgreeWithRegister` | index.js:98-99 | an accepted payment's `name` and `phone` would also pass the register check |
| `Ordering.SortNewestFirst` | index.js:80 | the listing is a permutation of the collection (same multiset) with `createdAt` non-increasing |
| `Ordering.SortOfAscendingIsReverse` | index.js:133 | when `createdAt` strictly increases in insertion order, newest first is exactly reverse insertion order |
| `Store.FindByPhone` | index.js:65 | the filter `{ phone }` finds the first user with that phone, and finds none exactly when no user has it |
| `Store.Upsert` | index.js:64-68 | the returned document has the new name, the phone and the write time and is in the collection; users with other phones are untouched; an existing phone keeps length and `createdAt`; a new phone is appended |
| `Store.UpsertKeepsPhonesUnique` | index.js:64-68 | an upsert preserves phone uniqueness |
| `Store.UpsertLeavesOneRecordForPhone` | index.js:64-68 | after an upsert exactly one user has the phone, and it is the returned document |
| `Store.UpsertTwiceIsUpsertOnce` | index.js:64-68 | repeating a registration changes only `updatedAt`, never the contents or the length |
| `Store.UpsertPreservesWellFormed` | index.js:28-34 | an accepted registration keeps the users' invariant (unique phones, ascending `createdAt`, timestamps below the clock, stored users valid) |
| `Store.NewPayment` | index.js:112-119 | the created document carries exactly the request's fields (issueType possibly absent) and the write time |
| `Store.AppendPreservesWellFormed` | index.js:39-49 | appending an accepted payment keeps the payments' invariant |
| `Store.Database.Register` | index.js:56-75 | refused (400, fixed message) or failed (500) registrations change nothing; a success equals `Upsert` on the old users, returns the post-write document that is the only one with that phone, leaves other phones' users and all payments unchanged, and keeps `Valid()` |
| `Store.Database.SubmitPayment` | index.js:89-128 | refused or failed submissions change nothing; a success appends exactly `NewPayment(req)` after the old payments, returns it, leaves users unchanged and keeps `Valid()` |
| `Store.Database.ListUsers` | index.js:78-86 | returns every stored user, no more, no fewer, `createdAt` non-increasing, which is reverse insertion order; a store failure gives 500 |
| `Store.Database.ListPayments` | index.js:131-139 | returns every stored payment, no more, no fewer, `createdAt` non-increasing, which is reverse insertion order; a store failure gives 500 |

## Left out

- Server plumbing (index.js:9-13, 141-144): the Express app, CORS, the 15 MB body limit, `app.listen` and the default port. These are HTTP wiring.
- Startup (index.js:7, 15-25): `dotenv`, the fail-fast exit on a missing `MONGO_URL`, and `mongoose.connect`. `Database.constructor` starts from two empty collections instead.
- Logging: every `console.log` and `console.error` call, which is output only.
- Mongoose casting and the schema's `required` validators (index.js:30-31, 41-45). Stored fields are the raw request values, so a truthy number in `name` is stored as that number. The `{ phone }` filter compares uncast values, so `5` and `"5"` (or `true` and `"true"`) are two keys here and one in the store: `PhonesUnique` is uniqueness of the uncast request values, not of the phones Mongoose would store.
- Request fields that are JSON arrays or objects. They are truthy in JavaScript, and MongoDB may read an object as a query operator in the `{ phone }` filter. The value type has no constructor for them.
- `Infinity`, which JSON.parse yields for an out-of-range numeric literal such as `1e999`: `Value` has no constructor for it. It is truthy and not nullish, so it would pass the `amount` guard and be stored.
- `_id` (ObjectId) generation. Real timestamps are replaced by a counter that each successful write advances by one, so `createdAt` values never tie. `SortNewestFirst`'s contract leaves the order of ties open; under the tie-free clock the listings are exactly reverse insertion order.
- Store.Upsert: the semantics of `findOneAndUpdate` (MongoDB's, not this file's) are assumed, not verified. The assumption: first match in natural order, `createdAt` kept, `updatedAt` set, an insert when nothing matches.
- Store.Database.Register: a store failure is assumed to leave the collections unchanged. Concurrent registrations are not modelled. Without a unique index on `phone` (index.js:31), MongoDB can insert two users for two racing first registrations of one phone, so `PhonesUnique` holds for sequential requests only.
- Store failures are opaque: `fault` carries whatever message the store raised. Its text is not modelled.
