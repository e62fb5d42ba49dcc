# Metadata store of the LFS server, modelled in Dafny

The LFS server keeps two kinds of metadata in one bolt database: object
records (an oid and its size) in the `objects` bucket, and user credentials
(name and password) in the `users` bucket. `MetaStore` is the type that
owns that database. It offers these operations:

- `Get` looks up an object record. It is gated by an external authenticator.
- `Put` stores a record only if `Get` finds none (put-if-absent). It is gated
  by the same authenticator.
- `AddUser` and `DeleteUser` write and remove credentials.
- `Users` and `Objects` list the contents of the two buckets.

The model has three modules:

- `KeyOrder` (`key_order.dfy`) gives the order in which a bolt cursor visits
  the keys of a bucket: ascending, a proper prefix first. `SortedKeys` is
  that walk. `NextKey` is one step of it: it picks the next key among those
  not yet visited.
- `Store` (`meta_store.dfy`) holds the data types and the class `MetaStore`.
  - The database is two fields, `users` and `objects`. Each is a bucket
    (a `map` keyed by string), or `None` when the bucket is missing.
  - `Put`, `AddUser` and `DeleteUser` update those fields in place.
  - `Get` is a function of the state: it only reads.
  - `Users` and `Objects` walk a bucket key by key and append to a list.
  - The authenticator and the gob serializer are constructor parameters.
    The serializer is a `Codec`, a pair of encode and decode functions that
    may each fail. The type `LawfulCodec` requires three things of it: a
    record that encodes decodes back to itself, an encoding is never empty,
    and the empty value does not decode.
  - `ObjectsWellFormed` says that every stored record is one that `Put`
    could have written. `Put` preserves it.
- `Scenarios` (`scenarios.dfy`) holds client methods. Each opens a store and
  makes several calls in a row. Their contracts state properties that span
  calls: a Put followed by a Get, two Puts of one oid, add then list then
  delete.

Behaviours of bolt that the code relies on are modelled as bolt implements
them:

- A missing bucket is `None`.
- Storing under the empty key fails with bolt's `ErrKeyRequired` (here
  `KeyRequired`).
- Deleting an absent key succeeds and changes nothing.
- `ForEach` visits keys in ascending order and stops at the first error its
  callback returns.

Three behaviours of the code are easy to miss, and the model keeps them:

- `Objects` does not report a value that fails to decode. The callback's
  error ends the walk (meta_store.go:198-199), but the error returned by
  `ForEach` is dropped (meta_store.go:194) and the transaction returns nil
  (meta_store.go:204). The caller therefore gets the records decoded before
  the bad one, and no error.
- `Put` writes whenever its internal `Get` fails, whatever the reason
  (meta_store.go:87-90). That includes a missing bucket, where the write then
  fails too (meta_store.go:102-103). It also includes a value that does not
  decode, which `Put` overwrites with the new record (meta_store.go:106).
- `existing` is a field of the record the serializer encodes
  (meta_store.go:95). The model assumes nothing about how the record type
  tags it. A `Get` returns `existing == false` for every record that `Put`
  wrote (`ObjectsWellFormed`), not for arbitrary stored bytes.

## Model

| member | source | states |
|---|---|---|
| `KeyOrder.SortedKeysMembers` | meta_store.go:174-177 | a walk over a bucket visits exactly the keys of the bucket |
| `KeyOrder.SortedKeysIncreasing` | meta_store.go:194-203 | each key of the walk comes strictly before the next in byte order, so no key is visited twice |
| `KeyOrder.NextKey` | meta_store.go:174 | the key the cursor visits next belongs to the unvisited keys, and the remaining walk is that key followed by the walk over the rest |
| `Store.DecodePrefix` | meta_store.go:194-203 | decoding values in walk order and stopping at the first failure yields the longest prefix of values that decode: the i-th result is the decoding of the i-th value, and a shorter result means the next value does not decode |
| `Store.UserListing` | meta_store.go:174-177 | a list naming the keys in walk order holds a `MetaUser` for every key and for nothing else, in strictly increasing order |
| `Store.CompleteListing` | meta_store.go:194-203 | when every stored value is a record `Put` wrote, the walk decodes all of them, and the i-th record carries the i-th key with `existing` unset |
| `Store.MetaStore.constructor` | meta_store.go:34-46 | if the bucket-creation transaction commits, both buckets exist and any existing contents are kept; if it does not commit, the error is ignored and the buckets are as they were |
| `Store.MetaStore.Get` | meta_store.go:51-78 | a refused credential gives `AuthError`; a missing bucket gives `NoBucket`; an absent or empty value gives `ObjectNotFound` (so does the empty oid in every reachable state, since bolt never stores the empty key); a value that does not decode gives `DecodeError`. `Get` succeeds exactly when the credential is accepted and the stored value decodes, and then it returns that decoding. It never changes the state |
| `Store.MetaStore.Put` | meta_store.go:81-119 | a refused credential gives `AuthError` and no write. If `Get` finds a record, `Put` returns it with `existing` set and writes nothing, whatever size was asked for. Otherwise it encodes `{oid, size}` and stores it under the oid, changing no other key and not the users bucket. It fails with `EncodeError`, `NoBucket` or `KeyRequired`, without a write, when encoding, the bucket or the key is missing. After a write, `Get` with the same request returns the written record. `Put` preserves `ObjectsWellFormed` |
| `Store.MetaStore.AddUser` | meta_store.go:127-142 | sets the user's password, overwriting any earlier one. Fails with `NoBucket` when the users bucket is missing and `KeyRequired` for the empty name. Never touches the objects bucket |
| `Store.MetaStore.DeleteUser` | meta_store.go:145-157 | removes the user and leaves every other user as it was; removing an absent user succeeds. Fails only with `NoBucket`. Never touches the objects bucket |
| `Store.MetaStore.Users` | meta_store.go:165-182 | a missing bucket gives `NoBucket`. Otherwise the list holds one `MetaUser` per key, each name once, in ascending key order; an empty bucket gives an empty list and no error |
| `Store.MetaStore.Objects` | meta_store.go:185-208 | a missing bucket gives `NoBucket`. Otherwise the result is never an error: it is the values decoded in key order, up to the first value that does not decode |
| `Scenarios.PutThenGet` | meta_store.go:86-118 | on any objects bucket, a successful `Put` is followed by a `Get` that returns a record with the same oid and size, and exactly `{oid, size}` when the `Put` wrote it; a refused credential fails both calls |
| `Scenarios.PutTwiceOnEmpty` | meta_store.go:86-118 | on an empty store, `Put(oid, s1)` returns `{oid, s1}` unset, then `Put(oid, s2)` returns `{oid, s1}` with `existing` set, and `Get` still finds size `s1` |
| `Scenarios.PutTwice` | meta_store.go:86-90 | on any objects bucket, a second `Put` of the same oid with the same credential returns the first successful result with `existing` set |
| `Scenarios.AddListDeleteList` | meta_store.go:127-182 | after `AddUser("bob", ...)`, `Users` lists exactly bob; after `DeleteUser("bob")`, it lists nobody |
| `Scenarios.AddUserTwice` | meta_store.go:127-142 | storing passwords `p1` then `p2` for one user leaves `p2` |
| `Scenarios.DeleteThenList` | meta_store.go:145-182 | deleting any name, present or not, succeeds, and the following listing names exactly the other users, each once |
| `Scenarios.EmptyListings` | meta_store.go:165-208 | on an empty store, `Users` and `Objects` both return an empty list, not an error |

## Left out

- Opening the database file is not modelled: the file mode, the one-second lock timeout and the error when the file cannot be opened (meta_store.go:29-32). `Close` (meta_store.go:122-124) is left out too. Both are file I/O and library lifecycle. The constructor starts from the buckets already in the file.
- Transactions and concurrency are left out. Each operation is one atomic step. `Put` runs its lookup and its write in two separate transactions, so under concurrency another writer could slip in between. The model does not capture that.
- The gob wire format is not modelled. `Codec` keeps encoding and decoding abstract, with the laws above.
- `authenticate` and `newAuthError` are defined outside this file. `authenticate` is a constructor parameter, and only its boolean verdict is used.
- `authenticate` is modelled as one fixed function of the credential. Its verdict is assumed to be the same at every call and not to depend on the store's buckets. In the code, `Put` calls it twice: at meta_store.go:82 and again inside `Get` (meta_store.go:52, reached from meta_store.go:87). If the second call refused, `Get` would fail with `AuthError` and `Put` would overwrite a stored record (meta_store.go:92-118). That path is not modelled, and `Put`'s "found, so no write" clause depends on this assumption.
- The log call on a failing `Get` (meta_store.go:73) is left out: it changes no state and no result.
- bolt's limits on key and value length (`ErrKeyTooLarge`, `ErrValueTooLarge`) are not modelled. Neither are commit failures of the write transactions of `Put`, `AddUser` and `DeleteUser`.
- Nested buckets inside `users` or `objects` are not modelled. A bucket here holds only key/value pairs.
- Keys are strings ordered by code point. This matches bolt's byte order on their UTF-8 encodings. Keys that are not valid UTF-8 are not modelled.
- Sizes are unbounded integers. The store does no arithmetic on them, so the 64-bit width of the source plays no part.
- Results are returned as values rather than pointers to fresh records. No record is shared, so nothing is lost by this.
