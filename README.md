# BileMo `User` entity, modelled in Dafny

BileMo is a REST API over customers, users and products. Almost all of it is
request/response glue around an ORM, a serializer and a tag-aware cache. The
one self-contained piece of behaviour is the `User` entity
(`src/Entity/User.php`). This project models that entity and proves what it
guarantees:

- **Role normalisation.** `getRoles` copies the stored role list, appends
  `ROLE_USER`, and returns PHP's `array_unique` of the result. `array_unique`
  keeps each value at its first key *and keeps the keys*. So the model
  represents the returned array as a sequence of `Slot(key, role)` entries
  (module `Roles`). It proves the following:
  - the base role is always reported, exactly once;
  - every stored role is reported, and nothing else is;
  - stored roles keep their first-occurrence order;
  - the base role comes last unless it was already stored;
  - normalisation is idempotent on values: storing the reported values back
    as a list (`setRoles(array_values(getRoles()))`) and asking again gives
    the same values.

  It also proves when the docblock's `list<string>` return type actually
  holds. It holds when the stored roles are distinct. It fails when a
  non-base role is stored twice and `ROLE_USER` itself is not stored:
  `["ROLE_ADMIN", "ROLE_ADMIN"]` yields keys 0 and 2. When `ROLE_USER` is
  stored, a duplicate need not leave a gap.
- **The owned side of the User–Customer many-to-many relation.**
  `addCustomer` and `removeCustomer` change the `customers` collection in
  place. `contains`/`add` and `removeElement` are the Doctrine
  `ArrayCollection` operations. They are modelled as the functions
  `Collection.Added` and `Collection.Removed`. `Removed` takes out the first
  occurrence, found by strict identity, as `array_search` does. The class
  `Entity.User` holds the fields and updates them in place. A ghost log
  `calls` records each `Customer::addUser` / `Customer::removeUser` call the
  user makes. The model proves the following:
  - both operations keep the collection duplicate-free;
  - adding is idempotent and calls `addUser` only when the collection
    changed;
  - removing leaves every other customer there, in the same order and calls `removeUser`
    only when something was removed;
  - adding a new customer and then removing it restores the collection.

The getters (`getId`, `getEmail`, `getFirstname`, `getLastname`,
`getCreatedAt`, `getUpdatedAt`, `getCustomers`) are functions that read one
field. `eraseCredentials` is a method that changes nothing, as in the
source. Each setter's `modifies` frame names only its own field, so the
verifier checks that no other field changes. Each setter returns the user
itself.

`id`, `email`, `firstname` and `lastname`, which the constructor leaves
null, are `Option` values. The two timestamps are declared nullable, but the
constructor always sets them, so they are plain `Timestamp` values, and
nothing looks inside them. The constructor's two `new DateTime()` readings become
two parameters, `created` and `updated`.

`roles` is stored as an ordered list, and `getRoles` returns an array whose
keys can have gaps, as described above.

## Model

| member | source | states |
|---|---|---|
| `Roles.ArrayUnique` | src/Entity/User.php:136 | no contract of its own; PHP's `array_unique` on a list, characterised by `ArrayUniqueSpec` |
| `Roles.GetRolesOf` | src/Entity/User.php:130-137 | no contract of its own; `getRoles` on a stored list, characterised by `GetRolesShape`, `GetRolesMembers` and `GetRolesHasBaseRoleOnce` |
| `Roles.ArrayUniqueSpec` | src/Entity/User.php:136 | `array_unique` keeps exactly the first occurrences, each at its original key with its original value, with the keys in rising order (so the input order is kept) |
| `Roles.ArrayUniqueMembers` | src/Entity/User.php:136 | a value is in the result of `array_unique` exactly when it is in the input |
| `Roles.ArrayUniqueNoDup` | src/Entity/User.php:136 | the values `array_unique` returns are pairwise distinct |
| `Roles.ArrayUniqueOfDistinct` | src/Entity/User.php:136 | on a duplicate-free list, `array_unique` returns the list unchanged, keys included |
| `Roles.ArrayUniqueLength` | src/Entity/User.php:136 | `array_unique` never grows its input, and it keeps every entry only when the input has no duplicates |
| `Roles.GetRolesShape` | src/Entity/User.php:130-137 | `getRoles` returns `array_unique` of the stored roles, then the base role at key `count(stored)`, unless the base role was already stored; in that case it is not repeated |
| `Roles.GetRolesHasBaseRoleOnce` | src/Entity/User.php:132-136 | whatever list was stored, including the empty list, `ROLE_USER` is reported, and no role is reported twice |
| `Roles.GetRolesMembers` | src/Entity/User.php:132-136 | a role is reported exactly when it was stored or is `ROLE_USER` |
| `Roles.GetRolesIdempotent` | src/Entity/User.php:130-147 | storing the reported values back as a list (`array_values(getRoles())`) with `setRoles` and asking again gives the same values, at keys 0, 1, 2, ... |
| `Roles.GetRolesListWhenDistinct` | src/Entity/User.php:128-136 | when the stored roles are distinct, the result is a PHP list, as the `list<string>` return type promises |
| `Roles.GetRolesNotListWhenDuplicated` | src/Entity/User.php:128-136 | when a non-base role is stored twice and `ROLE_USER` is not stored, the result is not a list: a key is missing |
| `Roles.GetRolesDuplicatedAdmin` | src/Entity/User.php:130-137 | storing `["ROLE_ADMIN", "ROLE_ADMIN"]` makes `getRoles` return `ROLE_ADMIN` at key 0 and `ROLE_USER` at key 2 |
| `Collection.Added` | src/Entity/User.php:217-218 | after the guarded add, the element is present, the old contents are a prefix of the new ones, and the collection grows by one only when the element was absent |
| `Collection.FirstIndex` | src/Entity/User.php:227 | the position `removeElement` finds holds the element, and no earlier position does |
| `Collection.Removed` | src/Entity/User.php:227 | no contract of its own; `removeElement`, characterised by `RemovedMultiset` and `RemovedMembers` |
| `Collection.RemovedKeepsOrder` | src/Entity/User.php:227 | `removeElement` leaves everything before the first occurrence as it was, and everything after it in the same order, one position lower |
| `Collection.RemovedMultiset` | src/Entity/User.php:227 | `removeElement` takes away exactly one copy of the element when there is one, and nothing else |
| `Collection.RemovedMembers` | src/Entity/User.php:225-232 | on a duplicate-free collection, the removed element is absent afterwards, and every other element is present exactly when it was before |
| `Collection.RemovedKeepsNoDup` | src/Entity/User.php:227 | removing keeps a duplicate-free collection duplicate-free |
| `Collection.AddedKeepsNoDup` | src/Entity/User.php:217-218 | the guarded add keeps a duplicate-free collection duplicate-free |
| `Collection.RemoveUndoesAdd` | src/Entity/User.php:214-232 | adding a customer that was absent and then removing it gives back the original collection |
| `Collection.RemovedIdempotent` | src/Entity/User.php:225-232 | on a duplicate-free collection, removing twice is the same as removing once |
| `Entity.User.constructor` | src/Entity/User.php:91-96 | a new user has an empty, duplicate-free customer collection, no roles, email or names; each timestamp is its own clock reading |
| `Entity.User.GetId` | src/Entity/User.php:98-101 | no contract of its own; a pure read of the `id` field |
| `Entity.User.GetEmail` | src/Entity/User.php:103-106 | no contract of its own; a pure read of the `email` field |
| `Entity.User.SetEmail` | src/Entity/User.php:108-113 | stores the email, changes no other field, returns the same user, and the user identifier is then that email |
| `Entity.User.UserIdentifier` | src/Entity/User.php:120-123 | the identifier is the stored email, or the empty string when no email is set |
| `Entity.User.GetRoles` | src/Entity/User.php:130-137 | the reported roles contain `ROLE_USER`, have no duplicates, contain exactly the stored roles and `ROLE_USER`, and form a list when the stored roles are distinct; reading them changes nothing |
| `Entity.User.SetRoles` | src/Entity/User.php:142-147 | replaces the stored role list wholesale, changes no other field, returns the same user |
| `Entity.User.EraseCredentials` | src/Entity/User.php:152-156 | no contract of its own; it has no `modifies` clause, so it changes nothing |
| `Entity.User.GetFirstname` | src/Entity/User.php:158-161 | no contract of its own; a pure read of the `firstname` field |
| `Entity.User.SetFirstname` | src/Entity/User.php:163-168 | stores the first name, changes no other field, returns the same user |
| `Entity.User.GetLastname` | src/Entity/User.php:170-173 | no contract of its own; a pure read of the `lastname` field |
| `Entity.User.SetLastname` | src/Entity/User.php:175-180 | stores the last name, changes no other field, returns the same user |
| `Entity.User.GetCreatedAt` | src/Entity/User.php:182-185 | no contract of its own; a pure read of the `createdAt` field |
| `Entity.User.SetCreatedAt` | src/Entity/User.php:187-192 | stores the creation time, changes no other field, returns the same user |
| `Entity.User.GetUpdatedAt` | src/Entity/User.php:194-197 | no contract of its own; a pure read of the `updatedAt` field |
| `Entity.User.SetUpdatedAt` | src/Entity/User.php:199-204 | stores the update time, changes no other field, returns the same user |
| `Entity.User.GetCustomers` | src/Entity/User.php:209-212 | no contract of its own; a pure read of the `customers` contents (see "## Left out" on aliasing) |
| `Entity.User.AddCustomer` | src/Entity/User.php:214-223 | afterwards the customer is in the collection. If it already was, nothing changes and `addUser` is not called. Otherwise it is appended once and `addUser` is called once. No duplicate is introduced |
| `Entity.User.RemoveCustomer` | src/Entity/User.php:225-232 | the customer's first occurrence is removed, and `removeUser` is called only when there was one. On a duplicate-free collection the customer is then absent, and the collection stays duplicate-free |
| `Entity.AddTwiceThenRemove` | src/Entity/User.php:214-232 | adding a new customer twice and then removing it restores the collection and logs exactly one `addUser` call and one `removeUser` call |

## Left out

- The controllers (`src/Controller/*.php`) are not modelled. They are serialization, ORM, routing and cache glue around library code that is not part of this model. That includes the tag-aware cache and its invalidation.
- `src/DataFixtures/AppFixtures.php` is not modelled. It is database seeding with password hashing, `array_rand` randomness and persistence.
- The ORM mapping, HATEOAS and OpenAPI annotations are not modelled. They are declarative metadata. This includes the column lengths and the unique-email constraint: the database enforces them, not the entity.
- The `id` field is only ever set by the ORM when a user is persisted. The model has no operation that sets it.
- The clock is a parameter. The `DateTime` values are opaque `Timestamp` values.
- `Customer::addUser` and `Customer::removeUser` are not part of this model. The calls are recorded in the ghost log `calls`. The model assumes they do not change this user's fields. If `addUser` called back `addCustomer`, that call would find the customer already present and be a no-op.
- `getCustomers` returns the live Doctrine collection, so a caller can change it directly. The model's getter returns a copy of the contents. This is why `AddCustomer` and `RemoveCustomer` do not require a duplicate-free collection and only promise to preserve one.
- A null `createdAt` or `updatedAt` is outside the model. It can happen only when the constructor is skipped, for instance when the serializer builds the `User`.
- The timestamps are mutable `DateTime` objects, and `getCreatedAt`/`getUpdatedAt` hand out the stored object, so a caller can change a user's timestamp without calling a setter. The model's `Timestamp` is a value, so it does not capture this aliasing.
- The integer keys inside Doctrine's `ArrayCollection` are not modelled. They can have gaps after `removeElement` unsets an entry. The collection is modelled as an ordered sequence.
- The `roles` field is modelled as a list. `setRoles` accepts any PHP array, but its documented parameter type is `list<string>`, and that is the case modelled.
- Roles.GetRolesIdempotent: states idempotence only for the values stored back as a list. PHP's `setRoles(getRoles())` stores the array with its keys, gaps included. The role field is modelled as a list, so a stored array with gaps in its keys is outside the model.
