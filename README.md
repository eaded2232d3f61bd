# Recipe/tag reconciliation of the recipe API serializers

This project models the write paths of the recipe serializer of a small
recipe-management web API. A recipe is owned by a user and carries
scalar fields (`title`, `time_minutes`, `price`, `description`) and a set of
tags. A tag is a short label owned by one user. The serializer's `create` and
`update` take an optional nested list of tags, each given only by `name`. For
each entry it runs `Tag.objects.get_or_create(user=<requesting user>,
name=...)` and adds the tag to the recipe's tag set.

The model keeps the database as an in-memory store (`Serializers.RecipeStore`).
The store is a class with two tables: a tag table of `(id, owner, name)` rows
and a recipe table. An id is allocated on insert and equals the row's position.
The operations are methods that update the two tables in place:

- `GetOrCreateTag` is one `get_or_create`.
- `AddTag` is `recipe.tags.add`.
- `AttachOne` is one turn of the tag loop.
- `GetOrCreateTags` is the whole loop of `_get_or_create_tags`.
- `Create` and `Update` are the serializer's `create` and `update`.

The tag-table methods (`GetOrCreateTag`, `AttachOne`, `GetOrCreateTags`, and
through them `Create` and `Update`) are proved against pure functions in
module `TagTable`; `AddTag` states its set insertion directly:

- `Lookup` is the `get` by (owner, name).
- `GetOrCreate` is one get-or-create.
- `Resolve` is the loop over the list.

The lemmas beside those functions state what the reconciliation promises:

- every listed name ends up with exactly one row of the requesting user's, and that row is attached;
- the attached ids are exactly the user's rows named in the list;
- a repeated name changes nothing;
- a name the user already owns creates no row;
- one row is created per distinct unowned name, and it is owned by the requesting user;
- other owners' rows are never reused or attached;
- the tag table only grows.

The requesting user, which the source reads from the request context
(`self.context["request"].user`), is an explicit parameter. The lookup and the
creation use the requesting user, not the recipe's owner, which is a separate
value; the two coincide when the view passes the requesting user as the owner.
When they coincide, `Create` proves that every attached tag has the recipe's
owner; `Update` proves it when the `tags` key is present and keeps it when the
key is absent.

`Update` distinguishes an absent `tags` key (`None`) from a present one
(`Some(list)`, possibly empty):

- Absent: neither the tag set nor the tag table changes.
- Present: the tag set is cleared and then becomes exactly the resolved ids, so `Some([])` empties it.

The `setattr` loop over the remaining payload is `Models.ApplyPatch`, a
partial update over a record of optional fields. Its contract says, field by
field, that a present key is assigned and an absent one is kept. `tags` is
split off before the patch, so it is never assigned as a scalar.

Module `SerializerFields` holds the `Meta.fields` and `read_only_fields`
lists as the constants `TagFields`, `TagReadOnlyFields`, `RecipeFields` and
`RecipeReadOnlyFields`, and the detail list as `RecipeDetailFields`:

- The detail view's list is the list view's list followed by `"description"`.
- The fields accepted on input are those not declared read-only.

## Model

| member | source | states |
|---|---|---|
| Models.ApplyPatch | app/recipe/serializers.py:71-72 | for every scalar column, the new value is the payload's value when the key is present and the old value otherwise |
| Models.EmptyPatchKeeps | app/recipe/serializers.py:71-72 | a payload with no scalar keys leaves the record unchanged |
| Models.ApplyPatchIdempotent | app/recipe/serializers.py:71-72 | assigning the same payload twice equals assigning it once |
| TagTable.Lookup | app/recipe/serializers.py:48-51 | returns the first row matching (user, name), or None exactly when no row matches |
| TagTable.GetOrCreate | app/recipe/serializers.py:48-51 | the returned row matches (user, name); the old table is a prefix of the new one; a row is created iff none matched, and the table grows by one exactly then |
| TagTable.GetOrCreateOwns | app/recipe/serializers.py:48-51 | afterwards an owner owns a name iff it did before or it is (user, name) |
| TagTable.GetOrCreateKeepsIds | app/recipe/serializers.py:48-51 | a freshly inserted row gets the next free id, so ids stay equal to positions |
| TagTable.GetOrCreateKeepsUnique | app/recipe/serializers.py:48-51 | get-or-create never makes a second row for an (owner, name) pair |
| TagTable.Resolve | app/recipe/serializers.py:47-52 | resolving a list only appends to the tag table, and every attached id is a row of the result |
| TagTable.ResolvePrefixStep | app/recipe/serializers.py:47-52 | the unfolding of Resolve by one list entry that the loop proof of GetOrCreateTags uses; not a property of its own |
| TagTable.ResolveKeepsIds | app/recipe/serializers.py:47-52 | ids stay equal to positions across the whole loop |
| TagTable.ResolveKeepsUnique | app/recipe/serializers.py:47-52 | at most one row per (owner, name) across the whole loop |
| TagTable.ResolveOwns | app/recipe/serializers.py:46-52 | afterwards the requesting user owns exactly its old names plus the listed names; every other owner owns exactly what it owned before |
| TagTable.ResolveInserted | app/recipe/serializers.py:47-51 | every inserted row is owned by the requesting user and carries a listed name that user did not own before |
| TagTable.ResolveCount | app/recipe/serializers.py:47-51 | the table grows by exactly the number of distinct listed names the user did not already own |
| TagTable.ResolveAttached | app/recipe/serializers.py:46-52 | an id is attached iff it is a row owned by the requesting user whose name is in the list |
| TagTable.ResolveCovers | app/recipe/serializers.py:46-52 | for every entry of the list exactly one row matches (user, name), it is the row the lookup finds, and it is attached |
| TagTable.ResolveDuplicate | app/recipe/serializers.py:47-52 | appending a name already in the list leaves both the table and the attached set unchanged |
| TagTable.CrossOwnerDistinct | app/recipe/serializers.py:46-51 | two different users resolving the same name get two distinct rows, each owned by its requester |
| TagTable.DuplicateNamesExample | app/recipe/serializers.py:47-52 | the list ["Tag1", "Tag1"] on an empty table creates one row and attaches only it |
| SerializerFields.TagMeta | app/recipe/serializers.py:15-21 | the constants TagFields and TagReadOnlyFields list id and name once each, and the read-only id is a listed field |
| SerializerFields.RecipeMeta | app/recipe/serializers.py:34-41 | the constants RecipeFields and RecipeReadOnlyFields list each field once, the read-only id is a listed field, and description is not listed |
| SerializerFields.RecipeDetailFields | app/recipe/serializers.py:82 | the detail view's list is one longer than the list view's: it is the list view's fields in order, then "description" |
| SerializerFields.Extend | app/recipe/serializers.py:82 | an extended field list is the base list, in order, followed by the extra fields |
| SerializerFields.Writable | app/recipe/serializers.py:19-21 | a field is accepted on input iff it is listed and not read-only |
| SerializerFields.WritableAppend | app/recipe/serializers.py:81-82 | filtering out read-only fields distributes over concatenating field lists |
| SerializerFields.DetailExtendsList | app/recipe/serializers.py:82 | the detail view's list starts with the list view's fields in order, adds exactly "description", and has no repeated names |
| SerializerFields.TagWritable | app/recipe/serializers.py:15-21 | a tag accepts only "name" on input |
| SerializerFields.RecipeWritable | app/recipe/serializers.py:34-41 | a recipe accepts title, time_minutes, price and tags on input, but not id |
| SerializerFields.DetailWritable | app/recipe/serializers.py:81-82 | the detail view inherits the read-only list, so it accepts the list view's input fields plus "description" |
| Serializers.RecipeStore.GetOrCreateTag | app/recipe/serializers.py:48-51 | the tag table becomes GetOrCreate of the old one; the returned id is its row; the store invariant holds |
| Serializers.RecipeStore.AddTag | app/recipe/serializers.py:52 | the recipe's tag set gains the id, with no change when it already holds it; no other recipe changes |
| Serializers.RecipeStore.AttachOne | app/recipe/serializers.py:47-52 | one loop turn: one get-or-create, then its id is added to the recipe |
| Serializers.RecipeStore.GetOrCreateTags | app/recipe/serializers.py:43-54 | the tag table becomes Resolve of the old table; the recipe's tag set gains exactly the resolved ids; no other recipe changes |
| Serializers.RecipeStore.Create | app/recipe/serializers.py:56-62 | a missing tags key acts as an empty list; the new recipe gets the next id and exactly the resolved ids; the tag table only grows; with no tags key no tag is created and the tag set is empty |
| Serializers.RecipeStore.Update | app/recipe/serializers.py:64-75 | an absent tags key keeps the tag set and the table; a present key (even empty) replaces the tag set with exactly the resolved ids; scalar fields follow ApplyPatch; the owner, the id and every other recipe stay as they were |

## Left out

- Persistence: Django's ORM, `save()`, transactions and migrations are replaced by the in-memory tables. `instance.save()` is the final assignment of the record.
- Uniqueness: the store invariant keeps at most one tag per (owner, name). On a table violating it, `get_or_create` would raise `MultipleObjectsReturned`. Only tags created through this serializer are modelled, and these keep the invariant. Tags edited or created through other endpoints are not part of this model.
- Concurrency: two concurrent requests can race on get-or-create. The model is sequential.
- Store failures: when the store is unavailable, the aborted transaction is not modelled.
- Framework plumbing: field validation, request parsing, authentication and the HTTP views are not modelled. The requesting user and the recipe's owner are parameters. The owner comes from `serializer.save(user=...)` in a view that is not part of this model.
- Payload keys: `update` assigns whatever keys the validated data holds. The model accepts the four scalar columns only, so a `user` key passed on update is not modelled.
- time_minutes: it is an unbounded integer. Any range validation by the model field, which is not part of this model, is not modelled.
- price: it is a whole number of cents. Decimal places and decimal arithmetic are not modelled.
- Create: takes all four scalar fields. The default `description` for the list view, which does not expose that field, comes from the recipe model class, which is not part of this model.
- Return values: `_get_or_create_tags`, `create` and `update` return the recipe object. `Create` returns the new recipe's id, and after `Update` the recipe stays at its id.
- Read path: output rendering (`to_representation`) is not modelled beyond the field lists.
- Models and tests: app/core/tests/test_models.py exercises behaviour of files that are not part of this model. These are email normalisation in `create_user`, password checking, the `__str__` methods, the `Ingredient` model and `recipe_image_file_path` with its random uuid.
