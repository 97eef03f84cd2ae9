# Vehicle catalogue services: a Dafny model

This project models the domain logic of a NestJS/Sequelize vehicle catalogue API over MySQL, and proves properties of the model.

The database is one immutable `Schema.Store`:
- tables of categories, tags, cars, users and pickup requests, each a map from primary key to row plus the next auto-increment key;
- the `car_images` rows, as a sequence in primary-key order;
- the `car_tags` join table, as a set of `(carId, tagId)` pairs.

`Schema.Wf` collects the constraints of the migrations: column widths (characters for the STRING columns, UTF-8 bytes for the TEXT `description`) and numeric ranges, NOT NULL foreign keys, unique names and emails, and composite keys. The primitive writes of `Schema` (insert, save, bulk insert, `$set`, delete with CASCADE or RESTRICT) refuse a row that breaks a column constraint, and each primitive preserves `Wf`.

Every service operation is a pure function from a store and a request to a `Reply`: the store afterwards, and either the value returned or the error thrown. An error is an HTTP exception (`BadRequest`, `Unauthorized`, `Forbidden`, `NotFound`, `Conflict`) with its message, or a database error. `Schema.Transaction` models the car service's transactions: on any error the store is the store before the call.

Modules:
- `Wrappers`, `Errors`, `Tables` — option and result types, the error type, keyed tables.
- `Text`, `JsNumber` — the JavaScript string and number operations the services rely on: `trim` with ECMAScript white space, ASCII `toLowerCase`, `split`/`join`, and `Number(string)`.
- `Schema` — the store, its constraints and its primitive writes.
- `Cars` — the car service: `create`, `findAll`, `findOne`, `update`, `remove`, `toResponse`.
- `Named`, `Categories`, `Tags` — the category and tag services (they differ only in their messages).
- `Users`, `Auth`, `Access` — user administration, sign-up and sign-in, the JWT user check and the roles guard.
- `Pickup` — the pickup admission rule.
- `ExceptionFilter` — the mapping from a thrown exception to the error response body.
- `CarPayload`, `CarQuery` — the create and update payload rules, and the list query rules with their `tagIds` transform.

Fixed-point integers stand in for the decimal columns: price in cents, latitude and longitude in units of 1e-8 degrees. This matches `DECIMAL(10,2)`, `DECIMAL(10,8)` and `DECIMAL(11,8)`.

The bcrypt hash is an input value. Password comparison and JWT signing are function parameters. The nearest-cars query is a function parameter too, because its implementation is not part of this model.

## Model

| member | source | states |
|---|---|---|
| Cars.Create | src/cars/cars.service.ts:29-84 | A missing category gives `NotFound` "Category not found". If the category exists and a non-empty tag list has a repeated or unknown id, the result is `BadRequest`. It succeeds exactly when the checks pass and every column and url fits, the description within 65,535 UTF-8 bytes. On success the new car holds the trimmed make, model, color and description and the trimmed urls in order, and its tag set is exactly the requested ids. No other car and no other table changes. On any error the store is the one before the call. The response describes the stored car. |
| Cars.CreateWrites | src/cars/cars.service.ts:44-77 | The transaction body succeeds exactly when the row (a description within 65,535 UTF-8 bytes included), the urls and the tag links satisfy the schema. Its failures are database errors. On success the store has the new car, its images and its tags, and nothing else changed. |
| Cars.TagCheckMeaning | src/cars/cars.service.ts:35-42 | The count check (as many existing tags found as ids sent) holds exactly when the ids are pairwise distinct and every id names an existing tag. |
| Cars.DistinctCardinality | src/cars/cars.service.ts:36-39 | A list has at most as many distinct values as entries, and exactly as many if and only if no value repeats. |
| Cars.AddImages | src/cars/cars.service.ts:63-71 | The bulk insert succeeds exactly when every url fits the column. The car's urls are its old urls followed by the given ones, in order. Other cars' images, all cars and the tag links are unchanged. |
| Cars.ReplaceTags | src/cars/cars.service.ts:73-75 | `$set` succeeds exactly when every id names a tag. The car's tag set becomes exactly the given ids. Other cars' tag sets, the cars and the images are unchanged. |
| Cars.ReplaceImages | src/cars/cars.service.ts:153-167 | After the delete and the insert, the car's urls are exactly the given list: an empty list leaves it with none. Other cars' images are unchanged. |
| Cars.PatchedRow | src/cars/cars.service.ts:139-149 | Every field absent from the update payload keeps its stored value, and a supplied make, model or color is stored without surrounding white space. |
| Cars.EmptyPatchKeepsRow | src/cars/cars.service.ts:139-149 | Applying the empty payload gives back the stored row. |
| Cars.PatchIdempotent | src/cars/cars.service.ts:139-149 | Applying the same payload twice gives the same row as applying it once, because trimming is idempotent. |
| Cars.FullPatchIsCreate | src/cars/cars.service.ts:139-149 | A payload with every field present gives the same row as creating from it. The one exception is an absent description: it keeps the stored one. |
| Cars.UpdateWrites | src/cars/cars.service.ts:136-173 | The transaction body succeeds exactly when the patched row (a description within 65,535 UTF-8 bytes included), the new urls and the new tag ids satisfy the schema. On success only the patched fields, and the images or tags when supplied, change. |
| Cars.Update | src/cars/cars.service.ts:112-180 | The errors come in order: a missing car is `NotFound` "Car not found"; then a supplied missing category is `NotFound` "Category not found"; then a supplied non-empty tag list with a repeated or unknown id is `BadRequest`. It succeeds exactly when these checks pass and the columns fit, the description within 65,535 UTF-8 bytes. Absent fields keep their values. Images are replaced only when `imageUrls` is present, and the tag set only when `tagIds` is present. Other cars are untouched. On any error the store is the one before the call. |
| Cars.EmptyUpdateChangesNothing | src/cars/cars.service.ts:112-180 | Updating an existing car with the empty payload succeeds and leaves the store exactly as it was. |
| Cars.Remove | src/cars/cars.service.ts:182-188 | An unknown id is `NotFound` and nothing changes. Otherwise only that car goes, together with its images, its tag links and its pickup requests (the CASCADE keys). Other cars' images and links, the categories, the tags and the users stay. |
| Cars.RemoveThenFindOne | src/cars/cars.service.ts:98-110 | After `remove`, `findOne` of the same id is `NotFound`. |
| Cars.CreateThenRemove | src/cars/cars.service.ts:29-84 | Creating a car and then removing it restores the cars, every car's images, the tag links, the pickups and the other tables. |
| Cars.FindOne | src/cars/cars.service.ts:98-110 | An unknown id is `NotFound` "Car not found". Otherwise the response describes the stored car: its columns, its category, each of its images with id and url, and exactly its linked tags, each once, with their stored names. The source's include sets no image order; the model fixes ascending key order. |
| Cars.LoadDescribes | src/cars/cars.service.ts:98-105 | Loading a car with its category, images and tags and mapping it gives a response that shows every column of the car, its category's id and name, the id and url of each of its images (one entry per image row of that car), and exactly the tags linked to it, each once (one entry per link), with its stored name. |
| Cars.ShownTagCount | src/cars/cars.service.ts:98-105 | For a tag list that names exactly a car's linked tag ids, no id repeating holds exactly when the list has one entry per linked tag. |
| Cars.FindAll | src/cars/cars.service.ts:86-96 | Every car appears exactly once. The list is in descending key order. Each entry describes its stored car, its linked tags each shown once. |
| Cars.ToResponse | src/cars/cars.service.ts:190-230 | The response carries the id and category id. A category, image list or tag list appears exactly when it was loaded, and the lists keep their lengths. |
| Cars.ResponseRoundTrip | src/cars/cars.service.ts:190-230 | The response loses nothing: every column, the loaded category, and each loaded image and tag in order can be read back from it. |
| Named.Create | src/categories/categories.service.ts:19-30 | A trimmed name that some row already holds is `Conflict`, and nothing is inserted. Otherwise, if the trimmed name fits, the row is inserted under a fresh key with the trimmed name. Unique names are preserved. |
| Named.CreateThenFindOne | src/categories/categories.service.ts:39-45 | A row just created is found under its key with the trimmed name. |
| Named.CreateTwice | src/categories/categories.service.ts:20-25 | Creating a name that trims to one already created is refused with `Conflict`. |
| Named.FindOne | src/categories/categories.service.ts:39-45 | An unknown id is `NotFound`. Otherwise the result is the stored row. |
| Named.Update | src/categories/categories.service.ts:47-66 | An unknown id is `NotFound`. Without a name nothing changes. A trimmed name held by another row is `Conflict`. It succeeds exactly when no other row holds the trimmed name and the name fits, and then only that row is renamed. Unique names are preserved. |
| Named.OtherHolder | src/categories/categories.service.ts:56-61 | With unique names, the `findOne({ where: { name } })` lookup returns a different row exactly when another row holds the name. |
| Named.RenameToOwnName | src/categories/categories.service.ts:55-65 | Renaming a row to its own name, up to surrounding white space, succeeds and changes nothing. |
| Named.SortByName | src/categories/categories.service.ts:33-35 | The sort yields names in ascending order and is a permutation of its input. |
| Named.ByNamePairwise | src/categories/categories.service.ts:33-35 | In a list whose neighbouring names ascend, any earlier name is at most any later name. |
| Named.FindAll | src/categories/categories.service.ts:32-37 | Every row appears exactly once, and nothing else. The names ascend. |
| Categories.Create | src/categories/categories.service.ts:19-30 | The category service's create changes only the categories table and keeps every schema constraint. It succeeds exactly when the trimmed name is free and fits. |
| Categories.Update | src/categories/categories.service.ts:47-66 | An unknown id is `NotFound` "Category not found". An error or a missing name leaves the store unchanged. Only the categories table changes. |
| Categories.Remove | src/categories/categories.service.ts:68-74 | An unknown id is `NotFound`. A category some car references is refused by the RESTRICT key and nothing changes. Otherwise only that category row goes. |
| Categories.RemoveKeepsReferencedCategory | database/migrations/20260219000004-create-cars.js:41-50 | The category of any existing car cannot be removed: the call fails and the store is unchanged. |
| Tags.Create | src/tags/tags.service.ts:19-30 | The tag service's create changes only the tags table and keeps every schema constraint. It succeeds exactly when the trimmed name is free and fits. |
| Tags.Update | src/tags/tags.service.ts:47-63 | An unknown id is `NotFound` "Tag not found". An error or a missing name leaves the store unchanged. Only the tags table changes. |
| Tags.Remove | src/tags/tags.service.ts:65-71 | An unknown id is `NotFound` and nothing changes. Otherwise the tag goes and every car loses its link to it, by the CASCADE key. Cars, images, categories, users and pickups stay. |
| Users.ToView | src/users/users.service.ts:34-44 | The response copies id, email, full name, role and status. |
| Users.ViewHidesHash | src/users/users.service.ts:34-44 | The response does not depend on the password hash. |
| Users.FindAll | src/users/users.service.ts:14-19 | Every user appears exactly once, as its row projects, and nothing else. Ids ascend strictly. |
| Users.UpdateStatus | src/users/users.service.ts:21-32 | An unknown id is `NotFound` "User not found" and nothing changes. Otherwise only that user's `isActive` changes, to the given value, and the response shows the updated user. |
| Users.UpdateStatusUndo | src/users/users.service.ts:21-32 | Setting the status and then setting it back gives the original store. |
| Auth.WithEmail | src/auth/auth.service.ts:28-30 | The lookup finds a user holding exactly the email, or reports that none does. |
| Auth.Signup | src/auth/auth.service.ts:27-44 | A lower-cased email already held is `Conflict` and nothing changes. Otherwise a lower-cased email, trimmed full name or hash longer than 255 characters is a database error (a 500) and nothing changes. Otherwise exactly one user is added: lower-cased email, trimmed full name, the given hash, role USER, active. The response omits the hash. |
| Auth.SigninPayload | src/auth/auth.service.ts:46-64 | An unknown lower-cased email is `Unauthorized` "Invalid email or password". A disabled account is refused before any password check. A password mismatch is `Unauthorized`. Otherwise the payload is the user's key, email and role. |
| Auth.Signin | src/auth/auth.service.ts:46-70 | A token exists exactly when the sign-in decision accepts. It is the signature of that payload, and any error is the decision's error. |
| Auth.SignupThenSignin | src/auth/auth.service.ts:27-64 | After sign-up, signing in with the same email in any ASCII letter case and a matching password yields the new user's payload, with role USER. |
| Auth.SignupTwice | src/auth/auth.service.ts:28-33 | Signing up again with an email equal up to ASCII case is `Conflict`. |
| Access.Validate | src/auth/strategies/jwt.strategy.ts:25-31 | The token is refused with `Unauthorized` exactly when its `sub` names no user or an inactive one. Otherwise the result is that user. |
| Access.SigninThenValidate | src/auth/strategies/jwt.strategy.ts:25-31 | A payload that sign-in produces passes validation in the same store, and names a user with that email and role. |
| Access.DisabledUserRejected | src/auth/strategies/jwt.strategy.ts:27-29 | Once an admin disables a user, every token for that user is refused. |
| Wrappers.SomeEqual | src/auth/guards/roles.guard.ts:28 | `some(y => y === x)` holds exactly when `x` is in the list. The roles guard uses it for the user's role, and the pickup rule for the car id (src/me/me.service.ts:28). |
| Access.CanActivate | src/auth/guards/roles.guard.ts:16-33 | With no required roles, access is granted even without a user. With required roles: no user is `Forbidden` "Not authenticated"; otherwise access is granted exactly when the user's role is listed. The guard never returns false. |
| Access.AdminOnly | src/auth/guards/roles.guard.ts:16-33 | An admin-only route admits exactly the admins. |
| Pickup.ToView | src/me/me.service.ts:42-53 | The response copies every field of the stored request. |
| Pickup.RequestPickup | src/me/me.service.ts:19-40 | A car absent from the nearest-cars list for the request's coordinates and a 10 km radius is `BadRequest`, and nothing is written. A request is recorded exactly when the car is listed and the row satisfies the schema. It is recorded with the user, the car, the coordinates and status PENDING, and nothing else changes. |
| Pickup.OnlyThatQueryMatters | src/me/me.service.ts:23-28 | The outcome depends on the nearest-cars function only through its answer at the request's coordinates and radius 10. |
| Pickup.NothingNearby | src/me/me.service.ts:28-31 | With no car nearby, every request is `BadRequest` and the store is unchanged. |
| ExceptionFilter.Extract | src/common/filters/http-exception.filter.ts:34-55 | A string response becomes the message. In an object, a string or string-array message is taken as is, and any other shape keeps "Internal server error". `error` is set exactly when the object's `error` is a string. |
| ExceptionFilter.Catch | src/common/filters/http-exception.filter.ts:21-67 | The status is the exception's own for an HTTP exception and 500 otherwise, and the body's `statusCode` equals it. Path and method are copied. A non-HTTP exception gives the default message and no `error`. |
| ExceptionFilter.Raise | src/common/filters/http-exception.filter.ts:26-29 | The service errors that are HTTP exceptions are raised as HTTP exceptions with their status code; database errors are not HTTP exceptions. |
| ExceptionFilter.ClientSees | src/common/filters/http-exception.filter.ts:26-66 | An HTTP error reaches the client with its status, its message and the reason phrase as `error`. A database error reaches it as 500 "Internal server error". |
| ExceptionFilter.ClientErrorsAreHttpErrors | src/common/filters/http-exception.filter.ts:26-29 | The status is below 500 exactly when the error is an HTTP exception. |
| CarPayload.ValidateCreate | src/cars/dto/create-car.dto.ts:14-66 | A create body is accepted exactly when every field rule holds. The accepted payload has non-empty make and model of at most 255 characters, a non-empty color of at most 100, a year in 1900..2100, price ≥ 0, integer mileage ≥ 0, category id ≥ 1 and at least one image url. |
| CarPayload.CreateRoundTrip | src/cars/dto/create-car.dto.ts:14-66 | Validation inverts the body encoding. A payload's body is accepted exactly when the payload is in bounds, and then it yields that payload. Every accepted body is the body of what it yields. |
| CarPayload.ValidatePatch | src/cars/dto/update-car.dto.ts:12-70 | An update body is accepted exactly when each present field meets its rule. Absent fields are not checked, and the image list is passed through. |
| CarPayload.PatchRoundTrip | src/cars/dto/update-car.dto.ts:12-70 | The body of a partial payload is accepted exactly when the payload is in bounds, and then it yields that payload. |
| CarPayload.PatchBodyRoundTrip | src/cars/dto/update-car.dto.ts:12-70 | Every accepted update body is the body of the in-bounds payload it yields. |
| CarPayload.CreateRulesImplyPatchRules | src/cars/dto/update-car.dto.ts:12-70 | Every body the create rules accept, the update rules accept too, with the same values. |
| CarPayload.EmptyBody | src/cars/dto/update-car.dto.ts:12-70 | The empty body is a valid update, and not a valid create. |
| CarPayload.EmptyImageList | src/cars/dto/update-car.dto.ts:61-64 | An empty image list is refused on create (`@ArrayMinSize(1)`) and passes on update. |
| CarPayload.PatchAcceptsEmptyText | src/cars/dto/update-car.dto.ts:13-32 | Update does not check emptiness: empty make, model and color pass. |
| CarQuery.ParseColumn | src/cars/dto/list-cars-query.dto.ts:37-50 | Only the nine column names are accepted, each as the column it names. |
| CarQuery.ColumnRoundTrip | src/cars/dto/list-cars-query.dto.ts:37-50 | Every column's name is accepted as that column. |
| CarQuery.ParseDirection | src/cars/dto/list-cars-query.dto.ts:52-55 | A direction is accepted exactly when it is `ASC` or `DESC`. |
| CarQuery.KeepNumbers | src/cars/dto/list-cars-query.dto.ts:65 | The filter drops exactly the NaN values and keeps the rest. |
| CarQuery.KeepNumbersAppend | src/cars/dto/list-cars-query.dto.ts:65 | The filter distributes over concatenation, so it keeps the order. |
| CarQuery.KeepNumbersOfNumbers | src/cars/dto/list-cars-query.dto.ts:65 | A list without NaN passes the filter unchanged. |
| CarQuery.TransformTagIds | src/cars/dto/list-cars-query.dto.ts:57-70 | An absent or empty `tagIds` becomes undefined. An array is converted element by element. A string is split on commas, each piece trimmed and converted, and NaN pieces dropped. If nothing is left the result is undefined. |
| CarQuery.CommaListRoundTrip | src/cars/dto/list-cars-query.dto.ts:61-66 | A non-empty list of integers written comma-separated comes back as the same numbers in the same order. |
| CarQuery.RepeatedListRoundTrip | src/cars/dto/list-cars-query.dto.ts:60 | A list of integers sent as a repeated parameter comes back as the same numbers. |
| CarQuery.IntParam | src/cars/dto/list-cars-query.dto.ts:14-35 | An absent parameter takes its default. A present one is accepted exactly when `Number` of it is an integer within the bounds, and then it is that integer. |
| CarQuery.ValidateListQuery | src/cars/dto/list-cars-query.dto.ts:14-70 | A query is accepted exactly when every parameter rule holds. Then page ≥ 1, limit is in 1..100 and category id ≥ 1. The defaults fill absent page, limit, order and direction. A present page, limit or category id is the integer `Number` makes of it. A present order or direction is the column or direction it names. Tag ids are present exactly when the transform yields some, and then they are those numbers. |
| CarQuery.Defaults | src/cars/dto/list-cars-query.dto.ts:14-55 | The empty query is valid, with page 1, limit 10, order `createdAt` and direction `DESC`. |
| CarQuery.IntParamRoundTrip | src/cars/dto/list-cars-query.dto.ts:14-35 | An in-bounds integer written in decimal is accepted as itself. |
| CarQuery.QueryRoundTrip | src/cars/dto/list-cars-query.dto.ts:14-70 | Every in-bounds query, written as query-string parameters, is accepted as itself. |
| Schema.InsertCar | database/migrations/20260219000004-create-cars.js:12-58 | The insert fails when a column does not fit (a STRING column by characters, the TEXT description beyond 65,535 UTF-8 bytes), or when the category does not exist (foreign key). Otherwise the row gets the next key, and the schema constraints are preserved. |
| Schema.SaveCar | database/migrations/20260219000004-create-cars.js:12-58 | Saving a row succeeds exactly when its columns fit (the description within 65,535 UTF-8 bytes) and its category exists. It replaces only that row. |
| Schema.InsertImages | database/migrations/20260219000005-create-car-images.js:7-25 | A bulk insert succeeds exactly when every url is at most 500 characters. The new rows get consecutive fresh keys and are appended, and the constraints are preserved. |
| Schema.DeleteImagesOf | src/cars/cars.service.ts:154-157 | Deleting one car's images keeps every other row, in order, and preserves the constraints. |
| Schema.SetTags | database/migrations/20260219000006-create-car-tags.js:7-28 | Linking succeeds exactly when every tag exists. The car's links become exactly the given tags, and the constraints are preserved. |
| Schema.DeleteCar | database/migrations/20260219000005-create-car-images.js:12-21 | Deleting a car deletes its images, its tag links and its pickup requests (CASCADE). Every other row stays, and the constraints are preserved. |
| Schema.DeleteCategory | database/migrations/20260219000004-create-cars.js:41-50 | A category that some car references cannot be deleted (RESTRICT). Any other category is deleted, and the constraints are preserved. |
| Schema.DeleteTag | database/migrations/20260219000006-create-car-tags.js:18-28 | Deleting a tag deletes every link to it (CASCADE) and preserves the constraints. |
| Schema.InsertNamed | src/database/models/category.model.ts:23-27 | An insert of a name over 255 characters, or of a name already held, fails. Otherwise the row gets the next key, and names stay unique. |
| Schema.RenameNamed | src/database/models/category.model.ts:23-27 | A rename to a name over 255 characters, or to a name another row holds, fails. Otherwise only that row changes, and names stay unique. |
| Schema.InsertUser | database/migrations/20260219000001-create-users.js:12-24 | An email, full name or password hash over 255 characters is rejected by its column. Otherwise an email already held fails on the unique index. Otherwise the row gets the next key; emails stay unique and every stored user fits its columns. |
| Schema.InsertPickup | database/migrations/20260219000007-create-pickup-requests.js:20-41 | The insert succeeds exactly when the user and the car exist and the coordinates and status fit. The constraints are preserved. |
| Schema.Transaction | src/cars/cars.service.ts:80-83 | The call's result passes through unchanged. On success the written store is kept, and on error the store before the transaction is restored. |
| Text.Trim | src/cars/cars.service.ts:49-55 | The result is no longer than the input and has no white space at either end. |
| Text.TrimOfPadded | src/cars/cars.service.ts:49-55 | Trimming white space around a string that does not itself start or end with white space gives that string. |
| Text.TrimDecompose | src/cars/cars.service.ts:49-55 | Every string is white space, then its trimmed form, then white space. |
| Text.TrimIdempotent | src/cars/cars.service.ts:49-55 | Trimming twice is trimming once. |
| Text.ToLower | src/auth/auth.service.ts:29 | Each character is lower-cased on its own, and the length is kept. |
| Text.ToLowerIdempotent | src/auth/auth.service.ts:29-36 | A lower-cased string has no upper-case ASCII letter, and lower-casing it again changes nothing. |
| Text.Split | src/cars/dto/list-cars-query.dto.ts:62-63 | Splitting gives at least one piece, and no piece contains the separator. |
| Text.JoinSplit | src/cars/dto/list-cars-query.dto.ts:62-63 | Joining the pieces of a split with the separator gives back the string. |
| Text.SplitJoin | src/cars/dto/list-cars-query.dto.ts:62-63 | Splitting a join of pieces free of the separator gives back the pieces. |
| Text.Utf8Width | database/migrations/20260219000004-create-cars.js:37-40 | A character takes one to four UTF-8 bytes, and one byte exactly when it is ASCII. |
| Text.Utf8LengthBounds | database/migrations/20260219000004-create-cars.js:37-40 | A string's UTF-8 length lies between its character count and four times it, and equals the character count exactly when every character is ASCII. |
| Text.LexTotal | src/categories/categories.service.ts:33-35 | Any two names are ordered one way or the other. |
| Text.LexTransitive | src/categories/categories.service.ts:33-35 | The name order is transitive. |
| Text.LexAntisymmetric | src/categories/categories.service.ts:33-35 | Two names ordered both ways are equal. |
| JsNumber.ToNumberOfIntToString | src/cars/dto/list-cars-query.dto.ts:64 | `Number(String(n))` is `n` for every integer. |
| JsNumber.ToNumberOfTrim | src/cars/dto/list-cars-query.dto.ts:64 | Trimming before `Number` changes nothing, since `Number` ignores surrounding white space. |

## Left out

- The geo queries (`getNearestCars`, the public listing and the grouping by category) and the haversine helper are not part of this model. The nearest-cars answer is a parameter of `Pickup.RequestPickup`.
- Floating point: prices and coordinates are fixed-point integers. `Number(...)` of decimal columns and the `maxDecimalPlaces` rules are left out.
- bcrypt hashing and comparison, and JWT signing and expiry, are foreign library calls. They enter as a value and as function parameters.
- The welcome mail after sign-up is fire-and-forget I/O.
- Timestamps (`createdAt`, `updatedAt`, the filter's ISO timestamp) are wall-clock values.
- Controllers, modules, configuration, the logging interceptor and the scripts are HTTP and process wiring. Parameters are not cast, and `null` body fields are not modelled: an absent field is `None`. Nor is a body field of the wrong JSON type (a number in `make`, a string in `year`), which the source's validation pipe rejects with a 400.
- Concurrency: each service call is one atomic step on the store.
- Cars.FindAll: orders by descending primary key instead of `createdAt DESC`. Keys and creation times grow together when no clock is modelled.
- Named.FindAll: orders names by code point. MySQL's collation (case-insensitive, trailing spaces ignored) is not modelled, and neither is the order among equal names.
- Named.Create: compares names exactly, not under MySQL's case-insensitive collation. The same holds for the unique indexes in `Schema`.
- Schema.InsertNamed, Schema.RenameNamed, Schema.InsertUser: the unique indexes on `categories.name`, `tags.name` and `users.email` compare exactly. Under MySQL's default collation, `SEDAN` next to `sedan` (or `Admin@corp.com` next to `admin@corp.com`) is a duplicate key in the source and is accepted by the model.
- Named.Update: the lookup for another row holding the new name compares exactly. Under MySQL's case-insensitive collation, renaming to "SEDAN" while another row holds "sedan" is `Conflict` in the source and succeeds in the model.
- Auth.Signup: lower-cases ASCII letters only. JavaScript's full Unicode `toLowerCase` is not modelled. The duplicate check compares emails exactly, while MySQL's default collation ignores case and accents: against an admin seeded as `Admin@corp.com` (scripts/seed.js:20,51-55 inserts `ADMIN_EMAIL` as given), signing up `admin@corp.com` is a conflict in the source and succeeds in the model.
- Auth.WithEmail: compares emails exactly. MySQL's default collation ignores case and accents, so a seeded `Admin@corp.com` is found for `admin@corp.com` by the source and not by the model.
- Auth.SigninPayload: for the same reason, signing in as `admin@corp.com` against a seeded `Admin@corp.com` succeeds in the source and is `Unauthorized` in the model.
- CarQuery.IntParam: `Number` is modelled for decimal literals, an optional sign, `Infinity` and the empty string. Hexadecimal, binary, octal and exponent forms are taken as NaN. `Number` is exact on integers, whereas JavaScript rounds integers above 2^53 (`9007199254740993` becomes `9007199254740992`). Likewise a decimal fraction that rounds to an integral double (`1.0000000000000001`) is an integer in JavaScript and a non-integer in the model.
- CarQuery.TransformTagIds: each piece goes through the same `Number` as `CarQuery.IntParam`. So `0x10` and `1e3` are dropped as NaN, where JavaScript converts them to 16 and 1000. Integers above 2^53 are not rounded.
- CarQuery.ValidateListQuery: every parameter except `tagIds` is a single string; repeated scalar parameters are not modelled.
- CarPayload.ValidateCreate: `MaxLength` counts every code point. class-validator's length check skips the variation selectors U+FE0E and U+FE0F, so a value full of them passes the DTO in the source and fails the column, while the model rejects it with a 400.
- CarPayload.ValidatePatch: counts lengths the same way as `CarPayload.ValidateCreate`.
- ExceptionFilter.Extract: an array message is a list of strings; arrays holding other values are not modelled.
- Schema.Transaction: a rollback restores the auto-increment counters too, which InnoDB does not. Only the keys that later inserts receive can differ.
- Schema.SetTags: links the set of the given ids, so a repeated id is collapsed. The services reject repeated ids before they reach `$set`.
- Schema.InsertCar: the row always carries a mileage. The column default of 0 is never used, because the create payload requires a mileage.
- Cars.Update: a present description is trimmed and stored. The update payload cannot set it back to `NULL`, as in the source.
- Categories.Remove: a category still referenced by a car is refused by the RESTRICT key. The resulting database error reaches the client as a 500, as in the source.
- The migrations that create the `categories` and `tags` tables are not part of this model. Their unique, at-most-255-character `name` column is taken from `src/database/models/category.model.ts`.
