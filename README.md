# TravelAlbum core, modelled in Dafny

TravelAlbum is a photo album site. A SQLite store holds **locations**, each with a title and a cover image, and **photos**, each belonging to one location and carrying an image URL, a title and a description. Locations and photos are listed by `sort_order`, then by `id`. The project covers:

- **Public API.** It serves the albums in a legacy JSON shape (`{ src, title, details }`) with entity tags.
- **Admin API.** It lets a logged-in administrator:
  - create, edit, reorder and delete locations and photos;
  - change their password.

  It also asks the object store (Aliyun OSS) to delete images that are no longer used.
- **Start-up migration.** It seeds the first administrator and imports a legacy `locations.json` in one transaction.
- **Browser pages:**
  - the admin location editor and photo editor, with their drag-and-drop sorting;
  - the lightbox of a location page;
  - the day/night theme;
  - the OSS thumbnail and preconnect helpers.

The project is split into one module per source file, plus shared helpers.

| module | models |
|---|---|
| `Wrappers`, `Text`, `Json` | Option; the JavaScript string operations the core relies on (`trim`, `parseInt(s, 10)`, integer-to-string, `startsWith`/`includes`, UTF-16 length); parsed JSON values and property access |
| `Rows` | rows with an id and a sort order; `ORDER BY sort_order, id`; the batched sort update |
| `Store` | `lib/db.js`: the three tables and every query, with the `Database` class holding the tables and their autoincrement counters |
| `Migrate` | `lib/migrate.js` |
| `PublicApi` | `routes/api.js` |
| `AdminRoutes` | `routes/admin.js` |
| `OssUtils` | `public/js/oss-utils.js` |
| `Theme` | `public/js/theme.js` |
| `LocationDetail` | the lightbox of `public/js/location_detail.js` |
| `Escape` | `escapeJs` of `admin/admin.js` and `admin/photos.js`, and its use inside `onclick` attributes |
| `DragSort` | `initDragSort`, shared by both admin pages |
| `AdminPage` | the location editor of `admin/admin.js` |
| `PhotosPage` | the upload and caption editor of `admin/photos.js` |

External services and primitives enter the model as parameters:

| service or primitive | parameter |
|---|---|
| bcrypt's compare and hash | `matches(password, hash)`, `hashOf`, and the new hash |
| the JWT signer | the token |
| md5 over the JSON text | `digest` |
| uploads to the object store | one `UploadResult` per file |
| `new URL(url).origin` | an `Option<string>` |
| the clock's hour | `hour` |
| the outcome of a `fetch` | `succeeded` |
| SQLite's text rendering of a JavaScript number | `numeral` |
| a database failure in the public routes | `storeFails` |

## Model

| member | source | states |
|---|---|---|
| Text.Trim | admin/admin.js:330-331 | the trimmed title is empty exactly when the input is all white space; otherwise it neither starts nor ends with white space |
| Text.TrimIdempotent | admin/photos.js:217-218 | trimming an already trimmed text changes nothing |
| Text.DigitPrefix | routes/admin.js:103 | the digits `parseInt` reads are the longest digit prefix of the text |
| Text.ParseIntOfIntToString | routes/api.js:31-32 | `parseInt(String(n), 10)` gives back `n`, for every integer, negative ones included, and whatever non-digit text follows |
| Text.IntToStringInjective | admin/admin.js:345-346 | two different ids never print as the same path segment |
| Text.NatToStringValue | routes/api.js:31 | the decimal digits written for a number read back as that number |
| Text.ParseInt10 | routes/admin.js:187 | `parseInt(s, 10)` is NaN exactly when the text, after its leading white space, does not start with a digit or with a sign and a digit; a negative result needs a leading `-` |
| Text.IntToString | public/js/location_detail.js:213 | `String(n)` is never empty, starts with `-` exactly for a negative number, and is all digits otherwise |
| Text.Utf16Length | routes/admin.js:40 | a string's `.length` counts UTF-16 units, between one and two per character |
| Json.Member | routes/admin.js:14 | reading a property of `null` is a TypeError; on an object it is undefined exactly when no member has that name, otherwise it is the last member with that name |
| Json.LastMemberIsLast | routes/admin.js:67 | the value found is held by a member with that name, and no later member has the name |
| Store.SpreadFails | lib/db.js:155 | one argument of `stmt.run` throws exactly when it is a boolean or an array holding a non-scalar (better-sqlite3 spreads arrays; an object supplies named parameters, which these statements do not have) |
| Store.SpreadAllFails | lib/db.js:137 | the arguments throw while spreading exactly when one of them does |
| Store.OnlyScalarsAll | lib/db.js:137 | the recursive all-scalars test agrees with the element-wise one |
| Store.Bind | lib/db.js:137 | a statement that binds gets exactly one scalar value per anonymous parameter |
| Store.BindScalars | lib/db.js:137 | scalar arguments bind as themselves exactly when there is one per parameter; otherwise the statement throws |
| Store.BindConsScalar | lib/db.js:155 | a scalar ahead of the other arguments takes the first parameter, and the others bind as they would alone |
| Store.BindSnocScalar | lib/db.js:136-137 | a scalar after the other arguments takes the last parameter, and the others bind as they would alone |
| Store.BindBetweenScalars | lib/migrate.js:61-67 | scalars before and after the others take the first and last parameters; whether the statement throws depends on the others alone |
| Store.BindOne | lib/db.js:155 | a one-parameter binding accepts a scalar or a one-element array of a scalar, and nothing else |
| Store.BindSingletonArray | lib/migrate.js:56 | wrapping a scalar argument in a one-element array binds the same values |
| Store.SpreadScalarValues | lib/db.js:155 | every value one argument supplies is a scalar |
| Store.SpreadAllScalarValues | lib/db.js:137 | every value the arguments supply is a scalar |
| Rows.Insert | lib/db.js:88 | inserting a row into a list in `sort_order, id` order keeps the list in that order and adds exactly that row |
| Rows.SortByOrder | lib/db.js:76 | `ORDER BY sort_order ASC, id ASC` yields a permutation of the rows that is in that order |
| Rows.SortOfOrdered | lib/db.js:76 | ordering rows that are already in order leaves them as they are |
| Rows.IncreasingIdsAreDistinct | lib/db.js:22 | autoincrement ids are pairwise distinct |
| Rows.DistinctIdsPermutation | lib/db.js:22 | reordering rows keeps their ids distinct |
| Rows.AppendGreatest | lib/db.js:119-120 | a row whose sort order exceeds every other row's is listed last, after the others in their old order |
| Rows.OrderedAppend | lib/db.js:94-95 | appending such a row to an ordered list keeps it ordered |
| Rows.InsertBeforeGreatest | lib/db.js:76 | inserting a row below the greatest one does not move the greatest one from the end |
| Rows.MaxOrder | lib/db.js:94 | `MAX(sort_order)` is null exactly on an empty table; otherwise it is some row's order and no row's order exceeds it |
| Rows.NextOrder | lib/db.js:94-95 | the order given to a new row is 0 in an empty table, exceeds every order present, and is one more than the largest |
| Rows.Reordered | lib/db.js:152-158 | the batched sort update changes only sort orders, never ids or other fields, and keeps the row count |
| Rows.ReorderedAt | lib/db.js:155 | a row's new order is the last index at which its id appears in the id list; it keeps its order when its id is absent |
| Rows.LastIndexOf | lib/db.js:155 | it gives the last position of an id in the list, or -1 exactly when the id is absent |
| Rows.ReorderThenList | lib/db.js:152-158 | sending every id exactly once makes the listing follow the sent order, with orders 0, 1, 2, … |
| Rows.OrdersFillRange | lib/db.js:155 | in an ordered listing whose orders are distinct positions of the id list, row `i` has order `i` and its id is at position `i` |
| Rows.ListedAtOwnIndex | lib/db.js:155 | after the update, each listed row's order is the position where its id was sent |
| Rows.OrdersIncrease | lib/db.js:155 | those orders strictly increase down the listing |
| Rows.FindById | lib/db.js:81-83 | `getLocation` finds nothing exactly when no row has that id; otherwise it finds a row with that id |
| Rows.FindAfterAppend | lib/db.js:96 | a row that can be found is still found after an insert |
| Rows.FindSameIds | lib/db.js:152-158 | lists with the same ids in the same places find the same ids |
| Rows.WithoutId | lib/db.js:113-115 | a delete keeps only rows of the table, none with the deleted id |
| Rows.WithoutIdComplete | lib/db.js:142 | every row with another id survives the delete |
| Rows.WithoutIdIncreasing | lib/db.js:142 | a delete keeps the ids increasing |
| Rows.WithoutMissingId | lib/db.js:142 | deleting an id that no row has changes nothing |
| Rows.NumberedAppend | lib/migrate.js:60-67 | numbering one more inserted row gives it the next id and the next index as its order |
| Rows.ListsAreListed | lib/migrate.js:60-67 | rows inserted with orders 0, 1, 2, … are listed in insertion order |
| Store.PhotosOf | lib/db.js:147 | `WHERE location_id = ?` returns at most the table's rows (which ones: the two rows below) |
| Store.PhotosOfSound | lib/db.js:147 | `WHERE location_id = ?` keeps only photos of the table that belong to that location |
| Store.PhotosOfComplete | lib/db.js:147 | it keeps every photo of that location |
| Store.PhotosOfIncreasing | lib/db.js:147 | it keeps their ids increasing |
| Store.PhotosOutside | lib/db.js:44 | the cascade keeps exactly the photos of other locations, and keeps their ids increasing |
| Store.ListPhotos | lib/db.js:86-90 | `getPhotos` lists exactly the location's photos, in `sort_order, id` order |
| Store.PhotoIdsByLocation | lib/db.js:146-149 | it returns exactly the ids of the location's photos |
| Store.AllLocations | lib/db.js:70-78 | it returns every location once, in `sort_order, id` order, each with the number of its photos |
| Store.NonEmpty | lib/db.js:185-186 | a detail gets a `title` or `desc` key exactly when that text is non-empty |
| Store.PublicDetailOf | lib/db.js:183-188 | a detail carries the photo's URL as `src`, and a `title` or `desc` key exactly when that text is non-empty, holding that text |
| Store.PublicLocationOf | lib/db.js:180-189 | an entry carries the location's cover and title, and one detail per listed photo, in listing order, whose `src` is that photo's URL |
| Store.PublicLocations | lib/db.js:174-191 | it builds one legacy entry per location |
| Store.PublicLocationsShape | lib/db.js:174-191 | entry `i` is the `i`-th location in listing order: its cover, its title, and one detail per listed photo carrying the URL and the non-empty title and description |
| Store.PublicLocationAt | lib/db.js:193-210 | it returns nothing exactly when the index is out of range; otherwise it returns the entry at that index of the full listing |
| Store.AdminByUsername | lib/db.js:50-52 | it finds nothing exactly when no admin has the username; otherwise it finds an admin with that username |
| Store.AssignPhotoKeepsKeys | lib/db.js:128-138 | an update never changes a photo's id or its location |
| Store.Database.constructor | lib/db.js:20-46 | the tables start empty, with all three counters at 0 |
| Store.Database.Restore | lib/migrate.js:54-73 | a rolled-back transaction leaves the location and photo tables and counters as they were before it |
| Store.Database.InsertLocation | lib/migrate.js:47-48 | the prepared insert appends the location with the next id and the given order |
| Store.Database.InsertPhoto | lib/migrate.js:50-52 | the prepared photo insert fails, changing nothing, exactly when the location does not exist (the foreign key); otherwise it appends the photo with the next id |
| Store.Database.CreateLocation | lib/db.js:93-98 | the new location gets the next id, a larger id than every existing one, and the order `MAX(sort_order) + 1` (0 for the first); nothing else changes |
| Store.Database.CreatePhoto | lib/db.js:118-125 | the insert fails exactly when the location does not exist; otherwise the photo gets the next id and the next order within its location, with a missing title or description stored as `''` |
| Store.Database.UpdateLocation | lib/db.js:101-110 | only the row with that id changes, and only in the fields given; an empty patch changes nothing |
| Store.Database.UpdatePhoto | lib/db.js:128-138 | only the row with that id changes, and only in the fields given; the foreign key still holds |
| Store.Database.DeleteLocation | lib/db.js:113-115 | the location is removed and its photos go with it (ON DELETE CASCADE); every other row stays |
| Store.Database.DeletePhoto | lib/db.js:141-143 | exactly the photo with that id is removed |
| Store.Database.UpdateLocationSort | lib/db.js:152-158 | either every order is set (`Reordered`) or, when an element cannot be bound, the transaction rolls back and nothing changes |
| Store.Database.UpdatePhotoSort | lib/db.js:160-166 | the same for photos |
| Store.Database.CreateAdmin | lib/db.js:58-61 | the insert fails, changing nothing, exactly when the username is taken (UNIQUE); otherwise it appends the admin with the next id |
| Store.Database.UpdateAdminPassword | lib/db.js:63-65 | only the hash of the admin with that username changes |
| Store.PatchedLocationsValid | lib/db.js:101-110 | applying the patch's assignments in SQL order keeps the tables valid and touches only the targeted row |
| Store.PatchedPhotosValid | lib/db.js:128-138 | the same for photos; ids and locations stay put |
| Store.CascadeKeepsForeignKey | lib/db.js:44 | after the cascade, every photo still points at an existing location |
| Store.CascadeDelete | lib/db.js:44 | the deleted location has no photos left, and every other location keeps all of its photos |
| Store.PhotosOfAppend | lib/db.js:147 | selecting by location distributes over concatenation |
| Store.CreatePhotoListsLast | lib/db.js:118-125 | a photo created for a location is listed last among that location's photos |
| Store.CreatePhotoLeavesOthers | lib/db.js:118-125 | creating it leaves the listing of every other location unchanged |
| Migrate.EnvOr | lib/migrate.js:13-14 | an unset or empty variable falls back to the default |
| Migrate.OrDefault | lib/migrate.js:56 | `value \|\| default`: reading a property of `null` throws; a truthy value is kept; a missing or falsy value gives the default |
| Migrate.ItemColumns | lib/migrate.js:56 | an item whose `title` cannot be read (a `null` item) makes the insert throw |
| Migrate.ItemColumnsScalars | lib/migrate.js:56 | a title and cover that are strings or numbers are stored as the text SQLite makes of them |
| Migrate.SingletonTitleSpread | lib/migrate.js:56 | a title sent as a one-element array of a string is stored as that string |
| Migrate.ItemRunBinds | lib/migrate.js:56 | the index takes the third parameter, so the title and cover alone must fill the first two |
| Migrate.DetailColumns | lib/migrate.js:61-67 | a detail whose `src` cannot be read (a `null` detail) makes the insert throw |
| Migrate.DetailColumnsScalars | lib/migrate.js:61-67 | a url, title and desc that are strings or numbers are stored as their text; a `null` or missing title or desc is stored as `''` (by `\|\| ''`), and one sent as `[null]` binds NULL, modelled as `''` (Store.NullableText) |
| Migrate.BareUrlDetailLosesSrc | lib/migrate.js:62 | a detail given as a bare URL string has no `src`, so its photo is stored with url `''` and empty caption |
| Migrate.AsDetailObject | public/js/location_detail.js:41 | a string detail becomes `{ src: d }`; any other detail is kept |
| Migrate.NormalisedDetailColumns | lib/migrate.js:61-67 | the import's columns after that normalisation; unchanged for every detail that is not a string |
| Migrate.BareUrlDetailKeepsSrc | lib/migrate.js:61-67 | with the normalisation, a non-empty bare URL is stored as the photo's url with an empty caption |
| Migrate.BareUrlPublished | lib/migrate.js:61-67 | with the normalisation, a bare URL detail imports and is published as `{ src: url }` |
| Migrate.DetailRunBinds | lib/migrate.js:61-67 | the location id and the index take the first and last parameters, so url, title and desc alone must fill the middle three |
| Migrate.ImportDetail | lib/migrate.js:61-67 | one detail's insert succeeds exactly when its columns can be evaluated and bound; it appends one photo and leaves the locations alone |
| Migrate.ImportDetails | lib/migrate.js:59-69 | a successful run of an item's details appends one photo per detail and leaves the locations alone |
| Migrate.ImportItem | lib/migrate.js:56-69 | a successful item appends exactly one location and advances the location counter by one, keeping the old photos |
| Migrate.ImportItems | lib/migrate.js:54-73 | a successful import appends one location per item, keeping the old locations and photos |
| Migrate.DetailFieldsOf | lib/migrate.js:59-69 | one photo's columns per detail, each of that location |
| Migrate.DetailFieldsOfAt | lib/migrate.js:61-67 | entry `j` holds the columns of detail `j` |
| Migrate.ItemLocationsAt | lib/migrate.js:56 | entry `i` holds the location columns of item `i` |
| Migrate.ItemPhotosAt | lib/migrate.js:59-69 | entry `i` holds the photo columns of item `i`'s details, for location `base + 1 + i` |
| Migrate.Migrate | lib/migrate.js:9-78 | the admin is seeded only into an empty admin table. The import runs only into an empty location table, from a non-empty array; on success the tables are exactly the import's result, and on any error they are unchanged |
| Migrate.InsertItems | lib/migrate.js:54-73 | the loop over the items fails exactly when the reference import fails, and on success leaves the reference result |
| Migrate.InsertItem | lib/migrate.js:56-69 | one item's inserts: the same, for a single item |
| Migrate.InsertDetails | lib/migrate.js:59-69 | the details' inserts: the same, for the details of one item |
| Migrate.InsertDetail | lib/migrate.js:61-67 | one detail's insert, matching the reference step |
| Migrate.DetailFailureSticks | lib/migrate.js:54-73 | a detail that fails makes the whole item fail |
| Migrate.ImportFailureSticks | lib/migrate.js:54-73 | an item that fails makes the whole transaction fail |
| Migrate.ImportDetailsSucceed | lib/migrate.js:59-69 | an item's details import exactly when every detail is importable |
| Migrate.ImportDetailsRows | lib/migrate.js:61-67 | the details become consecutive photo rows with orders 0, 1, 2, … in file order |
| Migrate.ImportItemSucceeds | lib/migrate.js:56-69 | an item imports exactly when its title, cover and details are importable |
| Migrate.ImportItemRows | lib/migrate.js:56-69 | an item becomes one location with the next id and its file index as order, followed by its photos |
| Migrate.ImportItemsSucceed | lib/migrate.js:54-73 | the file imports exactly when every item is importable |
| Migrate.ImportItemsRows | lib/migrate.js:54-73 | the import appends the items' locations and their photo groups, in file order |
| Migrate.ImportThenPublish | lib/migrate.js:54-73 | importing legacy data into an empty store and serving it again through the public listing gives back the import's rendering of each item (ItemShape), in file order; that rendering applies the import's defaults and loses bare URL details' `src` (BareUrlDetailLosesSrc) |
| PublicApi.HeaderValue | routes/api.js:16-20 | the header read is absent exactly when no header has that name; otherwise a header with that name carries it |
| PublicApi.ETag | routes/api.js:6-9 | the tag is the digest in double quotes |
| PublicApi.Conditional | routes/api.js:15-21 | a matching `If-None-Match` gives exactly an empty 304 with Cache-Control; anything else gives 200 with the data, the tag and Cache-Control |
| PublicApi.ListingResponse | routes/api.js:12-26 | a 500 is sent exactly when the store fails; otherwise the conditional response for the public listing |
| PublicApi.ItemResponse | routes/api.js:29-46 | 400 exactly for a non-numeric id; 500 exactly for a store failure; 404 exactly for an index out of range; otherwise the conditional response for that entry |
| PublicApi.ListingRevalidates | routes/api.js:12-26 | sending back the tag of a 200 gets a 304 while the data is unchanged |
| PublicApi.ItemRevalidates | routes/api.js:29-46 | the same for a single entry |
| PublicApi.ItemIsListingEntry | routes/api.js:29-46 | `/locations/i` serves entry `i` of `/locations` |
| PublicApi.GetLocations | routes/api.js:12-26 | the handler, setting its headers step by step, sends the listing response |
| PublicApi.GetLocation | routes/api.js:29-46 | the handler sends the item response |
| PublicApi.Respond | routes/api.js:35-41 | the shared tail of both handlers is the conditional response |
| AdminRoutes.Cleanup | routes/admin.js:113-115 | an old image is sent for deletion exactly when its URL starts with `http` |
| AdminRoutes.Login | routes/admin.js:13-29 | 400 exactly when a field is missing; 200 with the token exactly for a known user with a matching password; 401 with one common message otherwise |
| AdminRoutes.FailedLoginsLookAlike | routes/admin.js:18-25 | an unknown user and a wrong password get identical replies |
| AdminRoutes.PasswordCheck | routes/admin.js:35-52 | no error exactly when all fields are present, the new password has at least six UTF-16 units, the user exists and the old password matches; each failing check gives its own message |
| AdminRoutes.PasswordUpdated | routes/admin.js:54-55 | the admin list keeps its length |
| AdminRoutes.LookupAfterUpdate | routes/admin.js:55 | a password change keeps every username findable as before, and changes only that user's hash |
| AdminRoutes.NewPasswordLogsIn | routes/admin.js:54-55 | after a successful change, the new password logs in |
| AdminRoutes.OtherLoginsUnchanged | routes/admin.js:55 | every other user's login result is unchanged |
| AdminRoutes.ChangePassword | routes/admin.js:35-57 | 400 with the check's message and no change, or 200 with the new hash stored |
| AdminRoutes.Compared | lib/db.js:155 | what `WHERE id = ?` compares for one bound value: a number as it is, a string only when it is all digits, `null` nothing |
| AdminRoutes.Param | lib/db.js:155 | one element of `ids` in `stmt.run(index, id)`: a number targets that id, `null` matches no row, a one-element array of a scalar acts as that scalar, and exactly the other non-scalars (booleans, other arrays, objects) cannot be bound |
| AdminRoutes.SortRunBinds | lib/db.js:155 | `stmt.run(index, id)` throws exactly when the element cannot be bound, and the index always takes the first parameter |
| AdminRoutes.NumeralTargetsSameRow | lib/db.js:155 | an id sent as a digit string targets the same row as the number |
| AdminRoutes.SortIds | routes/admin.js:67-68 | the body is accepted exactly when `ids` is an array; each element then becomes its binding |
| AdminRoutes.SortLocations | routes/admin.js:66-71 | a non-array `ids` gives 400; otherwise the locations are reordered (200), or a rollback gives 500. Its `null`-body 500 is never reached behind `express.json()`, which answers 400 first (server.js:15) |
| AdminRoutes.SortPhotos | routes/admin.js:74-79 | the same for photos |
| AdminRoutes.TargetLocation | routes/admin.js:103-105 | `getLocation(parseInt(id))` finds nothing exactly when the parameter is not a number or no location has that id |
| AdminRoutes.CoverUrl | routes/admin.js:87-90 | without a cover file the cover is `''` |
| AdminRoutes.AddLocation | routes/admin.js:82-98 | a too-large cover gives 500; a missing title gives 400; a failed upload gives 500 with its message. Exactly the remaining cases create the location, with the uploaded URL as cover, and answer its id |
| AdminRoutes.Edited | routes/admin.js:107-118 | the edit keeps the id and order, and keeps each field not sent |
| AdminRoutes.EditLocation | routes/admin.js:101-124 | 404 for an unknown location. Otherwise only that row changes, and a new cover sends the old cover for deletion |
| AdminRoutes.OssUrls | routes/admin.js:135-139 | the URLs sent for deletion are exactly the photos' URLs starting with `http` |
| AdminRoutes.RequestCleanup | routes/admin.js:135-139 | the loop over the photos sends exactly those URLs, in listing order |
| AdminRoutes.DeleteCleansItsPhotos | routes/admin.js:134-139 | a URL is sent for deletion exactly when one of the location's own photos has it |
| AdminRoutes.DeleteLocation | routes/admin.js:127-151 | 404 and no change for an unknown location. Otherwise its photos' and cover's images are sent for deletion, and the location and its photos are removed |
| AdminRoutes.PhotosRoute | routes/admin.js:154-158 | a non-numeric id lists nothing; otherwise the listing holds exactly the location's photos, in order |
| AdminRoutes.StoredPrefix | routes/admin.js:172-176 | the URLs stored before the first failed upload, which stops the loop |
| AdminRoutes.UploadPhotos | routes/admin.js:161-183 | a refused request (too many files, or one too large) gives 500; an unknown location 404; no files 400. Otherwise the photos uploaded before any failure are appended with consecutive ids and orders, and the reply is 200 listing them, or 500 with the failing upload's message |
| AdminRoutes.Batch | routes/admin.js:171-176 | reference definition of the rows the upload loop inserts: one per URL, fixed element by element by BatchAt |
| AdminRoutes.BatchAt | routes/admin.js:171-176 | upload i becomes the photo with id base+1+i, order base order+i, that URL and an empty title and desc |
| AdminRoutes.Results | routes/admin.js:171-176 | reference definition of the loop's `results`: one entry per URL, fixed element by element by ResultsAt |
| AdminRoutes.ResultsAt | routes/admin.js:174 | result i is `{ id: base+1+i, url: urls[i] }` |
| AdminRoutes.AddPhotos | routes/admin.js:171-176 | the loop appends exactly the batch of stored URLs and collects their ids |
| AdminRoutes.AddPhoto | routes/admin.js:174 | one photo with an empty caption, next id and next order |
| AdminRoutes.BatchListedLast | routes/admin.js:171-176 | the uploaded photos are listed after the location's existing photos, in upload order |
| AdminRoutes.BatchNextOrder | routes/admin.js:171-176 | after the batch, the next order has advanced by its size |
| AdminRoutes.BatchLeavesOthers | routes/admin.js:171-176 | other locations' listings are unchanged |
| AdminRoutes.StoredPrefixUnique | routes/admin.js:172-176 | the stored prefix is determined by the upload results |
| AdminRoutes.CaptionArgs | lib/db.js:129-136 | the values ahead of the id: the body's `title`, then its `desc`, each only when sent; a `null` body throws |
| AdminRoutes.CaptionEdit | routes/admin.js:186-191 | a `null` body throws; otherwise, when the binding succeeds, a field is written exactly when it was sent |
| AdminRoutes.CaptionEditScalars | lib/db.js:131-137 | fields sent as strings, numbers or `null` are stored as the string, the number's text, or NULL |
| AdminRoutes.CaptionEditThrows | lib/db.js:137 | a field that is a boolean or an array holding a nested value makes the update throw |
| AdminRoutes.Captioned | routes/admin.js:188-191 | a caption edit keeps the id, order, location and URL, sets each field sent, and keeps each field not sent |
| AdminRoutes.EditPhoto | routes/admin.js:186-193 | 500, with nothing written, exactly when the fields cannot be bound; otherwise 200, and only the photo whose id `parseInt` reads changes, in the fields sent |
| AdminRoutes.DeletePhoto | routes/admin.js:196-210 | always 200. The photo's image is sent for deletion when the photo exists with an `http` URL, and exactly that row is removed |
| AdminRoutes.DeletesOnlyThatPhoto | routes/admin.js:204 | a photo survives exactly when it was there and has another id |
| OssUtils.IsOssUrl | public/js/oss-utils.js:11 | a URL that is processed is non-empty and long enough to hold `aliyuncs.com` (it is processed exactly when it contains it) |
| OssUtils.ThumbHeight | public/js/oss-utils.js:12 | `height \|\| 500` |
| OssUtils.OssThumb | public/js/oss-utils.js:10-15 | a URL not on `aliyuncs.com` is returned as is; otherwise the result extends the URL, joined by `&` when it already has a query and by `?` otherwise |
| OssUtils.ThumbHeightReadBack | public/js/oss-utils.js:14 | the processing parameter is `h_`, the height used, then exactly `/format,webp/quality,q_80`; the height reads back after `h_` |
| OssUtils.PreconnectCount | public/js/oss-utils.js:26 | the selector finds a link exactly when the count is positive |
| OssUtils.PreconnectCountAppend | public/js/oss-utils.js:31-36 | counts add up over appended links |
| OssUtils.Preconnected | public/js/oss-utils.js:21-38 | nothing is added for a non-OSS URL, an unparsable URL or an origin already hinted; otherwise the two hints are appended and the origin is then preconnected |
| OssUtils.PreconnectIdempotent | public/js/oss-utils.js:26 | calling it twice adds nothing more |
| OssUtils.PreconnectNoDuplicate | public/js/oss-utils.js:26 | no origin ever gets a second preconnect link |
| OssUtils.Document.Preconnect | public/js/oss-utils.js:21-38 | the page's links become the reference result |
| Theme.AutoTheme | public/js/theme.js:6-9 | day exactly from 7:00 to 17:59 |
| Theme.CurrentTheme | public/js/theme.js:12-15 | a non-empty saved preference wins; otherwise the automatic theme |
| Theme.NextTheme | public/js/theme.js:58 | day goes to night, and night or any other saved value goes to day |
| Theme.Toggled | public/js/theme.js:56-61 | the saved preference becomes day or night, and never stays day |
| Theme.ToggleTwice | public/js/theme.js:56-61 | two toggles restore a saved day or night, whatever the hours |
| Theme.ThemeClasses | public/js/theme.js:24-31 | exactly one theme class is set, the transition class is added when animated, and other classes are kept |
| Theme.CanvasOpacity | public/js/theme.js:34-35 | a canvas is visible exactly for its own theme |
| Theme.ThemePage.ApplyTheme | public/js/theme.js:18-53 | classes, opacities, running animations and button title follow the theme; a missing element is left alone |
| Theme.ThemePage.Init | public/js/theme.js:64-65 | start-up applies the current theme without the transition: its class, the star canvas shown only at night and the sky canvas only by day, the matching animation running, and the button titled for the other theme |
| Theme.ThemePage.ToggleTheme | public/js/theme.js:56-61 | it saves the toggled theme and applies it with the transition: the stars run and show exactly at night, the sky exactly by day, and the button offers the other theme |
| LocationDetail.Normalise | public/js/location_detail.js:41 | a bare URL becomes `{ src }`; an object stays |
| LocationDetail.NormaliseAll | public/js/location_detail.js:41 | one detail per element, in order |
| LocationDetail.FooterShown | public/js/location_detail.js:217-223 | the footer shows exactly when a title or description is non-empty |
| LocationDetail.FooterHiddenIff | public/js/location_detail.js:217-223 | it is hidden exactly when both are absent or empty, and always for a bare URL |
| LocationDetail.CounterText | public/js/location_detail.js:213 | the counter is the one-based position's digits, then `" / "`, then the count's digits |
| LocationDetail.CounterReadBack | public/js/location_detail.js:211-215 | the counter reads back as the one-based position and the count |
| LocationDetail.NextIndex | public/js/location_detail.js:318-324 | the next index, wrapping after the last: `(current + 1) mod n`, within range |
| LocationDetail.PrevIndex | public/js/location_detail.js:310-316 | the previous index, wrapping before the first: `(current - 1) mod n`, within range |
| LocationDetail.PrevNextInverse | public/js/location_detail.js:310-324 | next then previous, and previous then next, return to the same photo |
| LocationDetail.AdvanceIsModular | public/js/location_detail.js:318-324 | `k` presses of the right arrow land on `(current + k) mod n` |
| LocationDetail.EveryPhotoReached | public/js/location_detail.js:318-324 | every photo is reachable from any other |
| LocationDetail.SwipeOf | public/js/location_detail.js:344-356 | a swipe fires exactly for a mostly horizontal move over 50 pixels; a leftward one goes to the next photo |
| LocationDetail.SwipeMirror | public/js/location_detail.js:344-356 | mirroring the move mirrors the swipe, and swapping the axes never fires both |
| LocationDetail.ClickCloses | public/js/location_detail.js:387-393 | a close needs no swipe and a release on the backdrop |
| LocationDetail.ClickInPlaceCloses | public/js/location_detail.js:383-394 | a release in place on the backdrop closes the lightbox |
| LocationDetail.Lightbox.Open | public/js/location_detail.js:247-265 | it shows the chosen detail, and the lightbox is active |
| LocationDetail.Lightbox.SwitchTo | public/js/location_detail.js:267-289 | an index in range is shown; one out of range changes nothing |
| LocationDetail.Lightbox.GotoPrev | public/js/location_detail.js:310-316 | it moves to the previous photo, wrapping to the last |
| LocationDetail.Lightbox.GotoNext | public/js/location_detail.js:318-324 | it moves to the next photo, wrapping to the first |
| LocationDetail.Lightbox.Close | public/js/location_detail.js:291-308 | the index becomes -1 and the lightbox inactive |
| LocationDetail.Lightbox.KeyDown | public/js/location_detail.js:327-337 | Escape closes and the arrows navigate, only while open; with the lightbox closed or any other key, nothing shown changes (index, image, title, footer, counter) |
| LocationDetail.Lightbox.HandleSwipe | public/js/location_detail.js:344-356 | it reports a swipe exactly when one fired, and moves accordingly |
| LocationDetail.Lightbox.TouchStart | public/js/location_detail.js:358-363 | the start point is recorded only while open |
| LocationDetail.Lightbox.MouseDown | public/js/location_detail.js:371-377 | the same for the mouse |
| LocationDetail.Lightbox.TouchEnd | public/js/location_detail.js:365-369 | it ends a drag and swipes |
| LocationDetail.Lightbox.MouseUp | public/js/location_detail.js:383-394 | it ends a drag, swipes, or closes on a click in place on the backdrop |
| Escape.EscapeJs | admin/admin.js:73-75 | the escaped text holds no raw line feed or carriage return |
| Escape.ReplaceAllAdds | admin/admin.js:74 | a replace whose replacement lacks a character keeps that character out when it was absent |
| Escape.ReplaceAllAppend | admin/admin.js:74 | a global replace distributes over concatenation |
| Escape.EscapeChar | admin/admin.js:74 | exactly the five special characters are escaped, each to a backslash pair |
| Escape.EscapeJsIsPerChar | admin/admin.js:74 | the five chained replaces equal escaping each character once |
| Escape.EscapeJsRoundTrip | admin/admin.js:73-75 | a JavaScript string literal's reading of the escaped text gives back the title |
| Escape.EscapeJsInjective | admin/admin.js:73-75 | different titles escape differently |
| Escape.AttrValue | admin/admin.js:167 | an attribute value ends at the first `"` |
| Escape.QuoteInArgumentCuts | admin/admin.js:167 | a `"` anywhere in the quoted argument ends the attribute early |
| Escape.QuoteCutsHandler | admin/admin.js:167-169 | a title with `"` cuts the `onclick` attribute short |
| Escape.TitleWithQuote | admin/admin.js:167 | the concrete title `a"b` yields the broken handler `openPhotos(1, 'a\` |
| Escape.EscapeJsAttr | admin/admin.js:73-75 | the corrected escape never emits `"` or `&` |
| Escape.EscapeJsAttrRoundTrip | admin/admin.js:73-75 | the corrected escape still reads back as the title |
| Escape.HandlerIntact | admin/admin.js:167-169 | with the corrected escape, the attribute holds the whole handler and the argument reads back as the title |
| DragSort.DistinctWithout | admin/admin.js:412 | removing the dragged card keeps the others distinct, and removes exactly it |
| DragSort.Slot | admin/admin.js:410-414 | `insertBefore`'s landing position is within the list |
| DragSort.InsertBefore | admin/admin.js:408-412 | `insertBefore` moves the node: the children are a permutation of the old ones, with the node at the landing slot |
| DragSort.DragOverPlaced | admin/admin.js:408-414 | `insertBefore(dragItem, item)` or `insertBefore(dragItem, item.nextSibling)` places the dragged card just before or just after the target |
| DragSort.SlotIsPlacedSlot | admin/admin.js:408-414 | the DOM landing position matches the reference position |
| DragSort.PlacedPermutes | admin/admin.js:408-414 | a move is a permutation that keeps cards distinct and leaves the other cards in their order |
| DragSort.PlacedAdjacent | admin/admin.js:408-414 | the dragged card ends next to the target, on the side chosen |
| DragSort.IdsPermutation | admin/admin.js:398 | permuted cards give permuted ids |
| DragSort.SortableList.constructor | admin/admin.js:385-388 | the list starts with its cards, nothing dragged |
| DragSort.SortableList.DragStart | admin/admin.js:389-393 | the card becomes the dragged one |
| DragSort.SortableList.DragOver | admin/admin.js:402-414 | nothing moves without a dragged card or over itself; otherwise the card is placed by the mouse position |
| DragSort.SortableList.Move | admin/admin.js:408-414 | the cards become the reference placement |
| DragSort.SortableList.DragEnd | admin/admin.js:395-400 | the ids sent are the cards' ids in page order, a permutation of the initial ids |
| AdminPage.SaveForm | admin/admin.js:333-339 | the title comes first; then the cropped blob as `cover.jpg`, or else the first picked file, or no cover |
| AdminPage.SaveRequest | admin/admin.js:329-351 | nothing is sent exactly when the title is blank; otherwise PUT to the location being edited or POST for a new one |
| AdminPage.SavedTitleIsTrimmed | admin/admin.js:330-334 | the title sent is non-blank and trimmed, so the server's `!title` check never fires |
| AdminPage.BuildRequest | admin/admin.js:329-351 | the handler's step-by-step assembly is the reference request |
| AdminPage.LocationEditor.constructor | admin/admin.js:5 | nothing is being edited |
| AdminPage.LocationEditor.OpenAdd | admin/admin.js:194-204 | a blank form for a new location |
| AdminPage.LocationEditor.OpenEdit | admin/admin.js:207-232 | an unknown id changes nothing; otherwise the form holds the first matching location's title |
| AdminPage.LocationEditor.ChooseCover | admin/admin.js:237-245 | the input holds the choice, and a non-empty choice drops the earlier blob |
| AdminPage.LocationEditor.CancelCrop | admin/admin.js:313-321 | the cover input is cleared |
| AdminPage.LocationEditor.ConfirmCrop | admin/admin.js:294-311 | the cropped blob becomes the cover |
| AdminPage.LocationEditor.Save | admin/admin.js:329-362 | it sends the reference request; success closes the form and drops the blob |
| PhotosPage.IsImage | admin/photos.js:167 | a file counts as an image exactly when its first six type characters are `image/` |
| PhotosPage.ImagesOnly | admin/photos.js:167 | only images are kept, from the dropped files, and every dropped image is kept |
| PhotosPage.ImagesOnlyCounts | admin/photos.js:167 | each image is kept as many times as it was dropped, and nothing else is kept |
| PhotosPage.ImagesOnlyAppend | admin/photos.js:167 | filtering distributes over concatenation, so the kept files stay in their dropped order |
| PhotosPage.ImagesOnlySingle | admin/photos.js:167 | a single file is kept exactly when it is an image; with the row above, the result is the drop's images in order |
| PhotosPage.ImagesOnlyIdempotent | admin/photos.js:167 | filtering twice changes nothing |
| PhotosPage.UploadForm | admin/photos.js:174-177 | one `photos` part per file, in order |
| PhotosPage.Drop | admin/photos.js:164-171 | nothing is sent exactly when no file is an image; otherwise one POST carrying the images |
| PhotosPage.CaptionOf | admin/photos.js:207-220 | nothing is sent without a photo being edited; otherwise the trimmed texts |
| PhotosPage.UntouchedCaptionKept | admin/photos.js:207-220 | an untouched, already trimmed caption is sent back unchanged |
| PhotosPage.PhotoEditor.OpenEdit | admin/photos.js:200-205 | the dialog holds that photo's caption |
| PhotosPage.PhotoEditor.Save | admin/photos.js:207-232 | it sends the reference update; success closes the dialog and forgets the photo |
| PhotosPage.PhotoEditor.Cancel | admin/photos.js:234-237 | the dialog closes and no photo is being edited |
| PhotosPage.PhotoEditor.Backdrop | admin/photos.js:240-245 | the same on a backdrop click |
| PhotosPage.CancelThenSave | admin/photos.js:234-237 | after cancel, save sends nothing |

## Left out

- The authentication middleware and the JWT signer (`middleware/auth.js`) are not part of this model; the admin routes are modelled as reached by an authenticated request, and the token is a parameter.
- bcrypt, md5, the object store's upload and delete, and `new URL` are parameters or oracles, as listed above. The model does not capture deletes failing silently; it records them as a cleanup list.
- Timers are not modelled: the lightbox's 250 ms switch deferral is modelled as immediate; the one-second close timer, the swipe hint, the typing effect and the 1.2 s theme transition timer are left out.
- DOM and canvas details are left out: element creation, styles other than those modelled, image `onload`, the cropper's geometry, the auto-scroll, the back button transition, `doLogin`, logout and the toasts.
- AdminPage.LocationEditor.OpenEdit: the `fetch` of the location list is a parameter; its failure path (a toast) changes no state and is not modelled.
- Escape.AttrValue: HTML character references inside attribute values are not decoded.
- Escape.Unquote: only the escapes `escapeJs` and the corrected escape produce are read.
- AdminRoutes.Login: body fields are modelled as strings or absent. Non-string JSON values in the login and password bodies are not modelled.
- Text.ParseInt10: the result is an unbounded integer. JavaScript's loss of precision above 2^53 and its `-0` are not modelled.
- AdminRoutes.Param: a string id matches a row only when it is all decimal digits. SQLite's numeric conversion of signed, space-padded or decimal strings is not modelled; such strings match no row here.
- Store.Spread: a plain-object argument supplies no values. better-sqlite3 reads it as named parameters, which none of these statements declares. A non-plain object, such as a `Buffer`, cannot come from parsed JSON and is not modelled.
- Store.NullableText: a NULL `title` or `desc` of a photo is modelled as `''`. The public listing and the admin pages treat the two alike.
- PublicApi.Conditional: a 304 is modelled only for an `If-None-Match` equal to the tag. Express's freshness test, which is outside this repository, also answers 304 for `*`, for a weak `W/` tag and for a comma-separated list holding the tag. It also weighs `Cache-Control: no-cache` in the request.
- Numbers are integers; JavaScript floating-point values and SQLite REAL bindings are not modelled. A number bound to a TEXT column during migration is rendered through the `numeral` parameter.
- multer's "unexpected field" error and files beyond the 50-file limit are modelled together as a refused request (`Refused`, answered 500).
- The migration's file read and `JSON.parse` are the parameter `DataFile`; console logging is left out.
- `getAdminCount`, `getLocationCount` and `getLocation` have no members of their own: they are `|admins|`, `|locations|` and `FindById`.
- `created_at` columns are not modelled.
- AdminRoutes.UploadPhotos, AdminRoutes.EditLocation, AdminRoutes.AddLocation: each request is modelled as running alone. Other requests can run at the object-store `await`s of these handlers; that interleaving is not modelled. Two uploads to one location can then interleave their photos, so the batch's ids and orders need not be consecutive. A location deleted meanwhile makes the next insert fail its foreign key, which the source answers with 500. The row an edit read before its upload may be gone when it is updated.
- AdminRoutes.UploadPhotos: the upload loop is not a transaction. Photos inserted before a failed upload stay, and the model says so.
- AdminRoutes.EditPhoto: it answers 200 for an unknown or non-numeric id, as the code does, and then changes nothing. A binding failure is Express's default 500 error page, modelled as `Rejected`.
- The service worker, `server.js`, the public index and location pages, and the star and sky animations are not part of this model.

## Findings

| source | as written | input that shows it | evidently intended | confidence | as-written member | corrected member |
|---|---|---|---|---|---|---|
| admin/admin.js:73-75 (also admin/photos.js:66-68, used at admin/admin.js:167-169 and admin/photos.js:117) | `escapeJs` turns `"` into `\"`. The escaped title is placed inside a double-quoted `onclick` attribute, where the `"` still ends the attribute value | a location titled `a"b`: the handler becomes `openPhotos(1, 'a\` and the button is broken | an escape that cannot end the attribute, such as `\x22` for `"` and `\x26` for `&`, so the handler stays whole and the argument reads back as the title | not executed | Escape.TitleWithQuote | Escape.HandlerIntact |
| lib/migrate.js:62 (the location page accepts such details at public/js/location_detail.js:41) | the import reads `detail.src \|\| ''`, and a detail given as a bare URL string has no `src` property | `{"details": ["http://x/a.jpg"]}`: the photo is imported with url `''` and the URL is lost | read a string detail as `{ src: detail }` before taking its columns, as the location page does | medium, not executed | Migrate.BareUrlDetailLosesSrc | Migrate.BareUrlPublished |
