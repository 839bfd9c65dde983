# my-home-store: a verified model of the data-access layer

my-home-store is a small storefront. Its real persistence lives in a hosted
Supabase backend. The logic the repository itself owns is a resolution
policy. Every read asks whether the Supabase client exists. Without a client,
or when the remote query fails, the read falls back to a compiled-in dataset.
Writes have no fallback: any failure becomes `null`, `false` or `[]`. Around
this sit three more pieces: the configuration test that decides whether the
client exists, the pre-flight check and storage path used for image uploads,
and the compiled-in dataset.

The model has five modules, one file each:

- `js.dfy` (`Js`) holds the JavaScript built-ins the code relies on. These are
  `null`/`undefined`, `find`, `filter`, `split('.')` followed by `pop()`,
  the decimal string of an integer, and `parseInt` with no radix.
  `parseInt` follows ECMAScript: it skips leading white space, takes one
  sign, switches to radix 16 on a `0x` prefix, reads the longest run of
  digits, and gives `NaN` (`None`) when there are none.
- `supabase.dfy` (`Supabase`) covers `lib/supabase.js`: the client, the
  `isSupabaseConfigured` test, and `Remote<T> = Ok(data) | Err`. `Remote` is
  the opaque outcome of one remote call. A thrown error and a returned
  `error` are the same `Err`.
- `catalog.dfy` (`Catalog`) covers `data/products.js`: the `Product`,
  `Category` and `Order` records, the two constant arrays (`Catalog.Products`
  for data/products.js lines 1-62 and `Catalog.Categories` for lines 64-69,
  whose contents the `Catalog.Fallback…` lemmas below pin down), and their
  consistency (distinct ids, categories that exist, figures in range).
- `database.dfy` (`Database`) covers `services/database.js`. Each service
  operation is a function of the client, the remote outcome and, for reads,
  the fallback data and the argument.
- `image_upload.dfy` (`ImageUpload`) covers `services/imageUpload.js`:
  `validateImageFile`, the storage path `folder/timestamp_random.ext`, and
  `uploadImage`/`deleteImage` with their early exits.

Two properties carry most of the proof work. First, the decimal string of
any integer reads back through `parseInt` as that integer
(`Js.ParseDecimal`). So `getProductById(3)` and `getProductById("3")` agree
on every path. Second, the last piece of `split('.')` is exactly what follows
the last dot (`Js.LastPieceIsTail`). So a stored path keeps the uploaded
file's extension, and two uploads of the same file into the same folder get
different paths unless their timestamp and random id both match
(`ImageUpload.PathsSeparateUploads`). The random ids the code generates
are base-36 digits and never hold `/`. For such ids this extends across
folders: equal paths mean equal folder, timestamp and random id
(`ImageUpload.PathsSeparateAcrossFolders`). Only a random id holding `/`,
which the code never produces, could make two folders collide
(`ImageUpload.CrossFolderCollision`).

The code distinguishes `undefined` from `null`, and the model keeps them
apart (`Js.Nullish`). A failed lookup is `undefined`, because that is what
`find` returns. A failed write is `null`. An insert or update whose `.select()`
returns no rows gives `data[0]`, which is `undefined`. Callers only test
truthiness, so both count as failure for them.

The size message says "less than 5MB", but the check is `size > maxSize`.
A file of exactly 5 MiB is therefore accepted, and the model does the same.

## Model

| member | source | states |
|---|---|---|
| `Js.FindIndex` | services/database.js:34 | `find` stops at the first element that passes; every element before it fails |
| `Js.Find` | services/database.js:34 | `find` returns the first element that passes, never `null`; it is `undefined` exactly when no element passes |
| `Js.Filter` | services/database.js:59 | `filter` never lengthens the list, and every element it returns passes the test |
| `Js.FilterCounts` | services/database.js:59 | each element that passes is kept exactly as often as it occurs in the input; elements that fail are dropped |
| `Js.FilterConcat` | services/database.js:59 | filtering a concatenation filters each part in turn, so relative order is preserved |
| `Js.FilterKeepsAll` | services/database.js:59 | when every element passes, `filter` returns the list unchanged |
| `Js.FilterDropsAll` | services/database.js:59 | when no element passes, `filter` returns `[]` |
| `Js.FilterSplit` | services/database.js:59 | filtering a list whose leading part fails and whose trailing part passes gives the trailing part |
| `Js.FilterIdempotent` | services/database.js:59 | filtering twice by the same test is the same as filtering once |
| `Js.IndexOf` | services/imageUpload.js:19 | the position of the first separator, with no separator before it |
| `Js.Split` | services/imageUpload.js:19 | `split` gives at least one piece, no piece contains the separator, and joining the pieces with the separator gives back the string |
| `Js.Last` | services/imageUpload.js:19 | `pop()` on the non-empty array `split` returns gives its last element; what that element is, `Js.LastPieceIsTail` states |
| `Js.LastPieceIsTail` | services/imageUpload.js:19 | `split(...).pop()` is a separator-free suffix that is either the whole string or preceded by a separator |
| `Js.TailAfterLastSeparator` | services/imageUpload.js:19 | for any prefix, `pop()` of `prefix + "." + tail`, with `tail` dot-free, is `tail` |
| `Js.NatToDecimal` | services/imageUpload.js:20 | `${timestamp}` is a non-empty string of decimal digits without a leading zero |
| `Js.IntToDecimal` | services/database.js:34 | `String(n)` of an integer is `-` exactly when `n` is negative, followed by the decimal digits of its absolute value |
| `Js.TrimStart` | services/database.js:34 | `parseInt` skips a prefix of the input and stops at the first non-whitespace character |
| `Js.DigitPrefix` | services/database.js:34 | `parseInt` reads the longest prefix of radix digits |
| `Js.ParseMagnitude` | services/database.js:34 | the unsigned part of `parseInt` is `NaN` exactly when no digit of the selected radix follows the optional `0x` prefix |
| `Js.ParseInt` | services/database.js:34 | `parseInt` is `NaN` exactly when no digit of the selected radix follows the white space, the sign and an optional `0x` |
| `Js.DecimalValue` | services/database.js:34 | the digits of `String(n)` denote `n` |
| `Js.MagnitudeOfDecimal` | services/database.js:34 | the unsigned part of `parseInt` reads the decimal string of `m` back as `m` |
| `Js.ParseDecimal` | services/database.js:34 | `parseInt(String(n)) == n` for every integer `n` |
| `Js.DecimalInjective` | services/imageUpload.js:20 | different timestamps have different decimal strings |
| `Supabase.MakeClient` | lib/supabase.js:7-11 | the client exists exactly when both settings are set, non-empty and not their placeholders; it is built from those two settings |
| `Supabase.IsConfigured` | lib/supabase.js:14-16 | `isSupabaseConfigured()` is `supabase !== null`; `Supabase.ConfiguredIffRealSettings` gives its meaning in terms of the settings |
| `Supabase.ConfiguredIffRealSettings` | lib/supabase.js:7-16 | `isSupabaseConfigured()` holds exactly when both settings are set, non-empty and not their placeholders |
| `Supabase.EmptySettingIsMissing` | lib/supabase.js:7 | an empty URL or key acts exactly like a missing one, so the client is not configured |
| `Supabase.PlaceholderForcesFallback` | lib/supabase.js:8-9 | either placeholder alone makes the client unconfigured, whatever the other setting is |
| `Supabase.RealSettingsConfigure` | lib/supabase.js:7-11 | two real, non-placeholder settings always produce a client |
| `Catalog.ProductIdsOneToSix` | data/products.js:1-62 | there are six products, with ids 1 to 6 in ascending order |
| `Catalog.FallbackCategoryNames` | data/products.js:7-57 | the products' categories are furniture, furniture, lighting, decor, decor, decor |
| `Catalog.FallbackProductIdsDistinct` | data/products.js:1-62 | product ids are pairwise distinct |
| `Catalog.FallbackCategoryIdsDistinct` | data/products.js:64-69 | category ids are pairwise distinct |
| `Catalog.FallbackCategoriesResolve` | data/products.js:7-68 | every product's category is the id of some category |
| `Catalog.FallbackFiguresInRange` | data/products.js:1-62 | prices and review counts are non-negative, and ratings are between 0 and 5 stars |
| `Catalog.FallbackConsistent` | data/products.js:1-69 | the dataset satisfies all of the data-model invariants together |
| `Database.ReadThrough` | services/database.js:8-26 | a read returns the remote data verbatim when the client exists and the query succeeds; otherwise it returns the local fallback |
| `Database.FirstRow` | services/database.js:80-93 | `data[0]` after insert/update: `null` exactly when there is no client or an error, `undefined` exactly when no row came back, otherwise the first row |
| `Database.ParseIdArg` | services/database.js:34 | `parseInt(id)` of a number is that number; of a string it is `parseInt` of the string |
| `Database.HasId` | services/database.js:34 | the test `p.id === parseInt(id)`: a `NaN` id matches no product, and a number matches exactly the products with that id |
| `Database.InCategory` | services/database.js:59 | the test `p.category === category` holds exactly for the products of that category |
| `Database.FindById` | services/database.js:34 | the local lookup is `undefined` exactly when the id does not parse or no product has it; otherwise it returns the first product with that id |
| `Database.GetAllProducts` | services/database.js:6-27 | with no client or a remote error, returns the local products unchanged; otherwise returns the remote rows verbatim |
| `Database.GetProductById` | services/database.js:30-52 | never `null`; with no client or any remote error (including `.single()` finding no row), returns the local lookup; otherwise returns the remote row |
| `Database.GetProductsByCategory` | services/database.js:55-77 | on the fallback path, returns exactly the local products of that category, each with its multiplicity and none added; otherwise returns the remote rows |
| `Database.AddProduct` | services/database.js:80-93 | `null` exactly when there is no client or an error; otherwise returns the first returned row, or `undefined` if there is none |
| `Database.UpdateProduct` | services/database.js:96-110 | `null` exactly when there is no client or an error; `undefined` when no row was updated; otherwise returns the updated row |
| `Database.DeleteProduct` | services/database.js:113-126 | `true` exactly when there is a client and the delete reported no error |
| `Database.GetAllCategories` | services/database.js:132-153 | with no client or a remote error, returns the local categories unchanged; otherwise returns the remote rows |
| `Database.CreateOrder` | services/database.js:159-172 | `null` exactly when there is no client or an error; otherwise returns the first returned order, or `undefined` if there is none |
| `Database.GetUserOrders` | services/database.js:175-195 | `[]` when there is no client or an error; otherwise returns the remote rows |
| `Database.UnconfiguredReadsIgnoreRemote` | services/database.js:8-11 | without a client, no read depends on the remote outcome; the listings return the local arrays themselves |
| `Database.CategoryFallbackFiltersListing` | services/database.js:55-77 | whenever the category read falls back, it equals the full listing's fallback filtered by category |
| `Database.NumberAndStringIdsAgree` | services/database.js:30-52 | for any client and outcome, `getProductById(n)` and `getProductById(String(n))` return the same thing |
| `Database.UnparsableIdFindsNothing` | services/database.js:34 | an id that `parseInt` cannot read finds nothing locally |
| `Database.LookupInDistinctIds` | services/database.js:34 | when ids are distinct, looking up a record's id returns that record |
| `Database.LookupByNumeral` | services/database.js:34 | looking up `String(n)` locally is the same as looking up `n` |
| `Database.MissingEverywhereIsUndefined` | services/database.js:46-51 | an id missing from both sources reads as `undefined`, not as an error |
| `Database.LookupByPosition` | services/database.js:34 | when ids equal positions counted from 1, ids 1..n find the matching record by number or by string, and any other number finds nothing |
| `Database.FallbackLookup` | services/database.js:32-35 | locally, ids 1..6 find their product by number or by string, and every other number finds nothing |
| `Database.DecorFallback` | data/products.js:33-61 | locally, the `decor` category is products 4, 5 and 6, in that order |
| `Database.TextilesFallbackEmpty` | data/products.js:68 | `textiles` is a category, yet filtering the products by it gives `[]` |
| `ImageUpload.ValidateImageFile` | services/imageUpload.js:85-99 | `null` exactly when the type is in the allow-list and the size is at most 5 MiB; a disallowed type gets the type message even when the file is also too large |
| `ImageUpload.ValidationCases` | services/imageUpload.js:87-96 | a GIF is rejected with the type message even when it is oversize, a 1 KiB PNG is accepted, 5,242,880 bytes are accepted, and 5,242,881 bytes get the size message |
| `ImageUpload.Extension` | services/imageUpload.js:19 | the extension is dot-free and is the text after the last dot, or the whole name when there is no dot |
| `ImageUpload.FilePath` | services/imageUpload.js:17-21 | the path starts with `folder/` and has the same extension as the uploaded file |
| `ImageUpload.UnderscoreEndsStamp` | services/imageUpload.js:20 | the first `_` of a generated file name comes right after the timestamp digits |
| `ImageUpload.PathShape` | services/imageUpload.js:20-21 | the path is `folder/`, then `timestamp_random`, then `.ext` |
| `ImageUpload.PathsSeparateUploads` | services/imageUpload.js:17-21 | two uploads of the same file to the same folder get the same path only when both timestamp and random id match |
| `ImageUpload.PathsSeparateAcrossFolders` | services/imageUpload.js:17-21 | with random ids free of `/`, as base-36 ids are, two uploads of the same file share a path only when folder, timestamp and random id all match |
| `ImageUpload.CrossFolderCollision` | services/imageUpload.js:17-21 | the `/`-free restriction is needed: a random id holding `/`, which the code never generates, lets folder `b/1_q` at time 2 with id `x` and folder `b` at time 1 with id `q/2_x` share a path |
| `ImageUpload.FolderOrDefault` | services/imageUpload.js:9 | an omitted folder becomes `products` |
| `ImageUpload.UploadImage` | services/imageUpload.js:9-50 | `null` without a client, before any storage call, and `null` on a storage error; on success returns the generated path and the public URL for that path |
| `ImageUpload.DefaultFolderPaths` | services/imageUpload.js:9-21 | without an explicit folder, every successful upload's path starts with `products/` |
| `ImageUpload.DeleteImage` | services/imageUpload.js:57-77 | `false` without a client, before any storage call; otherwise `true` exactly when the removal reported no error |

## Left out

- Remote queries are out of scope: the Supabase client, the network, storage
  and server-side ordering (`created_at` descending, `name` ascending). Each
  call is the opaque `Remote` outcome the operation receives. Write payloads
  (`product`, `updates`, `orderData`, the product and user ids passed to
  `.eq`) go only to that call, so the write functions do not take them.
- On the remote path, `getProductById` passes `id` to `.eq` as given, without
  `parseInt`. Only the local lookup coerces the id. The model cannot show
  what the remote store makes of a string id, because the query's outcome
  is a parameter.
- Remote rows are assumed to have the same shape as the local records. The
  hosted schema is not part of this model.
- `Date.now()`, `Math.random().toString(36).substring(2, 15)` and
  `getPublicUrl` are left out because they are clock, randomness and
  storage. They become the parameters `timestamp`, `randomId` and
  `publicUrl`.
- `UploadImage`: `randomId` is widened from the base-36 digits of
  `Math.random().toString(36).substring(2, 15)` to any string. Properties
  that need the narrower ids, such as separation across folders, take the
  absence of `/` as a precondition.
- A missing `file.name`, which would throw inside `uploadImage` before any
  storage call, is not representable: `File.name` is always a string. A
  storage call that throws or returns an `error` is the same `Err`, and
  `UploadImage` gives `None` for it, as the `catch` does.
- `console.error` logging, `async`/`await`, and the dynamic
  `import('../data/products')` are left out. The dataset is a constant.
- Floating point is left out. Prices are integer cents and ratings are
  tenths. `parseInt` and `String(n)` are modelled on mathematical integers,
  so precision loss above 2^53 and exponent notation at 1e21 or more are not
  captured.
- Strings are sequences of Unicode code points, not UTF-16 code units. This
  does not affect the ASCII names and ids used here.
- `isSupabaseConfigured` being constant for the process lifetime holds by
  construction: the client is a function of the two settings only, and no
  operation can change it.
- The dataset's immutability also holds by construction. No write function
  takes the dataset, and the fallback reads return the very sequence they
  were given. So no sequence of operations can change it.
- The React pages, the header component and the cart are out of scope.
