# Maison Lumière site: the record store and page selection rules

This project models the logic inside a small jewellery-brand website: an
Express API that keeps one JSON document (`content`, `products`,
`collections`, `gallery`, `messages`) and a React front end with an admin
panel. Most of the site is glue. What is modelled is the logic underneath it:

- **The API server's document** (`Server.Store`). It is a class whose fields are
  the document's five parts. Each route handler is a method: content read and
  shallow merge, product list/create/update/delete, collection list, and message
  append. Pure functions state what each handler does to its table:
  - `Stamped` builds the `{id, ...body}` record;
  - `IndexOfId` is the `findIndex` lookup;
  - `WithoutId` is the delete filter;
  - `Js.Spread` is `{...a, ...b}`.
  
  Lemmas relate these functions across operations: create then delete, delete
  is idempotent, delete keeps order, and an update can change a record's id.
  The upload route's generated filename has a parser, and a lemma shows that
  the parser recovers the time, the random suffix and the extension from it.
- **The storefront's selection rules**, as pure functions:
  - the Products page's category filter, with its fall back to the whole list, and its title;
  - the Home page's "Signature" showcase, with its fall back to the first three products;
  - the Home page's collections default, the product popup's image list, and the craftsmanship copy defaults;
  - the Gallery page's fall back from gallery images to product images, and each grid cell's key, source and alt text.
- **The admin panel's state**, as classes whose methods are the event handlers:
  - the password gate, the tab sidebar and logout;
  - the content editor's one-field nested update and its save status;
  - the product form's add/edit mode;
  - the inbox's reversed list.

JavaScript values are `Js.Value`: `undefined`, `null`, booleans, numbers,
strings, arrays and objects. A record is a `map<string, Value>`, and reading
an absent key gives `Undefined`. JavaScript truthiness is modelled as `Truthy`.
`||` is `Or`. `Date.now()` is a `nat` parameter. `Math.random()` is a `real`
parameter in [0, 1). The outcome of each API request the pages make is a
parameter too.

Some behaviour differs from what one might expect (stable ids, a message date). The model follows the code:
- `PUT /api/products/:id` does not keep the id. The body is spread last, so a body
  `id` replaces the stored id (`Server.UpdateMayChangeId`). On create, a body
  `id` likewise replaces the generated one (`Server.Stamped`).
- The server has no `GET /api/messages`, no `GET /api/gallery`, and no
  collection create/update/delete routes. The admin inbox and the gallery page
  request routes this server does not serve. `GalleryPage.GalleryImages` and
  `Admin.InboxMessages` take the response as a parameter.
- The server stamps a message with an `id` only, not with a date.

## Model

| member | source | states |
|---|---|---|
| `Server.Store.Init` | server/index.js:19-30 | a fresh document has empty `content` and empty `products`, `collections`, `gallery`, `messages` |
| `Server.Store.GetContent` | server/index.js:64-67 | GET content returns the stored content object |
| `Server.Store.PostContent` | server/index.js:69-74 | POST content stores and returns `old + body` (shallow merge); no other part of the document changes |
| `Js.Spread` | server/index.js:71 | `{...a, ...b}`: keys of both; every key of `b` has `b`'s value; every other key keeps `a`'s value |
| `Server.ContentMergeReplacesSection` | server/index.js:71 | a body carrying a section replaces that whole section, so nested fields the body omits are dropped; other sections are kept |
| `Server.Store.ListProducts` | server/index.js:77-80 | GET products returns the product table |
| `Server.Stamped` | server/index.js:84 | the new record has the body's keys plus `id`; its `id` is the body's `id` when present, else the decimal text of `now`; every body field is kept |
| `Server.Store.CreateProduct` | server/index.js:82-88 | create appends exactly the stamped record at the end, returns it, and leaves earlier records and the other tables unchanged |
| `Server.IndexOfId` | server/index.js:92 | the index of the first product whose `id` is strictly the string `id`, or -1 exactly when none has it |
| `Server.Store.UpdateProduct` | server/index.js:90-98 | unknown id: 404 "Not found" and the table unchanged; otherwise only the first matching record changes, to `old + body`, and it is returned; the length is unchanged |
| `Server.UpdateMayChangeId` | server/index.js:95 | an update body carrying a different `id` replaces the record's id, so the old id no longer finds it |
| `Server.HasId` | server/index.js:92 | `p.id === id` holds only when `p.id` is the string `id`; a numeric id never matches |
| `Server.WithoutId` | server/index.js:102 | the survivors of delete are exactly the records not having the id, each kept as many times as it occurs |
| `Server.Store.DeleteProduct` | server/index.js:100-105 | delete sets the table to the records without the id and always answers `{success: true}` |
| `Server.DeleteKeepsOrder` | server/index.js:102 | the surviving records are a subsequence of the old table, in the same order |
| `Server.DeleteIdempotent` | server/index.js:102 | deleting an id twice leaves the same table as deleting it once |
| `Server.DeleteUnknownIdIsNoop` | server/index.js:102 | deleting an id no record has leaves the table unchanged |
| `Server.CreatedProductIsFound` | server/index.js:84-92 | a product created without a body id, at a time no existing id equals, is found by its generated id at the end of the table |
| `Server.CreateThenDeleteRestores` | server/index.js:84-102 | creating a product without a body id, then deleting its generated id, restores the previous table |
| `Server.Store.ListCollections` | server/index.js:108-111 | GET collections returns the collections table |
| `Server.Store.PostMessage` | server/index.js:114-119 | a message is appended as `{id: String(now)} + body`; the other tables are unchanged; the answer is `{success: true}` |
| `Server.RandomSuffix` | server/index.js:44 | `Math.round(r * 1e9)` lies in [0, 1e9] and within one half of `r * 1e9` |
| `Server.UploadFilename` | server/index.js:43-44 | the generated filename parses back to the time, the rounded random suffix and the original name's last `.`-segment |
| `Server.Upload` | server/index.js:58-61 | no file gives 400 "No file uploaded"; a file gives `/uploads/` followed by the generated filename |
| `Server.UploadUrlRoundTrip` | server/index.js:43-60 | the answered URL starts `/uploads/`, and the rest gives back the time, the random suffix and the original extension |
| `Server.ParseComposedFilename` | server/index.js:44 | a name `time-suffix.ext`, built from digit strings and an `ext` without `.`, parses back into its three parts |
| `Text.NatToString` | server/index.js:84 | `Date.now().toString()` is a non-empty string of decimal digits with no leading zero |
| `Text.ParseNatToString` | server/index.js:84 | reading the printed number back gives the number |
| `Text.NatToStringInjective` | server/index.js:84 | different times print as different ids |
| `Text.LastSegment` | server/index.js:43 | `split(".").pop()` holds no `.`, is a suffix of the name, and is preceded by `.` when shorter than the name |
| `Text.LastSegmentWithoutSeparator` | server/index.js:43 | a name without `.` is its own last segment, so it becomes the whole extension |
| `Text.LastSegmentAfterSeparator` | server/index.js:43 | the last segment of `a + "." + b`, where `b` has no `.`, is `b` |
| `Text.Lower` | client/src/pages/Products.jsx:24 | `toLowerCase` keeps the length, leaves no upper-case ASCII letter, keeps every other character, and maps each upper-case letter to its lower-case partner |
| `Text.Contains` | client/src/pages/Products.jsx:24 | `includes` fails for a needle longer than the haystack, and the empty needle is always included |
| `Text.ContainsAt` | client/src/pages/Products.jsx:24 | `includes` holds exactly when the needle is a prefix of some suffix of the haystack |
| `Seqs.Filter` | server/index.js:102 | `filter` never lengthens the list |
| `Seqs.FilterMembers` | client/src/pages/Products.jsx:23 | `filter` keeps exactly the elements that pass; it is empty exactly when none passes |
| `Seqs.FilterMultiset` | server/index.js:102 | `filter` keeps every copy of a passing element and drops every copy of a failing one |
| `Seqs.FilterIsSubsequence` | client/src/pages/Products.jsx:23 | `filter` preserves order: its result is a subsequence of its input |
| `Seqs.FilterIdempotent` | server/index.js:102 | filtering twice with the same test equals filtering once |
| `Seqs.FilterAllPass` | server/index.js:102 | when every element passes, `filter` returns the input |
| `Seqs.FilterAppend` | server/index.js:102 | `filter` distributes over concatenation |
| `Seqs.PrefixIsSubsequence` | client/src/pages/Home.jsx:71 | `slice(0, n)` is a subsequence of the list |
| `Seqs.FindIndex` | server/index.js:92 | `findIndex` returns the first passing index, or -1 exactly when none passes |
| `Seqs.Reverse` | client/src/pages/AdminHelper.jsx:278 | `reverse` keeps the length and puts element `n-1-k` at `k` |
| `Seqs.ReverseInvolution` | client/src/pages/AdminHelper.jsx:278 | reversing twice restores the list |
| `ProductsPage.Displayed` | client/src/pages/Products.jsx:19-30 | with no or empty `cat`: the fetched list unchanged; with `cat`: a failed handler exactly when some product lacks a string category; otherwise a list of fetched products that is empty only when the fetch was empty |
| `ProductsPage.Matches` | client/src/pages/Products.jsx:23-25 | a product without a string category matches only through a `collectionId` equal to `cat`; a product with that `collectionId` always matches |
| `ProductsPage.CategoryFilter` | client/src/pages/Products.jsx:23-25 | the category filter's result is a subsequence of the fetched list, holds exactly the matching products with their multiplicities, and is empty exactly when none matches |
| `ProductsPage.DisplayedSelection` | client/src/pages/Products.jsx:23-27 | the shown list is an order-preserving subsequence; if some product matches, it holds exactly the matching ones, each as many times as fetched; if none matches, it is the whole list |
| `ProductsPage.SameCategoryIsKept` | client/src/pages/Products.jsx:24 | a product whose category equals `cat` up to letter case passes the filter |
| `ProductsPage.Title` | client/src/pages/Products.jsx:44 | "All Products" without `cat`; otherwise `cat` with its first letter upper-cased, then " Collection" |
| `ProductsPage.TitleNamesCategory` | client/src/pages/Products.jsx:44 | the title's first part equals `cat` up to letter case |
| `HomePage.IsSignature` | client/src/pages/Home.jsx:70 | the category must be present and exactly the string "Signature"; "signature" does not qualify |
| `HomePage.SignaturePieces` | client/src/pages/Home.jsx:70-71 | if any product's category is exactly "Signature", exactly those are shown, each as many times as fetched; otherwise the first `min(3, n)` fetched products |
| `HomePage.SignaturePiecesOrder` | client/src/pages/Home.jsx:70-71 | the showcase is a subsequence of the fetched list, and empty only when the fetched list is |
| `HomePage.CollectionsShown` | client/src/pages/Home.jsx:68 | a falsy collections response becomes the empty list; a truthy one is kept |
| `HomePage.ModalImages` | client/src/pages/Home.jsx:9 | the popup's images are `product.images` when truthy, otherwise the singleton `[product.imageUrl]` |
| `HomePage.ThumbnailsShown` | client/src/pages/Home.jsx:20-22 | only an array can show the thumbnail row, and it does exactly when it has more than one entry |
| `HomePage.SingleImageHasNoThumbnails` | client/src/pages/Home.jsx:9-20 | the singleton fall back never shows thumbnails |
| `HomePage.ImageListHasThumbnails` | client/src/pages/Home.jsx:20 | an image array of two or more shows thumbnails |
| `HomePage.CraftTitle` | client/src/pages/Home.jsx:154 | the craftsmanship title is the stored title when truthy, else "The Art of Perfection" |
| `HomePage.CraftText` | client/src/pages/Home.jsx:155 | the craftsmanship text is the stored text when truthy, else the fixed default sentence |
| `GalleryPage.GalleryImages` | client/src/pages/Gallery.jsx:14-26 | a failed request leaves no images; a non-empty gallery is used as-is; otherwise one image per product, in order, each the image built from that product |
| `GalleryPage.ImageOf` | client/src/pages/Gallery.jsx:20 | a product's image is an object with exactly `id`, `url = imageUrl` and `caption = name` |
| `GalleryPage.TileOf` | client/src/pages/Gallery.jsx:37-39 | a null entry throws; otherwise the key is `id` or the index, the source is `url` or `imageUrl`, and the alt text is `caption` when truthy, else "Gallery Image", so never falsy |
| `GalleryPage.DerivedTile` | client/src/pages/Gallery.jsx:20-39 | a product-derived cell is keyed by the product id or the index, shows its truthy image, and is captioned by its name or "Gallery Image" |
| `Admin.LoginForm.constructor` | client/src/pages/AdminHelper.jsx:7-8 | the login form starts with an empty password and no error |
| `Admin.LoginForm.Type` | client/src/pages/AdminHelper.jsx:28 | typing sets the password |
| `Admin.LoginForm.Submit` | client/src/pages/AdminHelper.jsx:10-17 | accepted exactly when the password is "admin"; otherwise the error becomes "Invalid password" |
| `Admin.AdminPanel.constructor` | client/src/pages/AdminHelper.jsx:302-303 | the panel starts unauthenticated on the dashboard tab |
| `Admin.AdminPanel.CurrentScreen` | client/src/pages/AdminHelper.jsx:305-324 | the login view is shown exactly when unauthenticated; otherwise the open tab |
| `Admin.AdminPanel.Login` | client/src/pages/AdminHelper.jsx:305 | the panel becomes authenticated exactly when the form accepts the password |
| `Admin.AdminPanel.SelectTab` | client/src/pages/AdminHelper.jsx:312-315 | clicking a tab opens it |
| `Admin.AdminPanel.Logout` | client/src/pages/AdminHelper.jsx:316 | logout shows the login view and keeps the open tab |
| `Admin.SetSectionField` | client/src/pages/AdminHelper.jsx:101-109 | only `content[section][field]` changes, to the value; other fields of that section and all other sections are kept |
| `Admin.SaveAfterEditStoresEdit` | client/src/pages/AdminHelper.jsx:101-115 | after an edit, the server's shallow merge of the posted content over the loaded content stores exactly the edited content |
| `Admin.SaveButtonLabel` | client/src/pages/AdminHelper.jsx:128-129 | the button reads "Saving..." exactly while saving, "Saved!" exactly after a successful save, and "Save Changes" when idle or after an error |
| `Admin.SaveDisabled` | client/src/pages/AdminHelper.jsx:128 | the button is disabled exactly while it reads "Saving..." |
| `Admin.ContentManager.constructor` | client/src/pages/AdminHelper.jsx:94-95 | the editor starts with no content and a blank status |
| `Admin.ContentManager.Loaded` | client/src/pages/AdminHelper.jsx:98 | the loaded content replaces the editor's content |
| `Admin.ContentManager.HandleChange` | client/src/pages/AdminHelper.jsx:101-109 | an input change applies the one-field nested update |
| `Admin.ContentManager.BeginSave` | client/src/pages/AdminHelper.jsx:112-114 | save sets the status to saving (button disabled) and posts the whole content |
| `Admin.ContentManager.FinishSave` | client/src/pages/AdminHelper.jsx:115-119 | the status becomes saved on success and error on failure, re-enabling the button |
| `Admin.RequestFor` | client/src/pages/AdminHelper.jsx:179-184 | a truthy `editingId` sends PUT for that id, otherwise POST; the body is the form |
| `Admin.EditOfFalsyIdPosts` | client/src/pages/AdminHelper.jsx:179-195 | editing a record with a falsy id leaves the form in add mode, so a submit posts a new record |
| `Admin.ProductsManager.constructor` | client/src/pages/AdminHelper.jsx:166-168 | the form starts empty with category "Signature", in add mode |
| `Admin.ProductsManager.Loaded` | client/src/pages/AdminHelper.jsx:174 | the fetched list replaces the product list |
| `Admin.ProductsManager.SetField` | client/src/pages/AdminHelper.jsx:219-242 | a form input sets one field of the form |
| `Admin.ProductsManager.Edit` | client/src/pages/AdminHelper.jsx:192-195 | the form becomes the product and `editingId` its id |
| `Admin.ProductsManager.Cancel` | client/src/pages/AdminHelper.jsx:197-200 | back to the empty form with no `editingId` |
| `Admin.ProductsManager.Submit` | client/src/pages/AdminHelper.jsx:176-190 | sends the request `RequestFor` picks; on success the form is reset and a PUT clears `editingId`; on failure nothing changes |
| `Admin.ProductsManager.Heading` | client/src/pages/AdminHelper.jsx:215 | the form is in edit mode exactly when `editingId` is truthy |
| `Admin.InboxMessages` | client/src/pages/AdminHelper.jsx:277-283 | the inbox shows the fetched messages in reversed order; its count is their number |

## Left out

- Disk persistence (lowdb `read`/`write`, creating the data and upload directories, multer's disk storage): file I/O. The store is in memory only.
- Documents missing one of the five keys: the model starts from the document the server writes at first boot. So the `|| {}` and `|| []` fall backs of the GET routes never apply.
- Request bodies that are arrays, and JSON parsing: a body is modelled as an object (a record).
- Express routing, CORS, static serving, `app.listen`: framework code. Handlers are methods that return a result or an error.
- The lost-update race between concurrent read-modify-write cycles: concurrency is not modelled. No claim is made that generated ids are unique.
- JavaScript numbers: modelled as integers, with no floating point. `Math.random() * 1e9` is computed on reals, without double rounding.
- `toLowerCase`/`toUpperCase`: modelled on ASCII letters only. `URLSearchParams` parsing is not modelled; the `cat` parameter is an optional string.
- `Admin.SetSectionField`: spreading a section that is an array or a string is modelled as spreading nothing. JavaScript spreads those by index.
- `HomePage.ThumbnailsShown`: when `images` is a string or an object whose `length` exceeds 1, `images.map` throws and the popup fails to render. The model reports no thumbnail row and does not model the failed render.
- `GalleryPage.GalleryImages`: a gallery response that is not an array (a non-empty string, say) is not modelled.
- The `setTimeout` that clears the save status, `window.confirm`, `alert`, `console`, date formatting: timers, dialogs and locale formatting.
- The product manager's delete button: a confirm dialog around a DELETE request and a reload. The server side of that request is `Server.Store.DeleteProduct`.
- React rendering, the file-upload widget and the API client: UI and network. Request outcomes are parameters.
- `client/src/pages/Contact.jsx`, `Footer.jsx` and `Navbar.jsx`: form plumbing and static markup.
