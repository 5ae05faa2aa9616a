# Inventory service: a verified model

`main.js` is a small Express service for an inventory of items. Clients
register an item with a name, an optional description and an optional photo.
They can then list, fetch, update and delete items, search for an item by id,
and read or replace its photo. Records are kept in the process-wide array
`inventoryDB`. Photos are files in an upload directory, saved by the upload
middleware under generated names.

This project models that service as a state machine over two pieces of state:

- **the record store**: an ordered sequence of records `{id, inventory_name, description, photo}`,
  searched first-match, appended to, spliced and updated in place;
- **the upload directory**: the set of photo file names that exist on disk.

Each route handler is a transition on (store, directory). Its inputs are the
route's id, the body fields and, for the two upload routes, the file the
transport has already staged. It answers with a status code and a body.

Modules:

- `Wrappers` (`wrappers.dfy`): `Option`, for `undefined` / `null`.
- `Records` (`records.dfy`): the record type and the lookups `find` / `findIndex`.
  Also `splice`, `deleteFileIfExist` on the directory, and the decimal id `Date.now().toString()`.
- `Responses` (`responses.dfy`): the read-only handlers as pure functions:
  GET /inventory, GET /inventory/:id, GET /inventory/:id/photo and POST /search.
- `Routing` (`routing.dfy`): `split('/')` and its round trip with `join`.
  Also the 405/404 fallback middleware and the route table.
- `Transitions` (`transitions.dfy`): the mutating handlers as pure transitions on a `Store`.
  Also `Step`, which serves one whole request through the router.
- `Service` (`service.dfy`): the class `Inventory`, whose `db: seq<Record>` and
  `disk: set<FileName>` are changed in place. Each handler method is proved equal
  to its transition.
- `Properties` (`properties.dfy`): what the handlers promise together.
  No request leaves a new unowned file in the upload directory, in one step or over any run.
  As long as only the service changes the upload directory, every photo a record names
  stays on disk and belongs to one record.
  It also holds the life cycle of one item, served end to end through the router.

Where the code and the usual description of the service differ, the model follows the code:

- Ids are `Date.now().toString()` and are not guaranteed unique. Lookups stay
  first-match. `DuplicateIdShadowed` shows that a second record registered
  under the same id cannot be reached by id while the older record is in the
  store: the GET, PUT, DELETE and photo routes all act on the older one.
  `DeleteUncoversDuplicate` shows that deleting the older one makes the
  newer one reachable.
- The name check is JavaScript truthiness, so an empty `inventory_name` is
  rejected like a missing one.
- `has_photo` is compared with the two literals `"on"` and `"true"` only.

## Model

| member | source | states |
|---|---|---|
| `Records.FindIndex` | main.js:118-119 | the first index holding the id, or none exactly when no record holds it |
| `Records.Find` | main.js:95-96 | the record found holds the id and is in the store; none exactly when no record holds it |
| `Records.FindAgreesWithFindIndex` | main.js:106 | `find` and `findIndex` with the same test select the same record |
| `Records.FindFirst` | main.js:95 | `find` returns the record at the first position holding the id |
| `Records.FindAppend` | main.js:90 | appending a record changes the lookup only for an id not present before |
| `Records.FindLast` | main.js:90 | a record appended under an unused id is what both lookups find |
| `Records.RemoveAt` | main.js:124 | `splice(i, 1)` shortens the store by one, keeps the other records in order, and removes exactly that record from the multiset |
| `Records.Release` | main.js:34-45 | releasing removes at most the named file; `null` or an already missing file leaves the directory unchanged |
| `Records.DecimalString` | main.js:84 | the id is a non-empty string of decimal digits with no leading zero |
| `Records.DecimalStringValue` | main.js:84 | the id string, read as a decimal number, gives back the clock reading it was made from |
| `Records.DecimalStringInjective` | main.js:84 | different clock readings give different ids |
| `Responses.UrlOf` | main.js:67-69 | a photo URL exists exactly when the record has a photo, and it is that record's photo URL |
| `Responses.PhotoUrlInjective` | main.js:100 | different ids give different photo URLs |
| `Responses.ListAll` | main.js:63-73 | status 200, `count` equals the store size, items in store order, `photoUrl` non-null exactly for records with a photo |
| `Responses.GetItem` | main.js:94-103 | 404 "Not Found" exactly when no record holds the id; otherwise the first such record, with `photoUrl` present exactly when it has a photo |
| `Responses.ReadPhoto` | main.js:128-142 | the file is served (200) exactly when the record exists, has a photo and the file is on disk; otherwise 404, with "Not found or no photo" for a missing record or photo and "Photo file missing on disk" when the record names a file that is not on disk |
| `Responses.Search` | main.js:161-179 | 404 for a missing or unknown id; otherwise the record, with `photoLink` present exactly when `has_photo` is "on" or "true", holding the URL or "No photo available" |
| `Routing.Split` | main.js:184 | `split('/')` yields at least one piece, no piece holds a slash, and joining the pieces gives back the path |
| `Routing.SplitJoin` | main.js:184 | splitting undoes joining slash-free pieces |
| `Routing.SplitNoSlash` | main.js:184 | a path without a slash splits into itself |
| `Routing.SplitAtSlash` | main.js:184 | a path splits at its first slash |
| `Routing.KnownRootPrefix` | main.js:183-186 | `'/' + segment` is a known path exactly when the segment is inventory, register or search |
| `Routing.Fallback` | main.js:182-194 | 405 exactly when the first segment is inventory, register or search and the method is not GET, POST, PUT or DELETE; 404 otherwise |
| `Routing.MethodNotAllowedExactly` | main.js:182-194 | a request with GET, POST, PUT or DELETE never gets 405 |
| `Routing.ReadsNeverMutate` | main.js:63-179 | a GET or HEAD request never reaches a handler that changes the store or the upload directory; only POST and PUT reach an upload route |
| `Routing.SplitRoot` | main.js:63 | a resource-root path splits into the empty piece and the root |
| `Routing.SplitItemPath` | main.js:94 | an item path splits into its three pieces |
| `Routing.SplitPhotoPath` | main.js:128 | a photo path splits into its four pieces |
| `Routing.PhotoPathRoutes` | main.js:128 | the path of a record's advertised photo URL reaches the GET and PUT photo routes for that id |
| `Routing.ItemPathRoutes` | main.js:94-117 | `/inventory/<id>` reaches the GET, PUT and DELETE item routes for that id |
| `Routing.Match` | main.js:63-179 | each route is reached only by its verb and its path shape: GET or HEAD for the read routes, POST for register and search, PUT and DELETE for the item and photo updates. The path segments, less one trailing slash, are exactly the route's own, with a non-empty id. Anything else goes to the fallback |
| `Routing.RootRoutes` | main.js:63-75 | `/inventory`, `/register` and `/search` reach the list, register and search routes |
| `Transitions.Register` | main.js:75-92 | 201 exactly when the name is truthy. Otherwise 400, the store is unchanged and the staged upload is deleted. On success exactly one record is appended, and earlier records are unchanged. The new record has the given id and name, `''` as description when that field is falsy, and the upload or null as photo |
| `Transitions.Update` | main.js:105-115 | unknown id: 404 and nothing changes. Otherwise only the first matching record changes. Its name changes only to a truthy value; its description changes whenever the field is present, `''` included. Id, photo, other records and the directory are unchanged |
| `Transitions.Delete` | main.js:117-126 | unknown id: 404 and nothing changes. Otherwise the first matching record is spliced out, the rest keep their order, and its photo file is no longer on disk |
| `Transitions.ReplacePhoto` | main.js:144-159 | unknown id: 404, the staged upload is deleted and the store is unchanged. No upload: 400 and nothing changes. Otherwise the old photo file is gone and the record's photo is the new name. Other records are unchanged, and the new file stays on disk when its name differs from the old one |
| `Transitions.Step` | main.js:63-194 | every response status is 200, 201, 400, 404 or 405; requests on non-mutating routes leave the state unchanged; 405 exactly when the router's fallback says so |
| `Service.Inventory.constructor` | main.js:26-32 | the service starts with an empty store over the files already in the upload directory |
| `Service.Inventory.DeleteFileIfExist` | main.js:34-45 | the in-place delete removes the file as `Release` says and touches no record |
| `Service.Inventory.PostRegister` | main.js:75-92 | the in-place handler yields the store, directory and response of `Transitions.Register` |
| `Service.Inventory.PutItem` | main.js:105-115 | the in-place handler yields the store, directory and response of `Transitions.Update` |
| `Service.Inventory.DeleteItem` | main.js:117-126 | the in-place handler yields the store, directory and response of `Transitions.Delete` |
| `Service.Inventory.PutPhoto` | main.js:144-159 | the in-place handler yields the store, directory and response of `Transitions.ReplacePhoto` |
| `Service.Inventory.Handle` | main.js:63-194 | serving a request in place yields the state and response of `Transitions.Step` |
| `Properties.RegisterLeavesNoOrphan` | main.js:78-90 | registration leaves the staged upload attached to the new record or deleted |
| `Properties.UpdateLeavesNoOrphan` | main.js:105-115 | an update leaves the set of unowned files unchanged |
| `Properties.DeleteLeavesNoOrphan` | main.js:117-126 | deleting a record deletes its photo with it, so no file becomes unowned |
| `Properties.ReplacePhotoLeavesNoOrphan` | main.js:144-159 | a replacement deletes the old photo; a rejected one deletes the upload |
| `Properties.StepLeavesNoOrphan` | main.js:63-194 | no request leaves a new unowned file in the upload directory |
| `Properties.RunLeavesNoOrphan` | main.js:63-194 | over any run of requests, unowned files are among those unowned at the start |
| `Properties.ServiceLeavesNoOrphan` | main.js:26-32 | from process start, the only unowned files are those the directory held before the service ran |
| `Properties.RegisterKeepsConsistent` | main.js:75-92 | with a freshly named upload, registration keeps every named photo on disk and owned by one record |
| `Properties.UpdateKeepsConsistent` | main.js:105-115 | an update keeps photo ownership consistent |
| `Properties.DeleteKeepsConsistent` | main.js:117-126 | a deletion keeps photo ownership consistent |
| `Properties.ReplacePhotoKeepsConsistent` | main.js:144-159 | with a freshly named upload, a replacement keeps photo ownership consistent |
| `Properties.StepKeepsConsistent` | main.js:63-194 | with a freshly named upload, any request keeps photo ownership consistent |
| `Properties.RunKeepsConsistent` | main.js:63-194 | over any run with freshly named uploads, photo ownership stays consistent |
| `Properties.RegisterThenGet` | main.js:83-103 | after registering under an unused id, fetching it returns the new record, with `photoUrl` exactly when a photo was uploaded |
| `Properties.DuplicateIdShadowed` | main.js:84-95 | a record registered under an id already in use is appended, but while the older record is in the store, the fetch by that id still returns the older one |
| `Properties.DeleteUncoversDuplicate` | main.js:94-124 | deleting by a shared id splices out only the first record holding it, and fetching the id then returns the next such record |
| `Properties.ReplaceThenRead` | main.js:128-159 | after a successful replacement under a new name, the photo route serves the new file |
| `Properties.DeleteThenGet` | main.js:63-126 | with unique ids, a deleted record is 404 and absent from the listing |
| `Properties.IdHasNoSlash` | main.js:84 | generated ids are non-empty and hold no slash |
| `Properties.RegisterDispatch` | main.js:75 | POST /register runs the registration handler with the clock-derived id |
| `Properties.ItemDispatch` | main.js:94-117 | GET and DELETE on a generated id's item path run the fetch and delete handlers for that id |
| `Properties.PhotoDispatch` | main.js:128-144 | GET and PUT on a generated id's photo path run the photo handlers for that id |
| `Properties.DrillRegistered` | main.js:75-92 | registering "Drill" with no photo appends it and answers 201 |
| `Properties.DrillFetched` | main.js:94-103 | fetching the new item answers 200 without `photoUrl` |
| `Properties.DrillPhotographed` | main.js:144-159 | attaching a photo to it answers 200 with the new photo name |
| `Properties.DrillServedAndDeleted` | main.js:117-142 | its photo is served, it is deleted with its file, and fetching it again is 404 |
| `Properties.DrillScenario` | main.js:63-194 | the whole sequence: register (201, no photo URL), attach a photo (200), read it (the file), delete (200), fetch again (404), and the file is gone from disk |

## Left out

- Changes made to the upload directory from outside the service are not
  modelled in `Properties.Run`, where only the handlers change the directory.
  That is why consistency holds there. `Responses.ReadPhoto` takes any directory,
  so it still covers a photo file that went missing (main.js:139-140).

- Express wiring, the JSON and URL-encoded body parsers, static serving of the
  `lab6` directory and `app.listen` are transport, not modelled. A static file
  that would shadow a route is not modelled either.
- Loading `swagger.json` and mounting `/docs` is file I/O and a foreign library. It is not modelled.
- The upload middleware's disk storage and its name generation from
  `Date.now()` and `Math.random()` are not modelled. The staged file is a
  parameter, and the directory already holds it. Middleware errors are not
  modelled; an unexpected file field, for example, gives a 500.
- `Date.now()` is not modelled; the clock reading `now` is a parameter, and the id is its decimal string.
- The directory is a set of names. Creating the directory, `existsSync`,
  `unlinkSync`, `sendFile`, file contents and content types are not modelled.
  A failed unlink, which the code only logs, is not modelled: a release always succeeds.
- Interleaving of concurrent requests at I/O points is not modelled; each request is one atomic step.
- A request without a body is read as an empty field map. That is what the
  Express 4 body parsers do: they set `req.body` to `{}`. Under Express 5,
  `req.body` stays `undefined`, so the destructuring at main.js:76, 109 and 162 throws
  and the request gets 500. That outcome is not modelled.
- Body fields are strings or absent. JSON values that are not strings
  (numbers, booleans, `null`, objects) and URL-encoded arrays are not modelled.
- Express matches routes case-insensitively and percent-decodes `:id`. `Routing.Match` is
  case-sensitive and takes the id segment as written. One trailing slash is
  ignored, as in non-strict routing. HEAD is answered by the GET routes, but the
  empty HEAD response body is not modelled.
- URLs are built as `http://localhost:3000/inventory/<id>/photo`. Response headers and
  the exact JSON serialisation are not modelled.
- Records are values. An in-place field assignment on the object found by
  `find` is modelled as replacing that element of the sequence. Nothing else
  holds the object: the response is serialised at once.
- `Transitions.ReplacePhoto`: when the staged name equals the record's current
  photo, the handler deletes the file it just received, and the model does the same.
  The consistency lemmas assume fresh upload names, which the generated names
  provide in practice.
