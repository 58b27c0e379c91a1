# ESPGrowStation web server and soil calibration, in Dafny

ESPGrowStation is ESP8266 firmware for a soil-moisture sensor node. Its
`src/main.cpp` wires Wi-Fi, OTA updates, an ADS1015 converter and a web
server together. This project models the deterministic logic under that
plumbing:

- the flash file system (SPIFFS) is a `map<string, seq<byte>>` from full
  paths to contents (`Http.Store`);
- an HTTP request is reduced to its method, uri and ordered arguments
  (`Http.Request`), and a handler's answer to a `Reply`: a plain `Send`, a
  streamed stored object (`Stream`), or the `/all` and `/data` status documents
  (`StatusJson`).

The modules follow the firmware's pieces:

- `ContentType` holds `getContentType`, the ordered chain of suffix tests. The
  `download` argument overrides it and `text/plain` is the default.
- `StaticFiles` holds `handleFileRead`. A path ending in `/` gets `index.htm`,
  a `.gz` sibling is preferred, and the MIME type comes from the path before
  `.gz` is added. `ServeOr404` is the "serve or 404 FileNotFound" reply used by
  the fallback and by GET `/edit`.
- `FileList` holds `handleFileList`: a method with the firmware's loop, which
  builds the JSON array one entry at a time and puts a comma before each entry
  except the first. It is proved equal to a comma-join specification.
- `FileManager` holds the guard chains of `handleFileDelete` and
  `handleFileCreate` as functions from a store and the arguments to a reply and
  a new store.
- `Upload` holds `handleFileUpload` as a step function over the store and the
  single global upload handle (START, WRITE, END, ABORTED), with lemmas about
  whole sequences of notifications.
- `Routes` holds the route table registered in `setup()`. Lookup is exact on
  method and uri, in registration order. `Dispatch` gives the reply and the
  new store of one request, and anything unmatched goes to the not-found
  fallback.
- `Soil` holds the clamp-and-map calibration of `readADC`: `constrain` to
  [700, 1400], then Arduino's classic `map` onto [100, 0] with C's truncating
  division.
- `Station` is a class holding the firmware's globals: the store, the upload
  handle and the `soil[4]` array. Its methods change them in place, and each
  is proved against the functions above.

Behaviour of the firmware worth noting:

- The listed name drops the path's first character, whatever that character
  is, not specifically a separator.
- The upload byte count is only logged.
- Under the classic `map` formula, the window midpoint maps to exactly 50.

## Model

| member | source | states |
|---|---|---|
| ContentType.GetContentType | src/main.cpp:52-66 | with `download` the type is application/octet-stream, and only then; a name matching none of the twelve suffixes is text/plain |
| ContentType.ContentTypeIsFirstMatch | src/main.cpp:54-66 | without `download` the type is the one of the first suffix in the table's order that ends the name, else text/plain |
| ContentType.HtmlIsHtml | src/main.cpp:54-55 | a name ending in ".html" is typed text/html |
| ContentType.GzipByLastSuffix | src/main.cpp:53-65 | "/x.js.gz" is typed by its last suffix (x-gzip), and as octet-stream under `download` |
| StaticFiles.ResolveIndex | src/main.cpp:71 | a path ending in "/" gets "index.htm" appended, any other is kept; the result never ends in "/" |
| StaticFiles.FileRead | src/main.cpp:69-83 | nothing is served exactly when neither the resolved path nor path+".gz" is stored; the .gz object is served when present; the type is that of the resolved path before ".gz"; the bytes are the stored ones |
| StaticFiles.CompressedVariantPreferred | src/main.cpp:72-76 | for a path not ending in "/", with path+".gz" stored, the compressed bytes are served with the type of the uncompressed name |
| StaticFiles.CompressedStylesheetType | src/main.cpp:72-76 | "/style.css" with "/style.css.gz" stored is served from the .gz object as text/css |
| StaticFiles.DirectoryServesIndex | src/main.cpp:71-74 | a directory request is served exactly when its index.htm or index.htm.gz is stored, typed as index.htm |
| StaticFiles.ServeOr404 | src/main.cpp:304-306 | the reply is 404 FileNotFound exactly when nothing can be served, otherwise a stream of a stored object with its bytes and type |
| FileList.DisplayName | src/main.cpp:152 | the listed name is the stored path without its first character |
| FileList.EntryJsonParts | src/main.cpp:148-153 | every listed object is the fixed head typing it "file", then the display name, then the fixed tail, so the name can be read back from the object |
| FileList.ListingCoversDirectory | src/main.cpp:141-155 | with the store's iterator, every listed object is that of a stored path under the directory, and every stored path under the directory has its object in the listing |
| FileList.JoinCommasSnoc | src/main.cpp:147 | appending an entry to a non-empty listing adds a comma and then that entry |
| FileList.ListReply | src/main.cpp:136-158 | no `dir` argument gives 500 BAD ARGS; otherwise 200 text/json with a body bracketed by "[" and "]" |
| FileList.HandleFileList | src/main.cpp:136-159 | the loop's output is "[" + the entries' objects joined by commas + "]"; 500 BAD ARGS without `dir` |
| FileList.EmptyListing | src/main.cpp:144-157 | a directory with no stored file is listed as exactly "[]" |
| FileList.SingleFileListing | src/main.cpp:144-157 | a store holding only "/a.txt" lists "/" as a one-element array holding that file's object, whose name is "a.txt" |
| FileManager.FileDelete | src/main.cpp:105-116 | 200 exactly when there is an argument, it is not "/" and it is stored, whether or not the flash store manages the removal; when it does, exactly that path is removed; otherwise BAD ARGS, BAD PATH or 404 FileNotFound and the store is unchanged |
| FileManager.FailedRemoveStillDone | src/main.cpp:113-114 | a removal the flash store refuses is still answered 200 and the file stays; a successful one removes exactly that path |
| FileManager.FileCreate | src/main.cpp:118-134 | 200 exactly when there is an argument, it is not "/", it is not stored and the file opens, and then an empty file is added; otherwise BAD ARGS, BAD PATH, FILE EXISTS or CREATE FAILED and the store is unchanged |
| FileManager.DeleteRootFails | src/main.cpp:109-110 | deleting "/" answers BAD PATH and changes nothing, whatever the store |
| FileManager.DeleteTwiceNotFound | src/main.cpp:111-113 | after a successful removal, a second delete of the same path answers 404 and changes nothing |
| FileManager.CreateTwiceExists | src/main.cpp:125-126 | after a successful create, creating the same path answers FILE EXISTS and changes nothing |
| FileManager.CreateThenDelete | src/main.cpp:113-132 | creating a new file and then deleting it restores the store |
| FileManager.DeleteThenCreate | src/main.cpp:113-132 | deleting a file and creating it again leaves it empty and everything else unchanged |
| Upload.UploadPath | src/main.cpp:89-90 | the upload path always starts with "/"; a filename already starting with "/" is kept, any other gets "/" prefixed |
| Upload.Step | src/main.cpp:85-103 | only uri "/edit" acts; START truncates and opens the path, or closes the handle if the open fails; WRITE appends the chunk only while the handle is open; END closes; ABORTED does nothing |
| Upload.WritesAppendInOrder | src/main.cpp:94-97 | while the handle is open, successive chunks are appended in arrival order |
| Upload.WritesDroppedWhenClosed | src/main.cpp:96-97 | while no handle is open, every chunk is dropped |
| Upload.UploadStoresConcatenation | src/main.cpp:88-102 | START, the chunks, END leave the file holding the chunks concatenated and the handle closed; no other file changes |
| Upload.TwoChunkUpload | src/main.cpp:88-102 | START, WRITE A, WRITE B, END leaves the file holding A followed by B |
| Upload.FailedOpenDropsChunks | src/main.cpp:92-99 | when START cannot open the file, the chunks are lost and the store is unchanged |
| Upload.OtherUriIgnored | src/main.cpp:86 | notifications for a uri other than "/edit" change nothing |
| Upload.StartSupersedesStaleHandle | src/main.cpp:88-97 | after an aborted upload a new START replaces the stale handle and only the new file receives later chunks |
| Routes.Lookup | src/main.cpp:281-307 | the result is the handler of the first route matching method and uri exactly, or the fallback when no route matches |
| Routes.RoutesDistinct | src/main.cpp:281-327 | no two registered routes share method and uri |
| Routes.LookupIsExact | src/main.cpp:281-327 | a request reaches a registered handler exactly when its (method, uri) pair is one of the eight registered |
| Routes.Dispatch | src/main.cpp:281-341 | an unmatched request gets the fallback's serve-or-404 reply with the store unchanged; Dispatch itself changes the store only for PUT and DELETE on "/edit"; uploads change it through Upload.Step |
| Routes.EditorPageServed | src/main.cpp:284-286 | GET /edit serves "/edit.htm" and answers 404 exactly when neither "/edit.htm" nor "/edit.htm.gz" is stored |
| Routes.UnmatchedMissingIs404 | src/main.cpp:304-307 | an unregistered request for an object that is not stored answers 404 FileNotFound and leaves the store alone |
| Routes.WrongMethodFallsBack | src/main.cpp:281-307 | POST /list is not registered and goes to the fallback |
| Routes.ListRouteReply | src/main.cpp:136-159 | GET /list with a `dir` argument answers 200 text/json with the listing document of the entries, and the store is unchanged |
| Routes.ListRouteListsDir | src/main.cpp:136-159 | GET /list with a `dir` argument answers 200 with the listing of the iterator over the directory that argument names; every listed object is that of a stored path under it, every such path is listed, and the store is unchanged |
| Routes.CreateThenList | src/main.cpp:118-159 | on an empty store, PUT /edit of "/a.txt" succeeds and then GET /list?dir=/ answers 200 with the one-element array holding the object of "/a.txt" |
| Soil.Constrain | src/main.cpp:183-186 | the result lies in [lo, hi], equals x inside the window, and is the nearer bound outside it |
| Soil.TruncDiv | src/main.cpp:188-191 | the quotient is truncated toward zero: within one divisor of the dividend, on the side of zero |
| Soil.SoilPercent | src/main.cpp:183-191 | every calibrated reading lies in [0, 100]; raw <= 700 gives 100 and raw >= 1400 gives 0 |
| Soil.ExactForm | src/main.cpp:188-191 | inside the window the classic map equals 100 - (c - 700) / 7 |
| Soil.SoilPercentClosedForm | src/main.cpp:183-191 | the calibration equals 100 minus one percent per 7 raw units above the wet end of the clamped value |
| Soil.MidpointIsHalf | src/main.cpp:183-191 | raw 1050, the window's midpoint, gives exactly 50 |
| Soil.NearWetIsFull | src/main.cpp:183-191 | readings below 707 give 100, because the division truncates toward zero |
| Soil.SoilPercentNonIncreasing | src/main.cpp:183-191 | a higher raw reading never gives a higher percentage |
| Station.Station.constructor | src/main.cpp:32-37 | the store is the given flash, no upload handle is open and all four soil readings are 0 |
| Station.Station.HandleFileDelete | src/main.cpp:105-116 | reply and new store are those of FileDelete on the old store and the flash store's answer to the removal; the upload handle is untouched |
| Station.Station.HandleFileCreate | src/main.cpp:118-134 | reply and new store are those of FileCreate on the old store; the upload handle is untouched |
| Station.Station.HandleFileUpload | src/main.cpp:85-103 | the new store and handle are one Step from the old ones |
| Station.Station.ReadADC | src/main.cpp:168-197 | soil[i] becomes SoilPercent of the i-th raw sample, for each channel on its own, and lies in [0, 100] |
| Station.Station.HandleClient | src/main.cpp:281-307 | reply and new store are Dispatch of the old store; the upload handle is untouched |

## Left out

- Wi-Fi provisioning, mDNS, OTA callbacks, `Serial` logging and `loop()` are network, hardware and library plumbing. This includes `SimpleTimer` and the once-per-second scheduling of `readADC`.
- The ADS1015 reads are left out: `ReadADC` takes the four raw samples as parameters. They are unbounded integers rather than `int16_t`. The clamp comes first, so no overflow can arise in the arithmetic.
- SoilPercent: only the classic Arduino `map` formula is modelled, and its `raw >= Dry ==> r == 0` clause and MidpointIsHalf hold under that formula only. A rounding variant that adds half the input range (350) before the truncating division gives 1, not 0, at the dry end and 51, not 50, at the midpoint, and keeps 100 up to 710 instead of 706.
- `formatBytes` is only used for log output, and apart from its first branch it is floating-point formatting.
- The `/all` and `/data` documents are left out. They are built by ArduinoJson, which is not part of this model, and `/all` also reads heap and GPIO registers. Their replies are the placeholder `StatusJson`.
- `server.streamFile` byte streaming is left out. A served object is its stored bytes, and the reply code of a stream is implicit.
- SPIFFS internals are left out. Whether an open for writing succeeds is a parameter (`openOk`), and so is whether a removal succeeds (`removeOk`). A failed upload open is taken to leave the store unchanged.
- Upload.Step: a WRITE is taken to store the whole chunk. The firmware ignores how many bytes the flash store actually writes, so on a full flash the upload is truncated silently while POST /edit still answers 200. UploadStoresConcatenation and TwoChunkUpload hold only when every write succeeds.
- Directory iteration order is left out: `handleFileList` takes the paths the iterator yields. `DirListing` states the store's side: every stored path with the directory as prefix appears exactly once.
- Listed names are not JSON-escaped, in the firmware or in the model. A name containing `"` yields text that is not valid JSON.
- The upload notifications of a POST to `/edit` are separate `HandleFileUpload` calls. `HandleClient` only gives the final 200 reply. The server's multipart parsing that produces the notifications is not part of this model.
- Station.Station.HandleFileUpload: a WRITE goes to the stored file at the handle's path. If that file was removed while the handle was open, the chunk is dropped.
