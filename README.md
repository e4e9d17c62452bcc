# recetas-api in Dafny

A model of the recipe backend of `recetas-api`: the six Express handlers of
`routes/recetas.js` and the two Mongoose schemas they use, `Counter` and
`Receta`. MongoDB and the `uploads/` directory are replaced by three pieces of
state held in place by one object, `Recetas.Api`:

- `counters: map<string, Counter>`, the counter collection, keyed by `name`;
- `store: map<int, Receta>`, the recipe collection, keyed by the
  application-level `id`;
- `disk: set<string>`, the paths of the files that exist.

Each handler is a method that takes the request's fields and the ordered list
of uploaded file paths (`None` when the request was not multipart, so that
multer never set `req.files`), answers with a `Status` (200, 400, 404 or 500)
and the record where there is one, and updates the state. Each runs as one
sequential step.

Files:

- `wrappers.dfy`: `Option` and `Result`.
- `counter.dfy` (module `CounterModel`, for `models/Counter.js`): the counter
  document, the well-formedness of the collection (one counter per name, the
  name required), the `$inc` with upsert that allocates ids, and lemmas about
  successive allocations. The schema's `seq` field is called `value`, because
  `seq` is a reserved word in Dafny.
- `receta.dfy` (module `RecetaModel`, for `models/Receta.js`): the recipe
  document, the collection's unique `id` invariant, and `Save`, which applies
  the list defaults, runs the `required` validators and inserts under the
  unique index.
- `recetas.dfy` (module `Recetas`, for `routes/recetas.js`): the best-effort
  image release (`Unlink`, `Released`) with its lemmas, and the class `Api`
  with the six handlers, plus a client scenario.

The class keeps two ghost fields. `base` is the counter's value when the object
was built. `issued` is every value the allocator has handed out since then.
`Valid()` holds both schemas' invariants and `issued` == the values from `base`
(exclusive) to the current counter. `Allocated()` says every stored id came
from the allocator. It holds from an empty collection on, and every handler
preserves it. Under it, a created id is never one already issued, and a
deleted id stays at or below the counter, so it is never handed out again.

Behaviour of the code that the model keeps as written:

- The counter is incremented before the record is saved. A save that fails
  still uses up an id, so stored ids can have gaps. Only the allocator's
  values are consecutive (`CounterModel.AllocationsAreConsecutive`).
- Mongoose's `required` validator on a String rejects the empty string as well
  as a missing value. `RecetaModel.Present` models that.
- `findOneAndUpdate` runs no validators, so an update with an empty `titulo`
  is stored as given.
- When an update brings new files, every old path that exists is unlinked,
  including one that happens to equal a newly uploaded path. The model keeps
  that behaviour (`disk == old(disk) - Paths(old imagenes)`). File names carry
  a `Date.now()` prefix, so a clash needs the same millisecond and the same
  original name. The model does not assume names are unique.

## Model

| member | source | states |
|---|---|---|
| CounterModel.IncrementUpsert | routes/recetas.js:38-42 | the named counter is created with the default `seq` when absent, and its value rises by exactly one (to 1 on first use); every other counter is unchanged; the collection stays keyed by name with no empty name |
| CounterModel.AllocationsAreConsecutive | routes/recetas.js:38-42 | k successive allocations return old seq + 1, ..., old seq + k; the counter ends k higher and counters under other names do not move |
| CounterModel.AllocationsFromEmpty | models/Counter.js:7-10 | on an empty counter collection (default `seq` 0), k allocations return exactly 1..k, strictly increasing, so no id repeats |
| RecetaModel.Save | models/Receta.js:3-9 | save fails with a validation error iff `titulo` or `autor` is missing or empty, and with a duplicate key iff they are present and the id is already stored; on success exactly one record is added under that id with the given fields, the list fields defaulting to `[]`, `imagenes` as given and in order; other records are unchanged and ids stay unique |
| Recetas.ReleasedRemovesExactly | routes/recetas.js:141-145 | the `forEach` of existence-checked unlinks removes from disk exactly the listed paths that exist; missing paths are skipped and no other file is touched |
| Recetas.ReleasedIdempotent | routes/recetas.js:141-145 | releasing the same image list a second time changes nothing |
| Recetas.ImagesOfAddOne | routes/recetas.js:164-170 | visiting one more record in the nested `forEach` adds exactly that record's image paths to the ones released |
| Recetas.Api.ReleaseImages | routes/recetas.js:141-145 | the loop leaves the disk equal to the old disk minus the listed paths |
| Recetas.Api.Create | routes/recetas.js:23-67 | 400 iff no files arrived (`req.files` unset or empty), and then nothing changes; otherwise the counter advances by one even when the save fails; 200 iff that id is non-zero, `titulo` and `autor` are present and the id is free; then exactly one record is added with the new id, the given fields, list defaults and the uploaded paths in order, and nothing else changes; any other outcome is 500 with no record added; the disk is not touched, so the uploads stay on disk; the new id was never issued before; when every stored id was allocated and the counter is non-negative, the only failure is a missing field |
| Recetas.Api.List | routes/recetas.js:72-79 | 200, and a record is listed iff it is the stored record under its id |
| Recetas.Api.GetById | routes/recetas.js:84-92 | 200 with the stored record iff the id is stored, else 404 with none; nothing changes |
| Recetas.Api.Update | routes/recetas.js:97-129 | 404 with no effect iff the id is not stored; 500 with no effect iff the id is stored and the request was not multipart (`req.files.length` throws); otherwise `titulo`, `autor`, `ingredientes`, `pasos` are replaced wholesale and the id kept; with new files the old image paths are removed from disk and `imagenes` becomes exactly the new paths; with none, `imagenes` and the disk are unchanged; no other record and no counter changes |
| Recetas.Api.DeleteById | routes/recetas.js:134-154 | 404 with no effect iff the id is not stored; otherwise exactly that record is removed and its existing image files are unlinked; the counter is untouched, and an allocated id that was deleted stays at or below the counter, so it is never reissued |
| Recetas.Api.DeleteAll | routes/recetas.js:159-179 | 200; the collection is empty; the disk loses exactly the image paths of the records that were stored; the counter is not reset |
| Recetas.RoundTripScenario | routes/recetas.js:51-62 | on a fresh deployment the first create gets id 1 and reads back with its lists in the order given; after deleting it its image file is gone from disk and a read answers 404 (code 404), and the next create gets id 2 |

## Left out

- `server.js`: Express, CORS and body parsing, environment loading, the
  database connection, static serving of `/uploads` and `listen` are I/O wiring.
- The multer storage (`routes/recetas.js:10-18`): writing uploads and the
  `Date.now()` file names. Uploaded files are an input list of paths that
  `Create` and `Update` require to be on disk already, as multer guarantees.
- The 5-file upload cap of `upload.array('imagenes', 5)` is a precondition
  (`MaxUploads`). What happens above it is up to multer, whose code is not
  part of this model.
- Database and filesystem faults: a lost connection, or `unlinkSync` throwing
  midway through a loop. The catch-all 500 answers of the handlers are
  modelled only where the model itself fails: allocation yields 0, the
  save is rejected, or an update arrives without a multipart body
  (`req.files` unset).
- The `!counter` half of the allocator check: with `upsert` and `new` the
  update always returns a document. Only the `!counter.seq` (zero) half is
  modelled.
- Number precision: `seq` and `id` are unbounded `int`; the source stores
  them as JavaScript `Number`, exact only up to 2^53, and that limit is not
  modelled.
- Mongoose casting: `req.params.id` is a string cast to a number, and body
  fields arrive as strings or arrays. Ids are `int` and list fields
  `seq<string>`.
- Recetas.Api.Update: all four fields are required inputs. How Mongoose
  treats an `undefined` field in an update is not modelled.
- Recetas.Api.List: returns the records as a set, so the collection's
  natural order is not modelled.
- Recetas.Api.DeleteAll: visits records in an arbitrary order. The resulting
  disk does not depend on the order.
- Concurrency: `findOneAndUpdate`'s atomicity, and the gap between `findOne`
  and the later write in update and delete. Each handler is one sequential
  step.
- The `createdAt`/`updatedAt` timestamps, the `toJSON`/`toObject` virtuals,
  `console` logging, and the JSON message bodies. Handlers return the status
  and the record.
- Newline-split text fields and URL-mode images: other variants of the API,
  not in this route file.
