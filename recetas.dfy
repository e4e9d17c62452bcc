/** The six handlers of routes/recetas.js, run one at a time over the
    counter collection, the recipe collection and the upload directory. */
module Recetas {
  import opened Wrappers
  import opened CounterModel
  import opened RecetaModel

  /** The HTTP statuses the handlers answer with. */
  datatype Status = OK | BadRequest | NotFound | InternalError {
    function Code(): int {
      match this
      case OK => 200
      case BadRequest => 400
      case NotFound => 404
      case InternalError => 500
    }
  }

  /** The most files `upload.array('imagenes', 5)` lets through to a handler. */
  const MaxUploads: nat := 5

  /** The set of paths a list of image paths mentions. */
  function Paths(ps: seq<string>): set<string> {
    set p | p in ps
  }

  /** `if (fs.existsSync(p)) fs.unlinkSync(p)`: removes `p` when it is on
      disk and does nothing, rather than fail, when it is not. */
  function Unlink(disk: set<string>, p: string): set<string> {
    if p in disk then disk - {p} else disk
  }

  /** The disk after `paths.forEach(...)` with one best-effort unlink per
      path, taken in order. */
  function Released(disk: set<string>, paths: seq<string>): set<string>
    decreases |paths|
  {
    if paths == [] then disk else Released(Unlink(disk, paths[0]), paths[1..])
  }

  /** Releasing a list of images removes exactly the paths it names. */
  lemma {:induction false} ReleasedRemovesExactly(disk: set<string>, paths: seq<string>)
    ensures Released(disk, paths) == disk - Paths(paths)
    decreases |paths|
  {
    if paths != [] {
      ReleasedRemovesExactly(Unlink(disk, paths[0]), paths[1..]);
      assert Paths(paths) == {paths[0]} + Paths(paths[1..]);
    }
  }

  /** Releasing the same images twice is the same as releasing them once:
      the second pass finds every file already gone and skips it. */
  lemma ReleasedIdempotent(disk: set<string>, paths: seq<string>)
    ensures Released(Released(disk, paths), paths) == Released(disk, paths)
  {
    ReleasedRemovesExactly(disk, paths);
    ReleasedRemovesExactly(Released(disk, paths), paths);
  }

  /** The image paths held by the records whose ids are in `ids`. */
  ghost function ImagesOf(store: map<int, Receta>, ids: set<int>): set<string> {
    set k, p | k in ids && k in store && p in store[k].imagenes :: p
  }

  /** Every image path some stored record refers to. */
  ghost function AllImages(store: map<int, Receta>): set<string> {
    ImagesOf(store, store.Keys)
  }

  /** Adding one record to the ones processed adds exactly its images. */
  lemma ImagesOfAddOne(store: map<int, Receta>, ids: set<int>, k: int)
    requires k in store
    ensures ImagesOf(store, ids + {k}) == ImagesOf(store, ids) + Paths(store[k].imagenes)
  {
  }

  /** The files multer attached to a request: `None` when the request was
      not multipart, so that `req.files` is never set. */
  predicate HasUploads(files: Option<seq<string>>) {
    files.Some? && files.value != []
  }

  /** The in-place state behind the routes: the counter collection, the
      recipe collection and the set of files under `uploads/`. */
  class Api {
    var counters: map<string, Counter>
    var store: map<int, Receta>
    var disk: set<string>

    /** The allocator's value when this object was built, and every value it
        has handed out since, whether or not the record was then saved. */
    ghost var base: int
    ghost var issued: set<int>

    /** The current value of the recipe id counter (0 before its first use). */
    function CurrentSeq(): int
      reads this
    {
      SeqOf(counters, RecipeCounter)
    }

    /** Both collections satisfy their schema, and `issued` holds every id
        allocated since construction: exactly the values from `base` up. */
    ghost predicate Valid()
      reads this
    {
      && CounterModel.WellFormed(counters)
      && RecetaModel.WellFormed(store)
      && base <= CurrentSeq()
      && forall i :: i in issued <==> base < i <= CurrentSeq()
    }

    /** Every stored record got its id from the allocator. This holds from an
        empty collection on, and every handler keeps it. */
    ghost predicate Allocated()
      reads this
    {
      store.Keys <= issued
    }

    /** The handlers over an existing database and upload directory. */
    constructor (counters0: map<string, Counter>, store0: map<int, Receta>, disk0: set<string>)
      requires CounterModel.WellFormed(counters0) && RecetaModel.WellFormed(store0)
      ensures Valid()
      ensures counters == counters0 && store == store0 && disk == disk0
      ensures issued == {}
      ensures store0 == map[] ==> Allocated()
    {
      counters, store, disk := counters0, store0, disk0;
      base := SeqOf(counters0, RecipeCounter);
      issued := {};
    }

    /** The `forEach` over a record's images: each path that exists on disk
        is unlinked, each one already gone is skipped. */
    method ReleaseImages(paths: seq<string>)
      modifies this`disk
      ensures disk == Released(old(disk), paths)
      ensures disk == old(disk) - Paths(paths)
    {
      var i := 0;
      while i < |paths|
        invariant 0 <= i <= |paths|
        invariant Released(disk, paths[i..]) == Released(old(disk), paths)
      {
        if paths[i] in disk {
          disk := disk - {paths[i]};
        }
        assert paths[i..][1..] == paths[i + 1..];
        i := i + 1;
      }
      ReleasedRemovesExactly(old(disk), paths);
    }

    /** POST `/`: rejects a request without images; otherwise allocates the
        next id and saves a new record. The id is allocated before the save, so
        a failed save still consumes it. */
    method Create(
      titulo: Option<string>, autor: Option<string>,
      ingredientes: Option<seq<string>>, pasos: Option<seq<string>>,
      files: Option<seq<string>>) returns (status: Status, rec: Option<Receta>)
      requires Valid()
      requires files.Some? ==> |files.value| <= MaxUploads && Paths(files.value) <= disk
      modifies this
      ensures Valid()
      ensures disk == old(disk) && base == old(base)
      ensures status == BadRequest <==> !HasUploads(files)
      ensures !HasUploads(files) ==>
        counters == old(counters) && store == old(store) && issued == old(issued)
      ensures HasUploads(files) && status != OK ==> status == InternalError
      ensures HasUploads(files) ==>
        && counters == IncrementUpsert(old(counters), RecipeCounter)
        && CurrentSeq() == old(CurrentSeq()) + 1
        && issued == old(issued) + {CurrentSeq()}
        && CurrentSeq() !in old(issued)
      ensures status == OK <==>
        && HasUploads(files)
        && CurrentSeq() != 0
        && Present(titulo) && Present(autor)
        && CurrentSeq() !in old(store)
      ensures status == OK ==>
        && rec == Some(Receta(CurrentSeq(), titulo.value, autor.value,
                              OrDefault(ingredientes), OrDefault(pasos), files.value))
        && store == old(store)[CurrentSeq() := rec.value]
        && Paths(rec.value.imagenes) <= disk
      ensures status != OK ==> rec == None && store == old(store)
      ensures old(Allocated()) ==> Allocated()
      ensures old(Allocated()) && HasUploads(files) && old(CurrentSeq()) >= 0 ==>
        (status == OK <==> Present(titulo) && Present(autor))
    {
      if files.None? || |files.value| == 0 {
        return BadRequest, None;
      }
      var imagenes := files.value;
      counters := IncrementUpsert(counters, RecipeCounter);
      var id := counters[RecipeCounter].value;
      issued := issued + {id};
      if id == 0 {
        return InternalError, None;
      }
      var saved := Save(store, id, titulo, autor, ingredientes, pasos, imagenes);
      if saved.Failure? {
        return InternalError, None;
      }
      store := saved.value;
      return OK, Some(store[id]);
    }

    /** GET `/`: every stored record; nothing changes. */
    method List() returns (status: Status, recs: set<Receta>)
      requires Valid()
      ensures status == OK
      ensures forall r :: r in recs <==> r.id in store && store[r.id] == r
    {
      return OK, set k | k in store :: store[k];
    }

    /** GET `/:id`: the record with that id, or 404; nothing changes. */
    method GetById(id: int) returns (status: Status, rec: Option<Receta>)
      ensures status == OK || status == NotFound
      ensures status == OK <==> id in store
      ensures status == OK ==> rec == Some(store[id])
      ensures status == NotFound ==> rec == None
    {
      if id !in store {
        return NotFound, None;
      }
      return OK, Some(store[id]);
    }

    /** PUT `/:id`: replaces every field of the record with that id. When new
        files arrived, the old images are unlinked first and the new paths take
        their place; otherwise the old paths are kept. A request that is not
        multipart has no `req.files`, and reading its length fails with 500. */
    method Update(
      id: int, titulo: string, autor: string,
      ingredientes: seq<string>, pasos: seq<string>,
      files: Option<seq<string>>) returns (status: Status, rec: Option<Receta>)
      requires Valid()
      requires files.Some? ==> |files.value| <= MaxUploads && Paths(files.value) <= disk
      modifies this
      ensures Valid()
      ensures counters == old(counters) && base == old(base) && issued == old(issued)
      ensures status != BadRequest
      ensures status == NotFound <==> id !in old(store)
      ensures status == InternalError <==> id in old(store) && files.None?
      ensures status != OK ==> rec == None && store == old(store) && disk == old(disk)
      ensures status == OK ==>
        && id in old(store) && files.Some?
        && var imagenes := if files.value == [] then old(store)[id].imagenes else files.value;
          && rec == Some(Receta(id, titulo, autor, ingredientes, pasos, imagenes))
          && store == old(store)[id := rec.value]
          && disk == (if files.value == [] then old(disk) else old(disk) - Paths(old(store)[id].imagenes))
      ensures old(Allocated()) ==> Allocated()
    {
      if id !in store {
        return NotFound, None;
      }
      var receta := store[id];
      var imagenes := receta.imagenes;
      if files.None? {
        return InternalError, None;
      }
      if |files.value| > 0 {
        ReleaseImages(receta.imagenes);
        imagenes := files.value;
      }
      store := store[id := Receta(id, titulo, autor, ingredientes, pasos, imagenes)];
      return OK, Some(store[id]);
    }

    /** DELETE `/:id`: unlinks the record's images that exist, then removes
        the record. The counter is untouched, so the id is not handed out again. */
    method DeleteById(id: int) returns (status: Status)
      requires Valid()
      modifies this
      ensures Valid()
      ensures counters == old(counters) && base == old(base) && issued == old(issued)
      ensures status == OK || status == NotFound
      ensures status == NotFound <==> id !in old(store)
      ensures status == NotFound ==> store == old(store) && disk == old(disk)
      ensures status == OK ==>
        && id in old(store)
        && store == old(store) - {id}
        && disk == old(disk) - Paths(old(store)[id].imagenes)
      ensures old(Allocated()) ==> Allocated()
      ensures old(Allocated()) && status == OK ==> id in issued && id <= CurrentSeq()
    {
      if id !in store {
        return NotFound;
      }
      var receta := store[id];
      ReleaseImages(receta.imagenes);
      store := store - {id};
      return OK;
    }

    /** DELETE `/`: unlinks every existing image of every record, then empties
        the collection. The counter is not reset. */
    method DeleteAll() returns (status: Status)
      requires Valid()
      modifies this
      ensures Valid()
      ensures counters == old(counters) && base == old(base) && issued == old(issued)
      ensures status == OK
      ensures store == map[]
      ensures disk == old(disk) - AllImages(old(store))
      ensures Allocated()
    {
      var pending := store.Keys;
      ghost var done: set<int> := {};
      while pending != {}
        invariant done + pending == store.Keys && done !! pending
        invariant store == old(store) && counters == old(counters)
        invariant base == old(base) && issued == old(issued)
        invariant disk == old(disk) - ImagesOf(store, done)
        decreases pending
      {
        assert exists k :: k in pending by {
          if forall k :: k !in pending {
            assert false;
          }
        }
        var k :| k in pending;
        ImagesOfAddOne(store, done, k);
        ReleaseImages(store[k].imagenes);
        pending, done := pending - {k}, done + {k};
      }
      store := map[];
      return OK;
    }
  }

  /** A fresh deployment: create a recipe, read it back, delete it, create
      another. The record reads back with its lists in the order given, the
      deleted record's image is gone and its id answers 404, and the next
      create gets a new id rather than the deleted one. */
  method RoundTripScenario() returns (firstId: int, readBack: Option<Receta>, diskAfterDelete: set<string>,
                                     afterDelete: Status, secondId: int)
    ensures firstId == 1 && secondId == 2
    ensures readBack == Some(Receta(1, "Tortilla", "Ana", ["egg", "flour"], ["mix", "bake"], ["uploads/1-a.jpg"]))
    ensures "uploads/1-a.jpg" !in diskAfterDelete
    ensures afterDelete == NotFound && afterDelete.Code() == 404
  {
    var api := new Api(map[], map[], {"uploads/1-a.jpg", "uploads/2-b.jpg"});
    var status, created := api.Create(Some("Tortilla"), Some("Ana"), Some(["egg", "flour"]),
                                      Some(["mix", "bake"]), Some(["uploads/1-a.jpg"]));
    firstId := created.value.id;
    status, readBack := api.GetById(firstId);
    status := api.DeleteById(firstId);
    diskAfterDelete := api.disk;
    var gone;
    afterDelete, gone := api.GetById(firstId);
    status, created := api.Create(Some("Flan"), Some("Luis"), None, None, Some(["uploads/2-b.jpg"]));
    secondId := created.value.id;
  }
}
