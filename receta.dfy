/** The `Receta` collection of models/Receta.js. */
module RecetaModel {
  import opened Wrappers

  /** A recipe document: its application-level `id`, the required `titulo`
      and `autor`, and three ordered lists of strings. */
  datatype Receta = Receta(
    id: int,
    titulo: string,
    autor: string,
    ingredientes: seq<string>,
    pasos: seq<string>,
    imagenes: seq<string>)

  /** Why `save()` rejects a document. */
  datatype SaveError =
    | ValidationError  // a required path is missing
    | DuplicateKey     // the unique index on `id` already holds this id

  /** The collection, keyed by `id`: the unique index allows no two records
      with the same `id`, and every record carries one. */
  ghost predicate WellFormed(store: map<int, Receta>) {
    forall k :: k in store ==> store[k].id == k
  }

  /** The `required` validator on a String path: present and non-empty. */
  predicate Present(s: Option<string>) {
    s.Some? && s.value != ""
  }

  /** A `[String]` path left out of the document takes its default, `[]`. */
  function OrDefault(f: Option<seq<string>>): seq<string> {
    match f
    case Some(xs) => xs
    case None => []
  }

  /** `new Receta({ id, titulo, autor, ingredientes, pasos, imagenes }).save()`:
      the document gets its defaults, is validated, and is then inserted under
      the unique index on `id`. */
  function Save(
    store: map<int, Receta>, id: int,
    titulo: Option<string>, autor: Option<string>,
    ingredientes: Option<seq<string>>, pasos: Option<seq<string>>,
    imagenes: seq<string>): (r: Result<map<int, Receta>, SaveError>)
    ensures r == Failure(ValidationError) <==> !(Present(titulo) && Present(autor))
    ensures r == Failure(DuplicateKey) <==> Present(titulo) && Present(autor) && id in store
    ensures r.Success? ==>
      && r.value.Keys == store.Keys + {id}
      && id !in store
      && (forall k :: k in store ==> r.value[k] == store[k])
      && r.value[id].id == id
      && Some(r.value[id].titulo) == titulo && Some(r.value[id].autor) == autor
      && r.value[id].ingredientes == (if ingredientes.Some? then ingredientes.value else [])
      && r.value[id].pasos == (if pasos.Some? then pasos.value else [])
      && r.value[id].imagenes == imagenes
    ensures r.Success? && WellFormed(store) ==> WellFormed(r.value)
  {
    if !(Present(titulo) && Present(autor)) then Failure(ValidationError)
    else if id in store then Failure(DuplicateKey)
    else
      Success(store[id := Receta(id, titulo.value, autor.value,
                                 OrDefault(ingredientes), OrDefault(pasos), imagenes)])
  }
}
