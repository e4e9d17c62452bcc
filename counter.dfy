/** The `Counter` collection of models/Counter.js: one document per named
    sequence, used to hand out auto-increment ids. */
module CounterModel {

  /** A counter document: a unique, required `name` and its current `seq`,
      held in `value` because `seq` is a reserved word in Dafny. */
  datatype Counter = Counter(name: string, value: int)

  /** The only sequence the recipe routes use. */
  const RecipeCounter: string := "recetaId"

  /** A counter as the schema first creates it: `seq` takes its default, 0. */
  function Fresh(name: string): Counter {
    Counter(name, 0)
  }

  /** The collection, keyed by name. The `unique` index allows at most one
      counter per name, and `required` demands that the name be present. */
  ghost predicate WellFormed(t: map<string, Counter>) {
    forall n :: n in t ==> t[n].name == n && n != ""
  }

  /** The value a `$inc` on `name` starts from: the stored `seq`, or the
      default of a counter that does not exist yet. */
  function SeqOf(t: map<string, Counter>, name: string): int {
    if name in t then t[name].value else Fresh(name).value
  }

  /** `findOneAndUpdate({ name }, { $inc: { seq: 1 } }, { new: true, upsert: true })`:
      the counter named `name` is created with its default when absent, its `seq`
      goes up by one, and every other counter is left alone. */
  function IncrementUpsert(t: map<string, Counter>, name: string): (r: map<string, Counter>)
    requires WellFormed(t) && name != ""
    ensures WellFormed(r)
    ensures r.Keys == t.Keys + {name}
    ensures r[name] == Counter(name, SeqOf(t, name) + 1)
    ensures name !in t ==> r[name].value == 1
    ensures forall n :: n in t && n != name ==> r[n] == t[n]
    ensures forall n :: SeqOf(r, n) == SeqOf(t, n) + (if n == name then 1 else 0)
  {
    var c := if name in t then t[name] else Fresh(name);
    t[name := c.(value := c.value + 1)]
  }

  /** The ids `k` successive allocations on `name` return, and the table after them. */
  function AllocateMany(t: map<string, Counter>, name: string, k: nat): (seq<int>, map<string, Counter>)
    requires WellFormed(t) && name != ""
    decreases k
  {
    if k == 0 then ([], t)
    else
      var t1 := IncrementUpsert(t, name);
      var rest := AllocateMany(t1, name, k - 1);
      ([t1[name].value] + rest.0, rest.1)
  }

  /** Successive allocations return consecutive values, starting one above the
      stored `seq`; the counter ends `k` higher and no other counter moves. */
  lemma {:induction false} AllocationsAreConsecutive(t: map<string, Counter>, name: string, k: nat)
    requires WellFormed(t) && name != ""
    ensures var (ids, after) := AllocateMany(t, name, k);
      && |ids| == k
      && (forall i :: 0 <= i < k ==> ids[i] == SeqOf(t, name) + 1 + i)
      && WellFormed(after)
      && SeqOf(after, name) == SeqOf(t, name) + k
      && (forall n :: n != name ==> SeqOf(after, n) == SeqOf(t, n))
    decreases k
  {
    if k > 0 {
      var t1 := IncrementUpsert(t, name);
      AllocationsAreConsecutive(t1, name, k - 1);
    }
  }

  /** On a fresh database, `k` allocations return exactly 1, 2, ..., k: no id
      repeats and they strictly increase. */
  lemma AllocationsFromEmpty(name: string, k: nat)
    requires name != ""
    ensures var ids := AllocateMany(map[], name, k).0;
      && |ids| == k
      && (forall i :: 0 <= i < k ==> ids[i] == i + 1)
      && (forall i, j :: 0 <= i < j < k ==> ids[i] < ids[j])
  {
    AllocationsAreConsecutive(map[], name, k);
  }
}
