/** The in-memory CRUD store shared by the order and product services: an
    array of records keyed by a numeric `Id`, modelled once, generically, as
    pure functions from the store before a call to the store after it and
    the call's reply. The artificial `delay` before each call is not part of
    the model; each call is one atomic step. */
module Repository {
  import opened Results
  import Lists

  /** The store after a call, and what the call returned or threw. */
  datatype Reply<T> = Reply(store: seq<T>, result: Result<T>)

  /** The record matches the requested id (`o.Id === id`). */
  function HasKey<T>(key: T -> int, id: int): T -> bool {
    (t: T) => key(t) == id
  }

  /** `i` is the position `find`/`findIndex` reports for `id`. */
  ghost predicate FirstMatch<T>(store: seq<T>, key: T -> int, id: int, i: int) {
    0 <= i < |store| && key(store[i]) == id &&
    forall j :: 0 <= j < i ==> key(store[j]) != id
  }

  ghost predicate Present<T>(store: seq<T>, key: T -> int, id: int) {
    exists i :: 0 <= i < |store| && key(store[i]) == id
  }

  // ---------------------------------------------------------------------
  // Id generation.
  //
  // As written, `Math.max(...store.map(r => r.Id)) + 1`: `Math.max()` of no
  // arguments is -Infinity, and -Infinity + 1 is -Infinity again.

  datatype ExtendedId = NegativeInfinity | Finite(n: int)

  /** `Math.max(...ids)`. */
  function MaxAsWritten(ids: seq<ExtendedId>): ExtendedId {
    if |ids| == 0 then NegativeInfinity
    else
      match (MaxAsWritten(ids[..|ids| - 1]), ids[|ids| - 1])
      case (NegativeInfinity, y) => y
      case (x, NegativeInfinity) => x
      case (Finite(a), Finite(b)) => Finite(if a < b then b else a)
  }

  /** `Math.max(...ids) + 1` as written. */
  function NextIdAsWritten(ids: seq<ExtendedId>): ExtendedId {
    match MaxAsWritten(ids)
    case NegativeInfinity => NegativeInfinity
    case Finite(m) => Finite(m + 1)
  }

  /** On an empty store the first created record gets Id -Infinity, and the
      record created after it gets -Infinity again: two records share an Id. */
  lemma EmptyStoreIdsCollide()
    ensures NextIdAsWritten([]) == NegativeInfinity
    ensures NextIdAsWritten([NextIdAsWritten([])]) == NextIdAsWritten([])
  {
  }

  /** The greatest key in a non-empty store. */
  function MaxKey<T>(store: seq<T>, key: T -> int): (m: int)
    requires |store| > 0
    ensures forall j :: 0 <= j < |store| ==> key(store[j]) <= m
    ensures exists j :: 0 <= j < |store| && key(store[j]) == m
  {
    if |store| == 1 then key(store[0])
    else
      var m := MaxKey(store[..|store| - 1], key);
      var last := key(store[|store| - 1]);
      if m < last then last else m
  }

  /** The id `create` assigns: one more than the greatest existing id, and 1
      on an empty store. */
  function NextId<T>(store: seq<T>, key: T -> int): (id: int)
    ensures forall j :: 0 <= j < |store| ==> key(store[j]) < id
    ensures |store| == 0 ==> id == 1
    ensures |store| > 0 ==> exists j :: 0 <= j < |store| && key(store[j]) == id - 1
  {
    if |store| == 0 then 1 else MaxKey(store, key) + 1
  }

  /** The correction changes only the empty case: on every non-empty store
      the id is the one the source computes. */
  lemma {:induction false} NextIdAgreesWhenNonEmpty<T>(store: seq<T>, key: T -> int)
    requires |store| > 0
    ensures NextIdAsWritten(seq(|store|, j requires 0 <= j < |store| => Finite(key(store[j]))))
         == Finite(NextId(store, key))
  {
    MaxAgreesWhenNonEmpty(store, key);
  }

  lemma {:induction false} MaxAgreesWhenNonEmpty<T>(store: seq<T>, key: T -> int)
    requires |store| > 0
    ensures MaxAsWritten(seq(|store|, j requires 0 <= j < |store| => Finite(key(store[j]))))
         == Finite(MaxKey(store, key))
    decreases |store|
  {
    var ids := seq(|store|, j requires 0 <= j < |store| => Finite(key(store[j])));
    if |store| > 1 {
      var front := store[..|store| - 1];
      MaxAgreesWhenNonEmpty(front, key);
      assert ids[..|ids| - 1] == seq(|front|, j requires 0 <= j < |front| => Finite(key(front[j])));
    }
  }

  // ---------------------------------------------------------------------
  // The five service calls.

  /** `getAll`: a copy of every record, in store order. */
  function GetAll<T>(store: seq<T>): (r: seq<T>)
    ensures |r| == |store|
    ensures forall i :: 0 <= i < |store| ==> r[i] == store[i]
  {
    store
  }

  /** `getById`: the first record with that id, or the not-found error. */
  function GetById<T>(store: seq<T>, key: T -> int, id: int, notFound: string): (r: Reply<T>)
    ensures r.store == store
    ensures r.result.Ok? <==> Present(store, key, id)
    ensures r.result.Ok? ==> exists i :: FirstMatch(store, key, id, i) && r.result.value == store[i]
    ensures r.result.Err? ==> r.result.message == notFound
  {
    match Lists.FindIndex(store, HasKey(key, id))
    case None => Reply(store, Err(notFound))
    case Some(i) =>
      assert FirstMatch(store, key, id, i);
      Reply(store, Ok(store[i]))
  }

  /** `create`: the payload is given the next id by `assign` (which may also
      stamp other fields) and appended; every earlier record is kept. */
  function Create<P, T>(store: seq<T>, key: T -> int, assign: (P, int) -> T, payload: P): (r: Reply<T>)
    ensures r.result.Ok?
    ensures r.store == store + [r.result.value]
    ensures r.result.value == assign(payload, NextId(store, key))
  {
    var record := assign(payload, NextId(store, key));
    Reply(store + [record], Ok(record))
  }

  /** `update`: the first record with that id is replaced, in place, by the
      merge of `data` over it; a missing id throws and changes nothing. */
  function Update<T, D>(store: seq<T>, key: T -> int, id: int, data: D, merge: (T, D) -> T,
                        notFound: string): (r: Reply<T>)
    ensures r.result.Ok? <==> Present(store, key, id)
    ensures r.result.Err? ==> r.store == store && r.result.message == notFound
    ensures r.result.Ok? ==>
              (exists i :: FirstMatch(store, key, id, i) &&
                 r.result.value == merge(store[i], data) && r.store == store[i := r.result.value])
  {
    match Lists.FindIndex(store, HasKey(key, id))
    case None => Reply(store, Err(notFound))
    case Some(i) =>
      var updated := merge(store[i], data);
      assert FirstMatch(store, key, id, i);
      Reply(store[i := updated], Ok(updated))
  }

  /** `delete`: the first record with that id is spliced out and returned;
      a missing id throws and changes nothing. */
  function Delete<T>(store: seq<T>, key: T -> int, id: int, notFound: string): (r: Reply<T>)
    ensures r.result.Ok? <==> Present(store, key, id)
    ensures r.result.Err? ==> r.store == store && r.result.message == notFound
    ensures r.result.Ok? ==> |r.store| == |store| - 1
    ensures r.result.Ok? ==> multiset(r.store) + multiset{r.result.value} == multiset(store)
    ensures r.result.Ok? ==>
              (exists i :: FirstMatch(store, key, id, i) &&
                 r.result.value == store[i] && r.store == store[..i] + store[i + 1..])
  {
    match Lists.FindIndex(store, HasKey(key, id))
    case None => Reply(store, Err(notFound))
    case Some(i) =>
      assert FirstMatch(store, key, id, i);
      assert store == store[..i] + [store[i]] + store[i + 1..];
      Reply(store[..i] + store[i + 1..], Ok(store[i]))
  }

  /** A created record can be read back by its new id, provided `assign`
      really stores the id it is given. */
  lemma CreateThenGetById<P, T>(store: seq<T>, key: T -> int, assign: (P, int) -> T, payload: P,
                                notFound: string)
    requires key(assign(payload, NextId(store, key))) == NextId(store, key)
    ensures var c := Create(store, key, assign, payload);
            GetById(c.store, key, NextId(store, key), notFound).result == c.result
  {
    var c := Create(store, key, assign, payload);
    var id := NextId(store, key);
    assert FirstMatch(c.store, key, id, |store|);
  }

  /** Deleting a record that was just created restores the store. */
  lemma CreateThenDelete<P, T>(store: seq<T>, key: T -> int, assign: (P, int) -> T, payload: P,
                               notFound: string)
    requires key(assign(payload, NextId(store, key))) == NextId(store, key)
    ensures var c := Create(store, key, assign, payload);
            Delete(c.store, key, NextId(store, key), notFound) == Reply(store, c.result)
  {
    var c := Create(store, key, assign, payload);
    var id := NextId(store, key);
    assert FirstMatch(c.store, key, id, |store|);
    assert c.store[..|store|] == store;
    assert c.store[|store| + 1..] == [];
  }
}
