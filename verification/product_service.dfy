/** The product entity and the product service: the catalogue's CRUD calls
    over an in-memory array of products keyed by `Id`. */
module Products {
  import opened Results
  import Repository

  /** The product fields the storefront's logic reads. */
  datatype Product = Product(Id: int, name: string, description: string, category: string, price: real)

  /** The object handed to `update`: each present field overrides the stored one. */
  datatype ProductPatch = ProductPatch(
    Id: Option<int>, name: Option<string>, description: Option<string>,
    category: Option<string>, price: Option<real>)

  const NotFound := "Product not found"

  function KeyOf(p: Product): int { p.Id }

  /** `{ ...product, ...data }`. */
  function Merge(p: Product, data: ProductPatch): (r: Product)
    ensures data.Id.None? ==> r.Id == p.Id
    ensures data.Id.Some? ==> r.Id == data.Id.value
    ensures data.name.None? ==> r.name == p.name
    ensures data.name.Some? ==> r.name == data.name.value
    ensures data.description.None? ==> r.description == p.description
    ensures data.description.Some? ==> r.description == data.description.value
    ensures data.category.None? ==> r.category == p.category
    ensures data.category.Some? ==> r.category == data.category.value
    ensures data.price.None? ==> r.price == p.price
    ensures data.price.Some? ==> r.price == data.price.value
    ensures data == ProductPatch(None, None, None, None, None) ==> r == p
  {
    Product(data.Id.GetOr(p.Id), data.name.GetOr(p.name), data.description.GetOr(p.description),
            data.category.GetOr(p.category), data.price.GetOr(p.price))
  }

  /** `{ ...product, Id }`: the payload's own `Id`, if any, is overwritten. */
  function WithId(p: Product, id: int): Product { p.(Id := id) }

  function GetAll(store: seq<Product>): seq<Product> { Repository.GetAll(store) }

  /** `getById`: a copy of the first product with that id, or "Product not found". */
  function GetById(store: seq<Product>, id: int): (r: Repository.Reply<Product>)
    ensures r.store == store
    ensures r.result.Err? <==> forall i :: 0 <= i < |store| ==> store[i].Id != id
    ensures r.result.Err? ==> r.result.message == NotFound
    ensures r.result.Ok? ==>
              (exists i :: 0 <= i < |store| && store[i].Id == id &&
                 (forall j :: 0 <= j < i ==> store[j].Id != id) && r.result.value == store[i])
  {
    var r := Repository.GetById(store, KeyOf, id, NotFound);
    assert r.result.Ok? ==> exists i :: Repository.FirstMatch(store, KeyOf, id, i) && r.result.value == store[i];
    r
  }

  /** `create`: the product is stored under the next id (one more than the
      greatest), at the end of the array, its other fields as given. */
  function Create(store: seq<Product>, product: Product): (r: Repository.Reply<Product>)
    ensures r.result.Ok?
    ensures r.store == store + [r.result.value]
    ensures r.result.value.Id == Repository.NextId(store, KeyOf)
    ensures forall i :: 0 <= i < |store| ==> store[i].Id < r.result.value.Id
    ensures r.result.value == product.(Id := r.result.value.Id)
  {
    Repository.Create(store, KeyOf, WithId, product)
  }

  /** `update`: `data` is merged over the first product with that id, in
      place; a missing id throws "Product not found". */
  function Update(store: seq<Product>, id: int, data: ProductPatch): (r: Repository.Reply<Product>)
    ensures r.result.Err? <==> forall i :: 0 <= i < |store| ==> store[i].Id != id
    ensures r.result.Err? ==> r.store == store && r.result.message == NotFound
    ensures r.result.Ok? ==> |r.store| == |store|
    ensures r.result.Ok? ==>
              (exists i :: 0 <= i < |store| && store[i].Id == id &&
                 (forall j :: 0 <= j < i ==> store[j].Id != id) &&
                 r.store == store[i := Merge(store[i], data)] && r.result.value == r.store[i])
  {
    var r := Repository.Update(store, KeyOf, id, data, Merge, NotFound);
    assert r.result.Ok? ==>
      (exists i :: Repository.FirstMatch(store, KeyOf, id, i) &&
         r.result.value == Merge(store[i], data) && r.store == store[i := r.result.value]);
    r
  }

  /** `delete`: the first product with that id is spliced out, the others
      keeping their order, and returned; a missing id throws "Product not found". */
  function Delete(store: seq<Product>, id: int): (r: Repository.Reply<Product>)
    ensures r.result.Err? <==> forall i :: 0 <= i < |store| ==> store[i].Id != id
    ensures r.result.Err? ==> r.store == store && r.result.message == NotFound
    ensures r.result.Ok? ==> |r.store| == |store| - 1 && r.result.value.Id == id
    ensures r.result.Ok? ==> multiset(r.store) + multiset{r.result.value} == multiset(store)
    ensures r.result.Ok? ==>
              (exists i :: 0 <= i < |store| && store[i].Id == id &&
                 (forall j :: 0 <= j < i ==> store[j].Id != id) &&
                 r.result.value == store[i] && r.store == store[..i] + store[i + 1..])
  {
    var r := Repository.Delete(store, KeyOf, id, NotFound);
    assert r.result.Ok? ==>
      (exists i :: Repository.FirstMatch(store, KeyOf, id, i) &&
         r.result.value == store[i] && r.store == store[..i] + store[i + 1..]);
    r
  }
}
