/** The product store behind the HTTP handlers: one mutable `products`
    sequence and the five operations the routes call. */
module Server {
  import opened Decimal
  import opened Products

  /** Body of every delete answer. */
  const PRODUCT_DELETED := "Product deleted successfully"

  class Store {
    var products: seq<Product>

    /** Every stored record has an `id` field: create always writes one and
        a merge never removes a key. Its value need not be a string, and ids
        need not be distinct. */
    ghost predicate Valid()
      reads this
    {
      forall i :: 0 <= i < |products| ==> ID_KEY in products[i]
    }

    /** The store is empty when the process starts. */
    constructor ()
      ensures Valid() && products == []
    {
      products := [];
    }

    /** GET /products: the records as they are, in insertion order.
        Every listed record carries an `id` field. */
    method List() returns (r: seq<Product>)
      requires Valid()
      ensures r == products
      ensures forall i :: 0 <= i < |r| ==> ID_KEY in r[i]
    {
      r := products;
    }

    /** `products.findIndex(p => p.id === id)`. */
    method FindIndex(id: string) returns (k: int)
      ensures k == FirstMatch(products, id)
      ensures k == -1 <==> forall i :: 0 <= i < |products| ==> !HasId(products[i], id)
    {
      k := 0;
      while k < |products|
        invariant 0 <= k <= |products|
        invariant forall j :: 0 <= j < k ==> !HasId(products[j], id)
      {
        if HasId(products[k], id) {
          return;
        }
        k := k + 1;
      }
      k := -1;
    }

    /** GET /products/:id: the first record with that id, or not-found. */
    method Get(id: string) returns (r: Result<Product>)
      ensures r == Lookup(products, id)
      ensures r.Ok? <==> exists i :: 0 <= i < |products| && HasId(products[i], id)
    {
      var k := FindIndex(id);
      if k == -1 {
        r := NotFound;
      } else {
        r := Ok(products[k]);
      }
    }

    /** POST /products: append `{ id: String(length + 1), ...body }` and return it. */
    method Create(body: Fields) returns (p: Product)
      requires Valid()
      modifies this
      ensures Valid()
      ensures p == NewRecord(|old(products)|, body)
      ensures products == old(products) + [p]
      ensures products == Apply(old(products), Op.Create(body))
    {
      p := NewRecord(|products|, body);
      products := products + [p];
    }

    /** PUT /products/:id: merge the body into the first record with that id. */
    method Update(id: string, body: Fields) returns (r: Result<Product>)
      requires Valid()
      modifies this
      ensures Valid()
      ensures var k := FirstMatch(old(products), id);
              if k == -1 then r == NotFound && products == old(products)
              else r == Ok(Merge(old(products)[k], body)) && products == old(products)[k := r.value]
      ensures products == Apply(old(products), Op.Update(id, body))
    {
      var k := FindIndex(id);
      if k == -1 {
        r := NotFound;
        return;
      }
      products := products[k := Merge(products[k], body)];
      r := Ok(products[k]);
    }

    /** DELETE /products/:id: keep the records whose id differs; always succeeds. */
    method Delete(id: string) returns (message: string)
      requires Valid()
      modifies this
      ensures Valid()
      ensures products == Without(old(products), id)
      ensures products == Apply(old(products), Op.Delete(id))
      ensures message == PRODUCT_DELETED
    {
      var kept: seq<Product> := [];
      var i := 0;
      while i < |products|
        invariant products == old(products)
        invariant 0 <= i <= |products|
        invariant kept == Without(products[..i], id)
      {
        WithoutConcat(products[..i], [products[i]], id);
        assert products[..i + 1] == products[..i] + [products[i]];
        if !HasId(products[i], id) {
          kept := kept + [products[i]];
        }
        i := i + 1;
      }
      assert products[..i] == products;
      forall j | 0 <= j < |kept|
        ensures ID_KEY in kept[j]
      {
        assert kept[j] in kept;
      }
      products := kept;
      message := PRODUCT_DELETED;
    }
  }

  /** The record the test suite creates, with the id the empty store assigns. */
  function TestRecord(name: Value, price: Value): Product {
    map[ID_KEY := Str("1"), "name" := name, "price" := price]
  }

  lemma CreateTestRecord(name: Value, price: Value)
    ensures NewRecord(0, map["name" := name, "price" := price]) == TestRecord(name, price)
  {
    assert DecimalString(1) == "1";
    var created := NewRecord(0, map["name" := name, "price" := price]);
    assert created.Keys == TestRecord(name, price).Keys;
  }

  lemma UpdateTestRecord(name: Value, price: Value, newName: Value, newPrice: Value)
    ensures Merge(TestRecord(name, price), map["name" := newName, "price" := newPrice])
         == TestRecord(newName, newPrice)
  {
    var merged := Merge(TestRecord(name, price), map["name" := newName, "price" := newPrice]);
    assert merged.Keys == TestRecord(newName, newPrice).Keys;
  }

  /** The walk through the endpoints that the server's own test suite makes
      (create, list, get, update, delete), with two steps of its own added:
      a get of a missing id, and a get after the delete. */
  method EndpointWalkthrough(name: Value, price: Value, newName: Value, newPrice: Value)
  {
    var store := new Store();
    CreateTestRecord(name, price);
    var created := store.Create(map["name" := name, "price" := price]);
    assert created == TestRecord(name, price);

    var all := store.List();
    assert all == [created];

    var got := store.Get("1");
    assert HasId(created, "1");
    assert got == Ok(created);

    var missing := store.Get("99");
    assert !HasId(created, "99");
    assert missing == NotFound;

    assert FirstMatch([created], "1") == 0;
    UpdateTestRecord(name, price, newName, newPrice);
    var updated := store.Update("1", map["name" := newName, "price" := newPrice]);
    assert updated == Ok(TestRecord(newName, newPrice));

    var message := store.Delete("1");
    assert message == PRODUCT_DELETED;
    var gone := store.Get("1");
    assert gone == NotFound;
  }
}
