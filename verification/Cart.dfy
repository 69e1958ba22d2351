/**
 The client-side cart: browser storage holds the truth, and a cached snapshot gives readers one object
 for as long as the stored bytes stay the same. Other tabs may write the storage at any time.
 */
module Cart {
  import opened Common

  // The price is counted in cents. It is shown to the user and never computed with.
  datatype Snapshot = Snapshot(name: string, price: int, images: seq<string>, stockQuantity: int)

  datatype CartItem = CartItem(productId: string, quantity: int, snapshot: Snapshot)

  datatype CartData = CartData(version: int, items: seq<CartItem>, updatedAt: string)

  // JSON, as the module uses it: a parse that may fail or find no item list, and a printer.
  datatype Codec = Codec(parse: string -> Option<CartData>, stringify: CartData -> string)

  // Parsing undoes printing, and a printed cart is not the empty string.
  ghost predicate Lawful(codec: Codec) {
    forall d :: codec.parse(codec.stringify(d)) == Some(d) && codec.stringify(d) != ""
  }

  function Empty(now: string): CartData {
    CartData(1, [], now)
  }

  // read(): anything but a version-one cart counts as empty.
  function Read(codec: Codec, storage: Option<string>, now: string): (d: CartData)
    ensures d.version == 1
  {
    if storage.None? || storage.value == "" then Empty(now)
    else
      match codec.parse(storage.value)
      case None => Empty(now)
      case Some(d) => if d.version != 1 then Empty(now) else d
  }

  // ------------------------------------------------------------------ item lists

  function FindIndex(items: seq<CartItem>, id: string): (k: nat)
    ensures k <= |items|
    ensures forall i :: 0 <= i < k ==> items[i].productId != id
    ensures k < |items| ==> items[k].productId == id
  {
    if items == [] || items[0].productId == id then 0 else 1 + FindIndex(items[1..], id)
  }

  function Without(items: seq<CartItem>, id: string): seq<CartItem> {
    if items == [] then []
    else
      var last := items[|items| - 1];
      Without(items[..|items| - 1], id) + if last.productId != id then [last] else []
  }

  function Added(items: seq<CartItem>, id: string, snapshot: Snapshot, quantity: int): seq<CartItem> {
    var k := FindIndex(items, id);
    if k < |items| then items[k := CartItem(items[k].productId, items[k].quantity + quantity, snapshot)]
    else items + [CartItem(id, quantity, snapshot)]
  }

  function WithQuantity(items: seq<CartItem>, id: string, quantity: int): seq<CartItem> {
    if quantity <= 0 then Without(items, id)
    else
      var k := FindIndex(items, id);
      if k < |items| then items[k := items[k].(quantity := quantity)] else items
  }

  function ItemCount(items: seq<CartItem>): int {
    if items == [] then 0 else ItemCount(items[..|items| - 1]) + items[|items| - 1].quantity
  }

  // Units that the list holds of one product.
  function UnitsOf(items: seq<CartItem>, id: string): int {
    if items == [] then 0
    else
      var last := items[|items| - 1];
      UnitsOf(items[..|items| - 1], id) + if last.productId == id then last.quantity else 0
  }

  ghost predicate DistinctProducts(items: seq<CartItem>) {
    forall i, j :: 0 <= i < j < |items| ==> items[i].productId != items[j].productId
  }

  lemma {:induction false} UnitsOfUpdate(items: seq<CartItem>, k: nat, x: CartItem, id: string)
    requires k < |items| && x.productId == items[k].productId
    ensures ItemCount(items[k := x]) == ItemCount(items) - items[k].quantity + x.quantity
    ensures UnitsOf(items[k := x], id)
            == UnitsOf(items, id) + if x.productId == id then x.quantity - items[k].quantity else 0
  {
    var n := |items| - 1;
    if k < n {
      UnitsOfUpdate(items[..n], k, x, id);
      assert items[k := x][..n] == items[..n][k := x];
    } else {
      assert items[k := x][..n] == items[..n];
    }
  }

  lemma AddedShape(items: seq<CartItem>, id: string, snapshot: Snapshot, quantity: int)
    ensures var after := Added(items, id, snapshot, quantity); var k := FindIndex(items, id);
            && k < |after| && after[k].productId == id && after[k].snapshot == snapshot
            && |after| == (if k < |items| then |items| else |items| + 1)
            && forall i :: 0 <= i < |items| && i != k ==> after[i] == items[i]
  {
  }

  lemma AddedDistinct(items: seq<CartItem>, id: string, snapshot: Snapshot, quantity: int)
    requires DistinctProducts(items)
    ensures DistinctProducts(Added(items, id, snapshot, quantity))
  {
    AddedShape(items, id, snapshot, quantity);
  }

  lemma AddedUnits(items: seq<CartItem>, id: string, snapshot: Snapshot, quantity: int, other: string)
    ensures var after := Added(items, id, snapshot, quantity);
            && ItemCount(after) == ItemCount(items) + quantity
            && UnitsOf(after, other) == UnitsOf(items, other) + if other == id then quantity else 0
  {
    var k := FindIndex(items, id);
    if k < |items| {
      UnitsOfUpdate(items, k, CartItem(items[k].productId, items[k].quantity + quantity, snapshot), other);
    } else {
      assert (items + [CartItem(id, quantity, snapshot)])[..|items|] == items;
    }
  }

  // Adding raises the count of units by the amount, all of it on the product added, whose snapshot is
  // replaced, and keeps the products of the list distinct.
  lemma AddingExact(items: seq<CartItem>, id: string, snapshot: Snapshot, quantity: int, other: string)
    ensures var after := Added(items, id, snapshot, quantity); var k := FindIndex(items, id);
            && ItemCount(after) == ItemCount(items) + quantity
            && UnitsOf(after, other) == UnitsOf(items, other) + (if other == id then quantity else 0)
            && (DistinctProducts(items) ==> DistinctProducts(after))
            && k < |after| && after[k].productId == id && after[k].snapshot == snapshot
  {
    AddedUnits(items, id, snapshot, quantity, other);
    AddedShape(items, id, snapshot, quantity);
    if DistinctProducts(items) {
      AddedDistinct(items, id, snapshot, quantity);
    }
  }

  lemma {:induction false} WithoutUnits(items: seq<CartItem>, id: string, other: string)
    ensures ItemCount(Without(items, id)) == ItemCount(items) - UnitsOf(items, id)
    ensures UnitsOf(Without(items, id), other) == if other == id then 0 else UnitsOf(items, other)
  {
    if items != [] {
      var init, last := items[..|items| - 1], items[|items| - 1];
      WithoutUnits(init, id, other);
      if last.productId != id {
        assert (Without(init, id) + [last])[..|Without(init, id)|] == Without(init, id);
      } else {
        assert Without(items, id) == Without(init, id);
      }
    }
  }

  lemma {:induction false} WithoutMembers(items: seq<CartItem>, id: string)
    ensures forall x :: x in Without(items, id) <==> x in items && x.productId != id
  {
    if items != [] {
      WithoutMembers(items[..|items| - 1], id);
      assert items == items[..|items| - 1] + [items[|items| - 1]];
    }
  }

  lemma {:induction false} WithoutDistinct(items: seq<CartItem>, id: string)
    requires DistinctProducts(items)
    ensures DistinctProducts(Without(items, id))
  {
    if items != [] {
      var init, last := items[..|items| - 1], items[|items| - 1];
      WithoutDistinct(init, id);
      WithoutMembers(init, id);
      forall i | 0 <= i < |Without(init, id)| ensures Without(init, id)[i].productId != last.productId {
        assert Without(init, id)[i] in init;
        var j :| 0 <= j < |init| && init[j] == Without(init, id)[i];
        assert items[j].productId != items[|items| - 1].productId;
      }
    }
  }

  // Removing takes out every unit of the product and nothing else.
  lemma RemovingExact(items: seq<CartItem>, id: string, other: string)
    ensures var after := Without(items, id);
            && ItemCount(after) == ItemCount(items) - UnitsOf(items, id)
            && UnitsOf(after, other) == (if other == id then 0 else UnitsOf(items, other))
            && (forall x :: x in after <==> x in items && x.productId != id)
            && (DistinctProducts(items) ==> DistinctProducts(after))
  {
    WithoutUnits(items, id, other);
    WithoutMembers(items, id);
    if DistinctProducts(items) {
      WithoutDistinct(items, id);
    }
  }

  lemma {:induction false} UnitsOfDistinct(items: seq<CartItem>, k: nat)
    requires DistinctProducts(items) && k < |items|
    ensures UnitsOf(items, items[k].productId) == items[k].quantity
  {
    var init, id := items[..|items| - 1], items[k].productId;
    if k < |items| - 1 {
      UnitsOfDistinct(init, k);
    } else {
      UnitsOfAbsent(init, id);
    }
  }

  lemma {:induction false} UnitsOfAbsent(items: seq<CartItem>, id: string)
    requires forall i :: 0 <= i < |items| ==> items[i].productId != id
    ensures UnitsOf(items, id) == 0
  {
    if items != [] {
      UnitsOfAbsent(items[..|items| - 1], id);
    }
  }

  // Setting a quantity leaves the product with exactly that many units if it was in the list and the
  // amount is positive, and with none if it is not; other products keep theirs.
  lemma SettingExact(items: seq<CartItem>, id: string, quantity: int, other: string)
    requires DistinctProducts(items)
    ensures var after := WithQuantity(items, id, quantity);
            && DistinctProducts(after)
            && UnitsOf(after, other) == (if other != id then UnitsOf(items, other)
                                         else if quantity <= 0 || FindIndex(items, id) == |items| then 0 else quantity)
            && ItemCount(after) == ItemCount(items) - UnitsOf(items, id) + UnitsOf(after, id)
  {
    var k := FindIndex(items, id);
    if quantity <= 0 {
      RemovingExact(items, id, other);
      RemovingExact(items, id, id);
    } else if k < |items| {
      UnitsOfDistinct(items, k);
      UnitsOfUpdate(items, k, items[k].(quantity := quantity), other);
      UnitsOfUpdate(items, k, items[k].(quantity := quantity), id);
    } else {
      UnitsOfAbsent(items, id);
    }
  }

  // ------------------------------------------------------------------ one tab as a state machine

  datatype Tab = Tab(storage: Option<string>, cachedRaw: Option<string>, cached: CartData)

  datatype Op =
    | Get
    | Add(id: string, snapshot: Snapshot, quantity: int)
    | SetQuantity(id: string, quantity: int)
    | Remove(id: string)
    | Clear
    | ForeignWrite(raw: Option<string>)

  function Raw(storage: Option<string>): string {
    match storage
    case None => ""
    case Some(raw) => raw
  }

  function Looked(codec: Codec, t: Tab, now: string): Tab {
    if t.cachedRaw == Some(Raw(t.storage)) then t
    else t.(cachedRaw := Some(Raw(t.storage)), cached := Read(codec, t.storage, now))
  }

  function Written(codec: Codec, t: Tab, items: seq<CartItem>, now: string): Tab {
    var d := CartData(1, items, now);
    Tab(Some(codec.stringify(d)), Some(codec.stringify(d)), d)
  }

  function Step(codec: Codec, t: Tab, op: Op, now: string): Tab {
    match op
    case Get => Looked(codec, t, now)
    case Add(id, snapshot, q) => Written(codec, t, Added(Read(codec, t.storage, now).items, id, snapshot, q), now)
    case SetQuantity(id, q) => Written(codec, t, WithQuantity(Read(codec, t.storage, now).items, id, q), now)
    case Remove(id) => Written(codec, t, Without(Read(codec, t.storage, now).items, id), now)
    case Clear => Written(codec, t, [], now)
    case ForeignWrite(raw) => t.(storage := raw)
  }

  function Exec(codec: Codec, t: Tab, ops: seq<(Op, string)>): Tab {
    if ops == [] then t
    else Step(codec, Exec(codec, t, ops[..|ops| - 1]), ops[|ops| - 1].0, ops[|ops| - 1].1)
  }

  // A cached snapshot agrees with a fresh parse of the bytes it was taken from.
  ghost predicate CacheAgrees(codec: Codec, t: Tab) {
    && t.cached.version == 1
    && (t.cachedRaw.Some? ==> forall now :: t.cached.items == Read(codec, t.cachedRaw, now).items)
  }

  lemma ReadOfRaw(codec: Codec, storage: Option<string>, now: string)
    ensures Read(codec, Some(Raw(storage)), now) == Read(codec, storage, now)
  {
  }

  lemma StepKeepsCache(codec: Codec, t: Tab, op: Op, now: string)
    requires Lawful(codec) && CacheAgrees(codec, t)
    ensures CacheAgrees(codec, Step(codec, t, op, now))
  {
    var after := Step(codec, t, op, now);
    ItemsIgnoreClock(codec, after.cachedRaw);
    ReadOfRaw(codec, t.storage, now);
  }

  lemma ItemsIgnoreClock(codec: Codec, storage: Option<string>)
    ensures forall a, b :: Read(codec, storage, a).items == Read(codec, storage, b).items
  {
  }

  // Over every interleaving of local operations and writes by other tabs, what get() shows is what a
  // fresh parse of the storage gives, apart from the time stamp.
  lemma {:induction false} ViewIsFresh(codec: Codec, t: Tab, ops: seq<(Op, string)>, now: string)
    requires Lawful(codec) && CacheAgrees(codec, t)
    ensures CacheAgrees(codec, Exec(codec, t, ops))
    ensures var end := Exec(codec, t, ops);
            Step(codec, end, Get, now).cached.items == Read(codec, end.storage, now).items
  {
    if ops != [] {
      ViewIsFresh(codec, t, ops[..|ops| - 1], now);
      StepKeepsCache(codec, Exec(codec, t, ops[..|ops| - 1]), ops[|ops| - 1].0, ops[|ops| - 1].1);
    }
    var end := Exec(codec, t, ops);
    ReadOfRaw(codec, end.storage, now);
  }

  // ------------------------------------------------------------------ what each operation stores

  // What counts as a stored cart, and what as empty.
  lemma ReadExact(codec: Codec, storage: Option<string>, now: string)
    ensures var d := Read(codec, storage, now);
            var valid := storage.Some? && storage.value != "" && codec.parse(storage.value).Some?
                         && codec.parse(storage.value).value.version == 1;
            if valid then Some(d) == codec.parse(storage.value) else d == CartData(1, [], now)
  {
  }

  // The items that a fresh parse finds in a storage.
  function Stored(codec: Codec, t: Tab): seq<CartItem> {
    Read(codec, t.storage, "").items
  }

  lemma WrittenIsStored(codec: Codec, t: Tab, items: seq<CartItem>, now: string)
    requires Lawful(codec)
    ensures Stored(codec, Written(codec, t, items, now)) == items
    ensures Written(codec, t, items, now).cached == CartData(1, items, now)
  {
    assert codec.parse(codec.stringify(CartData(1, items, now))) == Some(CartData(1, items, now));
  }

  lemma StoredAtAnyTime(codec: Codec, t: Tab, now: string)
    ensures Read(codec, t.storage, now).items == Stored(codec, t)
  {
  }

  // Removing a product leaves none of it in the storage and every other item as it was.
  lemma RemoveStores(codec: Codec, t: Tab, id: string, now: string, other: string)
    requires Lawful(codec)
    ensures var before, after := Stored(codec, t), Stored(codec, Step(codec, t, Remove(id), now));
            && (forall x :: x in after <==> x in before && x.productId != id)
            && UnitsOf(after, other) == (if other == id then 0 else UnitsOf(before, other))
            && (DistinctProducts(before) ==> DistinctProducts(after))
  {
    StoredAtAnyTime(codec, t, now);
    WrittenIsStored(codec, t, Without(Stored(codec, t), id), now);
    RemovingExact(Stored(codec, t), id, other);
  }

  // Adding raises the stored units of the product by the amount, under its new snapshot, and leaves every
  // other item as it was.
  lemma AddStores(codec: Codec, t: Tab, id: string, snapshot: Snapshot, quantity: int, now: string, other: string)
    requires Lawful(codec)
    ensures var before, after := Stored(codec, t), Stored(codec, Step(codec, t, Add(id, snapshot, quantity), now));
            && UnitsOf(after, other) == UnitsOf(before, other) + (if other == id then quantity else 0)
            && (exists x :: x in after && x.productId == id && x.snapshot == snapshot)
            && (forall x: CartItem :: x.productId != id ==> (x in after <==> x in before))
            && (DistinctProducts(before) ==> DistinctProducts(after))
  {
    var before := Stored(codec, t);
    var after := Added(before, id, snapshot, quantity);
    StoredAtAnyTime(codec, t, now);
    WrittenIsStored(codec, t, after, now);
    AddingExact(before, id, snapshot, quantity, other);
    OthersAfterAdding(before, id, snapshot, quantity);
    assert after[FindIndex(before, id)] in after;
  }

  lemma OthersAfterAdding(items: seq<CartItem>, id: string, snapshot: Snapshot, quantity: int)
    ensures forall x: CartItem :: x.productId != id ==> (x in Added(items, id, snapshot, quantity) <==> x in items)
  {
    var k, after := FindIndex(items, id), Added(items, id, snapshot, quantity);
    AddedShape(items, id, snapshot, quantity);
    forall x: CartItem | x.productId != id && x in items ensures x in after {
      var i :| 0 <= i < |items| && items[i] == x;
      assert after[i] == x;
    }
    forall x: CartItem | x.productId != id && x in after ensures x in items {
      var i :| 0 <= i < |after| && after[i] == x;
      assert i != k;
      assert items[i] == x;
    }
  }

  // Setting stores exactly that quantity, or drops the product if it is not positive; an absent product
  // stays absent, snapshots are kept and every other item is as it was.
  lemma SetStores(codec: Codec, t: Tab, id: string, quantity: int, now: string, other: string)
    requires Lawful(codec) && DistinctProducts(Stored(codec, t))
    ensures var before, after := Stored(codec, t), Stored(codec, Step(codec, t, SetQuantity(id, quantity), now));
            && DistinctProducts(after)
            && (forall x: CartItem :: x.productId != id ==> (x in after <==> x in before))
            && (forall x :: x in after && x.productId == id ==>
                  quantity > 0 && x.quantity == quantity && exists y :: y in before && y == x.(quantity := y.quantity))
            && (quantity > 0 && (exists x :: x in before && x.productId == id) ==>
                  exists x :: x in after && x.productId == id)
            && UnitsOf(after, other) == (if other != id then UnitsOf(before, other)
                                         else if quantity > 0 && (exists x :: x in before && x.productId == id)
                                         then quantity else 0)
  {
    var before := Stored(codec, t);
    StoredAtAnyTime(codec, t, now);
    WrittenIsStored(codec, t, WithQuantity(before, id, quantity), now);
    SettingExact(before, id, quantity, other);
    FoundIffPresent(before, id);
    if quantity <= 0 {
      RemovingExact(before, id, other);
    } else {
      SettingRows(before, id, quantity);
    }
  }

  lemma FoundIffPresent(items: seq<CartItem>, id: string)
    ensures FindIndex(items, id) < |items| <==> exists x :: x in items && x.productId == id
  {
    if FindIndex(items, id) < |items| {
      assert items[FindIndex(items, id)] in items;
    }
  }

  lemma SettingRows(items: seq<CartItem>, id: string, quantity: int)
    requires DistinctProducts(items) && quantity > 0
    ensures var after := WithQuantity(items, id, quantity);
            && |after| == |items|
            && (forall x: CartItem :: x.productId != id ==> (x in after <==> x in items))
            && (forall x :: x in after && x.productId == id ==>
                  x.quantity == quantity && exists y :: y in items && y == x.(quantity := y.quantity))
            && ((exists x :: x in items && x.productId == id) ==> exists x :: x in after && x.productId == id)
  {
    var k, after := FindIndex(items, id), WithQuantity(items, id, quantity);
    FoundIffPresent(items, id);
    if k < |items| {
      assert after[k] in after && items[k] in items;
      forall i | 0 <= i < |items| && i != k ensures after[i] == items[i] && items[i].productId != id {
        if i < k {
          assert items[i].productId != id;
        } else {
          assert items[k].productId != items[i].productId;
        }
      }
      OtherItemsKept(items, after, k, id);
    }
  }

  lemma OtherItemsKept(items: seq<CartItem>, after: seq<CartItem>, k: nat, id: string)
    requires k < |items| == |after| && items[k].productId == id && after[k].productId == id
    requires forall i :: 0 <= i < |items| && i != k ==> after[i] == items[i] && items[i].productId != id
    ensures forall x: CartItem :: x.productId != id ==> (x in after <==> x in items)
    ensures forall x :: x in after && x.productId == id ==> x == after[k]
  {
    forall x: CartItem | x.productId != id && x in items ensures x in after {
      var i :| 0 <= i < |items| && items[i] == x;
      assert after[i] == x;
    }
    forall x | x in after ensures x.productId != id ==> x in items {
      var i :| 0 <= i < |after| && after[i] == x;
      if i != k {
        assert items[i] == x;
      }
    }
  }

  // Clearing stores an empty list; looking stores nothing, and another tab's write is all that is stored.
  lemma OtherOperationsStore(codec: Codec, t: Tab, raw: Option<string>, now: string)
    requires Lawful(codec)
    ensures Stored(codec, Step(codec, t, Clear, now)) == []
    ensures Step(codec, t, Get, now).storage == t.storage
    ensures Step(codec, t, ForeignWrite(raw), now) == t.(storage := raw)
  {
    WrittenIsStored(codec, t, [], now);
  }

  // The count is the sum of the quantities, item by item.
  lemma {:induction false} CountIsSum(a: seq<CartItem>, b: seq<CartItem>)
    ensures ItemCount(a + b) == ItemCount(a) + ItemCount(b)
    ensures |b| == 1 ==> ItemCount(b) == b[0].quantity
  {
    if b == [] {
      assert a + b == a;
    } else {
      var init, last := b[..|b| - 1], b[|b| - 1];
      CountIsSum(a, init);
      assert (a + b)[..|a + b| - 1] == a + init;
      if |b| == 1 {
        assert init == [];
      }
    }
  }

  // ------------------------------------------------------------------ the module's own code

  // A cart object as handed to readers.
  class ClientCart {
    var version: int
    var items: seq<CartItem>
    var updatedAt: string

    constructor (d: CartData)
      ensures Data() == d
    {
      version, items, updatedAt := d.version, d.items, d.updatedAt;
    }

    function Data(): CartData
      reads this
    {
      CartData(version, items, updatedAt)
    }
  }

  // The methods modify the store only, never a cart object that existed before the call: no object
  // handed out earlier is changed by a later operation.
  class CartStore {
    const codec: Codec
    var storage: Option<string>
    var cachedRaw: Option<string>
    var cachedSnapshot: ClientCart

    constructor (codec: Codec, storage: Option<string>, now: string)
      ensures this.codec == codec && View() == Tab(storage, None, Empty(now)) && fresh(cachedSnapshot)
    {
      this.codec, this.storage, cachedRaw := codec, storage, None;
      cachedSnapshot := new ClientCart(Empty(now));
    }

    function View(): Tab
      reads this, cachedSnapshot
    {
      Tab(storage, cachedRaw, cachedSnapshot.Data())
    }

    method ReadCart(now: string) returns (cart: ClientCart)
      ensures fresh(cart) && cart.Data() == Read(codec, storage, now)
    {
      if storage.None? || storage.value == "" {
        cart := new ClientCart(Empty(now));
        return;
      }
      var parsed := codec.parse(storage.value);
      if parsed.None? || parsed.value.version != 1 {
        cart := new ClientCart(Empty(now));
        return;
      }
      cart := new ClientCart(parsed.value);
    }

    method Write(cart: ClientCart, now: string)
      modifies this, cart`updatedAt
      ensures storage == cachedRaw == Some(codec.stringify(cart.Data())) && cachedSnapshot == cart
      ensures cart.updatedAt == now
    {
      cart.updatedAt := now;
      var raw := codec.stringify(cart.Data());
      storage := Some(raw);
      cachedRaw := Some(raw);
      cachedSnapshot := cart;
    }

    // The same object as long as the stored bytes are those of the cache, a new one otherwise.
    method GetCart(now: string) returns (cart: ClientCart)
      modifies this`cachedRaw, this`cachedSnapshot
      ensures View() == Step(codec, old(View()), Get, now) && cart == cachedSnapshot
      ensures if old(cachedRaw) == Some(Raw(storage)) then cart == old(cachedSnapshot) else fresh(cart)
    {
      var raw := Raw(storage);
      if cachedRaw != Some(raw) {
        cachedRaw := Some(raw);
        cachedSnapshot := ReadCart(now);
      }
      cart := cachedSnapshot;
    }

    method AddItem(id: string, snapshot: Snapshot, quantity: int, now: string) returns (cart: ClientCart)
      modifies this
      ensures View() == Step(codec, old(View()), Add(id, snapshot, quantity), now)
      ensures cart == cachedSnapshot && fresh(cart)
    {
      cart := ReadCart(now);
      ghost var before := cart.items;
      var idx := FindIndex(cart.items, id);
      if idx < |cart.items| {
        cart.items := cart.items[idx := cart.items[idx].(quantity := cart.items[idx].quantity + quantity)];
        cart.items := cart.items[idx := cart.items[idx].(snapshot := snapshot)];
      } else {
        cart.items := cart.items + [CartItem(id, quantity, snapshot)];
      }
      assert cart.items == Added(before, id, snapshot, quantity);
      Write(cart, now);
    }

    method SetItemQuantity(id: string, quantity: int, now: string) returns (cart: ClientCart)
      modifies this
      ensures View() == Step(codec, old(View()), SetQuantity(id, quantity), now)
      ensures cart == cachedSnapshot && fresh(cart)
    {
      cart := ReadCart(now);
      if quantity <= 0 {
        cart.items := Without(cart.items, id);
      } else {
        var idx := FindIndex(cart.items, id);
        if idx < |cart.items| {
          cart.items := cart.items[idx := cart.items[idx].(quantity := quantity)];
        }
      }
      Write(cart, now);
    }

    method RemoveItem(id: string, now: string) returns (cart: ClientCart)
      modifies this
      ensures View() == Step(codec, old(View()), Remove(id), now)
      ensures cart == cachedSnapshot && fresh(cart)
    {
      cart := ReadCart(now);
      cart.items := Without(cart.items, id);
      Write(cart, now);
    }

    method ClearCart(now: string) returns (cart: ClientCart)
      modifies this
      ensures View() == Step(codec, old(View()), Clear, now)
      ensures cart == cachedSnapshot && fresh(cart)
    {
      cart := new ClientCart(Empty(now));
      Write(cart, now);
    }

    method CountItems(now: string) returns (count: int)
      ensures count == ItemCount(Read(codec, storage, now).items)
    {
      var cart := ReadCart(now);
      count := 0;
      for i := 0 to |cart.items|
        invariant count == ItemCount(cart.items[..i])
      {
        assert cart.items[..i + 1][..i] == cart.items[..i];
        count := count + cart.items[i].quantity;
      }
      assert cart.items[..|cart.items|] == cart.items;
    }

    // Another tab writes or removes the stored cart.
    method WriteFromOtherTab(raw: Option<string>)
      modifies this`storage
      ensures View() == Step(codec, old(View()), ForeignWrite(raw), "")
    {
      storage := raw;
    }
  }
}
