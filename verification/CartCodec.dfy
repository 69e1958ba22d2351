/**
 A codec with the one law that Cart.dfy asks of JSON: every cart it prints is parsed back. Its format is
 prefix code: a list is its elements, each after a '1', closed by a '0'.
 */
module CartCodec {
  import opened Common
  import opened Cart

  // A parsed value and the text left behind it.
  type Parsed<T> = Option<(T, string)>

  ghost predicate Reads<T(!new)>(encode: T -> string, decode: string -> Parsed<T>) {
    forall x, rest :: decode(encode(x) + rest) == Some((x, rest))
  }

  function PrintChar(c: char): string {
    [c]
  }

  function ReadChar(s: string): Parsed<char> {
    if s == "" then None else Some((s[0], s[1..]))
  }

  function PrintNat(n: nat): string {
    if n == 0 then "0" else "1" + PrintNat(n - 1)
  }

  function ReadNat(s: string): Parsed<nat> {
    if s == "" then None
    else if s[0] == '0' then Some((0, s[1..]))
    else
      match ReadNat(s[1..])
      case None => None
      case Some((n, rest)) => Some((n + 1, rest))
  }

  function PrintInt(n: int): string {
    if n < 0 then "-" + PrintNat(-n) else "+" + PrintNat(n)
  }

  function ReadInt(s: string): Parsed<int> {
    if s == "" then None
    else
      match ReadNat(s[1..])
      case None => None
      case Some((n, rest)) => Some((if s[0] == '-' then 0 - n as int else n as int, rest))
  }

  function PrintList<T>(encode: T -> string, xs: seq<T>): string {
    if xs == [] then "0" else "1" + encode(xs[0]) + PrintList(encode, xs[1..])
  }

  function ReadList<T>(decode: string -> Parsed<T>, s: string): Parsed<seq<T>>
    decreases |s|
  {
    if s == "" then None
    else if s[0] == '0' then Some(([], s[1..]))
    else
      match decode(s[1..])
      case None => None
      case Some((x, more)) =>
        if |more| >= |s| then None
        else
          match ReadList(decode, more)
          case None => None
          case Some((xs, rest)) => Some(([x] + xs, rest))
  }

  function PrintString(x: string): string {
    PrintList(PrintChar, x)
  }

  function ReadString(s: string): Parsed<string> {
    ReadList(ReadChar, s)
  }

  lemma Associates(a: string, b: string, c: string)
    ensures a + b + c == a + (b + c)
  {
  }

  lemma TailOf(head: string, s: string, rest: string)
    requires |head| == 1
    ensures (head + s + rest)[0] == head[0] && (head + s + rest)[1..] == s + rest
  {
  }

  lemma {:induction false} NatReads(n: nat, rest: string)
    ensures ReadNat(PrintNat(n) + rest) == Some((n, rest))
  {
    if n == 0 {
      assert ("0" + rest)[1..] == rest;
    } else {
      NatReads(n - 1, rest);
      TailOf("1", PrintNat(n - 1), rest);
    }
  }

  lemma IntReads(n: int, rest: string)
    ensures ReadInt(PrintInt(n) + rest) == Some((n, rest))
  {
    var m := if n < 0 then -n else n;
    NatReads(m, rest);
    TailOf(if n < 0 then "-" else "+", PrintNat(m), rest);
  }

  lemma {:induction false} ListReads<T(!new)>(encode: T -> string, decode: string -> Parsed<T>, xs: seq<T>, rest: string)
    requires Reads(encode, decode)
    ensures ReadList(decode, PrintList(encode, xs) + rest) == Some((xs, rest))
    decreases |xs|
  {
    if xs == [] {
      assert ("0" + rest)[1..] == rest;
    } else {
      var x, more := encode(xs[0]), PrintList(encode, xs[1..]);
      ListReads(encode, decode, xs[1..], rest);
      Associates("1", x, more);
      TailOf("1", x + more, rest);
      Associates(x, more, rest);
      assert decode(x + (more + rest)) == Some((xs[0], more + rest));
      assert xs == [xs[0]] + xs[1..];
    }
  }

  lemma StringReads(x: string, rest: string)
    ensures ReadString(PrintString(x) + rest) == Some((x, rest))
  {
    forall c, more ensures ReadChar(PrintChar(c) + more) == Some((c, more)) {
      assert (PrintChar(c) + more)[1..] == more;
    }
    ListReads(PrintChar, ReadChar, x, rest);
  }

  // ------------------------------------------------------------------ carts

  function PrintImages(images: seq<string>): string {
    PrintList(PrintString, images)
  }

  function PrintSnapshot(x: Snapshot): string {
    PrintString(x.name) + (PrintInt(x.price) + (PrintImages(x.images) + PrintInt(x.stockQuantity)))
  }

  function ReadSnapshot(s: string): Parsed<Snapshot> {
    match ReadString(s)
    case None => None
    case Some((name, s1)) =>
      match ReadInt(s1)
      case None => None
      case Some((price, s2)) =>
        match ReadList(ReadString, s2)
        case None => None
        case Some((images, s3)) =>
          match ReadInt(s3)
          case None => None
          case Some((stock, rest)) => Some((Snapshot(name, price, images, stock), rest))
  }

  function PrintItem(x: CartItem): string {
    PrintString(x.productId) + (PrintInt(x.quantity) + PrintSnapshot(x.snapshot))
  }

  function ReadItem(s: string): Parsed<CartItem> {
    match ReadString(s)
    case None => None
    case Some((id, s1)) =>
      match ReadInt(s1)
      case None => None
      case Some((quantity, s2)) =>
        match ReadSnapshot(s2)
        case None => None
        case Some((snapshot, rest)) => Some((CartItem(id, quantity, snapshot), rest))
  }

  function PrintCart(d: CartData): string {
    PrintInt(d.version) + (PrintList(PrintItem, d.items) + PrintString(d.updatedAt))
  }

  function ReadCart(s: string): Option<CartData> {
    match ReadInt(s)
    case None => None
    case Some((version, s1)) =>
      match ReadList(ReadItem, s1)
      case None => None
      case Some((items, s2)) =>
        match ReadString(s2)
        case None => None
        case Some((updatedAt, rest)) => if rest == "" then Some(CartData(version, items, updatedAt)) else None
  }

  lemma SnapshotReads(x: Snapshot, rest: string)
    ensures ReadSnapshot(PrintSnapshot(x) + rest) == Some((x, rest))
  {
    var s3 := PrintInt(x.stockQuantity) + rest;
    var s2 := PrintImages(x.images) + s3;
    var s1 := PrintInt(x.price) + s2;
    var t2 := PrintImages(x.images) + PrintInt(x.stockQuantity);
    Associates(PrintString(x.name), PrintInt(x.price) + t2, rest);
    Associates(PrintInt(x.price), t2, rest);
    Associates(PrintImages(x.images), PrintInt(x.stockQuantity), rest);
    StringReads(x.name, s1);
    IntReads(x.price, s2);
    forall y, more ensures ReadString(PrintString(y) + more) == Some((y, more)) {
      StringReads(y, more);
    }
    ListReads(PrintString, ReadString, x.images, s3);
    IntReads(x.stockQuantity, rest);
  }

  lemma ItemReads(x: CartItem, rest: string)
    ensures ReadItem(PrintItem(x) + rest) == Some((x, rest))
  {
    var s2 := PrintSnapshot(x.snapshot) + rest;
    var s1 := PrintInt(x.quantity) + s2;
    Associates(PrintString(x.productId), PrintInt(x.quantity) + PrintSnapshot(x.snapshot), rest);
    Associates(PrintInt(x.quantity), PrintSnapshot(x.snapshot), rest);
    StringReads(x.productId, s1);
    IntReads(x.quantity, s2);
    SnapshotReads(x.snapshot, rest);
  }

  lemma CartReads(d: CartData)
    ensures ReadCart(PrintCart(d)) == Some(d) && PrintCart(d) != ""
  {
    var s2 := PrintString(d.updatedAt);
    var s1 := PrintList(PrintItem, d.items) + s2;
    assert PrintCart(d) == PrintInt(d.version) + s1;
    IntReads(d.version, s1);
    forall x, more ensures ReadItem(PrintItem(x) + more) == Some((x, more)) {
      ItemReads(x, more);
    }
    ListReads(PrintItem, ReadItem, d.items, s2);
    StringReads(d.updatedAt, "");
    assert s2 + "" == s2;
  }

  const PREFIX_CODE := Codec(ReadCart, PrintCart)

  // The law can be met, so what Cart.dfy proves under it holds of an actual codec.
  lemma PrefixCodeIsLawful()
    ensures Lawful(PREFIX_CODE)
  {
    forall d ensures PREFIX_CODE.parse(PREFIX_CODE.stringify(d)) == Some(d) && PREFIX_CODE.stringify(d) != "" {
      CartReads(d);
    }
  }

  // With this codec, from an empty tab, get() shows a fresh parse after every interleaving of local
  // operations and writes by other tabs.
  lemma EmptyTabStaysFresh(raw: Option<string>, start: string, ops: seq<(Op, string)>, now: string)
    ensures var end := Exec(PREFIX_CODE, Tab(raw, None, Empty(start)), ops);
            Step(PREFIX_CODE, end, Get, now).cached.items == Read(PREFIX_CODE, end.storage, now).items
  {
    PrefixCodeIsLawful();
    ViewIsFresh(PREFIX_CODE, Tab(raw, None, Empty(start)), ops, now);
  }
}
