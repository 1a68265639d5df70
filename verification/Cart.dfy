// The till's ticket (pos-cart.ts): lines keyed by what they sell and who did
// it, and the operations that add, change, remove and reassign them.
module Cart {
  import opened Common

  datatype Kind = Appointment | Service | Product

  datatype Discount = Percentage(value: real) | Fixed(value: real)

  // What a line sells, who did or sold it, and what it carries along: its own
  // discount and a product's stock.
  datatype Sold = Sold(
    kind: Kind,
    serviceId: Option<string>,
    productId: Option<string>,
    appointmentId: Option<string>,
    professionalId: Option<string>,
    name: string,
    unitCents: int,
    discount: Option<Discount>,
    stock: Option<int>)

  datatype CartLine = CartLine(key: string, sold: Sold, quantity: int)

  // An id inside a template string.
  function Show(id: Option<string>): (r: string) { id.GetOr("undefined") }

  function LineKey(s: Sold): (r: string) {
    match s.kind
    case Appointment => "apt:" + Show(s.appointmentId)
    case Product =>
      if s.professionalId.GetOr("") != "" then "prod:" + Show(s.productId) + ":" + s.professionalId.value
      else "prod:" + Show(s.productId)
    case Service => "svc:" + Show(s.serviceId) + ":" + s.professionalId.GetOr("")
  }

  // Where the first line of that key stands.
  function Find(cart: seq<CartLine>, key: string): (r: Option<nat>)
    ensures r.Some? ==> r.value < |cart| && cart[r.value].key == key
    ensures r.None? ==> forall i :: 0 <= i < |cart| ==> cart[i].key != key
  {
    if cart == [] then None
    else if cart[0].key == key then Some(0)
    else match Find(cart[1..], key) case Some(i) => Some(i + 1) case None => None
  }

  // Every line of that key changed.
  function MapKey(cart: seq<CartLine>, key: string, change: CartLine -> CartLine): (r: seq<CartLine>) {
    seq(|cart|, i requires 0 <= i < |cart| => if cart[i].key == key then change(cart[i]) else cart[i])
  }

  function RemoveLine(cart: seq<CartLine>, key: string): (r: seq<CartLine>) {
    if cart == [] then []
    else if cart[0].key == key then RemoveLine(cart[1..], key)
    else [cart[0]] + RemoveLine(cart[1..], key)
  }

  function MoreUnits(more: int): (r: CartLine -> CartLine) { (l: CartLine) => l.(quantity := l.quantity + more) }

  function UnitsSetTo(units: int): (r: CartLine -> CartLine) {
    (l: CartLine) => if l.sold.kind == Appointment then l else l.(quantity := units)
  }

  function MovedTo(sold: Sold): (r: CartLine -> CartLine) { (l: CartLine) => l.(sold := sold, key := LineKey(sold)) }

  function AddLine(cart: seq<CartLine>, sold: Sold, quantity: Option<int>): (r: seq<CartLine>) {
    var key := LineKey(sold);
    match Find(cart, key)
    case Some(i) =>
      if cart[i].sold.kind == Appointment then cart
      else MapKey(cart, key, MoreUnits(quantity.GetOr(1)))
    case None => cart + [CartLine(key, sold, if sold.kind == Appointment then 1 else quantity.GetOr(1))]
  }

  function SetQuantity(cart: seq<CartLine>, key: string, quantity: real): (r: seq<CartLine>) {
    if quantity <= 0.0 then RemoveLine(cart, key)
    else MapKey(cart, key, UnitsSetTo(quantity.Floor))
  }

  // An empty name is nobody's.
  function OrNobody(professionalId: Option<string>): (r: Option<string>) {
    if professionalId.GetOr("") == "" then None else professionalId
  }

  function SetProfessional(cart: seq<CartLine>, key: string, professionalId: Option<string>): (r: seq<CartLine>) {
    match Find(cart, key)
    case None => cart
    case Some(i) =>
      var line := cart[i];
      if line.sold.kind == Appointment then cart
      else
        var moved := line.sold.(professionalId := OrNobody(professionalId));
        var newKey := LineKey(moved);
        if newKey == key then cart
        else
          var rest := RemoveLine(cart, key);
          if Find(rest, newKey).Some? then
            MapKey(rest, newKey, MoreUnits(line.quantity))
          else MapKey(cart, key, MovedTo(moved))
  }

  // ---------------------------------------------------- what the cart stands for

  datatype Item = AppointmentOf(id: string) | ServiceOf(id: string) | ProductOf(id: string)

  // An item and who did it; "" is nobody named.
  datatype LineId = LineId(item: Item, professional: string)

  predicate NoColon(s: string) { forall i :: 0 <= i < |s| ==> s[i] != ':' }

  // A line of the till: it names its own item, and the ids of services and
  // products hold no colon.
  predicate Proper(s: Sold) {
    match s.kind
    case Appointment => s.appointmentId.Some?
    case Service => s.serviceId.Some? && NoColon(s.serviceId.value)
    case Product => s.productId.Some? && NoColon(s.productId.value)
  }

  function IdOf(s: Sold): (r: LineId) {
    match s.kind
    case Appointment => LineId(AppointmentOf(Show(s.appointmentId)), "")
    case Service => LineId(ServiceOf(Show(s.serviceId)), s.professionalId.GetOr(""))
    case Product => LineId(ProductOf(Show(s.productId)), s.professionalId.GetOr(""))
  }

  predicate ProperId(id: LineId) {
    if id.item.AppointmentOf? then id.professional == "" else NoColon(id.item.id)
  }

  function KeyOf(id: LineId): (r: string) {
    match id.item
    case AppointmentOf(a) => "apt:" + a
    case ProductOf(p) => if id.professional == "" then "prod:" + p else "prod:" + p + ":" + id.professional
    case ServiceOf(s) => "svc:" + s + ":" + id.professional
  }

  lemma KeyOfId(s: Sold)
    requires Proper(s)
    ensures LineKey(s) == KeyOf(IdOf(s)) && ProperId(IdOf(s))
  {
  }

  lemma {:induction false} ColonSplits(a: string, b: string, c: string, d: string)
    requires NoColon(a) && NoColon(c) && a + ":" + b == c + ":" + d
    ensures a == c && b == d
  {
    var s := a + ":" + b;
    assert (c + ":" + d)[|a|] == ':' && (a + ":" + b)[|c|] == ':';
    assert s[..|a|] == a && s[..|c|] == c && s[|a| + 1..] == b && s[|c| + 1..] == d;
  }

  // Items without a colon in their ids never share a key, whoever did them.
  lemma KeysTellLinesApart(x: LineId, y: LineId)
    requires ProperId(x) && ProperId(y) && KeyOf(x) == KeyOf(y)
    ensures x == y
  {
    var k, l := KeyOf(x), KeyOf(y);
    assert k[0] == l[0] && k[1] == l[1];
    match x.item {
      case AppointmentOf(a) =>
        assert k[4..] == a && l[4..] == y.item.id;
      case ServiceOf(s) =>
        assert k[4..] == s + ":" + x.professional && l[4..] == y.item.id + ":" + y.professional;
        ColonSplits(s, x.professional, y.item.id, y.professional);
      case ProductOf(p) =>
        ProductTail(x);
        ProductTail(y);
        if x.professional != "" && y.professional != "" {
          ColonSplits(p, x.professional, y.item.id, y.professional);
        }
        assert x.professional != "" ==> k[5..][|p|] == ':';
        assert y.professional != "" ==> l[5..][|y.item.id|] == ':';
    }
  }

  lemma ProductTail(x: LineId)
    requires x.item.ProductOf?
    ensures KeyOf(x)[5..] == if x.professional == "" then x.item.id else x.item.id + ":" + x.professional
  {
  }

  // Two items can come under one key, for some professionals.
  ghost predicate ShareAKey(a: Item, b: Item) {
    exists p, q :: KeyOf(LineId(a, p)) == KeyOf(LineId(b, q))
  }

  predicate Prefixes(a: Item, b: Item) { a.id + ":" <= b.id }

  // Exactly which items can: two services or two products of which one's id,
  // with a colon, begins the other's.
  lemma ItemsThatShareAKey(a: Item, b: Item)
    requires a != b
    ensures ShareAKey(a, b) <==>
      ((a.ServiceOf? && b.ServiceOf?) || (a.ProductOf? && b.ProductOf?)) && (Prefixes(a, b) || Prefixes(b, a))
  {
    if (a.ServiceOf? && b.ServiceOf?) || (a.ProductOf? && b.ProductOf?) {
      if Prefixes(a, b) { PrefixShares(a, b); }
      if Prefixes(b, a) { PrefixShares(b, a); }
    }
    forall p, q | KeyOf(LineId(a, p)) == KeyOf(LineId(b, q))
      ensures (a.ServiceOf? && b.ServiceOf?) || (a.ProductOf? && b.ProductOf?)
      ensures Prefixes(a, b) || Prefixes(b, a)
    {
      SameKeyKinds(a, p, b, q);
      SharedKeyPrefixes(a, p, b, q);
    }
  }

  lemma PrefixShares(a: Item, b: Item)
    requires (a.ServiceOf? && b.ServiceOf?) || (a.ProductOf? && b.ProductOf?)
    requires Prefixes(a, b)
    ensures ShareAKey(a, b) && ShareAKey(b, a)
  {
    var rest := b.id[|a.id| + 1..];
    assert b.id == a.id + ":" + rest;
    assert KeyOf(LineId(a, rest + ":" + "x")) == KeyOf(LineId(b, "x"));
  }

  lemma SameKeyKinds(a: Item, p: string, b: Item, q: string)
    requires KeyOf(LineId(a, p)) == KeyOf(LineId(b, q))
    ensures (a.AppointmentOf? && a == b) || (a.ServiceOf? && b.ServiceOf?) || (a.ProductOf? && b.ProductOf?)
  {
    var k, l := KeyOf(LineId(a, p)), KeyOf(LineId(b, q));
    assert k[0] == l[0] && k[1] == l[1];
    if a.AppointmentOf? {
      assert k[4..] == a.id && l[4..] == b.id;
    }
  }

  lemma SharedKeyPrefixes(a: Item, p: string, b: Item, q: string)
    requires a != b && KeyOf(LineId(a, p)) == KeyOf(LineId(b, q))
    requires (a.ServiceOf? && b.ServiceOf?) || (a.ProductOf? && b.ProductOf?)
    ensures Prefixes(a, b) || Prefixes(b, a)
  {
    var k, l := KeyOf(LineId(a, p)), KeyOf(LineId(b, q));
    if a.ServiceOf? {
      assert k[4..] == a.id + ":" + p && l[4..] == b.id + ":" + q;
      OneBegins(k[4..], a.id, p, b.id, q);
    } else {
      ProductTail(LineId(a, p));
      ProductTail(LineId(b, q));
      if p != "" && q != "" {
        OneBegins(k[5..], a.id, p, b.id, q);
      } else if p != "" {
        assert b.id == a.id + ":" + p;
      } else {
        assert q != "" && a.id == b.id + ":" + q;
      }
    }
  }

  lemma OneBegins(s: string, a: string, p: string, b: string, q: string)
    requires a != b && s == a + ":" + p && s == b + ":" + q
    ensures a + ":" <= b || b + ":" <= a
  {
    assert s[..|a| + 1] == a + ":" && s[..|b| + 1] == b + ":" && s[..|a|] == a && s[..|b|] == b;
    if |a| < |b| {
      assert s[..|b|][..|a| + 1] == a + ":";
    } else if |b| < |a| {
      assert s[..|a|][..|b| + 1] == b + ":";
    }
  }

  // So product "a:b" sold by nobody named has the key of product "a" sold by
  // "b".
  lemma ColonConfusesKeys()
    ensures KeyOf(LineId(ProductOf("a:b"), "")) == KeyOf(LineId(ProductOf("a"), "b"))
    ensures ShareAKey(ProductOf("a:b"), ProductOf("a"))
  {
    assert "a" + ":" <= "a:b";
    ItemsThatShareAKey(ProductOf("a:b"), ProductOf("a"));
  }

  ghost predicate Valid(cart: seq<CartLine>) {
    && KeysDiffer(cart)
    && forall i :: 0 <= i < |cart| ==> ValidLine(cart[i])
  }

  predicate ValidLine(l: CartLine) {
    && Proper(l.sold) && l.key == LineKey(l.sold)
    && l.quantity >= 1 && (l.sold.kind == Appointment ==> l.quantity == 1)
  }

  // The units of each line.
  function Units(cart: seq<CartLine>): (r: map<LineId, int>)
    requires Valid(cart)
  {
    AllIdsDiffer(cart);
    map i | 0 <= i < |cart| :: IdOf(cart[i].sold) := cart[i].quantity
  }

  lemma IdsDiffer(cart: seq<CartLine>, i: nat, j: nat)
    requires Valid(cart) && i < |cart| && j < |cart| && i != j
    ensures IdOf(cart[i].sold) != IdOf(cart[j].sold)
  {
    KeyOfId(cart[i].sold);
    KeyOfId(cart[j].sold);
  }

  lemma AllIdsDiffer(cart: seq<CartLine>)
    requires Valid(cart)
    ensures forall i, j :: 0 <= i < |cart| && 0 <= j < |cart| && i != j ==> IdOf(cart[i].sold) != IdOf(cart[j].sold)
  {
    forall i, j | 0 <= i < |cart| && 0 <= j < |cart| && i != j ensures IdOf(cart[i].sold) != IdOf(cart[j].sold) {
      IdsDiffer(cart, i, j);
    }
  }

  // A key finds the line of that id, if the cart has one.
  lemma FindById(cart: seq<CartLine>, id: LineId)
    requires Valid(cart) && ProperId(id)
    ensures Find(cart, KeyOf(id)).Some? <==> id in Units(cart)
    ensures match Find(cart, KeyOf(id))
      case Some(i) =>
        && IdOf(cart[i].sold) == id && Units(cart)[id] == cart[i].quantity
        && (cart[i].sold.kind == Appointment <==> id.item.AppointmentOf?)
      case None => true
  {
    match Find(cart, KeyOf(id)) {
      case Some(i) =>
        KeyOfId(cart[i].sold);
        KeysTellLinesApart(id, IdOf(cart[i].sold));
      case None =>
        if id in Units(cart) {
          var i :| 0 <= i < |cart| && IdOf(cart[i].sold) == id;
          KeyOfId(cart[i].sold);
        }
    }
  }

  // --------------------------------------------- each operation on one line

  ghost predicate KeysDiffer(cart: seq<CartLine>) {
    forall i, j :: 0 <= i < j < |cart| ==> cart[i].key != cart[j].key
  }

  lemma MapKeyAt(cart: seq<CartLine>, key: string, change: CartLine -> CartLine)
    requires KeysDiffer(cart)
    ensures MapKey(cart, key, change) == match Find(cart, key)
      case Some(i) => cart[i := change(cart[i])]
      case None => cart
  {
    hide Find;
  }

  lemma {:induction false} RemoveLineAt(cart: seq<CartLine>, key: string)
    requires KeysDiffer(cart)
    ensures RemoveLine(cart, key) == match Find(cart, key)
      case Some(i) => cart[..i] + cart[i + 1..]
      case None => cart
  {
    if cart != [] {
      RemoveLineAt(cart[1..], key);
      assert cart == [cart[0]] + cart[1..];
      if cart[0].key != key && Find(cart, key).Some? {
        var i := Find(cart, key).value;
        assert cart[..i] == [cart[0]] + cart[1..][..i - 1] && cart[i + 1..] == cart[1..][i..];
      }
    }
  }

  // Units is the only map that gives each line's quantity at its id and
  // nothing else.
  lemma UnitsAre(cart: seq<CartLine>, m: map<LineId, int>)
    requires Valid(cart)
    requires forall i :: 0 <= i < |cart| ==> IdOf(cart[i].sold) in m && m[IdOf(cart[i].sold)] == cart[i].quantity
    requires forall id :: id in m ==> exists i :: 0 <= i < |cart| && IdOf(cart[i].sold) == id
    ensures Units(cart) == m
  {
    hide IdOf, Valid;
  }

  lemma ReplacedUnits(cart: seq<CartLine>, i: nat, l: CartLine)
    requires Valid(cart) && i < |cart| && ValidLine(l)
    requires forall j :: 0 <= j < |cart| && j != i ==> cart[j].key != l.key
    ensures Valid(cart[i := l])
    ensures Units(cart[i := l]) == (Units(cart) - {IdOf(cart[i].sold)})[IdOf(l.sold) := l.quantity]
  {
    hide IdOf, ValidLine;
    var after := cart[i := l];
    assert Valid(after);
    AllIdsDiffer(cart);
    AllIdsDiffer(after);
    hide Valid;
    var m := (Units(cart) - {IdOf(cart[i].sold)})[IdOf(l.sold) := l.quantity];
    assert after[i] == l;
    forall id | id in m ensures exists j :: 0 <= j < |after| && IdOf(after[j].sold) == id {
      if id != IdOf(l.sold) {
        var j :| 0 <= j < |cart| && IdOf(cart[j].sold) == id;
        assert after[j] == cart[j];
      }
    }
    UnitsAre(after, m);
  }

  lemma RemovedKeysDiffer(cart: seq<CartLine>, i: nat)
    requires KeysDiffer(cart) && i < |cart|
    ensures KeysDiffer(cart[..i] + cart[i + 1..])
  {
    var after := cart[..i] + cart[i + 1..];
    assert forall j :: 0 <= j < |after| ==> after[j] == cart[if j < i then j else j + 1];
  }

  lemma RemovedValid(cart: seq<CartLine>, i: nat)
    requires Valid(cart) && i < |cart|
    ensures Valid(cart[..i] + cart[i + 1..])
  {
    hide ValidLine, KeysDiffer;
    var after := cart[..i] + cart[i + 1..];
    RemovedKeysDiffer(cart, i);
    assert forall j :: 0 <= j < |after| ==> after[j] == cart[if j < i then j else j + 1];
  }

  lemma RemovedUnits(cart: seq<CartLine>, i: nat)
    requires Valid(cart) && i < |cart|
    ensures Valid(cart[..i] + cart[i + 1..])
    ensures Units(cart[..i] + cart[i + 1..]) == Units(cart) - {IdOf(cart[i].sold)}
  {
    hide IdOf, Valid;
    var after := cart[..i] + cart[i + 1..];
    RemovedValid(cart, i);
    var m := Units(cart) - {IdOf(cart[i].sold)};
    forall j | 0 <= j < |after| ensures IdOf(after[j].sold) in m && m[IdOf(after[j].sold)] == after[j].quantity {
      var k := if j < i then j else j + 1;
      assert after[j] == cart[k];
      UnitsOfLine(cart, k);
      IdsDiffer(cart, i, k);
    }
    forall id | id in m ensures exists j :: 0 <= j < |after| && IdOf(after[j].sold) == id {
      var k :| 0 <= k < |cart| && IdOf(cart[k].sold) == id;
      assert after[if k < i then k else k - 1] == cart[k];
    }
    UnitsAre(after, m);
  }

  lemma UnitsOfLine(cart: seq<CartLine>, i: nat)
    requires Valid(cart) && i < |cart|
    ensures IdOf(cart[i].sold) in Units(cart) && Units(cart)[IdOf(cart[i].sold)] == cart[i].quantity
  {
    hide IdOf, Valid;
    AllIdsDiffer(cart);
  }

  lemma AppendedUnits(cart: seq<CartLine>, l: CartLine)
    requires Valid(cart) && ValidLine(l)
    requires forall j :: 0 <= j < |cart| ==> cart[j].key != l.key
    ensures Valid(cart + [l])
    ensures Units(cart + [l]) == Units(cart)[IdOf(l.sold) := l.quantity]
  {
    hide IdOf, ValidLine;
    var after := cart + [l];
    assert Valid(after);
    AllIdsDiffer(after);
    hide Valid;
    var m := Units(cart)[IdOf(l.sold) := l.quantity];
    assert after[|cart|] == l && forall j :: 0 <= j < |cart| ==> after[j] == cart[j];
    forall id | id in m ensures exists j :: 0 <= j < |after| && IdOf(after[j].sold) == id {
      if id in Units(cart) {
        var j :| 0 <= j < |cart| && IdOf(cart[j].sold) == id;
        assert after[j] == cart[j];
      }
    }
    UnitsAre(after, m);
  }

  // ------------------------------------------------------------ the refinement

  // The operations of the till, by what they act on.
  datatype Op =
    | Add(sold: Sold, more: Option<int>)
    | Set(id: LineId, quantity: real)
    | Remove(id: LineId)
    | Reassign(id: LineId, professional: Option<string>)

  // Whole positive quantities, and items whose ids hold no colon.
  predicate ProperOp(op: Op) {
    match op
    case Add(s, q) => Proper(s) && q.GetOr(1) >= 1
    case Set(id, q) => ProperId(id) && (q <= 0.0 || q >= 1.0)
    case Remove(id) => ProperId(id)
    case Reassign(id, p) => ProperId(id)
  }

  function Do(cart: seq<CartLine>, op: Op): (r: seq<CartLine>) {
    match op
    case Add(s, q) => AddLine(cart, s, q)
    case Set(id, q) => SetQuantity(cart, KeyOf(id), q)
    case Remove(id) => RemoveLine(cart, KeyOf(id))
    case Reassign(id, p) => SetProfessional(cart, KeyOf(id), p)
  }

  function UnitsAt(m: map<LineId, int>, id: LineId): (r: int) { if id in m then m[id] else 0 }

  // The same operations on units per item and professional.
  function DoUnits(m: map<LineId, int>, op: Op): (r: map<LineId, int>) {
    match op
    case Add(s, q) =>
      var id := IdOf(s);
      if id.item.AppointmentOf? then (if id in m then m else m[id := 1])
      else m[id := UnitsAt(m, id) + q.GetOr(1)]
    case Set(id, q) =>
      if q <= 0.0 then m - {id}
      else if id in m && !id.item.AppointmentOf? then m[id := q.Floor] else m
    case Remove(id) => m - {id}
    case Reassign(id, p) =>
      var to := id.(professional := p.GetOr(""));
      if id !in m || id.item.AppointmentOf? || to == id then m
      else (m - {id})[to := m[id] + UnitsAt(m, to)]
  }

  lemma AddRefines(cart: seq<CartLine>, s: Sold, q: Option<int>)
    requires Valid(cart) && Proper(s) && q.GetOr(1) >= 1
    ensures Valid(AddLine(cart, s, q)) && Units(AddLine(cart, s, q)) == DoUnits(Units(cart), Add(s, q))
  {
    hide Units, Find, MapKey, KeyOf, LineKey, ProperId;
    var id := IdOf(s);
    KeyOfId(s);
    FindById(cart, id);
    var change := MoreUnits(q.GetOr(1));
    match Find(cart, LineKey(s)) {
      case Some(i) =>
        if cart[i].sold.kind != Appointment {
          MapKeyAt(cart, LineKey(s), change);
          ReplacedUnits(cart, i, change(cart[i]));
        }
      case None =>
        AppendedUnits(cart, CartLine(LineKey(s), s, if s.kind == Appointment then 1 else q.GetOr(1)));
    }
  }

  lemma RemoveRefines(cart: seq<CartLine>, id: LineId)
    requires Valid(cart) && ProperId(id)
    ensures Valid(RemoveLine(cart, KeyOf(id))) && Units(RemoveLine(cart, KeyOf(id))) == Units(cart) - {id}
  {
    hide Units, RemoveLine, KeyOf, Find, ProperId, IdOf, ValidLine;
    FindById(cart, id);
    RemoveLineAt(cart, KeyOf(id));
    match Find(cart, KeyOf(id)) {
      case Some(i) => RemovedUnits(cart, i);
      case None =>
    }
  }

  lemma SetRefines(cart: seq<CartLine>, id: LineId, q: real)
    requires Valid(cart) && ProperId(id) && (q <= 0.0 || q >= 1.0)
    ensures Valid(SetQuantity(cart, KeyOf(id), q))
    ensures Units(SetQuantity(cart, KeyOf(id), q)) == DoUnits(Units(cart), Set(id, q))
  {
    hide Units, Find, MapKey, RemoveLine, KeyOf, LineKey, ProperId, IdOf, Proper;
    if q <= 0.0 {
      RemoveRefines(cart, id);
    } else {
      FindById(cart, id);
      var change := UnitsSetTo(q.Floor);
      MapKeyAt(cart, KeyOf(id), change);
      match Find(cart, KeyOf(id)) {
        case Some(i) => ReplacedUnits(cart, i, change(cart[i]));
        case None =>
      }
    }
  }

  lemma MovedId(s: Sold, p: Option<string>)
    requires Proper(s) && s.kind != Appointment
    ensures var moved := s.(professionalId := OrNobody(p));
      && Proper(moved) && IdOf(moved) == IdOf(s).(professional := p.GetOr(""))
      && LineKey(moved) == KeyOf(IdOf(moved)) && ProperId(IdOf(moved))
  {
    KeyOfId(s.(professionalId := OrNobody(p)));
  }

  lemma ReassignRefines(cart: seq<CartLine>, id: LineId, p: Option<string>)
    requires Valid(cart) && ProperId(id)
    ensures Valid(SetProfessional(cart, KeyOf(id), p))
    ensures Units(SetProfessional(cart, KeyOf(id), p)) == DoUnits(Units(cart), Reassign(id, p))
  {
    hide Units, Find, MapKey, RemoveLine, KeyOf, LineKey, ProperId, IdOf, Proper;
    var key := KeyOf(id);
    FindById(cart, id);
    if Find(cart, key).Some? && !id.item.AppointmentOf? {
      var line := cart[Find(cart, key).value];
      MovedId(line.sold, p);
      if LineKey(line.sold.(professionalId := OrNobody(p))) == key {
        KeysTellLinesApart(id, id.(professional := p.GetOr("")));
      } else {
        ReassignMoves(cart, id, p, Find(cart, key).value);
      }
    }
  }

  // Where SetProfessional puts the units of line i, on the list itself.
  lemma MovedLine(cart: seq<CartLine>, key: string, p: Option<string>, i: nat)
    requires KeysDiffer(cart)
    requires Find(cart, key) == Some(i) && cart[i].sold.kind != Appointment
    requires LineKey(cart[i].sold.(professionalId := OrNobody(p))) != key
    ensures var line := cart[i]; var moved := line.sold.(professionalId := OrNobody(p));
      var rest := cart[..i] + cart[i + 1..];
      SetProfessional(cart, key, p) == match Find(rest, LineKey(moved))
        case Some(j) => rest[j := rest[j].(quantity := rest[j].quantity + line.quantity)]
        case None => cart[i := line.(sold := moved, key := LineKey(moved))]
  {
    hide Find, MapKey, RemoveLine, LineKey, KeysDiffer;
    var line := cart[i];
    var moved := line.sold.(professionalId := OrNobody(p));
    RemoveLineAt(cart, key);
    RemovedKeysDiffer(cart, i);
    MapKeyAt(RemoveLine(cart, key), LineKey(moved), MoreUnits(line.quantity));
    MapKeyAt(cart, key, MovedTo(moved));
  }

  lemma ReassignMoves(cart: seq<CartLine>, id: LineId, p: Option<string>, i: nat)
    requires Valid(cart) && ProperId(id)
    requires Find(cart, KeyOf(id)) == Some(i) && !id.item.AppointmentOf?
    requires LineKey(cart[i].sold.(professionalId := OrNobody(p))) != KeyOf(id)
    ensures Valid(SetProfessional(cart, KeyOf(id), p))
    ensures Units(SetProfessional(cart, KeyOf(id), p)) == DoUnits(Units(cart), Reassign(id, p))
  {
    hide Units, Find, SetProfessional, KeyOf, LineKey, ProperId, IdOf, Proper;
    var line := cart[i];
    var moved := line.sold.(professionalId := OrNobody(p));
    var rest := cart[..i] + cart[i + 1..];
    FindById(cart, id);
    MovedId(line.sold, p);
    MovedLine(cart, KeyOf(id), p, i);
    RemovedUnits(cart, i);
    FindById(rest, id.(professional := p.GetOr("")));
    match Find(rest, LineKey(moved)) {
      case Some(j) => ReplacedUnits(rest, j, rest[j].(quantity := rest[j].quantity + line.quantity));
      case None =>
        NewKeyIsNew(cart, i, LineKey(moved));
        ReplacedUnits(cart, i, line.(sold := moved, key := LineKey(moved)));
    }
  }

  lemma NewKeyIsNew(cart: seq<CartLine>, i: nat, key: string)
    requires i < |cart| && Find(cart[..i] + cart[i + 1..], key).None?
    ensures forall j :: 0 <= j < |cart| && j != i ==> cart[j].key != key
  {
    var rest := cart[..i] + cart[i + 1..];
    forall j | 0 <= j < |cart| && j != i ensures cart[j].key != key {
      assert rest[if j < i then j else j - 1] == cart[j];
    }
  }

  lemma OpRefines(cart: seq<CartLine>, op: Op)
    requires Valid(cart) && ProperOp(op)
    ensures Valid(Do(cart, op)) && Units(Do(cart, op)) == DoUnits(Units(cart), op)
  {
    match op {
      case Add(s, q) => AddRefines(cart, s, q);
      case Set(id, q) => SetRefines(cart, id, q);
      case Remove(id) => RemoveRefines(cart, id);
      case Reassign(id, p) => ReassignRefines(cart, id, p);
    }
  }

  function Run(cart: seq<CartLine>, ops: seq<Op>): (r: seq<CartLine>)
    decreases |ops|
  {
    if ops == [] then cart else Run(Do(cart, ops[0]), ops[1..])
  }

  function RunUnits(m: map<LineId, int>, ops: seq<Op>): (r: map<LineId, int>)
    decreases |ops|
  {
    if ops == [] then m else RunUnits(DoUnits(m, ops[0]), ops[1..])
  }

  // Main result: over every run of the till's operations the cart is a map
  // from item and professional to units. Its keys stay distinct and the
  // line's own, quantities stay whole and positive, an appointment stays at
  // one unit.
  lemma {:induction false} RunRefines(cart: seq<CartLine>, ops: seq<Op>)
    requires Valid(cart) && forall k :: 0 <= k < |ops| ==> ProperOp(ops[k])
    ensures Valid(Run(cart, ops)) && Units(Run(cart, ops)) == RunUnits(Units(cart), ops)
    decreases |ops|
  {
    if ops != [] {
      OpRefines(cart, ops[0]);
      RunRefines(Do(cart, ops[0]), ops[1..]);
    }
  }

  // ------------------------------------------------- what is left as it was

  // Adding something new puts one line at the end, as it was given; adding
  // what is there changes the quantity of that one line and nothing else.
  lemma AddLeaves(cart: seq<CartLine>, s: Sold, q: Option<int>)
    requires KeysDiffer(cart)
    ensures AddLine(cart, s, q) == match Find(cart, LineKey(s))
      case None => cart + [CartLine(LineKey(s), s, if s.kind == Appointment then 1 else q.GetOr(1))]
      case Some(i) =>
        if cart[i].sold.kind == Appointment then cart
        else cart[i := CartLine(cart[i].key, cart[i].sold, cart[i].quantity + q.GetOr(1))]
  {
    hide Find, MapKey, LineKey;
    MapKeyAt(cart, LineKey(s), MoreUnits(q.GetOr(1)));
  }

  // Setting a quantity above 0 changes that of one line at most; 0 or less
  // takes the line out and keeps the others in their order.
  lemma SetLeaves(cart: seq<CartLine>, key: string, q: real)
    requires KeysDiffer(cart)
    ensures SetQuantity(cart, key, q) == match Find(cart, key)
      case None => cart
      case Some(i) =>
        if q <= 0.0 then cart[..i] + cart[i + 1..]
        else if cart[i].sold.kind == Appointment then cart
        else cart[i := CartLine(cart[i].key, cart[i].sold, q.Floor)]
  {
    hide Find, MapKey, RemoveLine;
    MapKeyAt(cart, key, UnitsSetTo(q.Floor));
    RemoveLineAt(cart, key);
    match Find(cart, key) {
      case Some(i) => assert cart[i].sold.kind == Appointment ==> cart[i := cart[i]] == cart;
      case None =>
    }
  }

  // Changing who did a line changes that line's professional and key, or the
  // quantity of the line it is merged into.
  lemma ReassignLeaves(cart: seq<CartLine>, key: string, p: Option<string>)
    requires KeysDiffer(cart)
    ensures SetProfessional(cart, key, p) == match Find(cart, key)
      case None => cart
      case Some(i) =>
        var line := cart[i]; var rest := cart[..i] + cart[i + 1..];
        var moved := line.sold.(professionalId := if p == Some("") then None else p);
        if line.sold.kind == Appointment || LineKey(moved) == key then cart
        else match Find(rest, LineKey(moved))
          case Some(j) => rest[j := CartLine(rest[j].key, rest[j].sold, rest[j].quantity + line.quantity)]
          case None => cart[i := CartLine(LineKey(moved), moved, line.quantity)]
  {
    hide Find, LineKey, SetProfessional, RemoveLine, MapKey, KeysDiffer;
    match Find(cart, key) {
      case None => SetProfessionalStays(cart, key, p);
      case Some(i) =>
        assert OrNobody(p) == if p == Some("") then None else p;
        if cart[i].sold.kind == Appointment || LineKey(cart[i].sold.(professionalId := OrNobody(p))) == key {
          SetProfessionalStays(cart, key, p);
        } else {
          MovedLine(cart, key, p, i);
        }
    }
  }

  // The same goods at the same price, with the same discount and stock,
  // whoever did or sold them.
  predicate SameGoods(a: Sold, b: Sold) { a.(professionalId := b.professionalId) == b }

  // Brought by one of the Adds, or there from the start.
  ghost predicate Brought(cart: seq<CartLine>, ops: seq<Op>, s: Sold) {
    || (exists i :: 0 <= i < |cart| && SameGoods(cart[i].sold, s))
    || (exists k :: 0 <= k < |ops| && ops[k].Add? && SameGoods(ops[k].sold, s))
  }

  lemma OpBrings(cart: seq<CartLine>, op: Op, k: nat)
    requires Valid(cart) && ProperOp(op) && k < |Do(cart, op)|
    ensures Brought(cart, [op], Do(cart, op)[k].sold)
  {
    hide Find, LineKey, KeyOf, AddLine, SetQuantity, RemoveLine, SetProfessional, ProperOp, ValidLine, KeysDiffer, SameGoods;
    match op {
      case Add(s, q) => AddBrings(cart, s, q, k);
      case Set(id, q) =>
        SetLeaves(cart, KeyOf(id), q);
        StaysOf(cart, Find(cart, KeyOf(id)), Do(cart, op), k);
      case Remove(id) =>
        RemoveLineAt(cart, KeyOf(id));
        StaysOf(cart, Find(cart, KeyOf(id)), Do(cart, op), k);
      case Reassign(id, p) => ReassignOp(cart, KeyOf(id), p, k);
    }
  }

  lemma AddBrings(cart: seq<CartLine>, s: Sold, q: Option<int>, k: nat)
    requires KeysDiffer(cart) && k < |AddLine(cart, s, q)|
    ensures Brought(cart, [Add(s, q)], AddLine(cart, s, q)[k].sold)
  {
    hide Find, LineKey, AddLine, KeysDiffer;
    AddLeaves(cart, s, q);
    var after := AddLine(cart, s, q);
    assert k < |cart| ==> SameGoods(cart[k].sold, after[k].sold);
    assert [Add(s, q)][0].Add? && SameGoods([Add(s, q)][0].sold, s);
  }

  lemma ReassignOp(cart: seq<CartLine>, key: string, p: Option<string>, k: nat)
    requires KeysDiffer(cart) && k < |SetProfessional(cart, key, p)|
    ensures exists i :: 0 <= i < |cart| && SameGoods(cart[i].sold, SetProfessional(cart, key, p)[k].sold)
  {
    hide Find, LineKey, SetProfessional, KeysDiffer;
    ReassignLeaves(cart, key, p);
    ReassignBrings(cart, Find(cart, key), SetProfessional(cart, key, p), k);
  }

  // After a change of one line's quantity, or without that line.
  lemma StaysOf(cart: seq<CartLine>, found: Option<nat>, after: seq<CartLine>, k: nat)
    requires k < |after| && (found.Some? ==> found.value < |cart|)
    requires
      || after == cart
      || (found.Some? && after == cart[..found.value] + cart[found.value + 1..])
      || (found.Some? && exists n :: after == cart[found.value := cart[found.value].(quantity := n)])
    ensures exists i :: 0 <= i < |cart| && SameGoods(cart[i].sold, after[k].sold)
  {
    var i := if |after| < |cart| && k >= found.value then k + 1 else k;
    assert SameGoods(cart[i].sold, after[k].sold);
  }

  lemma ReassignBrings(cart: seq<CartLine>, found: Option<nat>, after: seq<CartLine>, k: nat)
    requires k < |after| && (found.Some? ==> found.value < |cart|)
    requires
      || after == cart
      || (found.Some? && var rest := cart[..found.value] + cart[found.value + 1..];
          |after| == |rest| && forall j :: 0 <= j < |rest| ==> after[j].sold == rest[j].sold)
      || (found.Some? && |after| == |cart|
          && forall j :: 0 <= j < |cart| ==> SameGoods(cart[j].sold, after[j].sold))
    ensures exists i :: 0 <= i < |cart| && SameGoods(cart[i].sold, after[k].sold)
  {
    var i := if |after| < |cart| && k >= found.value then k + 1 else k;
    assert SameGoods(cart[i].sold, after[k].sold);
  }

  lemma BroughtOn(cart: seq<CartLine>, op: Op, ops: seq<Op>, s: Sold)
    requires Valid(cart) && ProperOp(op) && Brought(Do(cart, op), ops, s)
    ensures Brought(cart, [op] + ops, s)
  {
    hide Do, ProperOp;
    var all := [op] + ops;
    if exists i :: 0 <= i < |Do(cart, op)| && SameGoods(Do(cart, op)[i].sold, s) {
      var i :| 0 <= i < |Do(cart, op)| && SameGoods(Do(cart, op)[i].sold, s);
      OpBrings(cart, op, i);
      var t := Do(cart, op)[i].sold;
      if exists j :: 0 <= j < |cart| && SameGoods(cart[j].sold, t) {
        var j :| 0 <= j < |cart| && SameGoods(cart[j].sold, t);
        assert SameGoods(cart[j].sold, s);
      } else {
        assert [op][0] == op && all[0] == op;
        assert op.Add? && SameGoods(op.sold, t);
        assert all[0].Add? && SameGoods(all[0].sold, s);
      }
    } else {
      var k :| 0 <= k < |ops| && ops[k].Add? && SameGoods(ops[k].sold, s);
      assert all[k + 1] == ops[k];
    }
  }

  // Main result on the lines: over any run, every line's item, name, price,
  // discount and stock are those it was added with.
  lemma {:induction false} LinesAreAsAdded(cart: seq<CartLine>, ops: seq<Op>, k: nat)
    requires Valid(cart) && forall j :: 0 <= j < |ops| ==> ProperOp(ops[j])
    requires k < |Run(cart, ops)|
    ensures Brought(cart, ops, Run(cart, ops)[k].sold)
    decreases |ops|
  {
    if ops == [] {
      assert SameGoods(cart[k].sold, Run(cart, ops)[k].sold);
    } else {
      OpRefines(cart, ops[0]);
      LinesAreAsAdded(Do(cart, ops[0]), ops[1..], k);
      BroughtOn(cart, ops[0], ops[1..], Run(cart, ops)[k].sold);
      assert [ops[0]] + ops[1..] == ops;
    }
  }

  // ------------------------------------------------------------ conservation

  function UnitsOf(l: CartLine, item: Item): (r: int) { if IdOf(l.sold).item == item then l.quantity else 0 }

  // The units of an item, whoever did them.
  function ItemUnits(cart: seq<CartLine>, item: Item): (r: int) {
    if cart == [] then 0 else UnitsOf(cart[0], item) + ItemUnits(cart[1..], item)
  }

  lemma {:induction false} ItemUnitsReplaced(cart: seq<CartLine>, i: nat, l: CartLine, item: Item)
    requires i < |cart|
    ensures ItemUnits(cart[i := l], item) == ItemUnits(cart, item) - UnitsOf(cart[i], item) + UnitsOf(l, item)
  {
    hide IdOf;
    if i == 0 {
      assert cart[0 := l][1..] == cart[1..];
    } else {
      ItemUnitsReplaced(cart[1..], i - 1, l, item);
      assert cart[i := l][1..] == cart[1..][i - 1 := l];
    }
  }

  lemma {:induction false} ItemUnitsRemoved(cart: seq<CartLine>, i: nat, item: Item)
    requires i < |cart|
    ensures ItemUnits(cart[..i] + cart[i + 1..], item) == ItemUnits(cart, item) - UnitsOf(cart[i], item)
  {
    hide IdOf;
    var removed := cart[..i] + cart[i + 1..];
    if i == 0 {
      assert removed == cart[1..];
    } else {
      ItemUnitsRemoved(cart[1..], i - 1, item);
      assert removed[1..] == cart[1..][..i - 1] + cart[1..][i..];
    }
  }

  // Naming or changing who did a line, merged or not, neither adds nor loses
  // a unit of any item.
  lemma ReassignConserves(cart: seq<CartLine>, id: LineId, p: Option<string>, item: Item)
    requires Valid(cart) && ProperId(id)
    ensures ItemUnits(SetProfessional(cart, KeyOf(id), p), item) == ItemUnits(cart, item)
  {
    hide Units, Find, SetProfessional, KeyOf, LineKey, ProperId, IdOf, Proper, ItemUnits, KeysDiffer;
    var key := KeyOf(id);
    FindById(cart, id);
    if Find(cart, key).Some? && !id.item.AppointmentOf? {
      var i := Find(cart, key).value;
      var line, rest := cart[i], cart[..i] + cart[i + 1..];
      var moved := line.sold.(professionalId := OrNobody(p));
      MovedId(line.sold, p);
      if LineKey(moved) != key {
        MovedLine(cart, key, p, i);
        ItemUnitsRemoved(cart, i, item);
        ItemUnitsReplaced(cart, i, line.(sold := moved, key := LineKey(moved)), item);
        match Find(rest, LineKey(moved)) {
          case Some(j) =>
            RemovedUnits(cart, i);
            FindById(rest, id.(professional := p.GetOr("")));
            ItemUnitsReplaced(rest, j, rest[j].(quantity := rest[j].quantity + line.quantity), item);
          case None =>
        }
      } else {
        SetProfessionalStays(cart, key, p);
      }
    } else {
      SetProfessionalStays(cart, key, p);
    }
  }

  // What becomes of a discount when a line is given to someone else: it goes
  // along if and only if that professional has no line of the item yet;
  // otherwise the line that was there keeps its own and the moved one's is
  // dropped.
  lemma MovedDiscount(cart: seq<CartLine>, id: LineId, p: Option<string>, i: nat)
    requires Valid(cart) && ProperId(id) && !id.item.AppointmentOf? && Find(cart, KeyOf(id)) == Some(i)
    requires p.GetOr("") != id.professional
    ensures var to := id.(professional := p.GetOr("")); var after := SetProfessional(cart, KeyOf(id), p);
      && Find(after, KeyOf(to)).Some?
      && var moved := after[Find(after, KeyOf(to)).value].sold;
      && (to !in Units(cart) ==> moved.discount == cart[i].sold.discount)
      && (to in Units(cart) ==> Find(cart, KeyOf(to)).Some? && moved == cart[Find(cart, KeyOf(to)).value].sold)
  {
    hide Units, Find, SetProfessional, KeyOf, LineKey, ProperId, IdOf, Proper;
    var to := id.(professional := p.GetOr(""));
    var moved := cart[i].sold.(professionalId := OrNobody(p));
    var after := SetProfessional(cart, KeyOf(id), p);
    var rest := cart[..i] + cart[i + 1..];
    FindById(cart, id);
    MovedId(cart[i].sold, p);
    FindById(cart, to);
    if LineKey(moved) == KeyOf(id) { KeysTellLinesApart(id, to); }
    MovedLine(cart, KeyOf(id), p, i);
    ReassignRefines(cart, id, p);
    RemovedUnits(cart, i);
    FindById(rest, to);
    match Find(rest, KeyOf(to)) {
      case Some(j) =>
        var k := if j < i then j else j + 1;
        assert rest[j] == cart[k];
        FoundAt(cart, k);
        FoundAt(after, j);
      case None => FoundAt(after, i);
    }
  }

  // With keys that differ, a line is found where it stands.
  lemma FoundAt(cart: seq<CartLine>, i: nat)
    requires KeysDiffer(cart) && i < |cart|
    ensures Find(cart, cart[i].key) == Some(i)
  {
    hide Find;
  }

  lemma SetProfessionalStays(cart: seq<CartLine>, key: string, p: Option<string>)
    requires match Find(cart, key)
      case None => true
      case Some(i) =>
        cart[i].sold.kind == Appointment || LineKey(cart[i].sold.(professionalId := OrNobody(p))) == key
    ensures SetProfessional(cart, key, p) == cart
  {
  }

  // A quantity between 0 and 1 rounds down to a line of no units: the cart
  // stays well formed exactly when the quantity removes the line, is at least
  // one, or meets no line it can change.
  lemma FractionLeavesEmptyLine(cart: seq<CartLine>, id: LineId, q: real)
    requires Valid(cart) && ProperId(id)
    ensures Valid(SetQuantity(cart, KeyOf(id), q))
      <==> q <= 0.0 || q >= 1.0 || id !in Units(cart) || id.item.AppointmentOf?
  {
    hide Units, Find, MapKey, RemoveLine, KeyOf, LineKey, ProperId, IdOf, Proper;
    FindById(cart, id);
    if q <= 0.0 || q >= 1.0 {
      SetRefines(cart, id, q);
    } else {
      var change := UnitsSetTo(q.Floor);
      MapKeyAt(cart, KeyOf(id), change);
      match Find(cart, KeyOf(id)) {
        case Some(i) =>
          if id.item.AppointmentOf? {
            assert cart[i := change(cart[i])] == cart;
          } else {
            assert SetQuantity(cart, KeyOf(id), q)[i].quantity == 0;
          }
        case None =>
      }
    }
  }
}
