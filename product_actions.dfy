/** The product server actions: `parseProductFields` turns a submitted form into the fields of a
    product, and `getAllProducts`, `createProduct`, `updateProduct` and `deleteProduct` guard the
    product table with the caller's session and the row's owner. The table is a map from product id
    to product; an action that throws is an `Err` carrying the message, and leaves the table as it was. */
module ProductActions {
  import opened Wrappers
  import opened Text
  import Ordering

  const ONE_TIME := "ONE_TIME"
  const RECURRING := "RECURRING"
  const MONTHLY := "MONTHLY"
  const FIXED := "FIXED"
  const PERCENTAGE := "PERCENTAGE"

  const NAME_REQUIRED := "Le nom est requis"
  const PRICE_REQUIRED := "Le prix est requis"
  const UNAUTHORIZED := "Non autorisé"
  const PRODUCT_NOT_FOUND := "Produit introuvable"

  /** A submitted form: each field name mapped to its text. A field that was not submitted is
      absent, which is where `formData.get` gives null. */
  type Form = map<string, string>

  /** `parseFloat` of a text: the number it starts with, or None where JavaScript gives NaN. The
      floating-point reading itself is not modelled, so it is a parameter of the actions. */
  type ParseFloat = string -> Option<real>

  /** `formData.get(key)` */
  function Get(form: Form, key: string): Option<string> {
    if key in form then Some(form[key]) else None
  }

  /** `formData.get(key) || fallback`: the submitted text unless it is missing or empty. */
  function TextOr(form: Form, key: string, fallback: string): string {
    if key in form && form[key] != "" then form[key] else fallback
  }

  /** `parseFloat(formData.get(key))`. A missing field is read as the text "null", which is NaN. */
  function Number(form: Form, key: string, parseFloat: ParseFloat): Option<real> {
    if key in form then parseFloat(form[key]) else None
  }

  datatype ProductFields = ProductFields(
    name: string,
    description: Option<string>,
    price: real,
    billingType: string,
    recurringInterval: Option<string>,
    depositEnabled: bool,
    depositType: Option<string>,
    depositValue: Option<real>)

  /** The shape of every field set `parseProductFields` returns: a non-blank trimmed name, a trimmed
      description that is never blank, a billing type that is never empty, an interval exactly for
      recurring billing, a deposit type exactly for an enabled deposit on one-time billing, and a
      deposit value only for an enabled deposit. */
  predicate WellFormed(f: ProductFields) {
    && f.name != "" && Trimmed(f.name)
    && (f.description.Some? ==> f.description.value != "" && Trimmed(f.description.value))
    && f.billingType != ""
    && (f.recurringInterval.Some? <==> f.billingType == RECURRING)
    && (f.recurringInterval.Some? ==> f.recurringInterval.value != "")
    && (f.depositType.Some? <==> f.depositEnabled && f.billingType == ONE_TIME)
    && (f.depositType.Some? ==> f.depositType.value != "")
    && (f.depositValue.Some? ==> f.depositEnabled)
  }

  /** The name check fails: the field is missing or blank once trimmed. */
  predicate NameMissing(form: Form) {
    "name" !in form || Trim(form["name"]) == ""
  }

  /** `formData.get(key)?.trim() || null`: the trimmed text, or None when it is missing or blank. */
  function TrimmedText(form: Form, key: string): (r: Option<string>)
    ensures r.None? <==> key !in form || Trim(form[key]) == ""
    ensures r.Some? ==> r.value == Trim(form[key]) && r.value != "" && Trimmed(r.value)
  {
    if key in form && Trim(form[key]) != "" then
      Some(Trim(form[key]))
    else None
  }

  /** The billing-dependent fields: an interval (default "MONTHLY") for recurring billing only, and a
      deposit type (default "FIXED") only for an enabled deposit on one-time billing. */
  function Schedule(form: Form, billingType: string, depositEnabled: bool): (r: (Option<string>, Option<string>))
    ensures r.0.Some? <==> billingType == RECURRING
    ensures r.0.Some? ==> r.0.value != "" && r.0.value == TextOr(form, "recurringInterval", MONTHLY)
    ensures r.1.Some? <==> depositEnabled && billingType == ONE_TIME
    ensures r.1.Some? ==> r.1.value != "" && r.1.value == TextOr(form, "depositType", FIXED)
  {
    (if billingType == RECURRING then Some(TextOr(form, "recurringInterval", MONTHLY)) else None,
     if depositEnabled && billingType == ONE_TIME then Some(TextOr(form, "depositType", FIXED)) else None)
  }

  /** `parseProductFields(formData)`. The name is checked before the price. */
  function ParseProductFields(form: Form, parseFloat: ParseFloat): (r: Result<ProductFields>)
    ensures r.Err? <==> NameMissing(form) || Number(form, "price", parseFloat).None?
    ensures r.Err? ==> r.message == if NameMissing(form) then NAME_REQUIRED else PRICE_REQUIRED
    ensures r.Ok? ==> WellFormed(r.value)
    ensures r.Ok? ==> Some(r.value.name) == TrimmedText(form, "name") && parseFloat(form["price"]) == Some(r.value.price)
    ensures r.Ok? ==> r.value.description == TrimmedText(form, "description")
    ensures r.Ok? ==> r.value.billingType == TextOr(form, "billingType", ONE_TIME)
    ensures r.Ok? ==> (r.value.depositEnabled <==> Get(form, "depositEnabled") == Some("on"))
    ensures r.Ok? ==> (r.value.depositValue.Some? <==>
                         r.value.depositEnabled && Number(form, "depositValue", parseFloat).Some?)
    ensures r.Ok? ==> (r.value.recurringInterval, r.value.depositType)
                        == Schedule(form, r.value.billingType, r.value.depositEnabled)
    ensures r.Ok? ==> r.value.depositValue
                        == if r.value.depositEnabled then Number(form, "depositValue", parseFloat) else None
  {
    var name := TrimmedText(form, "name");
    if name.None? then Err(NAME_REQUIRED)
    else
      var price := Number(form, "price", parseFloat);
      if price.None? then Err(PRICE_REQUIRED)
      else
        var billingType := TextOr(form, "billingType", ONE_TIME);
        var depositEnabled := Get(form, "depositEnabled") == Some("on");
        var schedule := Schedule(form, billingType, depositEnabled);
        var depositValue := if depositEnabled then Number(form, "depositValue", parseFloat) else None;
        Ok(ProductFields(name.value, TrimmedText(form, "description"), price.value, billingType,
                         schedule.0, depositEnabled, schedule.1, depositValue))
  }

  /** A name made only of white space is refused, whatever else the form holds. */
  lemma BlankNameRefused(form: Form, parseFloat: ParseFloat)
    requires "name" in form && AllWhite(form["name"])
    ensures ParseProductFields(form, parseFloat) == Err(NAME_REQUIRED)
  {
    TrimEmptyIffAllWhite(form["name"]);
  }

  /** A deposit switched on for a recurring product is recorded as enabled but carries no deposit
      type: the "on" flag is honoured for every billing type. */
  lemma RecurringDepositHasNoType(form: Form, parseFloat: ParseFloat)
    requires ParseProductFields(form, parseFloat).Ok?
    requires Get(form, "billingType") == Some(RECURRING) && Get(form, "depositEnabled") == Some("on")
    ensures var f := ParseProductFields(form, parseFloat).value;
            f.depositEnabled && f.depositType.None? && f.recurringInterval.Some?
  {
  }

  /** The form a well-formed field set is submitted as, with `show` writing numbers as text. */
  function FieldsForm(f: ProductFields, show: real -> string): Form {
    var m0 := map["name" := f.name, "price" := show(f.price), "billingType" := f.billingType];
    var m1 := if f.description.Some? then m0["description" := f.description.value] else m0;
    var m2 := if f.recurringInterval.Some? then m1["recurringInterval" := f.recurringInterval.value] else m1;
    var m3 := if f.depositEnabled then m2["depositEnabled" := "on"] else m2;
    var m4 := if f.depositType.Some? then m3["depositType" := f.depositType.value] else m3;
    if f.depositValue.Some? then m4["depositValue" := show(f.depositValue.value)] else m4
  }

  /** What each field of `FieldsForm(f, show)` reads back as. */
  lemma FieldsFormGet(f: ProductFields, show: real -> string)
    ensures var form := FieldsForm(f, show);
            && Get(form, "name") == Some(f.name)
            && Get(form, "price") == Some(show(f.price))
            && Get(form, "billingType") == Some(f.billingType)
            && Get(form, "description") == f.description
            && Get(form, "recurringInterval") == f.recurringInterval
            && Get(form, "depositEnabled") == (if f.depositEnabled then Some("on") else None)
            && Get(form, "depositType") == f.depositType
            && Get(form, "depositValue") == (if f.depositValue.Some? then Some(show(f.depositValue.value)) else None)
  {
  }

  /** A form whose fields read back as those of a well-formed `f` parses to `f`. */
  lemma ParseOfMatchingForm(form: Form, f: ProductFields, parseFloat: ParseFloat)
    requires WellFormed(f)
    requires Get(form, "name") == Some(f.name) && Number(form, "price", parseFloat) == Some(f.price)
    requires Get(form, "billingType") == Some(f.billingType)
    requires Get(form, "description") == f.description
    requires Get(form, "recurringInterval") == f.recurringInterval
    requires Get(form, "depositEnabled") == (if f.depositEnabled then Some("on") else None)
    requires Get(form, "depositType") == f.depositType
    requires f.depositEnabled ==> Number(form, "depositValue", parseFloat) == f.depositValue
    ensures ParseProductFields(form, parseFloat) == Ok(f)
  {
    TrimOfTrimmed(f.name);
    assert TrimmedText(form, "name") == Some(f.name);
    if f.description.Some? {
      TrimOfTrimmed(f.description.value);
    }
    assert TrimmedText(form, "description") == f.description;
    assert TextOr(form, "billingType", ONE_TIME) == f.billingType;
    var schedule := Schedule(form, f.billingType, f.depositEnabled);
    assert schedule.0 == f.recurringInterval;
    assert schedule.1 == f.depositType;
  }

  /** Every well-formed field set is what `parseProductFields` makes of its own form (when `show`
      writes numbers that `parseFloat` reads back), so `WellFormed` describes exactly what the parser
      can produce. */
  lemma ParseFieldsForm(f: ProductFields, show: real -> string, parseFloat: ParseFloat)
    requires WellFormed(f)
    requires forall x :: parseFloat(show(x)) == Some(x)
    ensures ParseProductFields(FieldsForm(f, show), parseFloat) == Ok(f)
  {
    var form := FieldsForm(f, show);
    FieldsFormGet(f, show);
    assert Number(form, "price", parseFloat) == Some(f.price);
    if f.depositValue.Some? {
      var v := f.depositValue.value;
      assert parseFloat(show(v)) == Some(v);
      assert Get(form, "depositValue") == Some(show(v));
    }
    ParseOfMatchingForm(form, f, parseFloat);
  }

  // ---------------------------------------------------------------------------
  // The product table

  datatype Product = Product(id: string, userId: UserId, createdAt: int, fields: ProductFields)

  type ProductStore = map<string, Product>

  function CreatedAt(p: Product): int {
    p.createdAt
  }

  /** Every row is filed under its own id and holds fields the parser could have produced. */
  predicate StoreOk(store: ProductStore) {
    forall id :: id in store ==> store[id].id == id && WellFormed(store[id].fields)
  }

  /** The products of one user. */
  ghost function Owned(store: ProductStore, user: UserId): set<Product> {
    set p | p in store.Values && p.userId == user
  }

  /** `getAllProducts()`: nothing for an anonymous caller, otherwise exactly the caller's products,
      each once, newest first. */
  ghost function GetAllProducts(session: Session, store: ProductStore): (r: seq<Product>)
    ensures session.None? ==> r == []
    ensures session.Some? ==> forall p :: p in r <==> p in store.Values && p.userId == session.value
    ensures Ordering.NewestFirst(r, CreatedAt)
    ensures session.Some? && StoreOk(store) ==> Ordering.Distinct(r) && |r| == |Owned(store, session.value)|
  {
    match session
    case None => []
    case Some(user) =>
      if StoreOk(store) then
        AllProductsOnce(user, store);
        Ordering.FindManyNewestFirst(store, (p: Product) => p.userId == user, CreatedAt)
      else
        Ordering.FindManyNewestFirst(store, (p: Product) => p.userId == user, CreatedAt)
  }

  /** Over a well-formed table the caller's products come out once each. */
  lemma AllProductsOnce(user: UserId, store: ProductStore)
    requires StoreOk(store)
    ensures var r := Ordering.FindManyNewestFirst(store, (p: Product) => p.userId == user, CreatedAt);
            Ordering.Distinct(r) && |r| == |Owned(store, user)|
  {
    var r := Ordering.FindManyNewestFirst(store, (p: Product) => p.userId == user, CreatedAt);
    Ordering.KeyedInjective(store, (p: Product) => p.id);
    Ordering.FindManyDistinct(store, (p: Product) => p.userId == user, CreatedAt);
    Ordering.DistinctCard(r);
    assert (set p | p in r) == Owned(store, user);
  }

  /** `createProduct(formData)`: the session is checked before the form; the new row gets the id and
      the creation time the database assigns, and belongs to the caller. */
  function CreateProduct(session: Session, form: Form, parseFloat: ParseFloat, store: ProductStore,
                         newId: string, now: int): (r: Result<ProductStore>)
    requires newId !in store
    ensures session.None? ==> r == Err(UNAUTHORIZED)
    ensures session.Some? && ParseProductFields(form, parseFloat).Err? ==>
              r == Err(ParseProductFields(form, parseFloat).message)
    ensures r.Ok? <==> session.Some? && ParseProductFields(form, parseFloat).Ok?
    ensures r.Ok? ==> r.value.Keys == store.Keys + {newId}
    ensures r.Ok? ==> r.value[newId] == Product(newId, session.value, now, ParseProductFields(form, parseFloat).value)
    ensures r.Ok? ==> forall id :: id in store && id != newId ==> r.value[id] == store[id]
  {
    match session
    case None => Err(UNAUTHORIZED)
    case Some(user) =>
      match ParseProductFields(form, parseFloat)
      case Err(msg) => Err(msg)
      case Ok(fields) => Ok(store[newId := Product(newId, user, now, fields)])
  }

  /** The caller owns the product `id`: it exists and was created by the session's user. */
  predicate Owns(session: Session, store: ProductStore, id: string) {
    session.Some? && id in store && store[id].userId == session.value
  }

  /** `updateProduct(id, formData)`: session, then existence and ownership, then the form; the
      fields are replaced as a whole, and the id, owner and creation time stay. */
  function UpdateProduct(session: Session, id: string, form: Form, parseFloat: ParseFloat,
                         store: ProductStore): (r: Result<ProductStore>)
    ensures session.None? ==> r == Err(UNAUTHORIZED)
    ensures session.Some? && !Owns(session, store, id) ==> r == Err(PRODUCT_NOT_FOUND)
    ensures r.Ok? <==> Owns(session, store, id) && ParseProductFields(form, parseFloat).Ok?
    ensures Owns(session, store, id) && ParseProductFields(form, parseFloat).Err? ==>
              r == Err(ParseProductFields(form, parseFloat).message)
    ensures r.Ok? ==> r.value.Keys == store.Keys
    ensures r.Ok? ==> r.value[id].fields == ParseProductFields(form, parseFloat).value
    ensures r.Ok? ==> r.value[id].id == store[id].id && r.value[id].userId == store[id].userId
                      && r.value[id].createdAt == store[id].createdAt
    ensures r.Ok? ==> forall k :: k in store && k != id ==> r.value[k] == store[k]
  {
    if session.None? then Err(UNAUTHORIZED)
    else if !Owns(session, store, id) then Err(PRODUCT_NOT_FOUND)
    else
      match ParseProductFields(form, parseFloat)
      case Err(msg) => Err(msg)
      case Ok(fields) => Ok(store[id := store[id].(fields := fields)])
  }

  /** `deleteProduct(id)`: session, then existence and ownership; only that row goes. */
  function DeleteProduct(session: Session, id: string, store: ProductStore): (r: Result<ProductStore>)
    ensures session.None? ==> r == Err(UNAUTHORIZED)
    ensures session.Some? && !Owns(session, store, id) ==> r == Err(PRODUCT_NOT_FOUND)
    ensures r.Ok? <==> Owns(session, store, id)
    ensures r.Ok? ==> r.value.Keys == store.Keys - {id}
    ensures r.Ok? ==> forall k :: k in r.value ==> r.value[k] == store[k]
  {
    if session.None? then Err(UNAUTHORIZED)
    else if !Owns(session, store, id) then Err(PRODUCT_NOT_FOUND)
    else Ok(store - {id})
  }

  /** Each successful action keeps every row filed under its id with well-formed fields. */
  lemma ActionsKeepStoreOk(session: Session, id: string, form: Form, parseFloat: ParseFloat,
                           store: ProductStore, newId: string, now: int)
    requires newId !in store
    requires StoreOk(store)
    ensures var r := CreateProduct(session, form, parseFloat, store, newId, now); r.Ok? ==> StoreOk(r.value)
    ensures var r := UpdateProduct(session, id, form, parseFloat, store); r.Ok? ==> StoreOk(r.value)
    ensures var r := DeleteProduct(session, id, store); r.Ok? ==> StoreOk(r.value)
  {
    var c := CreateProduct(session, form, parseFloat, store, newId, now);
    if c.Ok? {
      assert c.value == store[newId := Product(newId, session.value, now, ParseProductFields(form, parseFloat).value)];
    }
    var u := UpdateProduct(session, id, form, parseFloat, store);
    if u.Ok? {
      assert u.value == store[id := store[id].(fields := ParseProductFields(form, parseFloat).value)];
    }
  }

  /** A user's update or delete leaves every other user's product list as it was. */
  lemma OtherUsersUnaffected(session: Session, other: UserId, id: string, form: Form,
                             parseFloat: ParseFloat, store: ProductStore)
    requires session.Some? && other != session.value
    ensures var r := UpdateProduct(session, id, form, parseFloat, store);
            r.Ok? ==> forall p :: p in GetAllProducts(Some(other), r.value) <==> p in GetAllProducts(Some(other), store)
    ensures var r := DeleteProduct(session, id, store);
            r.Ok? ==> forall p :: p in GetAllProducts(Some(other), r.value) <==> p in GetAllProducts(Some(other), store)
  {
    var u := UpdateProduct(session, id, form, parseFloat, store);
    if u.Ok? {
      forall p ensures p in u.value.Values && p.userId == other <==> p in store.Values && p.userId == other {
        if p in u.value.Values && p.userId == other {
          var k :| k in u.value && u.value[k] == p;
          assert k != id;
        }
        if p in store.Values && p.userId == other {
          var k :| k in store && store[k] == p;
          assert k != id;
          assert u.value[k] == p;
        }
      }
    }
    var d := DeleteProduct(session, id, store);
    if d.Ok? {
      forall p ensures p in d.value.Values && p.userId == other <==> p in store.Values && p.userId == other {
        if p in store.Values && p.userId == other {
          var k :| k in store && store[k] == p;
          assert k != id;
          assert d.value[k] == p;
        }
      }
    }
  }

  /** A product just created is in its creator's list. */
  lemma CreatedProductListed(session: Session, form: Form, parseFloat: ParseFloat, store: ProductStore,
                             newId: string, now: int)
    requires newId !in store
    requires CreateProduct(session, form, parseFloat, store, newId, now).Ok?
    ensures var s := CreateProduct(session, form, parseFloat, store, newId, now).value;
            s[newId] in GetAllProducts(session, s)
  {
  }
}
