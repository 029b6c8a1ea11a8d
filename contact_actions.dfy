/** The contact server actions: `createContact` reads a submitted form, checks the session and the
    names and inserts a row owned by the caller; `getRecentContacts` lists the caller's five newest
    contacts. The contact table is a map from contact id to row. */
module ContactActions {
  import opened Wrappers
  import opened Text
  import Ordering

  const UNAUTHORIZED := "Non autorisé"
  const NAMES_REQUIRED := "Le prénom et le nom sont requis"
  const NAME_OR_COMPANY_REQUIRED := "Renseignez un prénom/nom ou une entreprise"
  const RECENT_COUNT := 5

  /** A submitted form: field name to text; a field that was not submitted is absent. */
  type Form = map<string, string>

  /** A contact row. The names are nullable in the table, as in the row type the list page uses. */
  datatype ContactRow = ContactRow(
    id: string,
    userId: UserId,
    createdAt: int,
    firstName: Option<string>,
    lastName: Option<string>,
    email: Option<string>,
    phone: Option<string>,
    company: Option<string>)

  type ContactStore = map<string, ContactRow>

  function CreatedAt(c: ContactRow): int {
    c.createdAt
  }

  /** Every row is filed under its own id. */
  predicate StoreOk(store: ContactStore) {
    forall id :: id in store ==> store[id].id == id
  }

  /** The contacts of one user. */
  ghost function Owned(store: ContactStore, user: UserId): set<ContactRow> {
    set c | c in store.Values && c.userId == user
  }

  /** `formData.get(key)` is a non-empty text: what `!value` tests, untrimmed. */
  predicate Filled(form: Form, key: string) {
    key in form && form[key] != ""
  }

  /** `(formData.get(key) as string) || null`: the submitted text as it is, or null when it is
      missing or empty. A text of spaces is kept. */
  function OrNull(form: Form, key: string): (r: Option<string>)
    ensures r.None? <==> !Filled(form, key)
    ensures r.Some? ==> r.value == form[key]
  {
    if Filled(form, key) then Some(form[key]) else None
  }

  /** `createContact(formData)` as written: the session is checked first, then both names, which
      must be non-empty but are not trimmed; a company does not stand in for them. Names are stored
      exactly as submitted, and empty email, phone and company become null. */
  function CreateContact(session: Session, form: Form, store: ContactStore, newId: string, now: int)
    : (r: Result<ContactStore>)
    requires newId !in store
    ensures session.None? ==> r == Err(UNAUTHORIZED)
    ensures session.Some? && !(Filled(form, "firstName") && Filled(form, "lastName")) ==> r == Err(NAMES_REQUIRED)
    ensures r.Ok? <==> session.Some? && Filled(form, "firstName") && Filled(form, "lastName")
    ensures r.Ok? ==> r.value.Keys == store.Keys + {newId}
    ensures r.Ok? ==> forall id :: id in store && id != newId ==> r.value[id] == store[id]
    ensures r.Ok? ==> var c := r.value[newId];
                      && c.id == newId && c.userId == session.value && c.createdAt == now
                      && c.firstName == Some(form["firstName"]) && c.lastName == Some(form["lastName"])
                      && c.email == OrNull(form, "email") && c.phone == OrNull(form, "phone")
                      && c.company == OrNull(form, "company")
  {
    if session.None? then Err(UNAUTHORIZED)
    else if !Filled(form, "firstName") || !Filled(form, "lastName") then Err(NAMES_REQUIRED)
    else
      var row := ContactRow(newId, session.value, now, Some(form["firstName"]), Some(form["lastName"]),
                            OrNull(form, "email"), OrNull(form, "phone"), OrNull(form, "company"));
      Ok(store[newId := row])
  }

  /** The contact check the application documents and its own form applies: a first and last name,
      or else a company, each judged after trimming. */
  predicate NameOrCompany(first: string, last: string, company: string) {
    (Trim(first) != "" && Trim(last) != "") || Trim(company) != ""
  }

  /** `formData.get(key)` read as text, the empty text standing for a missing field. */
  function Field(form: Form, key: string): string {
    if key in form then form[key] else ""
  }

  /** `createContact` with the name-or-company check in place of the name check, so that the
      server accepts every contact its form lets through. Everything else is as written. */
  function CreateContactIntended(session: Session, form: Form, store: ContactStore, newId: string, now: int)
    : (r: Result<ContactStore>)
    requires newId !in store
    ensures session.None? ==> r == Err(UNAUTHORIZED)
    ensures r.Ok? <==> session.Some? && NameOrCompany(Field(form, "firstName"), Field(form, "lastName"), Field(form, "company"))
    ensures r.Err? && session.Some? ==> r.message == NAME_OR_COMPANY_REQUIRED
    ensures r.Ok? ==> r.value.Keys == store.Keys + {newId}
    ensures r.Ok? ==> forall id :: id in store && id != newId ==> r.value[id] == store[id]
    ensures r.Ok? ==> var c := r.value[newId];
                      && c.id == newId && c.userId == session.value && c.createdAt == now
                      && c.firstName == OrNull(form, "firstName") && c.lastName == OrNull(form, "lastName")
                      && c.email == OrNull(form, "email") && c.phone == OrNull(form, "phone")
                      && c.company == OrNull(form, "company")
  {
    if session.None? then Err(UNAUTHORIZED)
    else if !NameOrCompany(Field(form, "firstName"), Field(form, "lastName"), Field(form, "company")) then
      Err(NAME_OR_COMPANY_REQUIRED)
    else
      var row := ContactRow(newId, session.value, now, OrNull(form, "firstName"), OrNull(form, "lastName"),
                            OrNull(form, "email"), OrNull(form, "phone"), OrNull(form, "company"));
      Ok(store[newId := row])
  }

  /** A contact the intended check accepts always shows something to identify it: both names, or a
      non-blank company. */
  lemma {:induction false} IntendedRowIdentified(session: Session, form: Form, store: ContactStore, newId: string, now: int)
    requires newId !in store
    requires CreateContactIntended(session, form, store, newId, now).Ok?
    ensures var c := CreateContactIntended(session, form, store, newId, now).value[newId];
            (c.firstName.Some? && c.lastName.Some?) || (c.company.Some? && Trim(c.company.value) != "")
  {
    var first, last, company := Field(form, "firstName"), Field(form, "lastName"), Field(form, "company");
    if Trim(first) != "" && Trim(last) != "" {
      assert first != "" && last != "";
    } else {
      assert Trim(company) != "";
      assert company != "";
    }
  }

  /** Every contact the server accepts as written, unless a name is made only of white space, is
      also accepted by the intended check. */
  lemma {:induction false} IntendedAcceptsMore(session: Session, form: Form, store: ContactStore, newId: string, now: int)
    requires newId !in store
    requires CreateContact(session, form, store, newId, now).Ok?
    requires !AllWhite(form["firstName"]) && !AllWhite(form["lastName"])
    ensures CreateContactIntended(session, form, store, newId, now).Ok?
  {
    TrimEmptyIffAllWhite(form["firstName"]);
    TrimEmptyIffAllWhite(form["lastName"]);
  }

  /** `getRecentContacts()`: nothing for an anonymous caller; otherwise the caller's five newest
      contacts (all of them when there are fewer), each once, newest first: no contact of the caller
      left out is newer than one listed. */
  ghost function GetRecentContacts(session: Session, store: ContactStore): (r: seq<ContactRow>)
    ensures session.None? ==> r == []
    ensures |r| <= RECENT_COUNT
    ensures Ordering.NewestFirst(r, CreatedAt)
    ensures forall c :: c in r ==> c in store.Values && c.userId == session.value
    ensures session.Some? ==> forall c, d :: c in store.Values && c.userId == session.value && c !in r && d in r ==>
              c.createdAt <= d.createdAt
    ensures session.Some? && |r| < RECENT_COUNT ==>
              forall c :: c in store.Values && c.userId == session.value ==> c in r
    ensures session.Some? && StoreOk(store) ==>
              && Ordering.Distinct(r)
              && |r| == if |Owned(store, session.value)| < RECENT_COUNT then |Owned(store, session.value)| else RECENT_COUNT
  {
    match session
    case None => []
    case Some(user) =>
      RecentNewest(user, store);
      RecentAll(user, store);
      if StoreOk(store) then
        RecentCount(user, store);
        Recent(user, store)
      else
        Recent(user, store)
  }

  /** `findMany({ where: { userId }, orderBy: { createdAt: "desc" }, take: 5 })` */
  ghost function Recent(user: UserId, store: ContactStore): seq<ContactRow> {
    Ordering.Take(Ordering.FindManyNewestFirst(store, (c: ContactRow) => c.userId == user, CreatedAt), RECENT_COUNT)
  }

  /** The recent list is the caller's, newest first, and nothing left out is newer than a listed one. */
  lemma RecentNewest(user: UserId, store: ContactStore)
    ensures var r := Recent(user, store);
            && |r| <= RECENT_COUNT
            && Ordering.NewestFirst(r, CreatedAt)
            && (forall c :: c in r ==> c in store.Values && c.userId == user)
            && (forall c, d :: c in store.Values && c.userId == user && c !in r && d in r ==> c.createdAt <= d.createdAt)
  {
    var all := Ordering.FindManyNewestFirst(store, (c: ContactRow) => c.userId == user, CreatedAt);
    Ordering.TakeKeepsNewest(all, RECENT_COUNT, CreatedAt);
    assert forall c :: c in Recent(user, store) ==> c in all;
  }

  /** A recent list shorter than five holds all of the caller's contacts. */
  lemma RecentAll(user: UserId, store: ContactStore)
    ensures var r := Recent(user, store);
            |r| < RECENT_COUNT ==> forall c :: c in store.Values && c.userId == user ==> c in r
  {
  }

  /** Creating a contact, as written or as intended, keeps every row filed under its own id. */
  lemma CreateKeepsStoreOk(session: Session, form: Form, store: ContactStore, newId: string, now: int)
    requires StoreOk(store) && newId !in store
    ensures var r := CreateContact(session, form, store, newId, now); r.Ok? ==> StoreOk(r.value)
    ensures var r := CreateContactIntended(session, form, store, newId, now); r.Ok? ==> StoreOk(r.value)
  {
  }

  /** Over a table whose rows carry their own ids, the caller's contacts come out once each. */
  lemma RecentCount(user: UserId, store: ContactStore)
    requires StoreOk(store)
    ensures var r := Recent(user, store);
            && Ordering.Distinct(r)
            && |r| == if |Owned(store, user)| < RECENT_COUNT then |Owned(store, user)| else RECENT_COUNT
  {
    var all := Ordering.FindManyNewestFirst(store, (c: ContactRow) => c.userId == user, CreatedAt);
    Ordering.KeyedInjective(store, (c: ContactRow) => c.id);
    Ordering.FindManyDistinct(store, (c: ContactRow) => c.userId == user, CreatedAt);
    Ordering.DistinctCard(all);
    assert (set v | v in all) == Owned(store, user);
    Ordering.TakeDistinct(all, RECENT_COUNT);
  }

  /** A contact just created by a caller with fewer than five contacts shows among their recent ones. */
  lemma NewContactListed(session: Session, form: Form, store: ContactStore, newId: string, now: int)
    requires newId !in store
    requires CreateContact(session, form, store, newId, now).Ok?
    requires |GetRecentContacts(session, CreateContact(session, form, store, newId, now).value)| < RECENT_COUNT
    ensures var s := CreateContact(session, form, store, newId, now).value;
            s[newId] in GetRecentContacts(session, s)
  {
    var s := CreateContact(session, form, store, newId, now).value;
    assert s[newId] in s.Values;
  }
}
