/** The "new contact" sheet: a pre-check that wants a first and last name or else a company, then
    the call to `createContact` with the whole form. Its pre-check and the server's own check do not
    agree, which the lemmas at the end make precise. */
module CreateContactSheet {
  import opened Wrappers
  import opened Text
  import ContactActions

  type Form = ContactActions.Form

  const REFUSED := ContactActions.NAME_OR_COMPANY_REQUIRED

  /** The sheet's form always has these inputs, so `formData.get` gives their text. */
  predicate HasInputs(form: Form) {
    "firstName" in form && "lastName" in form && "company" in form
  }

  /** The pre-check of `handleSubmit`: refused when the trimmed company is blank and either trimmed
      name is blank. */
  predicate Accepts(form: Form)
    requires HasInputs(form)
  {
    !((Trim(form["firstName"]) == "" || Trim(form["lastName"]) == "") && Trim(form["company"]) == "")
  }

  /** The state of `CreateContactSheet`: one field per `useState` variable. */
  class CreateContactSheet {
    var open: bool
    var loading: bool
    var error: string

    constructor()
      ensures !open && !loading && error == ""
    {
      open, loading, error := false, false, "";
    }

    /** `onOpenChange={setOpen}` */
    method SetOpen(value: bool)
      modifies this
      ensures open == value && loading == old(loading) && error == old(error)
    {
      open := value;
    }

    /** `handleSubmit(e)`: the error is cleared first. A refused form sets the refusal message and
        calls nothing; loading is never set. Otherwise `createContact` is called (`called`) and the
        sheet closes only when it resolves; a rejection shows its message; loading ends either way. */
    method HandleSubmit(form: Form, outcome: Outcome) returns (called: bool)
      requires HasInputs(form)
      modifies this
      ensures called <==> Accepts(form)
      ensures !called ==> error == REFUSED && loading == old(loading) && open == old(open)
      ensures called && outcome.Pass? ==> !open && error == ""
      ensures called && outcome.Fail? ==> open == old(open) && error == outcome.message
      ensures called ==> !loading
    {
      error := "";
      if !Accepts(form) {
        error := REFUSED;
        return false;
      }
      called := true;
      loading := true;
      if outcome.Pass? {
        open := false;
      } else {
        error := outcome.message;
      }
      loading := false;
    }
  }

  /** A company on its own passes the sheet, whatever the names. */
  lemma CompanyAlonePasses(form: Form)
    requires HasInputs(form) && !AllWhite(form["company"])
    ensures Accepts(form)
  {
    TrimEmptyIffAllWhite(form["company"]);
  }

  /** As written, every form the sheet lets through without a first name (or without a last name)
      is then refused by `createContact`: the sheet promises what the server does not keep. */
  lemma {:induction false} SheetAndServerDisagree(form: Form, session: Session, store: ContactActions.ContactStore,
                                                  newId: string, now: int)
    requires newId !in store
    requires HasInputs(form) && Accepts(form) && session.Some?
    requires form["firstName"] == "" || form["lastName"] == ""
    ensures ContactActions.CreateContact(session, form, store, newId, now) == Err(ContactActions.NAMES_REQUIRED)
  {
  }

  /** A company-only contact, "Acme" with both names left empty: the sheet accepts it and the
      server as written refuses it. */
  lemma {:induction false} CompanyOnlyRefused(form: Form, user: UserId, store: ContactActions.ContactStore,
                                              newId: string, now: int)
    requires newId !in store
    requires form == map["firstName" := "", "lastName" := "", "company" := "Acme"]
    ensures HasInputs(form) && Accepts(form)
    ensures ContactActions.CreateContact(Some(user), form, store, newId, now) == Err(ContactActions.NAMES_REQUIRED)
  {
    assert form["company"][0] == 'A';
    assert !AllWhite(form["company"]);
    CompanyAlonePasses(form);
    SheetAndServerDisagree(form, Some(user), store, newId, now);
  }

  /** With the intended server check the two sides agree on every form of the sheet: the server
      stores a contact exactly when the sheet lets it through. */
  lemma {:induction false} SheetAgreesWithIntended(form: Form, user: UserId, store: ContactActions.ContactStore,
                                                   newId: string, now: int)
    requires newId !in store
    requires HasInputs(form)
    ensures Accepts(form) <==> ContactActions.CreateContactIntended(Some(user), form, store, newId, now).Ok?
  {
    assert ContactActions.Field(form, "firstName") == form["firstName"];
    assert ContactActions.Field(form, "lastName") == form["lastName"];
    assert ContactActions.Field(form, "company") == form["company"];
  }
}
