/** The sheet that edits a contact picked in the contacts table: saving, and a delete button that
    must be pressed twice. The contact and the sheet's open flag belong to the table; the sheet
    reports a close through `onOpenChange`, which each handler returns. */
module EditContactSheet {
  import opened Wrappers

  const DELETING_LABEL := "Suppression..."
  const CONFIRM_LABEL := "Confirmer la suppression"
  const DELETE_LABEL := "Supprimer le contact"

  /** The delete button's text. */
  function DeleteLabel(deleting: bool, confirmDelete: bool): (r: string)
    ensures deleting ==> r == DELETING_LABEL
    ensures !deleting ==> (r == CONFIRM_LABEL <==> confirmDelete)
    ensures r != DELETE_LABEL <==> deleting || confirmDelete
  {
    if deleting then DELETING_LABEL else if confirmDelete then CONFIRM_LABEL else DELETE_LABEL
  }

  /** The state of `EditContactSheet`: one field per `useState` variable. */
  class EditContactSheet {
    var loading: bool
    var deleting: bool
    var error: string
    var confirmDelete: bool

    constructor()
      ensures !loading && !deleting && error == "" && !confirmDelete
    {
      loading, deleting, error, confirmDelete := false, false, "", false;
    }

    /** `handleSubmit(e)` for the contact `contact` (the prop; None when no contact is picked):
        without a contact nothing happens. Otherwise `updateContact` is called (`updated`), the
        sheet asks to close (`closes`) only when it resolves, a rejection's message is shown, and
        loading ends either way. */
    method HandleSubmit(contact: Option<string>, outcome: Outcome) returns (updated: Option<string>, closes: bool)
      modifies this
      ensures updated == contact
      ensures contact.None? ==> !closes && loading == old(loading) && error == old(error)
      ensures contact.Some? ==> closes == outcome.Pass? && !loading
      ensures contact.Some? ==> error == if outcome.Fail? then outcome.message else ""
      ensures deleting == old(deleting) && confirmDelete == old(confirmDelete)
    {
      if contact.None? {
        return None, false;
      }
      error := "";
      loading := true;
      updated := contact;
      closes := outcome.Pass?;
      if outcome.Fail? {
        error := outcome.message;
      }
      loading := false;
    }

    /** `handleDelete()`: without a contact nothing happens. The first press only arms the
        confirmation and calls nothing; a press while armed calls `deleteContact` once (`deleted`),
        closes on success, shows the message on failure, and then disarms and ends deleting. */
    method HandleDelete(contact: Option<string>, outcome: Outcome) returns (deleted: Option<string>, closes: bool)
      modifies this
      ensures deleted.Some? <==> contact.Some? && old(confirmDelete)
      ensures deleted.Some? ==> deleted == contact
      ensures closes <==> deleted.Some? && outcome.Pass?
      ensures contact.None? ==> confirmDelete == old(confirmDelete) && error == old(error)
      ensures contact.Some? && !old(confirmDelete) ==> confirmDelete && error == old(error)
      ensures deleted.Some? ==> !confirmDelete && error == (if outcome.Fail? then outcome.message else "")
      ensures deleted.Some? ==> !deleting
      ensures deleted.None? ==> deleting == old(deleting)
      ensures loading == old(loading)
    {
      if contact.None? {
        return None, false;
      }
      if !confirmDelete {
        confirmDelete := true;
        return None, false;
      }
      deleting := true;
      error := "";
      deleted := contact;
      closes := outcome.Pass?;
      if outcome.Fail? {
        error := outcome.message;
      }
      deleting := false;
      confirmDelete := false;
    }

    /** `handleOpenChange(value)`: closing disarms the confirmation and clears the error; the value
        is passed on to the table either way. */
    method HandleOpenChange(value: bool) returns (notified: bool)
      modifies this
      ensures notified == value
      ensures !value ==> !confirmDelete && error == ""
      ensures value ==> confirmDelete == old(confirmDelete) && error == old(error)
      ensures loading == old(loading) && deleting == old(deleting)
    {
      if !value {
        confirmDelete := false;
        error := "";
      }
      notified := value;
    }
  }
}
