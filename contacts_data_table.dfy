/** The contacts table: the search box's row test, the status picker and the column filters it
    sets, the rows left by both, the footer, and the row click that opens the edit sheet. */
module ContactsTable {
  import opened Wrappers
  import opened Text
  import opened ContactsColumns
  import ContactActions
  import TableFooter

  const NOUN := "contact"

  // ---------------------------------------------------------------------------
  // globalFilterFn

  /** The search test as written. It reads `firstName.toLowerCase()` and then
      `lastName.toLowerCase()` without a null check, so on a row whose name is null it throws instead
      of answering (`None`); `||` stops at the first field that matches. Email and company are
      null-checked and a null one does not match. */
  function ContactMatchesAsWritten(c: Contact, query: string): (r: Option<bool>)
    ensures r.None? <==> c.firstName.None? || (!SearchIncludes(c.firstName.value, query) && c.lastName.None?)
    ensures r.Some? ==> (r.value <==> ContactMatches(c, query))
  {
    if c.firstName.None? then None
    else if SearchIncludes(c.firstName.value, query) then Some(true)
    else if c.lastName.None? then None
    else Some(SearchIncludes(c.lastName.value, query)
              || (c.email.Some? && SearchIncludes(c.email.value, query))
              || (c.company.Some? && SearchIncludes(c.company.value, query)))
  }

  /** The field is present and the query occurs in it, ignoring case. */
  ghost predicate FieldMatches(field: Option<string>, query: string) {
    field.Some? && MatchesSearch(field.value, query)
  }

  /** The search test as the table means it: a row matches when the query occurs, ignoring case, in
      its first name, last name, email or company; a null field never matches. */
  function ContactMatches(c: Contact, query: string): (r: bool)
    ensures r <==> FieldMatches(c.firstName, query) || FieldMatches(c.lastName, query)
                   || FieldMatches(c.email, query) || FieldMatches(c.company, query)
  {
    Matches(c.firstName, query) || Matches(c.lastName, query) || Matches(c.email, query) || Matches(c.company, query)
  }

  function Matches(field: Option<string>, query: string): (r: bool)
    ensures r <==> FieldMatches(field, query)
  {
    field.Some? && SearchIncludes(field.value, query)
  }

  /** Whenever the written test gives an answer it is the intended one; it fails to answer only on
      rows with a null name. */
  lemma AsWrittenAgreesOnNamedRows(c: Contact, query: string)
    requires c.firstName.Some? && c.lastName.Some?
    ensures ContactMatchesAsWritten(c, query) == Some(ContactMatches(c, query))
  {
  }

  /** A company-only contact, which the contact form accepts and which the row type allows, has no
      first name, and the written search test throws on it for every query. */
  lemma CompanyOnlyRowBreaksSearch(c: Contact, query: string)
    requires c.firstName.None? && c.company == Some("Acme")
    ensures ContactMatchesAsWritten(c, query).None?
    ensures ContactMatches(c, query) <==> FieldMatches(c.lastName, query) || FieldMatches(c.email, query)
                                          || MatchesSearch("Acme", query)
  {
  }

  /** A contact stored by the intended `createContact` from a company alone has null names, so the
      written test cannot search a table that holds it. */
  lemma {:induction false} IntendedCompanyOnlyContactBreaksSearch(user: UserId, form: ContactActions.Form,
      store: ContactActions.ContactStore, newId: string, now: int, c: Contact, query: string)
    requires newId !in store
    requires ContactActions.Field(form, "firstName") == "" && Trim(ContactActions.Field(form, "company")) != ""
    requires c.firstName == ContactActions.CreateContactIntended(Some(user), form, store, newId, now).value[newId].firstName
    ensures ContactActions.CreateContactIntended(Some(user), form, store, newId, now).Ok?
    ensures ContactMatchesAsWritten(c, query).None?
  {
  }

  // ---------------------------------------------------------------------------
  // Column filters and the status picker

  datatype ColumnFilter = ColumnFilter(id: string, value: string)

  /** The column filters `handleStatusFilter(value)` sets: none for "ALL", otherwise one, on status.
      The picker shows back the value chosen. */
  function StatusFilters(value: string): (r: seq<ColumnFilter>)
    ensures value == ALL <==> r == []
    ensures |r| <= 1 && forall f :: f in r ==> f.id == "status"
    ensures PickerValue(r) == value
  {
    if value != ALL then [ColumnFilter("status", value)] else []
  }

  /** `columnFilters.find((f) => f.id === "status")?.value ?? "ALL"`: what the picker shows. */
  function PickerValue(filters: seq<ColumnFilter>): (r: string)
    ensures (forall i :: 0 <= i < |filters| ==> filters[i].id != "status") ==> r == ALL
    ensures forall i :: (0 <= i < |filters| && filters[i].id == "status" &&
                         forall j :: 0 <= j < i ==> filters[j].id != "status") ==> r == filters[i].value
  {
    if filters == [] then ALL
    else if filters[0].id == "status" then filters[0].value
    else PickerValue(filters[1..])
  }

  /** A row passes the column filters when it passes the status column's filter for each status entry. */
  predicate PassesFilters(c: Contact, filters: seq<ColumnFilter>) {
    forall i :: 0 <= i < |filters| && filters[i].id == "status" ==> StatusFilter(c.status, filters[i].value)
  }

  /** After the picker is set to a value, "ALL" keeps every row and any other value exactly the rows
      with that status. */
  lemma PickerFilters(c: Contact, value: string)
    ensures PassesFilters(c, StatusFilters(value)) <==> value == ALL || c.status == value
  {
    if value != ALL {
      assert StatusFilters(value)[0] == ColumnFilter("status", value);
    }
  }

  // ---------------------------------------------------------------------------
  // The filtered rows and the footer

  /** A row stays in the table: it passes the column filters and, for a non-empty query, the search.
      The table library runs no search for an empty query. */
  predicate Kept(c: Contact, query: string, filters: seq<ColumnFilter>) {
    PassesFilters(c, filters) && (query == "" || ContactMatches(c, query))
  }

  /** The rows left by the column filters and the search, in table order: a kept row stays as often
      as it occurs in the data, any other row goes. */
  function FilteredRows(data: seq<Contact>, query: string, filters: seq<ColumnFilter>): (r: seq<Contact>)
    ensures |r| <= |data|
    ensures forall c :: c in r <==> c in data && Kept(c, query, filters)
    ensures forall c :: multiset(r)[c] == if Kept(c, query, filters) then multiset(data)[c] else 0
  {
    if data == [] then []
    else
      var rest := FilteredRows(data[1..], query, filters);
      assert data == [data[0]] + data[1..];
      if Kept(data[0], query, filters) then [data[0]] + rest
      else rest
  }

  /** Filtering keeps the table's order: the rows left from `a + b` are those left from `a`, then
      those left from `b`. */
  lemma {:induction false} FilteredRowsAppend(a: seq<Contact>, b: seq<Contact>, query: string,
                                              filters: seq<ColumnFilter>)
    ensures FilteredRows(a + b, query, filters) == FilteredRows(a, query, filters) + FilteredRows(b, query, filters)
  {
    if a == [] {
      assert a + b == b;
    } else {
      assert (a + b)[0] == a[0];
      assert (a + b)[1..] == a[1..] + b;
      FilteredRowsAppend(a[1..], b, query, filters);
    }
  }

  /** With no search and "ALL" chosen, every row is counted. */
  lemma {:induction false} NothingFilteredCountsAll(data: seq<Contact>)
    ensures FilteredRows(data, "", StatusFilters(ALL)) == data
  {
    if data != [] {
      NothingFilteredCountsAll(data[1..]);
    }
  }

  /** The footer under the contacts table: it starts with the number of rows the filters and the
      search leave. */
  function Footer(data: seq<Contact>, query: string, filters: seq<ColumnFilter>, pageIndex: nat, pageCount: nat)
    : (r: string)
    ensures var n := |FilteredRows(data, query, filters)|; var d := |NatToString(n)|;
            |r| > d && IsDigits(r[..d]) && DigitsValue(r[..d]) == n && r[d] == ' '
  {
    var n := |FilteredRows(data, query, filters)|;
    TableFooter.FooterCountReadsBack(n, NOUN, pageIndex, pageCount);
    TableFooter.FooterText(n, NOUN, pageIndex, pageCount)
  }

  // ---------------------------------------------------------------------------
  // The table's state

  /** The state of `DataTable` that its own handlers change. */
  class ContactsDataTable {
    var columnFilters: seq<ColumnFilter>
    var editContact: Option<Contact>
    var editOpen: bool

    constructor()
      ensures columnFilters == [] && editContact.None? && !editOpen
    {
      columnFilters, editContact, editOpen := [], None, false;
    }

    /** `handleStatusFilter(value)` */
    method HandleStatusFilter(value: string)
      modifies this
      ensures columnFilters == StatusFilters(value)
      ensures PickerValue(columnFilters) == value
      ensures editContact == old(editContact) && editOpen == old(editOpen)
    {
      columnFilters := StatusFilters(value);
    }

    /** `handleRowClick(contact)`: the clicked contact is the one edited, and the sheet opens. */
    method HandleRowClick(contact: Contact)
      modifies this
      ensures editContact == Some(contact) && editOpen
      ensures columnFilters == old(columnFilters)
    {
      editContact := Some(contact);
      editOpen := true;
    }
  }
}
