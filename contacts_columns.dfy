/** The columns of the contacts table: the name column's sort key, avatar initials and display
    lines, the "—" fallbacks of the plain cells, the status column's filter, and the UTC date cell. */
module ContactsColumns {
  import opened Wrappers
  import opened Text

  const DASH := "—"
  const ALL := "ALL"

  /** `Contact`: a row of the contacts table as the page hands it over. */
  datatype Contact = Contact(
    id: string,
    firstName: Option<string>,
    lastName: Option<string>,
    email: Option<string>,
    phone: Option<string>,
    company: Option<string>,
    status: string,
    createdAt: string)

  /** A nullable text is truthy when it is present and not empty. */
  predicate Truthy(s: Option<string>) {
    s.Some? && s.value != ""
  }

  /** `hasName`: both names are truthy. */
  predicate HasName(c: Contact) {
    Truthy(c.firstName) && Truthy(c.lastName)
  }

  /** "first last" for a contact with both names. */
  function FullName(c: Contact): (r: string)
    requires HasName(c)
    ensures |r| == |c.firstName.value| + 1 + |c.lastName.value|
    ensures r[..|c.firstName.value|] == c.firstName.value && r[|c.firstName.value|] == ' '
    ensures r[|c.firstName.value| + 1..] == c.lastName.value
  {
    var r := c.firstName.value + " " + c.lastName.value;
    assert r[|c.firstName.value| + 1..] == c.lastName.value;
    r
  }

  /** The name column's `accessorFn`, the key it sorts on: the full name, else the company, else "". */
  function NameKey(c: Contact): (r: string)
    ensures HasName(c) ==> var f := c.firstName.value;
              |r| == |f| + 1 + |c.lastName.value| && r[..|f|] == f && r[|f|] == ' ' && r[|f| + 1..] == c.lastName.value
    ensures !HasName(c) ==> r == c.company.GetOr("")
  {
    if HasName(c) then FullName(c) else c.company.GetOr("")
  }

  /** The first line of the name cell: the full name, else the company (even when empty), else "—". */
  function DisplayName(c: Contact): (r: string)
    ensures HasName(c) ==> var f := c.firstName.value;
              |r| == |f| + 1 + |c.lastName.value| && r[..|f|] == f && r[|f|] == ' ' && r[|f| + 1..] == c.lastName.value
    ensures !HasName(c) ==> r == c.company.GetOr(DASH)
  {
    if HasName(c) then FullName(c) else c.company.GetOr(DASH)
  }

  /** The row is shown under the key it is sorted by, except that a contact with neither a full name
      nor a company sorts as "" and shows "—". */
  lemma {:induction false} DisplayFollowsSortKey(c: Contact)
    ensures DisplayName(c) == NameKey(c) <==> (HasName(c) || c.company.Some?)
    ensures !(HasName(c) || c.company.Some?) ==> NameKey(c) == "" && DisplayName(c) == DASH
  {
    if !HasName(c) && c.company.None? {
      assert DisplayName(c) == DASH && DASH != "";
    }
  }

  /** The avatar initials: the upper-cased first letters of both names; failing that, of the company;
      failing that (no company, or an empty one, whose first character is undefined) "?". */
  function Initials(c: Contact): (r: string)
    ensures HasName(c) ==> r == [UpperChar(c.firstName.value[0]), UpperChar(c.lastName.value[0])]
    ensures !HasName(c) && Truthy(c.company) ==> r == [UpperChar(c.company.value[0])]
    ensures !HasName(c) && !Truthy(c.company) ==> r == "?"
  {
    if HasName(c) then ToUpper([c.firstName.value[0], c.lastName.value[0]])
    else if Truthy(c.company) then ToUpper([c.company.value[0]])
    else ToUpper("?")
  }

  /** The avatar always shows one or two characters, and two exactly when the contact has both names. */
  lemma InitialsLength(c: Contact)
    ensures 1 <= |Initials(c)| <= 2
    ensures |Initials(c)| == 2 <==> HasName(c)
  {
  }

  /** The email line: the email, or "—" when it is null. An empty email is shown empty. */
  function EmailCell(c: Contact): (r: string)
    ensures c.email.Some? ==> r == c.email.value
    ensures c.email.None? ==> r == DASH
  {
    c.email.GetOr(DASH)
  }

  /** `value || "—"`: the company and phone cells show "—" for a null or empty value. */
  function OrDash(value: Option<string>): (r: string)
    ensures r == DASH <==> !Truthy(value) || value.value == DASH
    ensures Truthy(value) ==> r == value.value
  {
    if Truthy(value) then value.value else DASH
  }

  /** The company cell: the company, or "—" when it is null or empty. */
  function CompanyCell(c: Contact): (r: string)
    ensures Truthy(c.company) ==> r == c.company.value
    ensures !Truthy(c.company) ==> r == DASH
  {
    OrDash(c.company)
  }

  /** The phone cell: the phone number, or "—" when it is null or empty. */
  function PhoneCell(c: Contact): (r: string)
    ensures Truthy(c.phone) ==> r == c.phone.value
    ensures !Truthy(c.phone) ==> r == DASH
  {
    OrDash(c.phone)
  }

  /** The status column's `filterFn`: "ALL" keeps every row, any other value exactly the rows whose
      status is that value. */
  function StatusFilter(status: string, value: string): (r: bool)
    ensures value == ALL ==> r
    ensures value != ALL ==> (r <==> status == value)
  {
    value == ALL || status == value
  }

  // ---------------------------------------------------------------------------
  // The date cell

  const MONTHS: seq<string> := ["jan.", "fév.", "mars", "avr.", "mai", "juin", "juil.", "août",
                                "sept.", "oct.", "nov.", "déc."]

  predicate NoSpace(s: string) {
    forall i :: 0 <= i < |s| ==> s[i] != ' '
  }

  /** The date cell for the UTC day, month (1 to 12) and year of `createdAt`: the day as two digits,
      the month's abbreviation, then the year. Reading the date out of the ISO text is a library call
      and is left to the caller. */
  function DateCell(day: nat, month: nat, year: int): (r: string)
    requires 1 <= day <= 31 && 1 <= month <= 12
    ensures |r| > 3 && IsDigits(r[..2]) && DigitsValue(r[..2]) == day && r[2] == ' '
    ensures r[3..] == MONTHS[month - 1] + " " + IntToString(year)
  {
    var d := PadStart2(NatToString(day));
    var rest := MONTHS[month - 1] + " " + IntToString(year);
    PaddedDayReadsBack(day);
    DayLeads(d, rest);
    d + " " + rest
  }

  /** A two-character day followed by a space and more text starts with that day and that space,
      and the more text follows. */
  lemma DayLeads(d: string, rest: string)
    requires |d| == 2 && |rest| > 0
    ensures var s := d + " " + rest; |s| > 3 && s[..2] == d && s[2] == ' ' && s[3..] == rest
  {
    var s := d + " " + rest;
    assert s[..2] == d;
    assert s[3..] == rest;
  }

  /** The two-digit day reads back as the day. */
  lemma PaddedDayReadsBack(day: nat)
    requires day < 100
    ensures var d := PadStart2(NatToString(day)); |d| == 2 && IsDigits(d) && DigitsValue(d) == day
  {
    var s := NatToString(day);
    NatToStringRoundTrip(day);
    if day < 10 {
      var d := PadStart2(s);
      assert d == "0" + s;
      assert d[..1] == "0";
    } else {
      assert s[..|s| - 1] == NatToString(day / 10);
    }
  }

  /** In `a + " " + b` with no space in `a`, the first space is the one after `a`. */
  lemma FirstSpace(a: string, b: string)
    requires NoSpace(a)
    ensures var s := a + " " + b; s[|a|] == ' ' && forall i :: 0 <= i < |a| ==> s[i] != ' '
  {
  }

  /** Two texts split at their first space: if the parts before it have no space, the split is the same. */
  lemma SplitAtSpace(a: string, b: string, c: string, d: string)
    requires NoSpace(a) && NoSpace(c)
    requires a + " " + b == c + " " + d
    ensures a == c && b == d
  {
    var s := a + " " + b;
    FirstSpace(a, b);
    FirstSpace(c, d);
    assert |a| == |c|;
    assert a == s[..|a|] && c == s[..|c|];
    assert b == s[|a| + 1..] && d == s[|c| + 1..];
  }

  lemma MonthNoSpace(m: nat)
    requires 1 <= m <= 12
    ensures NoSpace(MONTHS[m - 1])
  {
  }

  lemma MonthsApart(m1: nat, m2: nat)
    requires 1 <= m1 <= 12 && 1 <= m2 <= 12
    requires MONTHS[m1 - 1] == MONTHS[m2 - 1]
    ensures m1 == m2
  {
  }

  lemma {:induction false} IntToStringInjective(x: int, y: int)
    requires IntToString(x) == IntToString(y)
    ensures x == y
  {
    var s := IntToString(x);
    if x < 0 && y < 0 {
      assert NatToString(-x) == s[1..] == NatToString(-y);
      NatToStringInjective(-x, -y);
    } else if x >= 0 && y >= 0 {
      NatToStringInjective(x, y);
    }
  }

  lemma IntToStringNoSpace(x: int)
    ensures NoSpace(IntToString(x))
  {
    if x < 0 {
      assert IntToString(x) == "-" + NatToString(-x);
    }
  }

  /** The date cell split at its first space: the padded day, then the rest. */
  lemma DateCellSplit(day: nat, month: nat, year: int)
    requires 1 <= day <= 31 && 1 <= month <= 12
    ensures DateCell(day, month, year) == PadStart2(NatToString(day)) + " " + (MONTHS[month - 1] + " " + IntToString(year))
  {
  }

  /** Two contacts show the same date exactly when they were created on the same UTC day. */
  lemma {:induction false} DateCellInjective(d1: nat, m1: nat, y1: int, d2: nat, m2: nat, y2: int)
    requires 1 <= d1 <= 31 && 1 <= m1 <= 12 && 1 <= d2 <= 31 && 1 <= m2 <= 12
    ensures DateCell(d1, m1, y1) == DateCell(d2, m2, y2) <==> d1 == d2 && m1 == m2 && y1 == y2
  {
    if DateCell(d1, m1, y1) == DateCell(d2, m2, y2) {
      var p1, p2 := PadStart2(NatToString(d1)), PadStart2(NatToString(d2));
      PaddedDayReadsBack(d1);
      PaddedDayReadsBack(d2);
      assert NoSpace(p1) && NoSpace(p2);
      DateCellSplit(d1, m1, y1);
      DateCellSplit(d2, m2, y2);
      SplitAtSpace(p1, MONTHS[m1 - 1] + " " + IntToString(y1), p2, MONTHS[m2 - 1] + " " + IntToString(y2));
      MonthNoSpace(m1);
      MonthNoSpace(m2);
      SplitAtSpace(MONTHS[m1 - 1], IntToString(y1), MONTHS[m2 - 1], IntToString(y2));
      MonthsApart(m1, m2);
      IntToStringInjective(y1, y2);
    }
  }
}
