/** The contact status badge: a French label and a colour class per lifecycle status, with a
    fallback for a status the tables do not know. The same label table also serves the status-change
    entries of the activity timeline. */
module StatusBadge {

  const LEAD := "LEAD"
  const PROSPECT := "PROSPECT"
  const CLIENT := "CLIENT"
  const INACTIVE := "INACTIVE"

  /** The four statuses a contact can have. */
  predicate Known(status: string) {
    status == LEAD || status == PROSPECT || status == CLIENT || status == INACTIVE
  }

  /** `statusLabels` */
  const LABELS: map<string, string> :=
    map[LEAD := "Lead", PROSPECT := "Prospect", CLIENT := "Client", INACTIVE := "Inactif"]

  /** `statusColors` */
  const COLORS: map<string, string> := map[
    LEAD := "bg-blue-100 text-blue-700 dark:bg-blue-900 dark:text-blue-300",
    PROSPECT := "bg-amber-100 text-amber-700 dark:bg-amber-900 dark:text-amber-300",
    CLIENT := "bg-green-100 text-green-700 dark:bg-green-900 dark:text-green-300",
    INACTIVE := "bg-gray-100 text-gray-700 dark:bg-gray-900 dark:text-gray-300"]

  /** `statusLabels[status] ?? status`: a known status is shown by its label, any other text as it is. */
  function StatusLabel(status: string): (r: string)
    ensures Known(status) <==> status in LABELS
    ensures !Known(status) ==> r == status
  {
    if status in LABELS then LABELS[status] else status
  }

  /** `statusColors[status] ?? ""`: the colour class of a known status, none for any other. */
  function StatusColor(status: string): (r: string)
    ensures Known(status) <==> status in COLORS
    ensures r == "" <==> !Known(status)
    ensures Known(status) ==> r == COLORS[status]
  {
    if status in COLORS then COLORS[status] else ""
  }

  /** The four known statuses have four different colour classes. */
  lemma ColorsApart(s: string, t: string)
    requires Known(s) && Known(t) && StatusColor(s) == StatusColor(t)
    ensures s == t
  {
    assert COLORS[LEAD] != COLORS[PROSPECT] && COLORS[LEAD] != COLORS[CLIENT] && COLORS[LEAD] != COLORS[INACTIVE];
    assert COLORS[PROSPECT] != COLORS[CLIENT] && COLORS[PROSPECT] != COLORS[INACTIVE];
    assert COLORS[CLIENT] != COLORS[INACTIVE];
  }

  /** The four labels. */
  lemma KnownLabels()
    ensures StatusLabel(LEAD) == "Lead" && StatusLabel(PROSPECT) == "Prospect"
    ensures StatusLabel(CLIENT) == "Client" && StatusLabel(INACTIVE) == "Inactif"
  {
  }

  /** Two statuses that look the same on the badge are the same status: the labels of the known
      statuses differ from each other and from every status code. */
  lemma {:induction false} BadgeTellsStatusesApart(s: string, t: string)
    requires StatusLabel(s) == StatusLabel(t) && StatusColor(s) == StatusColor(t)
    ensures s == t
  {
    if Known(s) && Known(t) {
      assert StatusColor(s) == COLORS[s];
    }
  }
}
