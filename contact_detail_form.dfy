/** The contact detail page: its activity timeline (a first page of events handed in by the server,
    extended by "load more" and replaced when the server's first event changes), the note box, the
    save and delete handlers, and the pure rules it renders with: relative times, the "last item"
    rule and the initials. */
module ContactDetail {
  import opened Wrappers
  import opened Text
  import StatusBadge

  datatype EventKind = Note | StatusChange | Created

  datatype ContactEvent = ContactEvent(
    id: string,
    kind: EventKind,
    content: Option<string>,
    fromStatus: Option<string>,
    toStatus: Option<string>,
    createdAt: string)

  /** A page of the timeline: some events, and whether more follow. */
  datatype EventPage = EventPage(events: seq<ContactEvent>, hasMore: bool)

  /** `events[0]?.id` */
  function FirstId(events: seq<ContactEvent>): (r: Option<string>)
    ensures r.None? <==> events == []
    ensures r.Some? ==> r.value == events[0].id
  {
    if events == [] then None else Some(events[0].id)
  }

  /** Appending a page read at offset `|shown|` of the full timeline `all` keeps the shown events a
      prefix of `all`: "load more" never skips or repeats an event while the timeline stays put.
      `HandleLoadMore` asks with `skip == |old(events)|`, so with `shown` its old events and `page`
      the server's answer read from `all` at that offset, its new events `shown + page` are this
      prefix of the timeline. */
  lemma {:induction false} LoadKeepsPrefix(all: seq<ContactEvent>, shown: seq<ContactEvent>, page: seq<ContactEvent>)
    requires |shown| + |page| <= |all|
    requires shown == all[..|shown|] && page == all[|shown|..|shown| + |page|]
    ensures shown + page == all[..|shown| + |page|]
  {
    assert all[..|shown| + |page|] == all[..|shown|] + all[|shown|..|shown| + |page|];
  }

  /** The state of `ContactDetailForm`: one field per `useState` variable. */
  class ContactDetailForm {
    var loading: bool
    var deleting: bool
    var error: string
    var success: bool
    var deleteOpen: bool
    var noteContent: string
    var addingNote: bool
    var events: seq<ContactEvent>
    var hasMore: bool
    var loadingMore: bool
    var prevFirstId: Option<string>

    /** The first render with the server's first page of events. */
    constructor(page: EventPage)
      ensures events == page.events && hasMore == page.hasMore && prevFirstId == FirstId(page.events)
      ensures !loading && !deleting && error == "" && !success && !deleteOpen
      ensures noteContent == "" && !addingNote && !loadingMore
    {
      loading, deleting, error, success, deleteOpen := false, false, "", false, false;
      noteContent, addingNote := "", false;
      events, hasMore, loadingMore, prevFirstId := page.events, page.hasMore, false, FirstId(page.events);
    }

    /** The block run on every render with the page the server now hands in: when its first event
        is not the one remembered, the accumulated timeline is dropped for that page. */
    method Render(page: EventPage)
      modifies this
      ensures FirstId(page.events) != old(prevFirstId) ==>
                events == page.events && hasMore == page.hasMore && prevFirstId == FirstId(page.events)
      ensures FirstId(page.events) == old(prevFirstId) ==>
                events == old(events) && hasMore == old(hasMore) && prevFirstId == old(prevFirstId)
      ensures loading == old(loading) && deleting == old(deleting) && error == old(error)
      ensures success == old(success) && deleteOpen == old(deleteOpen) && noteContent == old(noteContent)
      ensures addingNote == old(addingNote) && loadingMore == old(loadingMore)
    {
      var currentFirstId := FirstId(page.events);
      if currentFirstId != prevFirstId {
        prevFirstId := currentFirstId;
        events := page.events;
        hasMore := page.hasMore;
      }
    }

    /** `handleLoadMore()`: asks for the events after those shown (`skip`, the number shown) and,
        when the call resolves, appends them and takes the server's `hasMore`. When it rejects,
        the timeline is left as it was. */
    method HandleLoadMore(reply: Result<EventPage>) returns (skip: nat)
      modifies this
      ensures skip == |old(events)|
      ensures reply.Ok? ==> events == old(events) + reply.value.events && hasMore == reply.value.hasMore
      ensures reply.Err? ==> events == old(events) && hasMore == old(hasMore)
      ensures old(events) == events[..|old(events)|]
      ensures !loadingMore
      ensures loading == old(loading) && deleting == old(deleting) && error == old(error)
      ensures success == old(success) && deleteOpen == old(deleteOpen) && noteContent == old(noteContent)
      ensures addingNote == old(addingNote) && prevFirstId == old(prevFirstId)
    {
      loadingMore := true;
      skip := |events|;
      if reply.Ok? {
        events := events + reply.value.events;
        hasMore := reply.value.hasMore;
      }
      loadingMore := false;
    }

    /** `handleAddNote()`: a blank draft sends nothing and changes nothing; otherwise the trimmed
        draft is sent (`sent`) and the draft is cleared only once the call resolves. */
    method HandleAddNote(outcome: Outcome) returns (sent: Option<string>)
      modifies this
      ensures sent.None? <==> Trim(old(noteContent)) == ""
      ensures sent.Some? ==> sent.value == Trim(old(noteContent)) && Trimmed(sent.value) && sent.value != ""
      ensures noteContent == if sent.Some? && outcome.Pass? then "" else old(noteContent)
      ensures addingNote == old(addingNote) || sent.Some?
      ensures sent.Some? ==> !addingNote
      ensures loading == old(loading) && deleting == old(deleting) && error == old(error)
      ensures success == old(success) && deleteOpen == old(deleteOpen) && events == old(events)
      ensures hasMore == old(hasMore) && loadingMore == old(loadingMore) && prevFirstId == old(prevFirstId)
    {
      var note := Trim(noteContent);
      if note == "" {
        return None;
      }
      addingNote := true;
      sent := Some(note);
      if outcome.Pass? {
        noteContent := "";
      }
      addingNote := false;
    }

    /** `handleSubmit()`: error and success are cleared first; success is set only when
        `updateContact` resolves, and a rejection's message is shown instead. */
    method HandleSubmit(outcome: Outcome)
      modifies this
      ensures success <==> outcome.Pass?
      ensures error == if outcome.Fail? then outcome.message else ""
      ensures !loading
      ensures deleting == old(deleting) && deleteOpen == old(deleteOpen) && noteContent == old(noteContent)
      ensures addingNote == old(addingNote) && events == old(events) && hasMore == old(hasMore)
      ensures loadingMore == old(loadingMore) && prevFirstId == old(prevFirstId)
    {
      error := "";
      success := false;
      loading := true;
      if outcome.Pass? {
        success := true;
      } else {
        error := outcome.message;
      }
      loading := false;
    }

    /** `handleDelete()`: while the call is pending the page shows "deleting"; on success the page
        navigates away with that flag still set, on failure the error is shown and the dialog
        closes. */
    method HandleDelete(outcome: Outcome)
      modifies this
      ensures deleting <==> outcome.Pass?
      ensures error == if outcome.Fail? then outcome.message else ""
      ensures deleteOpen == (old(deleteOpen) && outcome.Pass?)
      ensures loading == old(loading) && success == old(success) && noteContent == old(noteContent)
      ensures addingNote == old(addingNote) && events == old(events) && hasMore == old(hasMore)
      ensures loadingMore == old(loadingMore) && prevFirstId == old(prevFirstId)
    {
      deleting := true;
      error := "";
      if outcome.Fail? {
        error := outcome.message;
        deleting := false;
        deleteOpen := false;
      }
    }
  }

  // ---------------------------------------------------------------------------
  // Relative time

  const MINUTE := 60000
  const HOUR := 3600000
  const DAY := 86400000

  /** How long ago an event happened, as the timeline words it. */
  datatype Age = JustNow | Minutes(n: int) | Hours(n: int) | Days(n: int) | Absolute

  /** The thresholds of `formatRelativeTime`, given the millisecond difference between now and the
      event (`Math.floor` by a positive divisor is Dafny's `/`). */
  function RelativeAge(diff: int): (r: Age)
    ensures r == JustNow <==> diff < MINUTE
    ensures r.Minutes? ==> 1 <= r.n < 60 && r.n * MINUTE <= diff < (r.n + 1) * MINUTE
    ensures r.Hours? ==> 1 <= r.n < 24 && r.n * HOUR <= diff < (r.n + 1) * HOUR
    ensures r.Days? ==> 1 <= r.n < 7 && r.n * DAY <= diff < (r.n + 1) * DAY
    ensures r == Absolute <==> diff >= 7 * DAY
  {
    var minutes := diff / MINUTE;
    var hours := diff / HOUR;
    var days := diff / DAY;
    if minutes < 1 then JustNow
    else if minutes < 60 then Minutes(minutes)
    else if hours < 24 then Hours(hours)
    else if days < 7 then Days(days)
    else Absolute
  }

  /** The coarser the unit, the older the event. */
  function Rank(a: Age): int {
    match a
    case JustNow => 0
    case Minutes(_) => 1
    case Hours(_) => 2
    case Days(_) => 3
    case Absolute => 4
  }

  /** An older event never gets a finer unit, and in the same unit never a smaller count. */
  lemma RelativeAgeMonotone(d1: int, d2: int)
    requires d1 <= d2
    ensures Rank(RelativeAge(d1)) <= Rank(RelativeAge(d2))
    ensures Rank(RelativeAge(d1)) == Rank(RelativeAge(d2)) && RelativeAge(d1) != JustNow && RelativeAge(d1) != Absolute ==>
              RelativeAge(d1).n <= RelativeAge(d2).n
  {
  }

  const JUST_NOW := "À l'instant"
  const AGO := "il y a "

  /** The unit written after the count: " min", "h" or "j". */
  function UnitText(a: Age): string {
    match a
    case Minutes(_) => " min"
    case Hours(_) => "h"
    case Days(_) => "j"
    case _ => ""
  }

  /** `formatRelativeTime(iso)`, with the difference and the long date (`formatDate`, a locale
      library call) given: "À l'instant" under a minute, the long date from a week on, and in
      between "il y a ", the count of `RelativeAge` in decimal, then its unit. */
  function FormatRelativeTime(diff: int, longDate: string): (r: string)
    ensures RelativeAge(diff) == JustNow ==> r == JUST_NOW
    ensures RelativeAge(diff) == Absolute ==> r == longDate
    ensures var a := RelativeAge(diff); var u := UnitText(a);
            a.Minutes? || a.Hours? || a.Days? ==>
              && |r| > |AGO| + |u| && r[..|AGO|] == AGO && r[|r| - |u|..] == u
              && IsDigits(r[|AGO|..|r| - |u|]) && DigitsValue(r[|AGO|..|r| - |u|]) == a.n
              && r[|AGO|..|r| - |u|] == NatToString(a.n)
  {
    var a := RelativeAge(diff);
    if a == JustNow then JUST_NOW
    else if a == Absolute then longDate
    else
      var u := UnitText(a);
      var t := AGO + NatToString(a.n) + u;
      NatToStringRoundTrip(a.n);
      assert t[..|AGO|] == AGO;
      assert t[|AGO|..|t| - |u|] == NatToString(a.n);
      assert t[|t| - |u|..] == u;
      t
  }

  /** Two differences under a week give the same text only when they fall in the same unit and
      count: the text says exactly which `RelativeAge` was meant. */
  lemma {:induction false} RelativeTextDecodes(d1: int, d2: int, longDate: string)
    requires d1 < 7 * DAY && d2 < 7 * DAY
    requires FormatRelativeTime(d1, longDate) == FormatRelativeTime(d2, longDate)
    ensures RelativeAge(d1) == RelativeAge(d2)
  {
    var a, b := RelativeAge(d1), RelativeAge(d2);
    var t := FormatRelativeTime(d1, longDate);
    var pre := "il y a ";
    if a != JustNow && b != JustNow {
      var da, db := NatToString(a.n), NatToString(b.n);
      var ua := if a.Minutes? then " min" else if a.Hours? then "h" else "j";
      var ub := if b.Minutes? then " min" else if b.Hours? then "h" else "j";
      assert t == pre + da + ua;
      assert t == pre + db + ub;
      assert t[|t| - 1] == ua[|ua| - 1];
      assert t[|t| - 1] == ub[|ub| - 1];
      assert ua == ub;
      assert da == t[|pre|..|t| - |ua|];
      assert db == t[|pre|..|t| - |ub|];
      NatToStringInjective(a.n, b.n);
    }
  }

  // ---------------------------------------------------------------------------
  // Timeline items and the header

  /** `isLast={i === events.length - 1 && !hasMore}`: no item is drawn as last while more events can
      be loaded; otherwise the final item is. */
  function IsLast(i: int, count: int, hasMore: bool): (r: bool)
    ensures hasMore ==> !r
    ensures !hasMore ==> (r <==> i == count - 1)
  {
    i == count - 1 && !hasMore
  }

  /** Of the items shown, exactly one is drawn as last when the timeline is complete and non-empty,
      and none while more events can be loaded. */
  lemma LastItems(count: nat, hasMore: bool)
    ensures var last := set i | 0 <= i < count && IsLast(i, count, hasMore);
            last == if !hasMore && count > 0 then {count - 1} else {}
  {
  }

  /** The text `${s[0]}` gives: the first character, or "undefined" for an empty string. */
  function FirstCharText(s: string): (r: string)
    ensures s != [] ==> r == [s[0]]
  {
    if s == [] then "undefined" else [s[0]]
  }

  /** The header's initials, `${firstName[0]}${lastName[0]}`.toUpperCase(). */
  function DetailInitials(firstName: string, lastName: string): (r: string)
    ensures firstName != [] && lastName != [] ==>
              |r| == 2 && r[0] == UpperChar(firstName[0]) && r[1] == UpperChar(lastName[0])
  {
    ToUpper(FirstCharText(firstName) + FirstCharText(lastName))
  }

  /** The labels on a status-change entry: `statusLabels[s] ?? s` for each end. */
  function TransitionLabels(fromStatus: string, toStatus: string): (r: (string, string))
    ensures StatusBadge.Known(fromStatus) ==> r.0 == StatusBadge.LABELS[fromStatus]
    ensures !StatusBadge.Known(fromStatus) ==> r.0 == fromStatus
    ensures StatusBadge.Known(toStatus) ==> r.1 == StatusBadge.LABELS[toStatus]
    ensures !StatusBadge.Known(toStatus) ==> r.1 == toStatus
  {
    (StatusBadge.StatusLabel(fromStatus), StatusBadge.StatusLabel(toStatus))
  }
}
