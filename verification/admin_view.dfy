/** The pure rules of the admin inbox page (frontend AdminContactMessages):
    badge and label mappings, which buttons a message offers in which
    status, the client-side reply guard, the local state updates after a
    successful request, and the query string of the list request. */
module AdminView {
  import opened Common
  import opened Messages
  import opened Listing
  import Auth
  import Contact

  const Danger: string := "text-bg-danger"
  const Warning: string := "text-bg-warning"
  const Success: string := "text-bg-success"
  const Secondary: string := "text-bg-secondary"

  /** The Bootstrap badge class of a status as the page receives it. */
  function BadgeClass(status: string): (c: string)
    ensures c in {Danger, Warning, Success, Secondary}
    ensures c == Danger <==> status == StatusName(Unread)
    ensures c == Warning <==> status == StatusName(Read)
    ensures c == Success <==> status == StatusName(Replied)
    ensures c == Secondary <==> ParseStatus(status).None? || status == StatusName(Archived)
  {
    if status == "unread" then Danger
    else if status == "read" then Warning
    else if status == "replied" then Success
    else Secondary
  }

  /** The French label of a status; anything else is shown as it came. */
  function StatusLabel(status: string): (l: string)
    ensures l == status <==> ParseStatus(status).None?
    ensures status == StatusName(Unread) ==> l == "Non lu"
    ensures status == StatusName(Read) ==> l == "Lu"
    ensures status == StatusName(Replied) ==> l == "Répondu"
    ensures status == StatusName(Archived) ==> l == "Archivé"
  {
    if status == "unread" then "Non lu"
    else if status == "read" then "Lu"
    else if status == "replied" then "Répondu"
    else if status == "archived" then "Archivé"
    else status
  }

  /** The six subject codes of the public contact form. */
  const SubjectCodes: set<string> := {"question", "technique", "stage", "compte", "suggestion", "autre"}

  /** The label of a subject code; anything else is shown as it came. */
  function SubjectLabel(subject: string): (l: string)
    ensures l == subject <==> subject !in SubjectCodes
    ensures subject == "question" ==> l == "💬 Question générale"
    ensures subject == "technique" ==> l == "🔧 Problème technique"
    ensures subject == "stage" ==> l == "📋 Question sur les stages"
    ensures subject == "compte" ==> l == "👤 Problème de compte"
    ensures subject == "suggestion" ==> l == "💡 Suggestion"
    ensures subject == "autre" ==> l == "📝 Autre"
  {
    if subject == "question" then "💬 Question générale"
    else if subject == "technique" then "🔧 Problème technique"
    else if subject == "stage" then "📋 Question sur les stages"
    else if subject == "compte" then "👤 Problème de compte"
    else if subject == "suggestion" then "💡 Suggestion"
    else if subject == "autre" then "📝 Autre"
    else subject
  }

  /** The four statuses get four different badges and four different labels. */
  lemma StatusesLookDifferent(a: Status, b: Status)
    requires a != b
    ensures BadgeClass(StatusName(a)) != BadgeClass(StatusName(b))
    ensures StatusLabel(StatusName(a)) != StatusLabel(StatusName(b))
  {
  }

  // ------------------------------------------------------------- actions

  /** The status buttons of the detail modal. */
  datatype Action = MarkReplied | Archive | Restore

  /** The status each button sends in its PATCH. */
  function TargetStatus(a: Action): Status
  {
    match a
    case MarkReplied => Replied
    case Archive => Archived
    case Restore => Unread
  }

  /** The buttons shown for a message in `status`, left to right. */
  function OfferedActions(status: string): (acts: seq<Action>)
    ensures MarkReplied in acts <==> status != "replied"
    ensures Restore in acts <==> status == "archived"
    ensures (Archive in acts) <==> !(Restore in acts)
    ensures forall a :: a in acts ==> StatusName(TargetStatus(a)) != status
  {
    (if status != "replied" then [MarkReplied] else [])
    + (if status != "archived" then [Archive] else [])
    + (if status == "archived" then [Restore] else [])
  }

  /** The "reply directly" form is shown only for messages still awaiting an answer. */
  predicate ReplyFormShown(status: string)
  {
    status != "replied" && status != "archived"
  }

  /** Where the reply form is shown, both "mark as replied" and "archive" are
      offered too, and "restore" is not. */
  lemma ReplyFormComesWithActions(status: string)
    requires ReplyFormShown(status)
    ensures OfferedActions(status) == [MarkReplied, Archive]
  {
  }

  // ---------------------------------------------------------- reply guard

  /** The guard at the top of `sendReply`: not blank after trimming, and at
      least ten characters counted before trimming. */
  predicate ClientAcceptsReply(text: string)
  {
    !(Trim(text) == "" || |text| < Contact.MinReplyLength)
  }

  /** The send button is enabled when nothing is being sent and the text
      has at least ten characters. */
  predicate SendEnabled(text: string, sending: bool)
  {
    !sending && |text| >= Contact.MinReplyLength
  }

  /** Every reply the server accepts passes the client guard and can be sent. */
  lemma ServerGuardImpliesClientGuard(text: string)
    requires Contact.ServerAcceptsReply(Some(text))
    ensures ClientAcceptsReply(text)
    ensures SendEnabled(text, false)
  {
  }

  /** The client guard is strictly weaker: nine spaces and a letter pass it
      and are refused by the server with a 400. */
  lemma ClientGuardIsWeaker()
    ensures var text := "         x";
      ClientAcceptsReply(text) && !Contact.ServerAcceptsReply(Some(text))
  {
  }

  // ------------------------------------------------------ local state

  /** The selected message after a status update answered `res.ok`: only
      its status changes, and only if it is the updated message. */
  function UpdateSelected(sel: Option<Row>, id: Id, st: Status, resOk: bool): (r: Option<Row>)
    ensures !resOk || sel.None? || sel.value.id != id ==> r == sel
    ensures resOk && sel.Some? && sel.value.id == id ==>
      && r.Some? && r.value.msg.status == st
      && r.value.(msg := r.value.msg.(status := sel.value.msg.status)) == sel.value
  {
    if resOk && sel.Some? && sel.value.id == id then
      Some(sel.value.(msg := sel.value.msg.(status := st)))
    else sel
  }

  /** The selected message after a reply answered `ok`: it shows `replied`. */
  function AfterReply(sel: Option<Row>, ok: bool): (r: Option<Row>)
    ensures !ok || sel.None? ==> r == sel
    ensures ok && sel.Some? ==>
      && r.Some? && r.value.msg.status == Replied
      && r.value.(msg := r.value.msg.(status := sel.value.msg.status)) == sel.value
  {
    if ok && sel.Some? then Some(sel.value.(msg := sel.value.msg.(status := Replied))) else sel
  }

  /** After a status button's PATCH of a stored message, the modal shows the
      status the server stored. */
  lemma StatusButtonMatchesServer(db: Store, s: Auth.Session, a: Action, now: Instant, row: Row)
    requires Auth.IsAdmin(s) && row.id in db.rows && row.msg == db.rows[row.id]
    requires a in OfferedActions(StatusName(row.msg.status))
    ensures var o := Contact.Patch(db, s, row.id, Some(StatusName(TargetStatus(a))), Contact.Omitted, now);
      && o.resp.code == 200
      && UpdateSelected(Some(row), row.id, TargetStatus(a), true).value.msg.status == o.db.rows[row.id].status
      && o.db.rows[row.id].status != row.msg.status
  {
  }

  /** After a successful reply the modal shows the status the server stored. */
  lemma ReplyMatchesServer(db: Store, s: Auth.Session, text: string, now: Instant, row: Row)
    requires Auth.IsAdmin(s) && row.id in db.rows && row.msg == db.rows[row.id]
    requires Contact.ServerAcceptsReply(Some(text))
    ensures var o := Contact.Reply(db, s, row.id, Some(text), now, true);
      && o.resp.ok
      && AfterReply(Some(row), o.resp.ok).value.msg.status == o.db.rows[row.id].status
  {
  }

  // ------------------------------------------------------- list request

  /** The query string `load` builds: no `status` for the filter `all`, no
      `search` for an empty search box, and no paging. */
  function ListParams(filter: string, search: string): (q: Query)
    ensures q.status.None? <==> filter == AllFilter
    ensures q.status.Some? ==> q.status.value == filter
    ensures q.search.None? <==> search == ""
    ensures q.search.Some? ==> q.search.value == search
    ensures q.limit.None? && q.offset.None?
  {
    Query(if filter != AllFilter then Some(filter) else None,
          if search != "" then Some(search) else None, None, None)
  }

  /** Leaving the parameters out selects the same messages as sending the
      filter and search box as they are. */
  lemma ListParamsSelectSame(filter: string, search: string, m: Message)
    ensures Selected(m, ListParams(filter, search)) <==> Selected(m, Query(Some(filter), Some(search), None, None))
  {
  }
}
