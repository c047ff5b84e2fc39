/** The six route handlers of backend/routes/contact.js as pure functions
    from (table, session, request, outcomes of the outside world, clock) to
    (response, new table, notifications attempted). */
module Contact {
  import opened Common
  import opened Messages
  import opened Listing
  import Auth
  import Html

  /** A call to the mail or SMS gateway that a handler made. */
  datatype Call =
    | AdminEmail(to: string, subject: string, messageHtml: string)
    | AdminSms(phone: string, name: string, email: string, subject: string, message: string)
    | Confirmation(to: string, subject: string)
    | ReplyEmail(to: string, subject: string, text: string, replyHtml: string, quote: string)

  /** The JSON fields a response carries besides `ok` and `message`. */
  datatype Payload =
    | NoPayload
    | Delivery(emailSent: bool, smsSent: bool, confirmationSent: bool)
    | Listed(messages: seq<Row>, counts: Counts)
    | Shown(message: Row)

  datatype Response = Response(code: nat, ok: bool, text: Option<string>, payload: Payload)

  /** What a request leaves behind. */
  datatype Outcome = Outcome(resp: Response, db: Store, calls: seq<Call>)

  /** The `ADMIN_EMAIL` and `ADMIN_PHONE` settings of the process environment. */
  datatype Env = Env(adminEmail: Option<string>, adminPhone: Option<string>)

  const DefaultAdminEmail: string := "mlamaranapalaga21@gmail.com"
  const DefaultAdminPhone: string := "53875648"

  const MinMessageLength: nat := 10
  const MinReplyLength: nat := 10

  const MissingFields: string := "Tous les champs sont requis (name, email, subject, message)"
  const MessageTooShort: string := "Le message doit contenir au moins 10 caractères"
  const InsertFailed: string := "Erreur lors de l'enregistrement du message"
  const Received: string := "Message envoyé avec succès. Nous vous répondrons dans les plus brefs délais."
  const NotFound: string := "Message non trouvé"
  const InvalidStatus: string := "Statut invalide"
  const NoChange: string := "Aucune modification"
  const Updated: string := "Message mis à jour"
  const ReplyTooShort: string := "La réponse doit contenir au moins 10 caractères"
  const SendFailed: string := "Erreur lors de l'envoi de l'email"
  const ReplySent: string := "Réponse envoyée avec succès"
  const Deleted: string := "Message supprimé"

  const AdminEmailPrefix: string := "📧 Nouveau message de contact - "
  const ConfirmationSubject: string := "✓ Confirmation de réception de votre message"
  const ReplySubjectPrefix: string := "Re: "
  const ReplyLogOpen: string := "\n--- Réponse envoyée le "
  const ReplyLogClose: string := " ---\n"
  const Signature: string := "\n\nCordialement,\nL'équipe Gestion des Offres de Stage"

  function Fail(code: nat, text: string, db: Store): Outcome
  {
    Outcome(Response(code, false, Some(text), NoPayload), db, [])
  }

  /** The answer of the first middleware that did not call `next()`. */
  function Refused(s: Auth.Session, db: Store): Outcome
    requires !Auth.IsAdmin(s)
  {
    var g := Auth.AdminGate(s);
    Fail(g.code, g.text, db)
  }

  /** An admin route that was not run: the gate answered and nothing changed. */
  ghost predicate GateHeld(s: Auth.Session, db: Store, o: Outcome)
  {
    !Auth.IsAdmin(s) ==> o == Refused(s, db) && o.db == db && o.calls == [] && o.resp.code in {401, 403}
  }

  /** The id of the acting admin; the gate guarantees there is one. */
  function ActorId(s: Auth.Session): Auth.UserId
    requires Auth.IsAdmin(s)
  {
    s.user.value.id
  }

  /** Rows other than `id` keep their content, and the key set is unchanged. */
  ghost predicate OnlyRowChanged(db: Store, db': Store, id: Id)
  {
    && db'.nextId == db.nextId
    && db'.rows.Keys == db.rows.Keys
    && forall k :: k in db.rows && k != id ==> db'.rows[k] == db.rows[k]
  }

  /** What the visitor wrote and when it arrived is never edited. */
  ghost predicate SameSubmission(m: Message, m': Message)
  {
    && m'.name == m.name && m'.email == m.email && m'.phone == m.phone
    && m'.subject == m.subject && m'.message == m.message && m'.createdAt == m.createdAt
  }

  // ---------------------------------------------------------------- POST /

  /** The JSON body of the public contact form; absent or null fields are `None`. */
  datatype Submission = Submission(
    name: Option<string>,
    email: Option<string>,
    phone: Option<string>,
    subject: Option<string>,
    message: Option<string>)

  /** The checks of lines 266-278: four truthy fields, and a message of at
      least ten characters counted before any trimming. */
  predicate Acceptable(f: Submission)
  {
    && Truthy(f.name) && Truthy(f.email) && Truthy(f.subject) && Truthy(f.message)
    && |f.message.value| >= MinMessageLength
  }

  /** The row the INSERT of lines 282-285 creates. */
  function NewMessage(f: Submission, now: Instant): (m: Message)
    requires Acceptable(f)
    ensures m.status == Unread && m.adminNotes.None? && m.repliedAt.None? && m.repliedBy.None?
    ensures m.name == f.name.value && m.email == f.email.value
    ensures m.subject == f.subject.value && m.message == f.message.value
    ensures m.phone.Some? <==> Truthy(f.phone)
    ensures m.phone.Some? ==> m.phone == f.phone
    ensures m.createdAt == now
  {
    Message(f.name.value, f.email.value, if Truthy(f.phone) then f.phone else None,
      f.subject.value, f.message.value, Unread, None, now, None, None)
  }

  /** The three best-effort notifications, in the order they are attempted. */
  function Notifications(f: Submission, env: Env): (cs: seq<Call>)
    requires Acceptable(f)
    ensures |cs| == 3 && cs[0].AdminEmail? && cs[1].AdminSms? && cs[2].Confirmation?
    ensures cs[0].messageHtml == Html.EscapeHtml(f.message.value)
    ensures cs[0].to == (if Truthy(env.adminEmail) then env.adminEmail.value else DefaultAdminEmail)
    ensures cs[1].phone == (if Truthy(env.adminPhone) then env.adminPhone.value else DefaultAdminPhone)
    ensures cs[0].subject == AdminEmailPrefix + f.subject.value
    ensures cs[1] == AdminSms(cs[1].phone, f.name.value, f.email.value, f.subject.value, f.message.value)
    ensures cs[2].to == f.email.value && cs[2].subject == ConfirmationSubject
  {
    [ AdminEmail(if Truthy(env.adminEmail) then env.adminEmail.value else DefaultAdminEmail,
        AdminEmailPrefix + f.subject.value, Html.EscapeHtml(f.message.value)),
      AdminSms(if Truthy(env.adminPhone) then env.adminPhone.value else DefaultAdminPhone,
        f.name.value, f.email.value, f.subject.value, f.message.value),
      Confirmation(f.email.value, ConfirmationSubject) ]
  }

  /** `POST /api/contact`. `insertOk` is whether the INSERT succeeded;
      `emailOk`, `smsOk` and `confirmOk` are the gateway results, a thrown
      exception counting as `false`. */
  function Submit(db: Store, f: Submission, env: Env, now: Instant,
                  insertOk: bool, emailOk: bool, smsOk: bool, confirmOk: bool): (o: Outcome)
    ensures !Acceptable(f) ==> o.resp.code == 400 && !o.resp.ok && o.db == db && o.calls == []
    ensures !(Truthy(f.name) && Truthy(f.email) && Truthy(f.subject) && Truthy(f.message)) ==> o.resp.text == Some(MissingFields)
    ensures Acceptable(f) && !insertOk ==> o == Fail(500, InsertFailed, db)
    ensures o.resp.ok <==> Acceptable(f) && insertOk
    ensures o.resp.ok ==> o.resp.code == 200 && o.resp.payload == Delivery(emailOk, smsOk, confirmOk)
    ensures o.resp.ok ==>
      && o.db.nextId == db.nextId + 1
      && o.db.rows.Keys == db.rows.Keys + {db.nextId}
      && o.db.rows[db.nextId] == NewMessage(f, now)
      && (forall k :: k in db.rows && k != db.nextId ==> o.db.rows[k] == db.rows[k])
      && o.calls == Notifications(f, env)
    ensures Valid(db) && o.resp.ok ==> |o.db.rows| == |db.rows| + 1
    ensures Valid(db) ==> Valid(o.db)
  {
    if !(Truthy(f.name) && Truthy(f.email) && Truthy(f.subject) && Truthy(f.message)) then
      Fail(400, MissingFields, db)
    else if |f.message.value| < MinMessageLength then
      Fail(400, MessageTooShort, db)
    else if !insertOk then
      Fail(500, InsertFailed, db)
    else
      var db' := Store(db.rows[db.nextId := NewMessage(f, now)], db.nextId + 1);
      Outcome(Response(200, true, Some(Received), Delivery(emailOk, smsOk, confirmOk)), db', Notifications(f, env))
  }

  // ----------------------------------------------------------------- GET /

  /** `GET /api/contact`: a page of rows and the counts over the whole table. */
  function List(db: Store, s: Auth.Session, users: Directory, q: Query): (o: Outcome)
    ensures GateHeld(s, db, o)
    ensures o.db == db && o.calls == []
    ensures Auth.IsAdmin(s) ==> o.resp.code == 200 && o.resp.ok && o.resp.payload.Listed?
    ensures Auth.IsAdmin(s) ==>
      var page := o.resp.payload.messages;
      && page == ListPage(db, users, q)
      && |page| <= q.limit.GetOr(DefaultLimit)
      && NewestFirst(page)
      && (forall r :: r in page ==> Stored(db, users, r) && Selected(r.msg, q))
      && o.resp.payload.counts == CountsOf(db)
  {
    if !Auth.IsAdmin(s) then Refused(s, db)
    else Outcome(Response(200, true, None, Listed(ListPage(db, users, q), CountsOf(db))), db, [])
  }

  // -------------------------------------------------------------- GET /:id

  /** `GET /api/contact/:id`: the row, marked `read` first if it was `unread`. */
  function Detail(db: Store, s: Auth.Session, users: Directory, id: Id): (o: Outcome)
    ensures GateHeld(s, db, o)
    ensures o.calls == []
    ensures Auth.IsAdmin(s) && id !in db.rows ==> o == Fail(404, NotFound, db)
    ensures Auth.IsAdmin(s) && id in db.rows ==>
      && o.resp.code == 200 && o.resp.ok
      && OnlyRowChanged(db, o.db, id)
      && o.db.rows[id].status == (if db.rows[id].status == Unread then Read else db.rows[id].status)
      && o.db.rows[id] == db.rows[id].(status := o.db.rows[id].status)
      && o.resp.payload == Shown(RowOf(o.db, users, id))
    ensures Valid(db) ==> Valid(o.db)
  {
    if !Auth.IsAdmin(s) then Refused(s, db)
    else if id !in db.rows then Fail(404, NotFound, db)
    else
      var m := db.rows[id];
      var db' := if m.status == Unread then db.(rows := db.rows[id := m.(status := Read)]) else db;
      Outcome(Response(200, true, None, Shown(RowOf(db', users, id))), db', [])
  }

  // ------------------------------------------------------------ PATCH /:id

  /** The `admin_notes` field of the PATCH body: left out (`undefined`),
      explicitly `null`, or a string. */
  datatype NotesInput = Omitted | NullNotes | Notes(text: string)

  /** The SET list of lines 121-138 applied to one row. */
  function ApplyPatch(m: Message, status: Option<Status>, notes: NotesInput, actor: Auth.UserId, now: Instant): (m': Message)
    ensures SameSubmission(m, m')
    ensures m'.status == status.GetOr(m.status)
    ensures status == Some(Replied) ==> m'.repliedAt == Some(now) && m'.repliedBy == Some(actor)
    ensures status != Some(Replied) ==> m'.repliedAt == m.repliedAt && m'.repliedBy == m.repliedBy
    ensures m'.adminNotes == (match notes case Omitted => m.adminNotes case NullNotes => None case Notes(t) => Some(t))
  {
    var withStatus :=
      match status
      case None => m
      case Some(Replied) => m.(status := Replied, repliedAt := Some(now), repliedBy := Some(actor))
      case Some(st) => m.(status := st);
    match notes
    case Omitted => withStatus
    case NullNotes => withStatus.(adminNotes := None)
    case Notes(t) => withStatus.(adminNotes := Some(t))
  }

  /** `PATCH /api/contact/:id`. An absent id matches no row of the UPDATE
      and still answers 200. */
  function Patch(db: Store, s: Auth.Session, id: Id, status: Option<string>, notes: NotesInput, now: Instant): (o: Outcome)
    ensures GateHeld(s, db, o)
    ensures o.calls == []
    ensures Auth.IsAdmin(s) && Truthy(status) && ParseStatus(status.value).None? ==> o == Fail(400, InvalidStatus, db)
    ensures Auth.IsAdmin(s) && !Truthy(status) && notes.Omitted? ==> o == Fail(400, NoChange, db)
    ensures o.resp.ok <==>
      Auth.IsAdmin(s) && (Truthy(status) ==> ParseStatus(status.value).Some?) && (Truthy(status) || !notes.Omitted?)
    ensures Auth.IsAdmin(s) && o.resp.code == 400 ==> o.db == db
    ensures Auth.IsAdmin(s) && o.resp.code != 400 ==> o.resp.code == 200 && o.resp.ok && OnlyRowChanged(db, o.db, id)
    ensures Auth.IsAdmin(s) && o.resp.code != 400 && id in db.rows ==>
      var m, m' := db.rows[id], o.db.rows[id];
      && SameSubmission(m, m')
      && m'.status == (if Truthy(status) then ParseStatus(status.value).value else m.status)
      && (Truthy(status) && status.value == "replied" ==> m'.repliedAt == Some(now) && m'.repliedBy == Some(ActorId(s)))
      && (!(Truthy(status) && status.value == "replied") ==> m'.repliedAt == m.repliedAt && m'.repliedBy == m.repliedBy)
      && (notes.Omitted? ==> m'.adminNotes == m.adminNotes)
      && (notes.NullNotes? ==> m'.adminNotes.None?)
      && (notes.Notes? ==> m'.adminNotes == Some(notes.text))
    ensures Auth.IsAdmin(s) && id !in db.rows ==> o.db == db
    ensures Valid(db) ==> Valid(o.db)
  {
    if !Auth.IsAdmin(s) then Refused(s, db)
    else if Truthy(status) && ParseStatus(status.value).None? then Fail(400, InvalidStatus, db)
    else if !Truthy(status) && notes.Omitted? then Fail(400, NoChange, db)
    else
      var st := if Truthy(status) then ParseStatus(status.value) else None;
      var db' := if id in db.rows then db.(rows := db.rows[id := ApplyPatch(db.rows[id], st, notes, ActorId(s), now)]) else db;
      Outcome(Response(200, true, Some(Updated), NoPayload), db', [])
  }

  // ------------------------------------------------------- POST /:id/reply

  /** The server-side reply guard of line 163: a truthy reply whose trimmed
      text has at least ten characters. */
  predicate ServerAcceptsReply(reply: Option<string>)
  {
    Truthy(reply) && |Trim(reply.value)| >= MinReplyLength
  }

  /** The entry appended to `admin_notes` (line 230). */
  function ReplyLogEntry(now: Instant, reply: string): (e: string)
    ensures |e| >= |ReplyLogOpen| + |reply|
    ensures e[..|ReplyLogOpen|] == ReplyLogOpen
    ensures e[|ReplyLogOpen|..|e| - |reply|] == now.text + ReplyLogClose
    ensures e[|e| - |reply|..] == reply
  {
    ReplyLogOpen + now.text + ReplyLogClose + reply
  }

  /** The notes after a reply: the previous notes (or nothing) followed by
      the log entry, so they keep the old text in front and end with the reply. */
  function AppendReplyLog(notes: Option<string>, now: Instant, reply: string): (n: string)
    ensures |n| > |notes.GetOr("")| + |reply|
    ensures n[..|notes.GetOr("")|] == notes.GetOr("")
    ensures n[|n| - |reply|..] == reply
    ensures n == notes.GetOr("") + ReplyLogEntry(now, reply)
  {
    var before := notes.GetOr("");
    var e := ReplyLogEntry(now, reply);
    assert |e| > |reply|;
    assert (before + e)[|before + e| - |reply|..] == e[|e| - |reply|..];
    before + e
  }

  /** The UPDATE of lines 228-232 applied to the replied-to row. */
  function CloseWithReply(m: Message, actor: Auth.UserId, now: Instant, reply: string): (m': Message)
    ensures SameSubmission(m, m')
    ensures m'.status == Replied && m'.repliedAt == Some(now) && m'.repliedBy == Some(actor)
    ensures m'.adminNotes.Some?
    ensures |m'.adminNotes.value| > |m.adminNotes.GetOr("")| + |reply|
    ensures m'.adminNotes.value[..|m.adminNotes.GetOr("")|] == m.adminNotes.GetOr("")
    ensures m'.adminNotes.value[|m'.adminNotes.value| - |reply|..] == reply
    ensures m'.adminNotes == Some(AppendReplyLog(m.adminNotes, now, reply))
  {
    m.(status := Replied, repliedAt := Some(now), repliedBy := Some(actor),
       adminNotes := Some(AppendReplyLog(m.adminNotes, now, reply)))
  }

  /** The mail sent to the visitor: its address, subject, plain-text body,
      the escaped reply and the quote of the original in the HTML part. */
  function ReplyMail(m: Message, reply: string): (c: Call)
    ensures c.ReplyEmail? && c.to == m.email
    ensures c.subject == ReplySubjectPrefix + m.subject
    ensures var greeting := "Bonjour " + m.name + ",\n\n";
      && |c.text| >= |greeting| + |reply|
      && c.text[..|greeting|] == greeting
      && c.text[|greeting|..|greeting| + |reply|] == reply
      && c.text[|greeting| + |reply|..] == Signature
    ensures c.replyHtml == Html.EscapeAngles(reply)
    ensures '<' !in c.replyHtml && '>' !in c.replyHtml
    ensures '&' !in reply ==> Html.HtmlDecode(c.replyHtml) == reply
    ensures |m.message| <= Html.ExcerptLength ==> c.quote == m.message
    ensures |m.message| > Html.ExcerptLength ==> c.quote == m.message[..Html.ExcerptLength] + Html.Ellipsis
  {
    var greeting := "Bonjour " + m.name + ",\n\n";
    Html.EscapeAnglesWithoutAmp(reply);
    assert (greeting + reply + Signature)[|greeting|..|greeting| + |reply|] == reply;
    assert (greeting + reply + Signature)[|greeting| + |reply|..] == Signature;
    ReplyEmail(m.email, ReplySubjectPrefix + m.subject, greeting + reply + Signature,
      Html.EscapeAngles(reply), Html.Excerpt(m.message))
  }

  /** The part of the reply route after the guard and the lookup: send,
      and write only if the gateway accepted the mail. */
  function SendReply(db: Store, id: Id, actor: Auth.UserId, reply: string, now: Instant, sendOk: bool): (o: Outcome)
    requires id in db.rows
    ensures o.calls == [ReplyMail(db.rows[id], reply)]
    ensures o.resp.ok == sendOk
    ensures !sendOk ==> o.resp == Response(500, false, Some(SendFailed), NoPayload) && o.db == db
    ensures sendOk ==> o.resp.code == 200 && o.db == db.(rows := db.rows[id := CloseWithReply(db.rows[id], actor, now, reply)])
  {
    var mail := ReplyMail(db.rows[id], reply);
    if !sendOk then Outcome(Response(500, false, Some(SendFailed), NoPayload), db, [mail])
    else
      var m' := CloseWithReply(db.rows[id], actor, now, reply);
      Outcome(Response(200, true, Some(ReplySent), NoPayload), db.(rows := db.rows[id := m']), [mail])
  }

  /** `POST /api/contact/:id/reply`. `sendOk` is the mail gateway's answer. */
  function Reply(db: Store, s: Auth.Session, id: Id, reply: Option<string>, now: Instant, sendOk: bool): (o: Outcome)
    ensures GateHeld(s, db, o)
    ensures Auth.IsAdmin(s) && !ServerAcceptsReply(reply) ==> o == Fail(400, ReplyTooShort, db)
    ensures Auth.IsAdmin(s) && ServerAcceptsReply(reply) && id !in db.rows ==> o == Fail(404, NotFound, db)
    ensures Auth.IsAdmin(s) && ServerAcceptsReply(reply) && id in db.rows ==>
      o.calls == [ReplyMail(db.rows[id], reply.value)]
    ensures Auth.IsAdmin(s) && ServerAcceptsReply(reply) && id in db.rows && !sendOk ==>
      o.resp == Response(500, false, Some(SendFailed), NoPayload) && o.db == db
    ensures o.resp.ok <==> Auth.IsAdmin(s) && ServerAcceptsReply(reply) && id in db.rows && sendOk
    ensures o.resp.ok ==>
      && o.resp.code == 200
      && OnlyRowChanged(db, o.db, id)
      && o.db.rows[id] == CloseWithReply(db.rows[id], ActorId(s), now, reply.value)
    ensures Valid(db) ==> Valid(o.db)
  {
    if !Auth.IsAdmin(s) then Refused(s, db)
    else if !ServerAcceptsReply(reply) then Fail(400, ReplyTooShort, db)
    else if id !in db.rows then Fail(404, NotFound, db)
    else SendReply(db, id, ActorId(s), reply.value, now, sendOk)
  }

  // ----------------------------------------------------------- DELETE /:id

  /** `DELETE /api/contact/:id`: no existence check. */
  function Delete(db: Store, s: Auth.Session, id: Id): (o: Outcome)
    ensures GateHeld(s, db, o)
    ensures o.calls == []
    ensures Auth.IsAdmin(s) ==> o.resp.code == 200 && o.resp.ok
    ensures Auth.IsAdmin(s) ==>
      && id !in o.db.rows
      && o.db.rows.Keys == db.rows.Keys - {id}
      && o.db.nextId == db.nextId
      && (forall k :: k in o.db.rows ==> o.db.rows[k] == db.rows[k])
    ensures Valid(db) ==> Valid(o.db)
  {
    if !Auth.IsAdmin(s) then Refused(s, db)
    else Outcome(Response(200, true, Some(Deleted), NoPayload), db.(rows := db.rows - {id}), [])
  }
}
