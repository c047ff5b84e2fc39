/** Properties that relate several requests to the contact service: what
    the per-status counts do when a message arrives or changes status,
    idempotence of opening and deleting, and the order of the two gates. */
module Lifecycle {
  import opened Common
  import opened Messages
  import opened Listing
  import opened Contact
  import Auth

  // ------------------------------------------------------------ counting

  /** The count a `Counts` value reports for one status. */
  function CountOf(c: Counts, st: Status): nat
  {
    match st
    case Unread => c.unread
    case Read => c.read
    case Replied => c.replied
    case Archived => c.archived
  }

  function Indicator(b: bool): nat
  {
    if b then 1 else 0
  }

  /** Rows whose status did not change count the same. */
  lemma {:induction false} CountWithAgree(ids: seq<Id>, rows: map<Id, Message>, rows': map<Id, Message>, st: Status)
    requires forall i :: 0 <= i < |ids| ==> ids[i] in rows && ids[i] in rows'
    requires forall i :: 0 <= i < |ids| ==> rows'[ids[i]].status == rows[ids[i]].status
    ensures CountWith(ids, rows', st) == CountWith(ids, rows, st)
  {
    if ids != [] {
      CountWithAgree(ids[1..], rows, rows', st);
    }
  }

  /** Replacing the row under one listed id moves exactly that row from the
      count of its old status to the count of its new one. */
  lemma {:induction false} CountWithUpdate(ids: seq<Id>, rows: map<Id, Message>, id: Id, m': Message, st: Status)
    requires forall i :: 0 <= i < |ids| ==> ids[i] in rows
    requires Descending(ids) && id in ids && id in rows
    ensures CountWith(ids, rows[id := m'], st) + Indicator(rows[id].status == st)
         == CountWith(ids, rows, st) + Indicator(m'.status == st)
  {
    var rows' := rows[id := m'];
    if ids[0] == id {
      assert forall i :: 1 <= i < |ids| ==> ids[i] != id;
      CountWithAgree(ids[1..], rows, rows', st);
    } else {
      CountWithUpdate(ids[1..], rows, id, m', st);
    }
  }

  /** The enumeration below `n` only looks at which ids below `n` are stored. */
  lemma {:induction false} IdsBelowAgree(rows: map<Id, Message>, rows': map<Id, Message>, n: nat)
    requires forall k :: k < n ==> (k in rows <==> k in rows')
    ensures IdsBelow(rows, n) == IdsBelow(rows', n)
  {
    if n > 0 {
      IdsBelowAgree(rows, rows', n - 1);
    }
  }

  /** The count `CountsOf` reports for `st` is the count over the enumeration. */
  lemma CountOfEnumeration(db: Store, st: Status)
    ensures CountOf(CountsOf(db), st) == CountWith(Ids(db), db.rows, st)
  {
  }

  /** Changing the content of one stored message moves it from the count of
      its old status to the count of its new status; the total is unchanged. */
  lemma CountsAfterRowUpdate(db: Store, id: Id, m': Message, st: Status)
    requires Valid(db) && id in db.rows
    ensures CountsOf(db.(rows := db.rows[id := m'])).total == CountsOf(db).total
    ensures CountOf(CountsOf(db.(rows := db.rows[id := m'])), st) + Indicator(db.rows[id].status == st)
         == CountOf(CountsOf(db), st) + Indicator(m'.status == st)
  {
    var db' := db.(rows := db.rows[id := m']);
    IdsBelowAgree(db.rows, db'.rows, db.nextId);
    var ids := Ids(db);
    assert Ids(db') == ids;
    IdsCoverStore(db);
    IdsBelowDescending(db.rows, db.nextId);
    assert id in ids && Descending(ids);
    CountOfEnumeration(db, st);
    CountOfEnumeration(db', st);
    CountWithUpdate(ids, db.rows, id, m', st);
  }

  /** A row stored under the next id is enumerated first. */
  lemma IdsAfterInsert(db: Store, m: Message)
    ensures Ids(Store(db.rows[db.nextId := m], db.nextId + 1)) == [db.nextId] + Ids(db)
  {
    IdsBelowAgree(db.rows, db.rows[db.nextId := m], db.nextId);
  }

  /** Inserting a row under the next id adds it to the total and to the
      count of its status. */
  lemma CountsAfterInsert(db: Store, m: Message, st: Status)
    ensures CountsOf(Store(db.rows[db.nextId := m], db.nextId + 1)).total == CountsOf(db).total + 1
    ensures CountOf(CountsOf(Store(db.rows[db.nextId := m], db.nextId + 1)), st)
         == CountOf(CountsOf(db), st) + Indicator(m.status == st)
  {
    var db' := Store(db.rows[db.nextId := m], db.nextId + 1);
    IdsAfterInsert(db, m);
    var ids := Ids(db);
    assert Ids(db')[1..] == ids;
    CountWithAgree(ids, db.rows, db'.rows, st);
    CountOfEnumeration(db, st);
    CountOfEnumeration(db', st);
  }

  /** The four status counts after inserting an `unread` row. */
  lemma CountsAfterUnreadInsert(db: Store, m: Message)
    requires m.status == Unread
    ensures var c, c' := CountsOf(db), CountsOf(Store(db.rows[db.nextId := m], db.nextId + 1));
      && c'.total == c.total + 1
      && c'.unread == c.unread + 1
      && c'.read == c.read && c'.replied == c.replied && c'.archived == c.archived
  {
    CountsAfterInsert(db, m, Unread);
    CountsAfterInsert(db, m, Read);
    CountsAfterInsert(db, m, Replied);
    CountsAfterInsert(db, m, Archived);
  }

  /** An accepted and stored submission adds one to the total and one to
      `unread`, and leaves the other three counts alone. */
  lemma SubmitCounts(db: Store, f: Submission, env: Env, now: Instant, emailOk: bool, smsOk: bool, confirmOk: bool)
    requires Acceptable(f)
    ensures var c, c' := CountsOf(db), CountsOf(Submit(db, f, env, now, true, emailOk, smsOk, confirmOk).db);
      && c'.total == c.total + 1
      && c'.unread == c.unread + 1
      && c'.read == c.read && c'.replied == c.replied && c'.archived == c.archived
  {
    var m := NewMessage(f, now);
    assert Submit(db, f, env, now, true, emailOk, smsOk, confirmOk).db == Store(db.rows[db.nextId := m], db.nextId + 1);
    CountsAfterUnreadInsert(db, m);
  }

  /** Opening an unread message moves it from `unread` to `read` in the counts. */
  lemma DetailCounts(db: Store, s: Auth.Session, users: Directory, id: Id)
    requires Valid(db) && Auth.IsAdmin(s) && id in db.rows && db.rows[id].status == Unread
    ensures var c, c' := CountsOf(db), CountsOf(Detail(db, s, users, id).db);
      && c'.total == c.total
      && c'.unread + 1 == c.unread && c'.read == c.read + 1
      && c'.replied == c.replied && c'.archived == c.archived
  {
    var m := db.rows[id];
    var m' := m.(status := Read);
    assert Detail(db, s, users, id).db == db.(rows := db.rows[id := m']);
    CountsAfterRowUpdate(db, id, m', Unread);
    CountsAfterRowUpdate(db, id, m', Read);
    CountsAfterRowUpdate(db, id, m', Replied);
    CountsAfterRowUpdate(db, id, m', Archived);
  }

  // ------------------------------------------------------ reply stamps

  /** A submission stores a row with neither stamp. */
  lemma SubmitKeepsStampsPaired(db: Store, f: Submission, env: Env, now: Instant,
                                insertOk: bool, emailOk: bool, smsOk: bool, confirmOk: bool)
    requires StampsPaired(db)
    ensures StampsPaired(Submit(db, f, env, now, insertOk, emailOk, smsOk, confirmOk).db)
  {
  }

  /** Opening a message touches only its status. */
  lemma DetailKeepsStampsPaired(db: Store, s: Auth.Session, users: Directory, id: Id)
    requires StampsPaired(db)
    ensures StampsPaired(Detail(db, s, users, id).db)
  {
  }

  /** A PATCH sets both stamps when it stores `replied`, and neither otherwise. */
  lemma PatchKeepsStampsPaired(db: Store, s: Auth.Session, id: Id, status: Option<string>, notes: NotesInput, now: Instant)
    requires StampsPaired(db)
    ensures StampsPaired(Patch(db, s, id, status, notes, now).db)
  {
  }

  /** A sent reply sets both stamps at once. */
  lemma ReplyKeepsStampsPaired(db: Store, s: Auth.Session, id: Id, reply: Option<string>, now: Instant, sendOk: bool)
    requires StampsPaired(db)
    ensures StampsPaired(Reply(db, s, id, reply, now, sendOk).db)
  {
  }

  /** Removing a row leaves the others as they were. */
  lemma DeleteKeepsStampsPaired(db: Store, s: Auth.Session, id: Id)
    requires StampsPaired(db)
    ensures StampsPaired(Delete(db, s, id).db)
  {
  }

  // ----------------------------------------------------------- idempotence

  /** Opening a message twice: the second opening changes nothing and shows
      the same row, whose status is `read` if the first found it `unread`. */
  lemma DetailIdempotent(db: Store, s: Auth.Session, users: Directory, id: Id)
    requires Auth.IsAdmin(s)
    ensures var o1 := Detail(db, s, users, id);
            var o2 := Detail(o1.db, s, users, id);
      && o2.db == o1.db
      && o2.resp == o1.resp
      && (id in db.rows && db.rows[id].status == Unread ==> o2.resp.payload.message.msg.status == Read)
  {
  }

  /** Deleting twice is deleting once, and both answer `ok`. */
  lemma DeleteIdempotent(db: Store, s: Auth.Session, id: Id)
    requires Auth.IsAdmin(s)
    ensures Delete(Delete(db, s, id).db, s, id).db == Delete(db, s, id).db
    ensures Delete(Delete(db, s, id).db, s, id).resp.ok
  {
  }

  // --------------------------------------------------------------- lifecycle

  /** A stored submission is listed under its new id: opening it shows the
      visitor's text with status `read`. */
  lemma SubmitThenOpen(db: Store, f: Submission, env: Env, now: Instant, emailOk: bool, smsOk: bool, confirmOk: bool,
                       s: Auth.Session, users: Directory)
    requires Acceptable(f) && Auth.IsAdmin(s)
    ensures var db1 := Submit(db, f, env, now, true, emailOk, smsOk, confirmOk).db;
            var o := Detail(db1, s, users, db.nextId);
      && o.resp.ok
      && o.resp.payload.message.msg.status == Read
      && o.resp.payload.message.msg.message == f.message.value
      && o.resp.payload.message.repliedByName.None?
  {
  }

  /** Without a session user every admin route answers 401, never 403, and
      changes nothing. */
  lemma NoUserMeans401(db: Store, s: Auth.Session, users: Directory, q: Query, id: Id,
                       status: Option<string>, notes: NotesInput, reply: Option<string>, now: Instant, sendOk: bool)
    requires s.user.None?
    ensures List(db, s, users, q).resp.code == 401
    ensures Detail(db, s, users, id).resp.code == 401
    ensures Patch(db, s, id, status, notes, now).resp.code == 401
    ensures Reply(db, s, id, reply, now, sendOk).resp.code == 401
    ensures Delete(db, s, id).resp.code == 401
    ensures Patch(db, s, id, status, notes, now).db == db && Reply(db, s, id, reply, now, sendOk).db == db
    ensures Delete(db, s, id).db == db
    ensures List(db, s, users, q).db == db && Detail(db, s, users, id).db == db
  {
  }
}
