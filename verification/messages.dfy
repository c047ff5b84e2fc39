/** The `contact_messages` table: the four statuses, a message record, the
    table as a map from id to message with its auto-increment counter, and
    the per-status counts the listing reports. */
module Messages {
  import opened Common
  import Auth

  type Id = nat

  /** The lifecycle of a contact message. */
  datatype Status = Unread | Read | Replied | Archived

  /** The name a status is stored and transmitted under. */
  function StatusName(s: Status): string
  {
    match s
    case Unread => "unread"
    case Read => "read"
    case Replied => "replied"
    case Archived => "archived"
  }

  /** Membership in the list of valid statuses (contact.js line 116). */
  function ParseStatus(v: string): (r: Option<Status>)
    ensures r.Some? ==> StatusName(r.value) == v
    ensures forall s :: StatusName(s) == v ==> r == Some(s)
    ensures r.None? <==> forall s :: StatusName(s) != v
  {
    if v == "unread" then Some(Unread)
    else if v == "read" then Some(Read)
    else if v == "replied" then Some(Replied)
    else if v == "archived" then Some(Archived)
    else None
  }

  /** An abstract clock reading: `tick` orders readings, `text` is how the
      database renders the reading inside a string. */
  datatype Instant = Instant(tick: int, text: string)

  /** One row of `contact_messages`. */
  datatype Message = Message(
    name: string,
    email: string,
    phone: Option<string>,
    subject: string,
    message: string,
    status: Status,
    adminNotes: Option<string>,
    createdAt: Instant,
    repliedAt: Option<Instant>,
    repliedBy: Option<Auth.UserId>)

  /** The table: its rows by id, and the next id the auto-increment hands out. */
  datatype Store = Store(rows: map<Id, Message>, nextId: Id)

  /** Every stored id was handed out by the counter. */
  predicate Valid(db: Store)
  {
    forall id :: id in db.rows ==> id < db.nextId
  }

  /** `replied_at` and `replied_by` are written together: a row has both
      stamps or neither. */
  predicate StampsPaired(db: Store)
  {
    forall id :: id in db.rows ==> (db.rows[id].repliedAt.Some? <==> db.rows[id].repliedBy.Some?)
  }

  /** Strictly decreasing, so no id is listed twice. */
  ghost predicate Descending(ids: seq<Id>)
  {
    forall i, j :: 0 <= i < j < |ids| ==> ids[i] > ids[j]
  }

  /** The stored ids below `n`, largest first. */
  function IdsBelow(rows: map<Id, Message>, n: nat): (ids: seq<Id>)
    ensures forall i :: 0 <= i < |ids| ==> ids[i] in rows && ids[i] < n
  {
    if n == 0 then []
    else (if n - 1 in rows then [n - 1] else []) + IdsBelow(rows, n - 1)
  }

  /** The enumeration misses no stored id below the bound. */
  lemma {:induction false} IdsBelowComplete(rows: map<Id, Message>, n: nat)
    ensures forall id :: id in rows && id < n ==> id in IdsBelow(rows, n)
  {
    if n > 0 {
      IdsBelowComplete(rows, n - 1);
      IdsBelowUnfold(rows, n);
    }
  }

  /** The enumeration is largest first, so it lists no id twice. */
  lemma {:induction false} IdsBelowDescending(rows: map<Id, Message>, n: nat)
    ensures Descending(IdsBelow(rows, n))
  {
    if n > 0 {
      IdsBelowDescending(rows, n - 1);
      IdsBelowUnfold(rows, n);
      DescendingAfter(if n - 1 in rows then [n - 1] else [], IdsBelow(rows, n - 1), IdsBelow(rows, n), n - 1);
    }
  }

  lemma IdsBelowUnfold(rows: map<Id, Message>, n: nat)
    requires n > 0
    ensures IdsBelow(rows, n) == (if n - 1 in rows then [n - 1] else []) + IdsBelow(rows, n - 1)
  {
  }

  /** Putting at most one id larger than all others in front keeps a list descending. */
  lemma DescendingAfter(head: seq<Id>, rest: seq<Id>, s: seq<Id>, bound: int)
    requires s == head + rest && Descending(rest)
    requires |head| <= 1 && (forall i :: 0 <= i < |head| ==> head[i] >= bound)
    requires forall j :: 0 <= j < |rest| ==> rest[j] < bound
    ensures Descending(s)
  {
  }

  /** All stored ids, largest first. */
  function Ids(db: Store): seq<Id>
  {
    IdsBelow(db.rows, db.nextId)
  }

  /** The stored ids below `n`, as a set. */
  function KeysBelow(rows: map<Id, Message>, n: nat): set<Id>
  {
    set id | id in rows && id < n
  }

  lemma KeysBelowStep(rows: map<Id, Message>, n: nat)
    requires n > 0
    ensures n - 1 in rows ==> KeysBelow(rows, n) == KeysBelow(rows, n - 1) + {n - 1}
    ensures n - 1 !in rows ==> KeysBelow(rows, n) == KeysBelow(rows, n - 1)
    ensures n - 1 !in KeysBelow(rows, n - 1)
  {
  }

  lemma {:induction false} IdsBelowCount(rows: map<Id, Message>, n: nat)
    ensures |IdsBelow(rows, n)| == |KeysBelow(rows, n)|
  {
    if n > 0 {
      IdsBelowCount(rows, n - 1);
      KeysBelowStep(rows, n);
    }
  }

  /** On a valid store the enumeration lists every row exactly once. */
  lemma IdsCoverStore(db: Store)
    ensures Valid(db) ==> |Ids(db)| == |db.rows|
    ensures Valid(db) ==> forall id :: id in Ids(db) <==> id in db.rows
  {
    if Valid(db) {
      IdsBelowCount(db.rows, db.nextId);
      IdsBelowComplete(db.rows, db.nextId);
      assert KeysBelow(db.rows, db.nextId) == db.rows.Keys;
    }
  }

  /** What the listing reports next to each page. */
  datatype Counts = Counts(total: nat, unread: nat, read: nat, replied: nat, archived: nat)

  /** How many of the listed rows have status `st`. */
  function CountWith(ids: seq<Id>, rows: map<Id, Message>, st: Status): (k: nat)
    ensures k <= |ids|
  {
    if ids == [] then 0
    else (if ids[0] in rows && rows[ids[0]].status == st then 1 else 0) + CountWith(ids[1..], rows, st)
  }

  /** Every row has exactly one of the four statuses, so the four counts
      add up to the number of rows. */
  lemma {:induction false} CountsPartition(ids: seq<Id>, rows: map<Id, Message>)
    requires forall i :: 0 <= i < |ids| ==> ids[i] in rows
    ensures CountWith(ids, rows, Unread) + CountWith(ids, rows, Read)
          + CountWith(ids, rows, Replied) + CountWith(ids, rows, Archived) == |ids|
  {
    if ids != [] {
      CountsPartition(ids[1..], rows);
    }
  }

  /** The stored ids whose row has status `st`. */
  function StatusKeys(rows: map<Id, Message>, st: Status): set<Id>
  {
    set id | id in rows && rows[id].status == st
  }

  /** The listed ids that are stored with status `st`. */
  function StatusIn(ids: seq<Id>, rows: map<Id, Message>, st: Status): set<Id>
  {
    set id | id in ids && id in rows && rows[id].status == st
  }

  lemma StatusInStep(ids: seq<Id>, rows: map<Id, Message>, st: Status)
    requires ids != []
    ensures StatusIn(ids, rows, st)
         == StatusIn(ids[1..], rows, st) + (if ids[0] in rows && rows[ids[0]].status == st then {ids[0]} else {})
  {
  }

  lemma HeadNotInTail(ids: seq<Id>)
    requires ids != [] && forall i, j :: 0 <= i < j < |ids| ==> ids[i] != ids[j]
    ensures ids[0] !in ids[1..]
  {
  }

  /** Over a list without repetitions, the count of `st` is the number of
      distinct listed ids stored with status `st`. */
  lemma {:induction false} CountWithDistinct(ids: seq<Id>, rows: map<Id, Message>, st: Status)
    requires forall i, j :: 0 <= i < j < |ids| ==> ids[i] != ids[j]
    ensures CountWith(ids, rows, st) == |StatusIn(ids, rows, st)|
  {
    if ids == [] {
      assert StatusIn(ids, rows, st) == {};
    } else {
      CountWithDistinct(ids[1..], rows, st);
      HeadNotInTail(ids);
      StatusInStep(ids, rows, st);
    }
  }

  /** On a valid store the count of `st` is the number of rows with status `st`. */
  lemma CountWithIsStatusRows(db: Store, st: Status)
    requires Valid(db)
    ensures CountWith(Ids(db), db.rows, st) == |StatusKeys(db.rows, st)|
  {
    var ids := Ids(db);
    IdsBelowDescending(db.rows, db.nextId);
    CountWithDistinct(ids, db.rows, st);
    IdsCoverStore(db);
    assert StatusIn(ids, db.rows, st) == StatusKeys(db.rows, st);
  }

  lemma StatusCountsOfValid(db: Store)
    ensures Valid(db) ==> forall st :: CountWith(Ids(db), db.rows, st) == |StatusKeys(db.rows, st)|
  {
    if Valid(db) {
      forall st ensures CountWith(Ids(db), db.rows, st) == |StatusKeys(db.rows, st)| {
        CountWithIsStatusRows(db, st);
      }
    }
  }

  /** The second query of the listing: `COUNT(*)` and one `SUM(CASE ...)` per
      status over the whole table. */
  function CountsOf(db: Store): (c: Counts)
    ensures c.unread + c.read + c.replied + c.archived == c.total
    ensures Valid(db) ==> c.total == |db.rows|
    ensures Valid(db) ==> c.unread == |StatusKeys(db.rows, Unread)|
    ensures Valid(db) ==> c.read == |StatusKeys(db.rows, Read)|
    ensures Valid(db) ==> c.replied == |StatusKeys(db.rows, Replied)|
    ensures Valid(db) ==> c.archived == |StatusKeys(db.rows, Archived)|
  {
    var ids := Ids(db);
    CountsPartition(ids, db.rows);
    IdsCoverStore(db);
    StatusCountsOfValid(db);
    Counts(|ids|,
      CountWith(ids, db.rows, Unread),
      CountWith(ids, db.rows, Read),
      CountWith(ids, db.rows, Replied),
      CountWith(ids, db.rows, Archived))
  }
}
