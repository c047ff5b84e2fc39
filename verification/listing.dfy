/** The first query of the admin listing (contact.js lines 16-42): the
    optional status filter, the optional search over four columns, the
    newest-first order and the LIMIT/OFFSET page. */
module Listing {
  import opened Common
  import opened Messages
  import Auth

  /** `users.fullname` by user id, for the LEFT JOIN on `replied_by`. */
  type Directory = map<Auth.UserId, string>

  /** A row as the listing and the detail return it: the stored message, its
      id and the display name of the admin who replied, if any. */
  datatype Row = Row(id: Id, msg: Message, repliedByName: Option<string>)

  /** The LEFT JOIN: a name only when `replied_by` is set and names a known user. */
  function RepliedByName(m: Message, users: Directory): (n: Option<string>)
    ensures n.Some? <==> m.repliedBy.Some? && m.repliedBy.value in users
    ensures n.Some? ==> n.value == users[m.repliedBy.value]
  {
    if m.repliedBy.Some? && m.repliedBy.value in users then Some(users[m.repliedBy.value]) else None
  }

  function RowOf(db: Store, users: Directory, id: Id): Row
    requires id in db.rows
  {
    Row(id, db.rows[id], RepliedByName(db.rows[id], users))
  }

  /** `r` is exactly what the table holds under `r.id`, joined with `users`. */
  ghost predicate Stored(db: Store, users: Directory, r: Row)
  {
    r.id in db.rows && r == RowOf(db, users, r.id)
  }

  /** No two rows share an id: the primary key shows each message once. */
  ghost predicate DistinctIds(rs: seq<Row>)
  {
    forall i, j :: 0 <= i < j < |rs| ==> rs[i].id != rs[j].id
  }

  /** Every row of the table, each once, in enumeration order. */
  function AllRows(db: Store, users: Directory): (rs: seq<Row>)
    ensures forall r :: r in rs ==> Stored(db, users, r)
    ensures Valid(db) ==> forall id :: id in db.rows ==> RowOf(db, users, id) in rs
    ensures DistinctIds(rs)
  {
    var ids := Ids(db);
    IdsCoverStore(db);
    IdsBelowDescending(db.rows, db.nextId);
    var rs := seq(|ids|, i requires 0 <= i < |ids| => RowOf(db, users, ids[i]));
    assert forall i :: 0 <= i < |rs| ==> rs[i].id == ids[i];
    assert forall id :: id in ids ==> RowOf(db, users, id) in rs by {
      forall id | id in ids ensures RowOf(db, users, id) in rs {
        var i :| 0 <= i < |ids| && ids[i] == id;
        assert rs[i] == RowOf(db, users, id);
      }
    }
    rs
  }

  /** The query string of `GET /api/contact`; absent numbers take their defaults. */
  datatype Query = Query(status: Option<string>, search: Option<string>, limit: Option<nat>, offset: Option<nat>)

  const DefaultLimit: nat := 50
  const DefaultOffset: nat := 0
  const AllFilter: string := "all"

  /** The status clause is added only for a truthy filter other than `all`,
      and then compares the stored status name with the raw filter text. */
  predicate StatusMatches(m: Message, status: Option<string>)
  {
    !Truthy(status) || status.value == AllFilter || StatusName(m.status) == status.value
  }

  /** The search clause is added only for a truthy search text, and then
      asks for it in the name, email, subject or message. */
  predicate SearchMatches(m: Message, search: Option<string>)
  {
    || !Truthy(search)
    || Contains(m.name, search.value)
    || Contains(m.email, search.value)
    || Contains(m.subject, search.value)
    || Contains(m.message, search.value)
  }

  predicate Selected(m: Message, q: Query)
  {
    StatusMatches(m, q.status) && SearchMatches(m, q.search)
  }

  /** The WHERE clause: it keeps rows and never repeats one. */
  function Filter(rs: seq<Row>, q: Query): (out: seq<Row>)
    ensures forall r :: r in out <==> r in rs && Selected(r.msg, q)
    ensures |out| <= |rs|
    ensures DistinctIds(rs) ==> DistinctIds(out)
  {
    if rs == [] then []
    else
      var rest := Filter(rs[1..], q);
      DistinctTail(rs);
      if Selected(rs[0].msg, q) then
        DistinctCons(rs[0], rest);
        [rs[0]] + rest
      else rest
  }

  lemma DistinctTail(rs: seq<Row>)
    requires rs != []
    ensures DistinctIds(rs) ==> DistinctIds(rs[1..]) && forall r :: r in rs[1..] ==> r.id != rs[0].id
  {
  }

  lemma DistinctCons(r: Row, rest: seq<Row>)
    ensures DistinctIds(rest) && (forall x :: x in rest ==> x.id != r.id) ==> DistinctIds([r] + rest)
  {
  }

  function Tick(r: Row): int
  {
    r.msg.createdAt.tick
  }

  /** `ORDER BY created_at DESC`. */
  ghost predicate NewestFirst(rs: seq<Row>)
  {
    forall i, j :: 0 <= i < j < |rs| ==> Tick(rs[i]) >= Tick(rs[j])
  }

  lemma NewestFirstCons(x: Row, rs: seq<Row>)
    requires NewestFirst(rs)
    requires forall y :: y in rs ==> Tick(y) <= Tick(x)
    ensures NewestFirst([x] + rs)
  {
  }

  /** One step of insertion sort; equal creation times keep their order. */
  function Insert(r: Row, rs: seq<Row>): (out: seq<Row>)
    requires NewestFirst(rs)
    ensures NewestFirst(out)
    ensures multiset(out) == multiset(rs) + multiset{r}
    decreases |rs|
  {
    if rs == [] || Tick(r) >= Tick(rs[0]) then
      HeadIsNewest(r, rs);
      NewestFirstCons(r, rs);
      [r] + rs
    else
      TailNewestFirst(rs);
      var rest := Insert(r, rs[1..]);
      MultisetBound(rest, rs[1..], r, Tick(rs[0]));
      NewestFirstCons(rs[0], rest);
      assert rs == [rs[0]] + rs[1..];
      [rs[0]] + rest
  }

  lemma HeadIsNewest(r: Row, rs: seq<Row>)
    requires NewestFirst(rs)
    requires rs == [] || Tick(r) >= Tick(rs[0])
    ensures forall y :: y in rs ==> Tick(y) <= Tick(r)
  {
  }

  lemma TailNewestFirst(rs: seq<Row>)
    requires NewestFirst(rs) && rs != []
    ensures NewestFirst(rs[1..])
    ensures forall y :: y in rs[1..] ==> Tick(y) <= Tick(rs[0])
  {
  }

  /** A bound on every element of `ys` and on `r` bounds every element of
      a permutation of `ys` plus `r`. */
  lemma MultisetBound(xs: seq<Row>, ys: seq<Row>, r: Row, t: int)
    requires multiset(xs) == multiset(ys) + multiset{r}
    requires Tick(r) <= t
    requires forall y :: y in ys ==> Tick(y) <= t
    ensures forall x :: x in xs ==> Tick(x) <= t
  {
    forall x | x in xs ensures Tick(x) <= t {
      assert x in multiset(xs);
      if x != r {
        assert x in multiset(ys);
      }
    }
  }

  /** Newest first, as a permutation of its input. */
  function SortNewestFirst(rs: seq<Row>): (out: seq<Row>)
    ensures NewestFirst(out)
    ensures multiset(out) == multiset(rs)
  {
    if rs == [] then []
    else
      assert rs == [rs[0]] + rs[1..];
      Insert(rs[0], SortNewestFirst(rs[1..]))
  }

  /** A row listed at two positions occurs twice in the multiset. */
  lemma Twice(s: seq<Row>, i: nat, j: nat)
    requires i < j < |s| && s[i] == s[j]
    ensures multiset(s)[s[i]] >= 2
  {
    assert s == s[..j] + s[j..];
    assert s[i] in s[..j];
    assert s[j..][0] == s[i];
  }

  /** Under distinct ids a row occurs at most once. */
  lemma {:induction false} AtMostOnce(s: seq<Row>, x: Row)
    requires DistinctIds(s)
    ensures multiset(s)[x] <= 1
  {
    if s != [] {
      DistinctTail(s);
      AtMostOnce(s[1..], x);
      assert s == [s[0]] + s[1..];
    }
  }

  /** Reordering a list with distinct ids keeps them distinct. */
  lemma PermutationKeepsDistinct(xs: seq<Row>, ys: seq<Row>)
    requires multiset(xs) == multiset(ys) && DistinctIds(ys)
    ensures DistinctIds(xs)
  {
    forall i, j | 0 <= i < j < |xs| ensures xs[i].id != xs[j].id {
      if xs[i] == xs[j] {
        Twice(xs, i, j);
        AtMostOnce(ys, xs[i]);
      } else {
        assert xs[i] in multiset(ys) && xs[j] in multiset(ys);
        var a :| 0 <= a < |ys| && ys[a] == xs[i];
        var b :| 0 <= b < |ys| && ys[b] == xs[j];
        assert a != b;
      }
    }
  }

  /** `LIMIT limit OFFSET offset`. */
  function Page(rs: seq<Row>, offset: nat, limit: nat): (out: seq<Row>)
    ensures |out| <= limit
    ensures offset >= |rs| ==> out == []
    ensures offset < |rs| ==> |out| == (if limit < |rs| - offset then limit else |rs| - offset)
    ensures forall i :: 0 <= i < |out| ==> offset + i < |rs| && out[i] == rs[offset + i]
  {
    if offset >= |rs| then []
    else if limit < |rs| - offset then rs[offset..offset + limit]
    else rs[offset..]
  }

  /** Every row the query selects, each once, newest first, before paging. */
  function Matches(db: Store, users: Directory, q: Query): (out: seq<Row>)
    ensures NewestFirst(out)
    ensures forall r :: r in out ==> Stored(db, users, r) && Selected(r.msg, q)
    ensures Valid(db) ==> forall id :: id in db.rows && Selected(db.rows[id], q) ==> RowOf(db, users, id) in out
    ensures DistinctIds(out)
  {
    var all := AllRows(db, users);
    var selected := Filter(all, q);
    var out := SortNewestFirst(selected);
    PermutationKeepsDistinct(out, selected);
    assert forall r :: r in out <==> r in selected by {
      forall r ensures r in out <==> r in selected {
        assert r in out <==> r in multiset(out);
        assert r in selected <==> r in multiset(selected);
      }
    }
    out
  }

  /** A page of a newest-first sequence is newest first, holds only its rows
      and repeats none when it repeats none. */
  lemma PageOfSorted(rs: seq<Row>, offset: nat, limit: nat)
    requires NewestFirst(rs)
    ensures NewestFirst(Page(rs, offset, limit))
    ensures forall r :: r in Page(rs, offset, limit) ==> r in rs
    ensures DistinctIds(rs) ==> DistinctIds(Page(rs, offset, limit))
  {
  }

  /** The page the listing returns. */
  function ListPage(db: Store, users: Directory, q: Query): (out: seq<Row>)
    ensures out == Page(Matches(db, users, q), q.offset.GetOr(DefaultOffset), q.limit.GetOr(DefaultLimit))
    ensures |out| <= q.limit.GetOr(DefaultLimit)
    ensures NewestFirst(out)
    ensures forall r :: r in out ==> Stored(db, users, r) && Selected(r.msg, q)
    ensures DistinctIds(out)
  {
    var all := Matches(db, users, q);
    PageOfSorted(all, q.offset.GetOr(DefaultOffset), q.limit.GetOr(DefaultLimit));
    Page(all, q.offset.GetOr(DefaultOffset), q.limit.GetOr(DefaultLimit))
  }

  /** Without an offset, when every match fits within the limit, the page
      holds every selected row of a valid table. */
  lemma FirstPageComplete(db: Store, users: Directory, q: Query)
    requires Valid(db) && q.offset.GetOr(DefaultOffset) == 0
    requires |Matches(db, users, q)| <= q.limit.GetOr(DefaultLimit)
    ensures forall id :: id in db.rows && Selected(db.rows[id], q) ==> RowOf(db, users, id) in ListPage(db, users, q)
  {
  }

  /** With no truthy status and no truthy search, every row of a valid
      table is a match: an empty filter lists everything. */
  lemma {:induction false} NoFilterSelectsAll(db: Store, users: Directory, q: Query)
    requires Valid(db)
    requires !Truthy(q.status) && !Truthy(q.search)
    ensures |Matches(db, users, q)| == |db.rows|
  {
    var all := AllRows(db, users);
    IdsCoverStore(db);
    FilterKeepsAll(all, q);
    assert |all| == |Ids(db)|;
    var out := SortNewestFirst(Filter(all, q));
    assert |multiset(out)| == |multiset(Filter(all, q))|;
  }

  lemma {:induction false} FilterKeepsAll(rs: seq<Row>, q: Query)
    requires forall r :: r in rs ==> Selected(r.msg, q)
    ensures Filter(rs, q) == rs
  {
    if rs != [] {
      FilterKeepsAll(rs[1..], q);
      assert rs == [rs[0]] + rs[1..];
    }
  }

  /** A truthy status filter that is not `all` and names no status is not
      rejected: it selects nothing. */
  lemma UnknownStatusSelectsNothing(db: Store, users: Directory, q: Query)
    requires Truthy(q.status) && q.status.value != AllFilter && ParseStatus(q.status.value).None?
    ensures Matches(db, users, q) == []
    ensures ListPage(db, users, q) == []
  {
    var out := Matches(db, users, q);
    if out != [] {
      HasMember(out);
      assert false;
    }
  }

  lemma HasMember(rs: seq<Row>)
    requires rs != []
    ensures exists r :: r in rs
  {
    assert rs[0] in rs;
  }
}
