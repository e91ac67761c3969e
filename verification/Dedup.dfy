/** The one-off migration that removes agents with duplicate names
    (src/claw_msg/server/database.py). Which of several equally recent rows LIMIT 1 picks, and
    which spelling of a name GROUP BY returns, are left open. */
module Dedup {
  import opened Common

  datatype Row = Row(id: AgentId, name: string, createdAt: int)

  predicate SameName(a: string, b: string) {
    Fold(a) == Fold(b)
  }

  predicate Named(row: Row, name: string) {
    SameName(row.name, name)
  }

  /** The rows a DELETE that spares `keep` leaves, in order. */
  function Keep(rows: seq<Row>, keep: set<AgentId>): seq<Row> {
    if rows == [] then []
    else if rows[0].id in keep then [rows[0]] + Keep(rows[1..], keep)
    else Keep(rows[1..], keep)
  }

  function Ids(rows: seq<Row>): set<AgentId> {
    set r | r in rows :: r.id
  }

  ghost predicate DistinctIds(rows: seq<Row>) {
    forall i, j :: 0 <= i < j < |rows| ==> rows[i].id != rows[j].id
  }

  /** `w` is a row that `ORDER BY created_at DESC LIMIT 1` may return for this name. */
  predicate IsNewest(rows: seq<Row>, w: Row) {
    w in rows && forall r :: r in rows && Named(r, w.name) ==> r.createdAt <= w.createdAt
  }

  predicate HasDuplicate(rows: seq<Row>, name: string) {
    exists i, j :: 0 <= i < j < |rows| && Named(rows[i], name) && Named(rows[j], name)
  }

  ghost predicate AllNamesDistinct(rows: seq<Row>) {
    forall i, j :: 0 <= i < j < |rows| ==> !SameName(rows[i].name, rows[j].name)
  }

  /** What the migration promises: of every name one row stays, the newest. */
  ghost predicate IsDeduplicated(before: seq<Row>, after: seq<Row>) {
    && after == Keep(before, Ids(after))
    && AllNamesDistinct(after)
    && (forall r {:trigger NameIsIn(after, r)} :: r in before ==> NameIsIn(after, r))
    && (forall w :: w in after ==> IsNewest(before, w))
  }

  ghost predicate NameIsIn(rows: seq<Row>, r: Row) {
    exists w :: w in rows && Named(r, w.name)
  }

  lemma OnePerName(rows: seq<Row>, a: Row, b: Row)
    requires AllNamesDistinct(rows) && a in rows && b in rows && SameName(a.name, b.name)
    ensures a == b
  {
  }

  predicate IsListed(names: seq<string>, r: Row) {
    exists k :: 0 <= k < |names| && Named(r, names[k])
  }

  /** A SELECT of one name per group of rows that share a name. */
  ghost predicate IsDuplicateList(rows: seq<Row>, names: seq<string>) {
    && (forall k :: 0 <= k < |names| ==> HasDuplicate(rows, names[k]))
    && (forall r {:trigger HasDuplicate(rows, r.name)} ::
          r in rows && HasDuplicate(rows, r.name) ==> IsListed(names, r))
  }

  // ----- Facts about Keep ----------------------------------------------------------------

  lemma {:induction false} KeepMembers(rows: seq<Row>, keep: set<AgentId>)
    ensures forall r :: r in Keep(rows, keep) <==> r in rows && r.id in keep
    ensures DistinctIds(rows) ==> DistinctIds(Keep(rows, keep))
  {
    if rows != [] {
      KeepMembers(rows[1..], keep);
      assert rows == [rows[0]] + rows[1..];
      var rest := Keep(rows[1..], keep);
      if DistinctIds(rows) {
        assert DistinctIds(rows[1..]);
        forall j | 0 <= j < |rest| ensures rest[j].id != rows[0].id {
          assert rest[j] in rest;
        }
      }
    }
  }

  lemma {:induction false} KeepDepends(rows: seq<Row>, a: set<AgentId>, b: set<AgentId>)
    requires forall r :: r in rows ==> (r.id in a <==> r.id in b)
    ensures Keep(rows, a) == Keep(rows, b)
  {
    if rows != [] {
      KeepDepends(rows[1..], a, b);
    }
  }

  lemma {:induction false} KeepTwice(rows: seq<Row>, a: set<AgentId>, b: set<AgentId>)
    ensures Keep(Keep(rows, a), b) == Keep(rows, a * b)
  {
    if rows != [] {
      KeepTwice(rows[1..], a, b);
    }
  }

  lemma {:induction false} KeepAll(rows: seq<Row>, keep: set<AgentId>)
    requires forall r :: r in rows ==> r.id in keep
    ensures Keep(rows, keep) == rows
  {
    if rows != [] {
      KeepAll(rows[1..], keep);
    }
  }

  lemma SameId(rows: seq<Row>, a: Row, b: Row)
    requires DistinctIds(rows) && a in rows && b in rows && a.id == b.id
    ensures a == b
  {
  }

  // ----- One DELETE ----------------------------------------------------------------------

  /** The rows one DELETE removes: those of this name other than the one to keep. */
  function Doomed(rows: seq<Row>, name: string, keep: Row): set<AgentId> {
    set r | r in rows && Named(r, name) && r.id != keep.id :: r.id
  }

  lemma {:induction false} NewestExists(rows: seq<Row>, name: string) returns (w: Row)
    requires exists r :: r in rows && Named(r, name)
    ensures w in rows && Named(w, name) && IsNewest(rows, w)
  {
    if exists r :: r in rows[1..] && Named(r, name) {
      w := NewestExists(rows[1..], name);
      if Named(rows[0], name) && rows[0].createdAt > w.createdAt {
        w := rows[0];
      }
    } else {
      w := rows[0];
      assert forall r :: r in rows && Named(r, name) ==> r == w;
    }
  }

  /** How far the loop has come: names already done have one row left, the newest there was, and
      rows of other names are all still there. */
  ghost predicate Progress(before: seq<Row>, rows: seq<Row>, done: seq<string>) {
    && rows == Keep(before, Ids(rows))
    && (forall r {:trigger IsPending(done, r)} :: r in before && IsPending(done, r) ==> r in rows)
    && (forall k {:trigger OneLeft(before, rows, done[k])} :: 0 <= k < |done| ==> OneLeft(before, rows, done[k]))
  }

  ghost predicate IsPending(done: seq<string>, r: Row) {
    forall k :: 0 <= k < |done| ==> !Named(r, done[k])
  }

  ghost predicate OneLeft(before: seq<Row>, rows: seq<Row>, name: string) {
    exists w :: w in rows && Named(w, name) && IsNewest(before, w) && forall r :: r in rows && Named(r, name) ==> r == w
  }

  /** The newest of what the loop left of a name is the newest there was. */
  lemma NewestOfAll(before: seq<Row>, rows: seq<Row>, done: seq<string>, w: Row)
    requires Progress(before, rows, done) && DistinctIds(before) && IsNewest(rows, w)
    ensures IsNewest(before, w)
  {
    KeepMembers(before, Ids(rows));
    if k :| 0 <= k < |done| && Named(w, done[k]) {
      assert OneLeft(before, rows, done[k]);
    } else {
      assert IsPending(done, w);
      forall r | r in before && Named(r, w.name) ensures r in rows {
        assert IsPending(done, r);
      }
    }
  }

  lemma DeleteMakesProgress(before: seq<Row>, rows: seq<Row>, done: seq<string>, name: string, w: Row)
    requires Progress(before, rows, done) && DistinctIds(before)
    requires IsNewest(rows, w) && Named(w, name)
    ensures Progress(before, Keep(rows, Ids(rows) - Doomed(rows, name, w)), done + [name])
  {
    var after := Keep(rows, Ids(rows) - Doomed(rows, name, w));
    KeepMembers(before, Ids(rows));
    KeepMembers(rows, Ids(rows) - Doomed(rows, name, w));
    assert after == Keep(before, Ids(after)) by {
      KeepTwice(before, Ids(rows), Ids(rows) - Doomed(rows, name, w));
      KeepDepends(before, Ids(rows) * (Ids(rows) - Doomed(rows, name, w)), Ids(after));
    }
    forall r | r in rows && r !in after ensures Named(r, name) {
      var d :| d in rows && Named(d, name) && d.id == r.id;
      SameId(rows, d, r);
    }
    NewestOfAll(before, rows, done, w);
    assert w in after;
    forall r | r in after && Named(r, name) ensures r == w {
      SameId(rows, r, w);
    }
    forall k | 0 <= k < |done + [name]| ensures OneLeft(before, after, (done + [name])[k]) {
      if k < |done| {
        assert OneLeft(before, rows, done[k]);
      }
      if k < |done| && !SameName(done[k], name) {
        var o :| o in rows && Named(o, done[k]) && IsNewest(before, o)
          && forall r :: r in rows && Named(r, done[k]) ==> r == o;
        assert o in after;
        assert OneLeft(before, after, done[k]);
      }
    }
    forall r | r in before && IsPending(done + [name], r) ensures r in after {
      assert (done + [name])[|done|] == name;
      assert forall k :: 0 <= k < |done| ==> (done + [name])[k] == done[k];
      assert IsPending(done, r);
    }
  }

  lemma EveryNameStays(before: seq<Row>, rows: seq<Row>, done: seq<string>, r: Row)
    requires Progress(before, rows, done) && r in before
    ensures NameIsIn(rows, r)
  {
    if k :| 0 <= k < |done| && Named(r, done[k]) {
      assert OneLeft(before, rows, done[k]);
    } else {
      assert IsPending(done, r);
      assert r in rows && Named(r, r.name);
    }
  }

  lemma OneLeftPerName(before: seq<Row>, rows: seq<Row>, done: seq<string>, a: Row, b: Row)
    requires IsDuplicateList(before, done) && Progress(before, rows, done)
    requires a in rows && b in rows && a in before && b in before && SameName(a.name, b.name)
    ensures a == b
  {
    assert forall k :: 0 <= k < |done| ==> OneLeft(before, rows, done[k]);
    if a != b {
      var k := DuplicateIsListed(before, a, b, done);
    }
  }

  /** With every duplicated name done, the table is deduplicated. */
  lemma DoneIsDeduplicated(before: seq<Row>, rows: seq<Row>, done: seq<string>)
    requires DistinctIds(before) && IsDuplicateList(before, done) && Progress(before, rows, done)
    ensures IsDeduplicated(before, rows)
  {
    KeepMembers(before, Ids(rows));
    forall r {:trigger NameIsIn(rows, r)} | r in before ensures NameIsIn(rows, r) {
      EveryNameStays(before, rows, done, r);
    }
    forall a, b | a in rows && b in rows && SameName(a.name, b.name) ensures a == b {
      OneLeftPerName(before, rows, done, a, b);
    }
    NoRowTwice(before, rows);
    forall w | w in rows ensures IsNewest(before, w) {
      LeftIsNewest(before, rows, done, w);
    }
  }

  lemma NoRowTwice(before: seq<Row>, rows: seq<Row>)
    requires DistinctIds(before) && rows == Keep(before, Ids(rows))
    requires forall a, b :: a in rows && b in rows && SameName(a.name, b.name) ==> a == b
    ensures AllNamesDistinct(rows)
  {
    KeepMembers(before, Ids(rows));
    forall i, j | 0 <= i < j < |rows| ensures !SameName(rows[i].name, rows[j].name) {
      assert rows[i] != rows[j];
    }
  }

  lemma LeftIsNewest(before: seq<Row>, rows: seq<Row>, done: seq<string>, w: Row)
    requires IsDuplicateList(before, done) && Progress(before, rows, done) && w in rows && w in before
    ensures IsNewest(before, w)
  {
    forall r | r in before && Named(r, w.name) ensures r.createdAt <= w.createdAt {
      if r != w {
        var k := DuplicateIsListed(before, w, r, done);
        assert OneLeft(before, rows, done[k]);
      }
    }
  }

  lemma DuplicateIsListed(rows: seq<Row>, a: Row, b: Row, names: seq<string>) returns (k: nat)
    requires IsDuplicateList(rows, names) && a in rows && b in rows && a != b && SameName(a.name, b.name)
    ensures k < |names| && Named(a, names[k]) && Named(b, names[k])
  {
    var i :| 0 <= i < |rows| && rows[i] == a;
    var j :| 0 <= j < |rows| && rows[j] == b;
    if i < j {
      assert Named(rows[i], a.name) && Named(rows[j], a.name);
    } else {
      assert Named(rows[j], a.name) && Named(rows[i], a.name);
    }
    assert HasDuplicate(rows, a.name);
    k :| 0 <= k < |names| && Named(a, names[k]);
  }

  /** A listed name that is not done yet still has its rows; one that is done has one. */
  lemma StillNamed(before: seq<Row>, rows: seq<Row>, names: seq<string>, n: nat)
    requires IsDuplicateList(before, names) && n < |names| && Progress(before, rows, names[..n])
    ensures exists r :: r in rows && Named(r, names[n])
  {
    assert HasDuplicate(before, names[n]);
    var i, j :| 0 <= i < j < |before| && Named(before[i], names[n]) && Named(before[j], names[n]);
    if k :| 0 <= k < n && Named(before[i], names[..n][k]) {
      assert OneLeft(before, rows, names[..n][k]);
    } else {
      assert IsPending(names[..n], before[i]);
      assert before[i] in rows;
    }
  }

  // ----- Which rows may stay -------------------------------------------------------------

  lemma NewestOfKeyExists(rows: seq<Row>, prefer: set<AgentId>, key: string)
    requires exists r :: r in rows && Fold(r.name) == key
    ensures exists w :: IsWinner(rows, prefer, key, w)
  {
    var r :| r in rows && Fold(r.name) == key;
    var w := NewestExists(rows, r.name);
    if v :| v in rows && Fold(v.name) == key && IsNewest(rows, v) && v.id in prefer {
      assert IsWinner(rows, prefer, key, v);
    } else {
      assert IsWinner(rows, prefer, key, w);
    }
  }

  /** A newest row of a name, one of the preferred if there is such. */
  ghost predicate IsWinner(rows: seq<Row>, prefer: set<AgentId>, key: string, w: Row) {
    && IsNewest(rows, w) && Fold(w.name) == key
    && (w.id in prefer || forall v :: v in rows && Fold(v.name) == key && IsNewest(rows, v) ==> v.id !in prefer)
  }

  ghost function Winner(rows: seq<Row>, prefer: set<AgentId>, key: string): (w: Row)
    requires exists r :: r in rows && Fold(r.name) == key
    ensures IsWinner(rows, prefer, key, w)
  {
    NewestOfKeyExists(rows, prefer, key);
    var w :| IsWinner(rows, prefer, key, w);
    w
  }

  ghost predicate Wins(rows: seq<Row>, prefer: set<AgentId>, r: Row) {
    r in rows && r == Winner(rows, prefer, Fold(r.name))
  }

  /** LIMIT 1 may choose any newest row of each name: whatever rows one prefers, there is a
      deduplication that keeps them where it can. */
  lemma AnyNewestMayStay(before: seq<Row>, prefer: set<AgentId>) returns (kept: seq<Row>)
    requires DistinctIds(before)
    ensures IsDeduplicated(before, kept)
    ensures forall r :: r in kept <==> Wins(before, prefer, r)
  {
    var winners := set r | r in before && Wins(before, prefer, r) :: r.id;
    kept := Keep(before, winners);
    KeepMembers(before, winners);
    forall r ensures r in kept <==> Wins(before, prefer, r) {
      if r in kept {
        var v :| v in before && Wins(before, prefer, v) && v.id == r.id;
        SameId(before, v, r);
      }
    }
    KeepDepends(before, winners, Ids(kept));
    forall r {:trigger NameIsIn(kept, r)} | r in before ensures NameIsIn(kept, r) {
      var w := Winner(before, prefer, Fold(r.name));
      assert Wins(before, prefer, w) && Named(r, w.name);
    }
    NoRowTwice(before, kept);
  }

  /** Which rows the migration may keep, and which it has to: a row may stay exactly when no row of
      its name is later, and has to exactly when every other row of its name is earlier. */
  lemma SurvivesExactlyWhenNewest(before: seq<Row>, r: Row)
    requires DistinctIds(before) && r in before
    ensures (exists after :: IsDeduplicated(before, after) && r in after) <==> IsNewest(before, r)
    ensures (forall after :: IsDeduplicated(before, after) ==> r in after) <==> !IsOlder(before, r)
  {
    if IsNewest(before, r) {
      var kept := AnyNewestMayStay(before, {r.id});
      SameId(before, r, Winner(before, {r.id}, Fold(r.name)));
    }
    if IsOlder(before, r) {
      var kept := AnyOlderMayGo(before, r);
    } else {
      forall after | IsDeduplicated(before, after) ensures r in after {
        OnlyOneMustStay(before, after, r);
      }
    }
  }

  /** A newest row may be the one that stays instead of another of its name. */
  lemma StaysAlone(before: seq<Row>, w: Row, r: Row) returns (kept: seq<Row>)
    requires DistinctIds(before) && IsNewest(before, w) && r in before && r.id != w.id && Named(r, w.name)
    ensures IsDeduplicated(before, kept) && r !in kept
  {
    kept := AnyNewestMayStay(before, {w.id});
    assert IsWinner(before, {w.id}, Fold(r.name), Winner(before, {w.id}, Fold(r.name)));
  }

  lemma OnlyOneMustStay(before: seq<Row>, after: seq<Row>, r: Row)
    requires IsDeduplicated(before, after) && r in before && !IsOlder(before, r)
    ensures r in after
  {
    assert NameIsIn(after, r);
    var w :| w in after && Named(r, w.name);
    assert IsNewest(before, w);
  }

  lemma AnyOlderMayGo(before: seq<Row>, r: Row) returns (kept: seq<Row>)
    requires DistinctIds(before) && r in before && IsOlder(before, r)
    ensures IsDeduplicated(before, kept) && r !in kept
  {
    var others := Ids(before) - {r.id};
    kept := AnyNewestMayStay(before, others);
    if r in kept {
      assert IsNewest(before, r);
      var w :| w in before && w != r && Named(r, w.name) && r.createdAt <= w.createdAt;
      assert IsNewest(before, w);
      if w.id == r.id {
        SameId(before, w, r);
      }
    }
  }

  // ----- The migration -------------------------------------------------------------------

  const MIGRATION := "legacy_agent_name_dedup"

  /** What one start-up may do to the agents. Some row of each name, as recent as any, is to stay;
      if no other table refers to the rest they go, and otherwise nothing does. */
  ghost predicate Migrated(before: seq<Row>, referenced: set<AgentId>, after: seq<Row>, ok: bool) {
    exists kept :: IsDeduplicated(before, kept) && Settles(before, referenced, kept, after, ok)
  }

  ghost predicate Settles(before: seq<Row>, referenced: set<AgentId>, kept: seq<Row>, after: seq<Row>, ok: bool) {
    ok == Spares(before, referenced, kept) && after == if ok then kept else before
  }

  ghost predicate Spares(before: seq<Row>, referenced: set<AgentId>, after: seq<Row>) {
    forall r :: r in before && r.id in referenced ==> r in after
  }

  /** Another row of the same name is at least as recent. */
  ghost predicate IsOlder(rows: seq<Row>, r: Row) {
    exists w :: w in rows && w != r && Named(r, w.name) && r.createdAt <= w.createdAt
  }

  /** A DELETE that meets a referenced row fails a whole choice of rows to keep. */
  lemma BlockedStep(before: seq<Row>, rows: seq<Row>, referenced: set<AgentId>, name: string, w: Row)
    requires DistinctIds(before) && rows == Keep(before, Ids(rows))
    requires IsNewest(before, w) && w in rows && Named(w, name)
    requires !(Doomed(rows, name, w) !! referenced)
    ensures Migrated(before, referenced, before, false)
  {
    KeepMembers(before, Ids(rows));
    var id :| id in Doomed(rows, name, w) && id in referenced;
    var r :| r in rows && Named(r, name) && r.id == id && r.id != w.id;
    var kept := StaysAlone(before, w, r);
    assert !Spares(before, referenced, kept);
    assert Settles(before, referenced, kept, before, false);
  }

  lemma SparesReferenced(before: seq<Row>, rows: seq<Row>, referenced: set<AgentId>, name: string, w: Row)
    requires Spares(before, referenced, rows)
    requires Doomed(rows, name, w) !! referenced
    ensures Spares(before, referenced, Keep(rows, Ids(rows) - Doomed(rows, name, w)))
  {
    KeepMembers(rows, Ids(rows) - Doomed(rows, name, w));
  }

  /** Deduplicating again finds nothing to do. */
  lemma DeduplicatedOnceIsEnough(before: seq<Row>, after: seq<Row>, again: seq<Row>)
    requires DistinctIds(before) && IsDeduplicated(before, after) && IsDeduplicated(after, again)
    ensures again == after
  {
    KeepMembers(after, Ids(again));
    forall r | r in after ensures r in again {
      assert NameIsIn(again, r);
      var w :| w in again && Named(r, w.name);
      OnePerName(after, r, w);
    }
    KeepAll(after, Ids(again));
  }

  // ----- When the first start-up fails ---------------------------------------------------

  /** A row other tables refer to is older than another of its name. */
  ghost predicate IsOutdated(before: seq<Row>, referenced: set<AgentId>, r: Row) {
    r in before && r.id in referenced && !IsNewest(before, r)
  }

  /** Two rows of a name are both referred to. */
  ghost predicate Compete(before: seq<Row>, referenced: set<AgentId>, r: Row, v: Row) {
    && r in before && v in before && r != v && SameName(r.name, v.name)
    && r.id in referenced && v.id in referenced
  }

  lemma ConflictFails(before: seq<Row>, referenced: set<AgentId>, after: seq<Row>)
    requires Migrated(before, referenced, after, true)
    ensures forall r :: !IsOutdated(before, referenced, r)
    ensures forall r, v :: !Compete(before, referenced, r, v)
  {
    var kept :| IsDeduplicated(before, kept) && Settles(before, referenced, kept, after, true);
    forall r | r in before && r.id in referenced ensures IsNewest(before, r) {
      assert r in kept;
    }
    forall r, v | r in before && v in before && SameName(r.name, v.name) && r.id in referenced && v.id in referenced
      ensures r == v
    {
      OnePerName(kept, r, v);
    }
  }

  lemma WithoutConflictMaySucceed(before: seq<Row>, referenced: set<AgentId>) returns (after: seq<Row>)
    requires DistinctIds(before)
    requires forall r :: !IsOutdated(before, referenced, r)
    requires forall r, v :: !Compete(before, referenced, r, v)
    ensures Migrated(before, referenced, after, true)
  {
    after := AnyNewestMayStay(before, referenced);
    forall r | r in before && r.id in referenced ensures r in after {
      assert !IsOutdated(before, referenced, r);
      var w := Winner(before, referenced, Fold(r.name));
      assert !Compete(before, referenced, r, w);
    }
    assert Settles(before, referenced, after, after, true);
  }

  /** When the first start-up fails. It has to, and so will every retry, exactly when a referenced
      row is older than another of its name or two referenced rows share one. It may, depending on
      which of equally recent rows LIMIT 1 picks, exactly when a referenced row is not the one
      newest of its name. */
  lemma StartUpFailsExactlyWhen(before: seq<Row>, referenced: set<AgentId>)
    requires DistinctIds(before)
    ensures (forall after, ok :: Migrated(before, referenced, after, ok) ==> !ok) <==>
      (exists r :: IsOutdated(before, referenced, r)) || (exists r, v :: Compete(before, referenced, r, v))
    ensures (exists after :: Migrated(before, referenced, after, false)) <==>
      exists r :: r in before && r.id in referenced && IsOlder(before, r)
  {
    MustFailExactlyWhen(before, referenced);
    MayFailExactlyWhen(before, referenced);
  }

  lemma MustFailExactlyWhen(before: seq<Row>, referenced: set<AgentId>)
    requires DistinctIds(before)
    ensures (forall after, ok :: Migrated(before, referenced, after, ok) ==> !ok) <==>
      (exists r :: IsOutdated(before, referenced, r)) || (exists r, v :: Compete(before, referenced, r, v))
  {
    if (forall r :: !IsOutdated(before, referenced, r)) && (forall r, v :: !Compete(before, referenced, r, v)) {
      var after := WithoutConflictMaySucceed(before, referenced);
    } else {
      forall after, ok | Migrated(before, referenced, after, ok) ensures !ok {
        if ok {
          ConflictFails(before, referenced, after);
        }
      }
    }
  }

  lemma MayFailExactlyWhen(before: seq<Row>, referenced: set<AgentId>)
    requires DistinctIds(before)
    ensures (exists after :: Migrated(before, referenced, after, false)) <==>
      exists r :: r in before && r.id in referenced && IsOlder(before, r)
  {
    if after :| Migrated(before, referenced, after, false) {
      var kept :| IsDeduplicated(before, kept) && Settles(before, referenced, kept, after, false);
      var r :| r in before && r.id in referenced && r !in kept;
      if !IsOlder(before, r) {
        OnlyOneMustStay(before, kept, r);
      }
    }
    if r :| r in before && r.id in referenced && IsOlder(before, r) {
      var kept := AnyOlderMayGo(before, r);
      assert !Spares(before, referenced, kept);
      assert Settles(before, referenced, kept, before, false);
      assert Migrated(before, referenced, before, false);
    }
  }

  /** Bob registered, wrote a message and registered again: this database never starts. */
  lemma OldMessageBlocksStartUp(after: seq<Row>, ok: bool)
    ensures var before := [Row("a", "bob", 1), Row("b", "Bob", 2)];
      Migrated(before, {"a"}, after, ok) ==> !ok && after == before
  {
    var before := [Row("a", "bob", 1), Row("b", "Bob", 2)];
    assert before[0].id == "a" && before[1].id == "b" && "a"[0] != "b"[0];
    assert Fold("bob") == Fold("Bob");
    assert before[1] in before && Named(before[1], before[0].name);
    assert IsOutdated(before, {"a"}, before[0]);
    MustFailExactlyWhen(before, {"a"});
  }

  /** One round of the loop. */
  lemma DeleteStep(before: seq<Row>, rows: seq<Row>, referenced: set<AgentId>, dupes: seq<string>, n: nat,
                   w: Row, after: seq<Row>, ok: bool)
    requires DistinctIds(before) && n < |dupes|
    requires Progress(before, rows, dupes[..n]) && Spares(before, referenced, rows)
    requires IsNewest(rows, w) && Named(w, dupes[n])
    requires ok == (Doomed(rows, dupes[n], w) !! referenced)
    requires after == if ok then Keep(rows, Ids(rows) - Doomed(rows, dupes[n], w)) else rows
    ensures ok ==> Progress(before, after, dupes[..n + 1]) && Spares(before, referenced, after)
    ensures !ok ==> Migrated(before, referenced, before, false)
  {
    if ok {
      assert dupes[..n] + [dupes[n]] == dupes[..n + 1];
      DeleteMakesProgress(before, rows, dupes[..n], dupes[n], w);
      SparesReferenced(before, rows, referenced, dupes[n], w);
    } else {
      NewestOfAll(before, rows, dupes[..n], w);
      BlockedStep(before, rows, referenced, dupes[n], w);
    }
  }

  lemma MoreIsListed(names: seq<string>, name: string)
    ensures forall r :: IsListed(names, r) || Named(r, name) ==> IsListed(names + [name], r)
  {
    forall r | IsListed(names, r) || Named(r, name) ensures IsListed(names + [name], r) {
      if Named(r, name) {
        assert (names + [name])[|names|] == name;
      } else {
        var k :| 0 <= k < |names| && Named(r, names[k]);
        assert (names + [name])[k] == names[k];
      }
    }
  }

  lemma NothingDone(rows: seq<Row>)
    ensures Progress(rows, rows, [])
  {
    KeepAll(rows, Ids(rows));
  }

  /** A database as far as start-ups go. */
  datatype State = State(rows: seq<Row>, referenced: set<AgentId>, marked: bool)

  /** What `init_db` may make of it. */
  ghost predicate StartsUp(s: State, t: State, ok: bool) {
    && t.referenced == s.referenced
    && (if s.marked then ok && t.rows == s.rows && t.marked
        else t.marked == ok && Migrated(s.rows, s.referenced, t.rows, ok))
  }

  class Database {
    var rows: seq<Row>
    var referenced: set<AgentId>
    var migrations: set<string>

    ghost function View(): State
      reads this
    {
      State(rows, referenced, MIGRATION in migrations)
    }

    constructor (legacy: seq<Row>, referenced: set<AgentId>)
      ensures rows == legacy && this.referenced == referenced && migrations == {}
    {
      rows, this.referenced, migrations := legacy, referenced, {};
    }

    /** SELECT name ... GROUP BY name COLLATE NOCASE HAVING COUNT(*) > 1. */
    method SelectDuplicates() returns (names: seq<string>)
      ensures IsDuplicateList(rows, names)
    {
      names := [];
      for n := 0 to |rows|
        invariant forall k :: 0 <= k < |names| ==> HasDuplicate(rows, names[k])
        invariant forall r :: r in rows[..n] && HasDuplicate(rows, r.name) ==> IsListed(names, r)
      {
        assert rows[..n + 1] == rows[..n] + [rows[n]];
        if HasDuplicate(rows, rows[n].name) && !IsListed(names, rows[n]) {
          MoreIsListed(names, rows[n].name);
          names := names + [rows[n].name];
        }
      }
      assert rows[..|rows|] == rows;
    }

    /** DELETE the rows of this name other than one newest; a row another table refers to cannot
        be deleted, and then nothing is. */
    method DeleteOlder(name: string) returns (ok: bool, ghost keep: Row)
      requires exists r :: r in rows && Named(r, name)
      modifies this`rows
      ensures IsNewest(old(rows), keep) && Named(keep, name)
      ensures ok == (Doomed(old(rows), name, keep) !! referenced)
      ensures rows == if ok then Keep(old(rows), Ids(old(rows)) - Doomed(old(rows), name, keep)) else old(rows)
    {
      ghost var w := NewestExists(rows, name);
      var newest :| newest in rows && Named(newest, name) && IsNewest(rows, newest);
      keep := newest;
      var doomed := Doomed(rows, name, newest);
      ok := doomed !! referenced;
      if ok {
        rows := Keep(rows, Ids(rows) - doomed);
      }
    }

    /** `_deduplicate_agents`. */
    method Deduplicate() returns (ok: bool)
      requires DistinctIds(rows)
      modifies this`rows
      ensures Migrated(old(rows), referenced, if ok then rows else old(rows), ok)
    {
      ghost var before := rows;
      var dupes := SelectDuplicates();
      NothingDone(before);
      for n := 0 to |dupes|
        invariant DistinctIds(before) && IsDuplicateList(before, dupes)
        invariant Progress(before, rows, dupes[..n])
        invariant Spares(before, referenced, rows)
      {
        StillNamed(before, rows, dupes, n);
        ghost var current := rows;
        ghost var keep;
        ok, keep := DeleteOlder(dupes[n]);
        DeleteStep(before, current, referenced, dupes, n, keep, rows, ok);
        if !ok {
          return false;
        }
      }
      assert dupes[..|dupes|] == dupes;
      DoneIsDeduplicated(before, rows, dupes);
      return true;
    }

    /** `_run_legacy_agent_name_dedup_migration`, with the rollback of a failed start-up. */
    method StartUp() returns (ok: bool)
      requires DistinctIds(rows)
      modifies this`rows, this`migrations
      ensures StartsUp(old(View()), View(), ok)
      ensures migrations == old(migrations) + if ok then {MIGRATION} else {}
    {
      if MIGRATION in migrations {
        return true;
      }
      var saved := rows;
      ok := Deduplicate();
      if ok {
        migrations := migrations + {MIGRATION};
      } else {
        rows := saved;
      }
    }
  }

  // ----- Start-ups over a database's life --------------------------------------------------

  /** Between start-ups agents register and rename themselves, and references come and go. */
  datatype Event = Start | Insert(row: Row) | Rename(id: AgentId, name: string) | Refer(referenced: set<AgentId>)

  function Renamed(rows: seq<Row>, id: AgentId, name: string): seq<Row> {
    seq(|rows|, i requires 0 <= i < |rows| => if rows[i].id == id then rows[i].(name := name) else rows[i])
  }

  ghost predicate Next(s: State, e: Event, t: State) {
    match e
    case Start => exists ok :: StartsUp(s, t, ok)
    case Insert(row) => row.id !in Ids(s.rows) && t == s.(rows := s.rows + [row])
    case Rename(id, name) => t == s.(rows := Renamed(s.rows, id, name))
    case Refer(referenced) => t == s.(referenced := referenced)
  }

  ghost predicate IsLife(states: seq<State>, events: seq<Event>) {
    && |states| == |events| + 1
    && DistinctIds(states[0].rows)
    && forall k {:trigger events[k]} :: 0 <= k < |events| ==> Next(states[k], events[k], states[k + 1])
  }

  /** Every row of `a` is still there, at its place. */
  ghost predicate Extends(a: seq<Row>, b: seq<Row>) {
    |a| <= |b| && forall i :: 0 <= i < |a| ==> b[i].id == a[i].id
  }

  lemma NextKeepsRows(s: State, e: Event, t: State)
    requires Next(s, e, t) && DistinctIds(s.rows)
    ensures DistinctIds(t.rows)
    ensures s.marked ==> t.marked && Extends(s.rows, t.rows)
    ensures s.marked && e.Start? ==> t == s
  {
    if e.Start? && !s.marked {
      KeepMembers(s.rows, Ids(t.rows));
    }
    if e.Insert? {
      assert forall i :: 0 <= i < |s.rows| ==> s.rows[i].id in Ids(s.rows);
    }
  }

  lemma {:induction false} IdsStayDistinct(states: seq<State>, events: seq<Event>, k: nat)
    requires IsLife(states, events) && k < |states|
    ensures DistinctIds(states[k].rows)
  {
    if k > 0 {
      IdsStayDistinct(states, events, k - 1);
      NextKeepsRows(states[k - 1], events[k - 1], states[k]);
    }
  }

  /** From the first start-up that succeeds, no row is ever removed or moved, whatever duplicate
      names are registered since; and every later start-up leaves the database as it is. */
  lemma {:induction false} LaterStartUpsDeleteNothing(states: seq<State>, events: seq<Event>, first: nat, last: nat)
    requires IsLife(states, events) && first <= last < |states| && states[first].marked
    ensures states[last].marked && Extends(states[first].rows, states[last].rows)
    ensures last < |events| && events[last].Start? ==> states[last + 1] == states[last]
    decreases last
  {
    if first < last {
      LaterStartUpsDeleteNothing(states, events, first, last - 1);
      IdsStayDistinct(states, events, last - 1);
      NextKeepsRows(states[last - 1], events[last - 1], states[last]);
    }
  }
}
