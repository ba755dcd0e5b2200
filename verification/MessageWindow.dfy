/** The last-messages window of `SQLiteManager` (mem0/memory/storage.py): inserting
    and evicting call by call keeps, for every scope, a latest-10 of everything
    ever saved to it. */
module MessageWindow {
  import opened Sets

  datatype Message = Message(role: string, content: string, name: string)

  /** A row of the messages table; `createdAt` is the position of its timestamp in time. */
  datatype Row = Row(id: nat, scope: string, message: Message, createdAt: int)

  const WINDOW := 10

  /** How SQLite orders two rows with one timestamp: any way it likes. */
  type TieBreak = (Row, Row) -> bool

  // ---------- ORDER BY created_at DESC LIMIT k ----------

  predicate Before(tie: TieBreak, a: Row, c: Row) {
    a.createdAt > c.createdAt || (a.createdAt == c.createdAt && tie(a, c))
  }

  function InsertDesc(tie: TieBreak, r: Row, sorted: seq<Row>): (s: seq<Row>)
    ensures |s| == |sorted| + 1 && multiset(s) == multiset(sorted) + multiset{r}
  {
    if sorted == [] || Before(tie, r, sorted[0]) then [r] + sorted
    else
      assert sorted == [sorted[0]] + sorted[1..];
      [sorted[0]] + InsertDesc(tie, r, sorted[1..])
  }

  function SortDesc(tie: TieBreak, rows: seq<Row>): (s: seq<Row>)
    ensures |s| == |rows| && multiset(s) == multiset(rows)
  {
    if rows == [] then [] else
    assert rows == [rows[0]] + rows[1..];
    InsertDesc(tie, rows[0], SortDesc(tie, rows[1..]))
  }

  function Take(rows: seq<Row>, k: nat): seq<Row> { if |rows| <= k then rows else rows[..k] }

  ghost predicate Descending(rows: seq<Row>) {
    forall i, j :: 0 <= i < j < |rows| ==> rows[i].createdAt >= rows[j].createdAt
  }

  lemma InsertDescending(tie: TieBreak, r: Row, sorted: seq<Row>)
    requires Descending(sorted)
    ensures Descending(InsertDesc(tie, r, sorted))
  {
    if sorted != [] && !Before(tie, r, sorted[0]) {
      InsertDescending(tie, r, sorted[1..]);
      var rest := InsertDesc(tie, r, sorted[1..]);
      forall i | 0 <= i < |rest| ensures sorted[0].createdAt >= rest[i].createdAt {
        assert rest[i] in multiset(rest);
        assert rest[i] == r || rest[i] in sorted[1..];
      }
    }
  }

  lemma SortDescending(tie: TieBreak, rows: seq<Row>)
    ensures Descending(SortDesc(tie, rows))
  {
    if rows != [] {
      SortDescending(tie, rows[1..]);
      InsertDescending(tie, rows[0], SortDesc(tie, rows[1..]));
    }
  }

  // ---------- a valid choice of the latest k ----------

  function SetOf(rows: seq<Row>): (s: set<Row>)
    ensures forall r :: r in s <==> r in rows
  {
    set r | r in rows
  }

  ghost predicate NoRepeats(rows: seq<Row>) {
    forall i, j :: 0 <= i < j < |rows| ==> rows[i] != rows[j]
  }

  /** `kept` is one of the possible answers to "the latest k of `all`". */
  ghost predicate IsLatest(kept: set<Row>, all: set<Row>, k: nat) {
    && kept <= all
    && |kept| == (if |all| <= k then |all| else k)
    && forall r, d :: r in kept && d in all - kept ==> r.createdAt >= d.createdAt
  }

  lemma {:induction false} SizeOfSet(rows: seq<Row>)
    requires NoRepeats(rows)
    ensures |SetOf(rows)| == |rows|
  {
    if rows != [] {
      assert NoRepeats(rows[1..]) && rows[0] !in rows[1..];
      SizeOfSet(rows[1..]);
      assert SetOf(rows) == SetOf(rows[1..]) + {rows[0]};
    }
  }

  lemma SortNoRepeats(tie: TieBreak, rows: seq<Row>)
    requires NoRepeats(rows)
    ensures NoRepeats(SortDesc(tie, rows)) && SetOf(SortDesc(tie, rows)) == SetOf(rows)
  {
    var s := SortDesc(tie, rows);
    forall r ensures r in s <==> r in rows {
      assert r in s <==> r in multiset(s);
      assert r in rows <==> r in multiset(rows);
    }
    OccursOnce(rows);
    OnceNoRepeats(s);
  }

  lemma {:induction false} OccursOnce(rows: seq<Row>)
    requires NoRepeats(rows)
    ensures forall r :: multiset(rows)[r] <= 1
  {
    if rows != [] {
      assert NoRepeats(rows[1..]) && rows[0] !in rows[1..];
      OccursOnce(rows[1..]);
      assert rows == [rows[0]] + rows[1..];
    }
  }

  lemma {:induction false} OnceNoRepeats(rows: seq<Row>)
    requires forall r :: multiset(rows)[r] <= 1
    ensures NoRepeats(rows)
  {
    if rows != [] {
      assert rows == [rows[0]] + rows[1..];
      forall r ensures multiset(rows[1..])[r] <= 1 { assert multiset(rows)[r] <= 1; }
      OnceNoRepeats(rows[1..]);
      assert multiset(rows)[rows[0]] == 1 + multiset(rows[1..])[rows[0]];
      assert rows[0] !in multiset(rows[1..]);
    }
  }

  lemma TopBeatsRest(s: seq<Row>, k: nat, r: Row, d: Row)
    requires Descending(s) && r in Take(s, k) && d in s && d !in Take(s, k)
    ensures r.createdAt >= d.createdAt
  {
  }

  lemma TopIsLatest(s: seq<Row>, k: nat)
    requires Descending(s) && NoRepeats(s)
    ensures IsLatest(SetOf(Take(s, k)), SetOf(s), k)
  {
    SizeOfSet(s);
    SizeOfSet(Take(s, k));
    forall r, d | r in SetOf(Take(s, k)) && d in SetOf(s) - SetOf(Take(s, k)) ensures r.createdAt >= d.createdAt {
      TopBeatsRest(s, k, r, d);
    }
  }

  /** The query returns a valid choice, whatever the tie-breaking. */
  lemma QueryIsLatest(tie: TieBreak, rows: seq<Row>, k: nat)
    requires NoRepeats(rows)
    ensures IsLatest(SetOf(Take(SortDesc(tie, rows), k)), SetOf(rows), k)
  {
    SortDescending(tie, rows);
    SortNoRepeats(tie, rows);
    TopIsLatest(SortDesc(tie, rows), k);
  }

  /** Choosing again after new rows arrive is as good as choosing once from everything. */
  lemma LatestOfLatest(kept: set<Row>, all: set<Row>, more: set<Row>, again: set<Row>, k: nat)
    requires IsLatest(kept, all, k) && IsLatest(again, kept + more, k)
    ensures IsLatest(again, all + more, k)
  {
    LatestSize(kept, all, more, k);
    forall r, d | r in again && d in all + more - again ensures r.createdAt >= d.createdAt {
      if d !in kept + more {
        LatestSpare(kept, all, more, again, k, r, d);
      }
    }
  }

  lemma LatestSize(kept: set<Row>, all: set<Row>, more: set<Row>, k: nat)
    requires IsLatest(kept, all, k)
    ensures var n, m := |kept + more|, |all + more|; (if n <= k then n else k) == (if m <= k then m else k)
  {
    SubsetSize(kept, all);
    SubsetSize(kept, kept + more);
    SubsetSize(kept + more, all + more);
  }

  /** A row that was evicted before loses to some row that was kept then. */
  lemma LatestSpare(kept: set<Row>, all: set<Row>, more: set<Row>, again: set<Row>, k: nat, r: Row, d: Row)
    requires IsLatest(kept, all, k) && IsLatest(again, kept + more, k)
    requires r in again && d in all && d !in kept + more
    ensures r.createdAt >= d.createdAt
  {
    if r !in kept {
      SubsetSize(kept, all);
      SubsetSize(kept, kept + more);
      if kept <= again {
        SubsetSize(kept + {r}, again);
      }
      var s :| s in kept && s !in again;
      assert r.createdAt >= s.createdAt;
    }
  }

  // ---------- the table ----------

  function OfScope(table: seq<Row>, scope: string): seq<Row>
    ensures forall r :: r in OfScope(table, scope) <==> r in table && r.scope == scope
  {
    if table == [] then [] else
    var rest := OfScope(table[1..], scope);
    assert forall r :: r in table <==> r == table[0] || r in table[1..];
    if table[0].scope == scope then [table[0]] + rest else rest
  }

  /** The rows one call inserts. */
  function NewRows(messages: seq<Message>, scope: string, now: int, next: nat): (r: seq<Row>)
    ensures |r| == |messages|
  {
    seq(|messages|, i requires 0 <= i < |messages| => Row(next + i, scope, messages[i], now))
  }

  /** `DELETE ... WHERE session_scope = ? AND id NOT IN (...)` */
  function Evict(table: seq<Row>, scope: string, keep: set<nat>): (r: seq<Row>)
    ensures forall x :: x in r <==> x in table && (x.scope != scope || x.id in keep)
  {
    if table == [] then [] else
    var rest := Evict(table[1..], scope, keep);
    assert forall r :: r in table <==> r == table[0] || r in table[1..];
    if table[0].scope != scope || table[0].id in keep then [table[0]] + rest else rest
  }

  function Ids(rows: seq<Row>): (s: set<nat>)
    ensures forall i :: i in s <==> exists r :: r in rows && r.id == i
  {
    set r | r in rows :: r.id
  }

  function Latest(tie: TieBreak, table: seq<Row>, scope: string, k: nat): seq<Row> {
    Take(SortDesc(tie, OfScope(table, scope)), k)
  }

  datatype Table = Table(rows: seq<Row>, next: nat)

  /** One call of `save_messages`. */
  datatype Save = Save(messages: seq<Message>, scope: string, now: int, tie: TieBreak)

  function Apply(t: Table, c: Save): Table {
    if c.messages == [] then t else
    var grown := t.rows + NewRows(c.messages, c.scope, c.now, t.next);
    Table(Evict(grown, c.scope, Ids(Latest(c.tie, grown, c.scope, WINDOW))), t.next + |c.messages|)
  }

  function ApplyAll(t: Table, calls: seq<Save>): Table {
    if calls == [] then t else Apply(ApplyAll(t, calls[..|calls| - 1]), calls[|calls| - 1])
  }

  /** Every row ever inserted by the calls, in order. */
  function Inserted(calls: seq<Save>): seq<Row> {
    if calls == [] then [] else
    var before, c := Inserted(calls[..|calls| - 1]), calls[|calls| - 1];
    before + NewRows(c.messages, c.scope, c.now, |before|)
  }

  ghost predicate UniqueIds(t: Table) {
    && (forall i :: 0 <= i < |t.rows| ==> t.rows[i].id < t.next)
    && (forall i, j :: 0 <= i < j < |t.rows| ==> t.rows[i].id != t.rows[j].id)
  }

  // ---------- streaming eviction equals global eviction ----------

  lemma OfScopeNoRepeats(table: seq<Row>, scope: string)
    requires NoRepeats(table)
    ensures NoRepeats(OfScope(table, scope))
  {
    if table != [] {
      assert NoRepeats(table[1..]) && table[0] !in table[1..];
      OfScopeNoRepeats(table[1..], scope);
    }
  }

  lemma GrownUnique(t: Table, messages: seq<Message>, scope: string, now: int)
    requires UniqueIds(t)
    ensures UniqueIds(Table(t.rows + NewRows(messages, scope, now, t.next), t.next + |messages|))
  {
  }

  lemma UniqueNoRepeats(t: Table)
    requires UniqueIds(t)
    ensures NoRepeats(t.rows)
    ensures forall r, s :: r in t.rows && s in t.rows && r.id == s.id ==> r == s
  {
  }

  lemma {:induction false} EvictUnique(table: seq<Row>, scope: string, keep: set<nat>, next: nat)
    requires UniqueIds(Table(table, next))
    ensures UniqueIds(Table(Evict(table, scope, keep), next))
  {
    if table != [] {
      var rest := Evict(table[1..], scope, keep);
      assert forall r :: r in table[1..] ==> r.id < next && r.id != table[0].id;
      EvictUnique(table[1..], scope, keep, next);
    }
  }

  lemma ApplyUnique(t: Table, c: Save)
    requires UniqueIds(t)
    ensures UniqueIds(Apply(t, c))
  {
    if c.messages != [] {
      var grown := t.rows + NewRows(c.messages, c.scope, c.now, t.next);
      GrownUnique(t, c.messages, c.scope, c.now);
      EvictUnique(grown, c.scope, Ids(Latest(c.tie, grown, c.scope, WINDOW)), t.next + |c.messages|);
    }
  }

  /** After one call the scope holds a latest-10 of what it held and was given. */
  lemma ApplyKeepsLatest(t: Table, c: Save)
    requires UniqueIds(t) && c.messages != []
    ensures var grown := t.rows + NewRows(c.messages, c.scope, c.now, t.next);
            IsLatest(SetOf(OfScope(Apply(t, c).rows, c.scope)), SetOf(OfScope(grown, c.scope)), WINDOW)
  {
    var grown := t.rows + NewRows(c.messages, c.scope, c.now, t.next);
    GrownUnique(t, c.messages, c.scope, c.now);
    UniqueNoRepeats(Table(grown, t.next + |c.messages|));
    OfScopeNoRepeats(grown, c.scope);
    QueryIsLatest(c.tie, OfScope(grown, c.scope), WINDOW);
    EvictKeepsChosen(grown, c.scope, Latest(c.tie, grown, c.scope, WINDOW));
  }

  lemma EvictKeepsChosen(grown: seq<Row>, scope: string, chosen: seq<Row>)
    requires forall r, s :: r in grown && s in grown && r.id == s.id ==> r == s
    requires SetOf(chosen) <= SetOf(OfScope(grown, scope))
    ensures SetOf(OfScope(Evict(grown, scope, Ids(chosen)), scope)) == SetOf(chosen)
  {
  }

  /** A call changes no other scope, not even the order of its rows. */
  lemma OtherScopesUntouched(t: Table, c: Save, scope: string)
    requires scope != c.scope
    ensures OfScope(Apply(t, c).rows, scope) == OfScope(t.rows, scope)
  {
    if c.messages != [] {
      var news := NewRows(c.messages, c.scope, c.now, t.next);
      EvictOther(t.rows + news, c.scope, Ids(Latest(c.tie, t.rows + news, c.scope, WINDOW)), scope);
      OfScopeAppend(t.rows, news, scope);
      OfScopeNone(news, scope);
    }
  }

  lemma {:induction false} EvictOther(table: seq<Row>, evicted: string, keep: set<nat>, scope: string)
    requires scope != evicted
    ensures OfScope(Evict(table, evicted, keep), scope) == OfScope(table, scope)
  {
    if table != [] {
      EvictOther(table[1..], evicted, keep, scope);
      var rest := Evict(table[1..], evicted, keep);
      assert ([table[0]] + rest)[1..] == rest;
    }
  }

  lemma {:induction false} OfScopeAppend(a: seq<Row>, c: seq<Row>, scope: string)
    ensures OfScope(a + c, scope) == OfScope(a, scope) + OfScope(c, scope)
  {
    if a == [] {
      assert a + c == c;
    } else {
      assert (a + c)[1..] == a[1..] + c;
      OfScopeAppend(a[1..], c, scope);
    }
  }

  lemma OfScopeNone(rows: seq<Row>, scope: string)
    requires forall i :: 0 <= i < |rows| ==> rows[i].scope != scope
    ensures OfScope(rows, scope) == []
  {
  }

  const EmptyTable := Table([], 0)

  lemma {:induction false} ApplyAllUnique(calls: seq<Save>)
    ensures UniqueIds(ApplyAll(EmptyTable, calls)) && ApplyAll(EmptyTable, calls).next == |Inserted(calls)|
  {
    if calls != [] {
      ApplyAllUnique(calls[..|calls| - 1]);
      ApplyUnique(ApplyAll(EmptyTable, calls[..|calls| - 1]), calls[|calls| - 1]);
    }
  }

  lemma StreamOther(t: Table, before: seq<Row>, c: Save, scope: string)
    requires scope != c.scope
    ensures OfScope(Apply(t, c).rows, scope) == OfScope(t.rows, scope)
    ensures OfScope(before + NewRows(c.messages, c.scope, c.now, |before|), scope) == OfScope(before, scope)
  {
    OtherScopesUntouched(t, c, scope);
    OfScopeAppend(before, NewRows(c.messages, c.scope, c.now, |before|), scope);
    OfScopeNone(NewRows(c.messages, c.scope, c.now, |before|), scope);
  }

  lemma StreamSame(t: Table, before: seq<Row>, c: Save)
    requires UniqueIds(t) && t.next == |before| && c.messages != []
    requires IsLatest(SetOf(OfScope(t.rows, c.scope)), SetOf(OfScope(before, c.scope)), WINDOW)
    ensures IsLatest(SetOf(OfScope(Apply(t, c).rows, c.scope)),
                     SetOf(OfScope(before + NewRows(c.messages, c.scope, c.now, |before|), c.scope)), WINDOW)
  {
    var news := NewRows(c.messages, c.scope, c.now, t.next);
    ApplyKeepsLatest(t, c);
    OfScopeAppend(before, news, c.scope);
    OfScopeAppend(t.rows, news, c.scope);
    LatestAfter(OfScope(t.rows, c.scope), OfScope(before, c.scope), OfScope(news, c.scope),
      SetOf(OfScope(Apply(t, c).rows, c.scope)));
  }

  lemma {:induction false} StreamingKeepsLatest(calls: seq<Save>, scope: string)
    ensures IsLatest(SetOf(OfScope(ApplyAll(EmptyTable, calls).rows, scope)), SetOf(OfScope(Inserted(calls), scope)),
      WINDOW)
  {
    if calls != [] {
      var init, c := calls[..|calls| - 1], calls[|calls| - 1];
      var before := Inserted(init);
      StreamingKeepsLatest(init, scope);
      ApplyAllUnique(init);
      if scope != c.scope {
        StreamOther(ApplyAll(EmptyTable, init), before, c, scope);
      } else if c.messages == [] {
        assert before + [] == before;
      } else {
        StreamSame(ApplyAll(EmptyTable, init), before, c);
      }
    }
  }

  lemma LatestAfter(kept: seq<Row>, all: seq<Row>, more: seq<Row>, again: set<Row>)
    requires IsLatest(SetOf(kept), SetOf(all), WINDOW) && IsLatest(again, SetOf(kept + more), WINDOW)
    ensures IsLatest(again, SetOf(all + more), WINDOW)
  {
    assert SetOf(kept + more) == SetOf(kept) + SetOf(more) && SetOf(all + more) == SetOf(all) + SetOf(more);
    LatestOfLatest(SetOf(kept), SetOf(all), SetOf(more), again, WINDOW);
  }

  // ---------- everything ever saved ----------

  /** How many messages the first `n` calls save. */
  function Offset(calls: seq<Save>, n: nat): nat
    requires n <= |calls|
  {
    if n == 0 then 0 else Offset(calls, n - 1) + |calls[n - 1].messages|
  }

  /** Message `i` of call `n`, as it is to be stored. */
  function SavedRow(calls: seq<Save>, n: nat, i: nat): Row
    requires n < |calls| && i < |calls[n].messages|
  {
    Row(Offset(calls, n) + i, calls[n].scope, calls[n].messages[i], calls[n].now)
  }

  /** Every message ever saved to the scope, with its call's time. */
  ghost function EverSaved(calls: seq<Save>, scope: string): set<Row> {
    set n: nat, i: nat | n < |calls| && i < |calls[n].messages| && calls[n].scope == scope :: SavedRow(calls, n, i)
  }

  lemma {:induction false} OffsetPrefix(calls: seq<Save>, m: nat, n: nat)
    requires n <= m <= |calls|
    ensures Offset(calls[..m], n) == Offset(calls, n)
  {
    if n > 0 { OffsetPrefix(calls, m, n - 1); }
  }

  lemma {:induction false} OffsetGrows(calls: seq<Save>, m: nat, n: nat)
    requires m < n <= |calls|
    ensures Offset(calls, m) + |calls[m].messages| <= Offset(calls, n)
  {
    if m < n - 1 { OffsetGrows(calls, m, n - 1); }
  }

  /** Each message of each call is one row: no two share an id. */
  lemma SavedOnce(calls: seq<Save>, m: nat, i: nat, n: nat, j: nat)
    requires m < |calls| && i < |calls[m].messages| && n < |calls| && j < |calls[n].messages|
    requires SavedRow(calls, m, i).id == SavedRow(calls, n, j).id
    ensures m == n && i == j
  {
    if m < n { OffsetGrows(calls, m, n); }
    if n < m { OffsetGrows(calls, n, m); }
  }

  lemma {:induction false} InsertedCount(calls: seq<Save>)
    ensures |Inserted(calls)| == Offset(calls, |calls|)
    decreases |calls|
  {
    if calls != [] {
      InsertedCount(calls[..|calls| - 1]);
      OffsetPrefix(calls, |calls| - 1, |calls| - 1);
    }
  }

  lemma {:induction false} InsertedAt(calls: seq<Save>, n: nat, i: nat)
    requires n < |calls| && i < |calls[n].messages|
    ensures SavedRow(calls, n, i) in Inserted(calls)
    decreases |calls|
  {
    var init, c := calls[..|calls| - 1], calls[|calls| - 1];
    OffsetPrefix(calls, |calls| - 1, n);
    if n < |calls| - 1 {
      InsertedAt(init, n, i);
    } else {
      InsertedCount(init);
      assert NewRows(c.messages, c.scope, c.now, |Inserted(init)|)[i] == SavedRow(calls, n, i);
    }
  }

  lemma {:induction false} InsertedFrom(calls: seq<Save>, r: Row) returns (n: nat, i: nat)
    requires r in Inserted(calls)
    ensures n < |calls| && i < |calls[n].messages| && r == SavedRow(calls, n, i)
    decreases |calls|
  {
    var init, c := calls[..|calls| - 1], calls[|calls| - 1];
    if r in Inserted(init) {
      n, i := InsertedFrom(init, r);
      OffsetPrefix(calls, |calls| - 1, n);
    } else {
      var news := NewRows(c.messages, c.scope, c.now, |Inserted(init)|);
      n := |calls| - 1;
      i :| 0 <= i < |news| && news[i] == r;
      InsertedCount(init);
      OffsetPrefix(calls, n, n);
    }
  }

  lemma SavedIsInserted(calls: seq<Save>, scope: string)
    ensures SetOf(OfScope(Inserted(calls), scope)) == EverSaved(calls, scope)
  {
    forall r ensures r in SetOf(OfScope(Inserted(calls), scope)) <==> r in EverSaved(calls, scope) {
      if r in Inserted(calls) && r.scope == scope {
        var n, i := InsertedFrom(calls, r);
      }
      if r in EverSaved(calls, scope) {
        var n: nat, i: nat :| n < |calls| && i < |calls[n].messages| && calls[n].scope == scope
                              && r == SavedRow(calls, n, i);
        InsertedAt(calls, n, i);
      }
    }
  }

  /** After any calls, with any timestamps and any tie-breaking, the rows of every
      scope are a valid latest-10 of all messages ever saved to it. */
  lemma StreamingEqualsGlobal(calls: seq<Save>, scope: string)
    ensures IsLatest(SetOf(OfScope(ApplyAll(EmptyTable, calls).rows, scope)), EverSaved(calls, scope), 10)
  {
    StreamingKeepsLatest(calls, scope);
    SavedIsInserted(calls, scope);
  }

  /** Rows later than all others are in every latest-k that has room for them. */
  lemma NewestAreKept(kept: set<Row>, all: set<Row>, newest: set<Row>, k: nat)
    requires IsLatest(kept, all, k) && newest <= all && |newest| <= k
    requires forall r, d :: r in newest && d in all - newest ==> r.createdAt > d.createdAt
    ensures newest <= kept
  {
    if r :| r in newest && r !in kept {
      assert r in all - kept;
      forall x | x in kept ensures x in newest - {r} { }
      SubsetSize(kept, newest - {r});
      SubsetSize(newest, all);
    }
  }

  /** The rows of the last call. */
  ghost function LastSaved(calls: seq<Save>): set<Row>
    requires calls != []
  {
    var n := |calls| - 1;
    set i: nat | i < |calls[n].messages| :: SavedRow(calls, n, i)
  }

  /** The last call is later than all earlier ones of its scope, and fits a window of `k`. */
  ghost predicate LastIsNewest(calls: seq<Save>, k: nat) {
    && calls != [] && |calls[|calls| - 1].messages| <= k
    && forall n :: 0 <= n < |calls| - 1 && calls[n].scope == calls[|calls| - 1].scope ==>
         calls[n].now < calls[|calls| - 1].now
  }

  lemma LastSavedSize(calls: seq<Save>)
    requires calls != []
    ensures |LastSaved(calls)| == |calls[|calls| - 1].messages|
  {
    var c := calls[|calls| - 1];
    var rows := NewRows(c.messages, c.scope, c.now, Offset(calls, |calls| - 1));
    SizeOfSet(rows);
    forall r ensures r in LastSaved(calls) <==> r in SetOf(rows) {
      if r in rows {
        var i: nat :| i < |rows| && rows[i] == r;
        assert r == SavedRow(calls, |calls| - 1, i);
      }
      if r in LastSaved(calls) {
        var i: nat :| i < |c.messages| && r == SavedRow(calls, |calls| - 1, i);
        assert rows[i] == r;
      }
    }
    assert LastSaved(calls) == SetOf(rows);
  }

  lemma LatestHasLast(kept: set<Row>, calls: seq<Save>, k: nat)
    requires LastIsNewest(calls, k) && IsLatest(kept, EverSaved(calls, calls[|calls| - 1].scope), k)
    ensures LastSaved(calls) <= kept
  {
    var all, newest := EverSaved(calls, calls[|calls| - 1].scope), LastSaved(calls);
    LastSavedSize(calls);
    forall r, d | r in newest && d in all - newest ensures r.createdAt > d.createdAt {
      var n: nat, i: nat :| n < |calls| && i < |calls[n].messages| && calls[n].scope == calls[|calls| - 1].scope
                            && d == SavedRow(calls, n, i);
    }
    NewestAreKept(kept, all, newest, k);
  }

  /** So a last call of at most ten messages is in the window whole, however ties break. */
  lemma LastCallIsKept(calls: seq<Save>)
    requires LastIsNewest(calls, 10)
    ensures LastSaved(calls) <= SetOf(ApplyAll(EmptyTable, calls).rows)
  {
    var scope := calls[|calls| - 1].scope;
    StreamingEqualsGlobal(calls, scope);
    LatestHasLast(SetOf(OfScope(ApplyAll(EmptyTable, calls).rows, scope)), calls, 10);
  }

  // ---------- reading the window ----------

  /** A shorter window inside a window. */
  lemma LatestWithin(a: set<Row>, kept: set<Row>, all: set<Row>, k: nat, window: nat)
    requires IsLatest(a, kept, k) && IsLatest(kept, all, window) && k <= window
    ensures IsLatest(a, all, k)
  {
  }

  ghost predicate Ascending(rows: seq<Row>) {
    forall i, j :: 0 <= i < j < |rows| ==> rows[i].createdAt <= rows[j].createdAt
  }

  function Reverse(rows: seq<Row>): (r: seq<Row>)
    ensures |r| == |rows| && forall i :: 0 <= i < |r| ==> r[i] == rows[|rows| - 1 - i]
  {
    seq(|rows|, i requires 0 <= i < |rows| => rows[|rows| - 1 - i])
  }

  /** `SELECT ... ORDER BY created_at DESC LIMIT ?`, re-sorted ascending; a negative
      limit is no limit. */
  function LastMessages(tie: TieBreak, resort: TieBreak, table: seq<Row>, scope: string, limit: int): seq<Row> {
    var k := if limit < 0 then |OfScope(table, scope)| else limit;
    Reverse(SortDesc(resort, Latest(tie, table, scope, k)))
  }

  lemma ReverseMembers(s: seq<Row>)
    ensures SetOf(Reverse(s)) == SetOf(s)
  {
    forall x ensures x in Reverse(s) <==> x in s {
      if x in s {
        var i :| 0 <= i < |s| && s[i] == x;
        assert Reverse(s)[|s| - 1 - i] == x;
      }
    }
  }

  lemma ReverseOrder(s: seq<Row>)
    requires Descending(s) && NoRepeats(s)
    ensures Ascending(Reverse(s)) && NoRepeats(Reverse(s))
  {
  }

  lemma ReverseSorted(tie: TieBreak, rows: seq<Row>)
    requires NoRepeats(rows)
    ensures var r := Reverse(SortDesc(tie, rows)); Ascending(r) && NoRepeats(r) && SetOf(r) == SetOf(rows)
  {
    SortDescending(tie, rows);
    SortNoRepeats(tie, rows);
    ReverseMembers(SortDesc(tie, rows));
    ReverseOrder(SortDesc(tie, rows));
  }

  /** After any calls, reading a scope gives, oldest first and without repeats, a
      valid latest-`limit` of everything ever saved to it. */
  lemma LastMessagesAreLatest(calls: seq<Save>, scope: string, limit: int, tie: TieBreak, resort: TieBreak)
    ensures var r := LastMessages(tie, resort, ApplyAll(EmptyTable, calls).rows, scope, limit);
            && Ascending(r) && NoRepeats(r)
            && IsLatest(SetOf(r), EverSaved(calls, scope), if 0 <= limit <= 10 then limit else 10)
  {
    hide IsLatest, Ascending, ApplyAll, EverSaved, SortDesc, OfScope;
    var t := ApplyAll(EmptyTable, calls);
    var rows := OfScope(t.rows, scope);
    var k := if limit < 0 then |rows| else limit;
    ApplyAllUnique(calls);
    UniqueNoRepeats(t);
    OfScopeNoRepeats(t.rows, scope);
    QueryIsLatest(tie, rows, k);
    SortNoRepeats(tie, rows);
    ReverseSorted(resort, Take(SortDesc(tie, rows), k));
    StreamingEqualsGlobal(calls, scope);
    WindowOfLatest(SetOf(Take(SortDesc(tie, rows), k)), rows, EverSaved(calls, scope), limit, k);
  }

  /** And reading with room for the last call returns it whole. */
  lemma LastCallIsRead(calls: seq<Save>, limit: int, tie: TieBreak, resort: TieBreak)
    requires LastIsNewest(calls, if 0 <= limit <= 10 then limit else 10)
    ensures var scope := calls[|calls| - 1].scope;
            LastSaved(calls) <= SetOf(LastMessages(tie, resort, ApplyAll(EmptyTable, calls).rows, scope, limit))
  {
    hide IsLatest, Ascending, NoRepeats, ApplyAll, EverSaved, SortDesc, OfScope;
    var scope := calls[|calls| - 1].scope;
    LastMessagesAreLatest(calls, scope, limit, tie, resort);
    LatestHasLast(SetOf(LastMessages(tie, resort, ApplyAll(EmptyTable, calls).rows, scope, limit)), calls,
      if 0 <= limit <= 10 then limit else 10);
  }

  lemma WindowOfLatest(a: set<Row>, rows: seq<Row>, all: set<Row>, limit: int, k: nat)
    requires NoRepeats(rows) && IsLatest(a, SetOf(rows), k) && IsLatest(SetOf(rows), all, WINDOW)
    requires k == if limit < 0 then |rows| else limit
    ensures IsLatest(a, all, if 0 <= limit <= WINDOW then limit else WINDOW)
  {
    SizeOfSet(rows);
    if 0 <= limit <= WINDOW {
      LatestWithin(a, SetOf(rows), all, limit, WINDOW);
    } else {
      SubsetSize(a, SetOf(rows));
    }
  }

  // ---------- the class ----------

  class SQLiteManager {
    var rows: seq<Row>
    var next: nat

    ghost function Contents(): Table
      reads this
    {
      Table(rows, next)
    }

    constructor ()
      ensures Contents() == EmptyTable
    {
      rows, next := [], 0;
    }

    /** `save_messages`: one transaction of inserts and one eviction. */
    method SaveMessages(messages: seq<Message>, scope: string, now: int, tie: TieBreak)
      modifies this
      ensures Contents() == Apply(old(Contents()), Save(messages, scope, now, tie))
    {
      if messages == [] { return; }
      var i := 0;
      ghost var news := NewRows(messages, scope, now, next);
      while i < |messages|
        invariant 0 <= i <= |messages|
        invariant next == old(next) + i && rows == old(rows) + news[..i]
      {
        assert news[..i + 1] == news[..i] + [news[i]];
        rows := rows + [Row(next, scope, messages[i], now)];
        next := next + 1;
        i := i + 1;
      }
      assert news[..i] == news;
      var ranked := SortDesc(tie, OfScope(rows, scope));
      var latest := if |ranked| <= WINDOW then ranked else ranked[..WINDOW];
      rows := Evict(rows, scope, Ids(latest));
    }

    /** `get_last_messages` */
    method GetLastMessages(scope: string, limit: int, tie: TieBreak, resort: TieBreak) returns (r: seq<Row>)
      ensures r == LastMessages(tie, resort, rows, scope, limit)
    {
      var ranked := SortDesc(tie, OfScope(rows, scope));
      var latest := if limit < 0 || |ranked| <= limit then ranked else ranked[..limit];
      r := Reverse(SortDesc(resort, latest));
    }
  }
}
