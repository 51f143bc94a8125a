/** The `ai_responses` table of `AIResponseDatabase`: an upsert keyed by
    the unique `uid`, a column update, a delete, and three ordered lookups.
    Rows keep the status as the text stored in the column; reading a row
    turns that text back into a status, falling back to PENDING. */
module AIResponseStore {
  import opened Common
  import opened Seqs

  /** An item as the application sees it. `kind` is the `type` column. */
  datatype AIResponseItem = AIResponseItem(
    id: int,
    uid: string,
    input: string,
    output: string,
    userId: string,
    kind: string,
    createdAt: int,
    updatedAt: int,
    syncStatus: SyncStatus,
    retryCount: int,
    lastSyncAttempt: Option<int>)

  /** A stored row; `statusText` is the raw `sync_status` column. */
  datatype Row = Row(
    id: int,
    uid: string,
    input: string,
    output: string,
    userId: string,
    kind: string,
    createdAt: int,
    updatedAt: int,
    statusText: string,
    retryCount: int,
    lastSyncAttempt: Option<int>)

  /** Rows in rowid order. */
  type Table = seq<Row>

  /** Result of a write: the new table and the value passed to the callback. */
  datatype Write = Write(table: Table, result: int)

  /** The status read back from a row: an unrecognised text reads as PENDING. */
  function ReadStatus(text: string): (s: SyncStatus)
    ensures ParseStatus(text).Some? ==> s == ParseStatus(text).value
    ensures ParseStatus(text).None? ==> s == Pending
  {
    ParseStatus(text).GetOr(Pending)
  }

  /** `getItemFromCursor`. */
  function ItemOf(row: Row): AIResponseItem {
    AIResponseItem(row.id, row.uid, row.input, row.output, row.userId, row.kind, row.createdAt,
                   row.updatedAt, ReadStatus(row.statusText), row.retryCount, row.lastSyncAttempt)
  }

  /** The row `insert` writes for `item`; `id` is assigned by the database. */
  function RowOf(item: AIResponseItem, rowId: int): Row {
    Row(rowId, item.uid, item.input, item.output, item.userId, item.kind, item.createdAt,
        item.updatedAt, StatusName(item.syncStatus), item.retryCount, item.lastSyncAttempt)
  }

  /** An inserted item reads back unchanged, except for the assigned id. */
  lemma ReadBackInserted(item: AIResponseItem, rowId: int)
    ensures ItemOf(RowOf(item, rowId)) == item.(id := rowId)
  {
  }

  predicate HasUid(t: Table, uid: string) {
    exists i :: 0 <= i < |t| && t[i].uid == uid
  }

  function CountUid(t: Table, uid: string): nat {
    if t == [] then 0 else (if t[0].uid == uid then 1 else 0) + CountUid(t[1..], uid)
  }

  lemma {:induction false} CountUidAppend(t: Table, row: Row, uid: string)
    ensures CountUid(t + [row], uid) == CountUid(t, uid) + (if row.uid == uid then 1 else 0)
  {
    if t != [] {
      assert (t + [row])[1..] == t[1..] + [row];
      CountUidAppend(t[1..], row, uid);
    }
  }

  lemma {:induction false} CountUidNone(t: Table, uid: string)
    requires forall row :: row in t ==> row.uid != uid
    ensures CountUid(t, uid) == 0
  {
    if t != [] {
      assert t[0] in t;
      assert forall row :: row in t[1..] ==> row in t;
      CountUidNone(t[1..], uid);
    }
  }

  /** `insert` (CONFLICT_REPLACE): a storage fault reports -1 and changes
      nothing; otherwise any row with the item's uid is removed, the new
      row is appended, and the new rowid is reported. Afterwards exactly one
      row carries that uid. */
  function Insert(t: Table, item: AIResponseItem, rowId: int, fault: bool): (r: Write)
    ensures fault ==> r == Write(t, -1)
    ensures !fault ==> r.result == rowId && CountUid(r.table, item.uid) == 1
    ensures !fault ==> forall row :: row in r.table <==> row == RowOf(item, rowId) || (row in t && row.uid != item.uid)
    ensures !fault ==> r.table[|r.table| - 1] == RowOf(item, rowId)
  {
    if fault then Write(t, -1)
    else
      var kept := Filter(t, (row: Row) => row.uid != item.uid);
      CountUidNone(kept, item.uid);
      CountUidAppend(kept, RowOf(item, rowId), item.uid);
      Write(kept + [RowOf(item, rowId)], rowId)
  }

  /** Inserting the same item again leaves the table as one insert would
      (with the rowid of the later insert). */
  lemma InsertTwice(t: Table, item: AIResponseItem, a: int, b: int)
    ensures Insert(Insert(t, item, a, false).table, item, b, false).table == Insert(t, item, b, false).table
  {
    var keep := (row: Row) => row.uid != item.uid;
    var kept := Filter(t, keep);
    FilterKeepsAll(kept, keep);
    FilterAppendDropped(kept, RowOf(item, a), keep);
  }

  /** `update`: on the rows with the item's uid, rewrites input, output,
      type, status and retry count, sets `updatedAt := now`, and the attempt
      time only when one is given; `id`, `uid`, `userId` and `createdAt`
      stay. A storage fault reports 0 and changes nothing. */
  function Update(t: Table, item: AIResponseItem, now: int, fault: bool): (r: Write)
    ensures fault ==> r == Write(t, 0)
    ensures |r.table| == |t|
    ensures !fault ==> r.result == CountUid(t, item.uid)
    ensures forall i :: 0 <= i < |t| && (fault || t[i].uid != item.uid) ==> r.table[i] == t[i]
    ensures !fault ==> forall i :: 0 <= i < |t| && t[i].uid == item.uid ==>
      var o, n := t[i], r.table[i];
      && n.input == item.input && n.output == item.output && n.kind == item.kind
      && n.updatedAt == now && ReadStatus(n.statusText) == item.syncStatus
      && n.retryCount == item.retryCount
      && n.lastSyncAttempt == (if item.lastSyncAttempt.Some? then item.lastSyncAttempt else o.lastSyncAttempt)
      && n.id == o.id && n.uid == o.uid && n.userId == o.userId && n.createdAt == o.createdAt
  {
    if fault then Write(t, 0)
    else
      var f := (o: Row) => o.(input := item.input, output := item.output, kind := item.kind,
                              updatedAt := now, statusText := StatusName(item.syncStatus),
                              retryCount := item.retryCount,
                              lastSyncAttempt := if item.lastSyncAttempt.Some? then item.lastSyncAttempt
                                                 else o.lastSyncAttempt);
      UpdateRows(t, item.uid, f)
  }

  function UpdateRows(t: Table, uid: string, f: Row -> Row): (r: Write)
    ensures |r.table| == |t| && r.result == CountUid(t, uid)
    ensures forall i :: 0 <= i < |t| ==> r.table[i] == if t[i].uid == uid then f(t[i]) else t[i]
  {
    if t == [] then Write([], 0)
    else
      var rest := UpdateRows(t[1..], uid, f);
      Write([if t[0].uid == uid then f(t[0]) else t[0]] + rest.table,
            (if t[0].uid == uid then 1 else 0) + rest.result)
  }

  /** `delete`: removes the rows with that uid and no other, reporting how
      many went; a storage fault reports 0 and changes nothing. */
  function Delete(t: Table, uid: string, fault: bool): (r: Write)
    ensures fault ==> r == Write(t, 0)
    ensures !fault ==> !HasUid(r.table, uid)
    ensures !fault ==> forall row :: row in r.table <==> row in t && row.uid != uid
    ensures !fault ==> IsSubsequence(r.table, t)
    ensures !fault ==> r.result == |t| - |r.table|
  {
    if fault then Write(t, 0)
    else
      var kept := Filter(t, (row: Row) => row.uid != uid);
      assert forall i :: 0 <= i < |kept| ==> kept[i] in kept;
      Write(kept, |t| - |kept|)
  }

  /** The items read from a sequence of rows. */
  function Items(rows: seq<Row>): (r: seq<AIResponseItem>)
    ensures |r| == |rows|
    ensures forall i :: 0 <= i < |rows| ==> r[i] == ItemOf(rows[i])
  {
    seq(|rows|, i requires 0 <= i < |rows| => ItemOf(rows[i]))
  }

  lemma ItemsMembers(rows: seq<Row>)
    ensures forall row :: row in rows ==> ItemOf(row) in Items(rows)
    ensures forall x :: x in Items(rows) ==> exists row :: row in rows && ItemOf(row) == x
  {
    var r := Items(rows);
    forall row | row in rows ensures ItemOf(row) in r {
      var i :| 0 <= i < |rows| && rows[i] == row;
      assert r[i] == ItemOf(row);
    }
    forall x | x in r ensures exists row :: row in rows && ItemOf(row) == x {
      var i :| 0 <= i < |r| && r[i] == x;
      assert rows[i] in rows;
    }
  }

  predicate IsPendingRow(row: Row) {
    row.statusText == "PENDING"
  }

  function InputIs(input: string): Row -> bool {
    (row: Row) => row.input == input
  }

  function UserIs(userId: string): Row -> bool {
    (row: Row) => row.userId == userId
  }

  function CreatedKey(row: Row): Key { Num(row.createdAt) }

  function UpdatedKey(row: Row): Key { Num(row.updatedAt) }

  /** Reads the rows a query selected. */
  function ReadSelected(t: Table, keep: Row -> bool, rows: seq<Row>): (r: seq<AIResponseItem>)
    requires forall row :: row in rows <==> row in t && keep(row)
    ensures r == Items(rows)
    ensures forall row :: row in t && keep(row) ==> ItemOf(row) in r
    ensures forall x :: x in r ==> exists row :: row in t && keep(row) && ItemOf(row) == x
  {
    ItemsMembers(rows);
    Items(rows)
  }

  /** `getPendingSyncItems`: exactly the rows whose stored status is
      "PENDING" (FAILED and unrecognised texts excluded), oldest first. */
  function GetPendingSyncItems(t: Table): (r: seq<AIResponseItem>)
    ensures |r| == Count(t, IsPendingRow)
    ensures forall i :: 0 <= i < |r| ==> r[i].syncStatus == Pending
    ensures forall i, j :: 0 <= i < j < |r| ==> r[i].createdAt <= r[j].createdAt
    ensures forall row :: row in t && IsPendingRow(row) ==> ItemOf(row) in r
    ensures forall x :: x in r ==> exists row :: row in t && IsPendingRow(row) && ItemOf(row) == x
  {
    var rows := Query(t, IsPendingRow, CreatedKey, false);
    var r := ReadSelected(t, IsPendingRow, rows);
    forall i | 0 <= i < |r| ensures r[i].syncStatus == Pending {
      assert rows[i] in rows && r[i] == ItemOf(rows[i]);
      assert StatusName(Pending) == "PENDING";
    }
    forall i, j | 0 <= i < j < |r| ensures r[i].createdAt <= r[j].createdAt {
      assert r[i] == ItemOf(rows[i]) && r[j] == ItemOf(rows[j]);
      assert Before(CreatedKey(rows[i]), CreatedKey(rows[j]), false);
    }
    r
  }

  /** `getAllByInput`: the rows whose input equals `input` exactly, least
      recently updated first. */
  function GetAllByInput(t: Table, input: string): (r: seq<AIResponseItem>)
    ensures |r| == Count(t, InputIs(input))
    ensures forall i :: 0 <= i < |r| ==> r[i].input == input
    ensures forall i, j :: 0 <= i < j < |r| ==> r[i].updatedAt <= r[j].updatedAt
    ensures forall row :: row in t && row.input == input ==> ItemOf(row) in r
    ensures forall x :: x in r ==> exists row :: row in t && row.input == input && ItemOf(row) == x
  {
    var rows := Query(t, InputIs(input), UpdatedKey, false);
    var r := ReadSelected(t, InputIs(input), rows);
    forall i | 0 <= i < |r| ensures r[i].input == input {
      assert rows[i] in rows && r[i] == ItemOf(rows[i]);
    }
    forall i, j | 0 <= i < j < |r| ensures r[i].updatedAt <= r[j].updatedAt {
      assert r[i] == ItemOf(rows[i]) && r[j] == ItemOf(rows[j]);
      assert Before(UpdatedKey(rows[i]), UpdatedKey(rows[j]), false);
    }
    r
  }

  /** `getAllByUserId`: the rows of that user, most recently updated first. */
  function GetAllByUserId(t: Table, userId: string): (r: seq<AIResponseItem>)
    ensures |r| == Count(t, UserIs(userId))
    ensures forall i :: 0 <= i < |r| ==> r[i].userId == userId
    ensures forall i, j :: 0 <= i < j < |r| ==> r[i].updatedAt >= r[j].updatedAt
    ensures forall row :: row in t && row.userId == userId ==> ItemOf(row) in r
    ensures forall x :: x in r ==> exists row :: row in t && row.userId == userId && ItemOf(row) == x
  {
    var rows := Query(t, UserIs(userId), UpdatedKey, true);
    var r := ReadSelected(t, UserIs(userId), rows);
    forall i | 0 <= i < |r| ensures r[i].userId == userId {
      assert rows[i] in rows && r[i] == ItemOf(rows[i]);
    }
    forall i, j | 0 <= i < j < |r| ensures r[i].updatedAt >= r[j].updatedAt {
      assert r[i] == ItemOf(rows[i]) && r[j] == ItemOf(rows[j]);
      assert Before(UpdatedKey(rows[i]), UpdatedKey(rows[j]), true);
    }
    r
  }

  /** A row whose stored status text is not a status name reads back as
      PENDING, yet the pending query, which compares the text, skips it:
      fewer items come back than the table holds. */
  lemma UnknownStatusReadsPending(t: Table, row: Row)
    requires row in t && ParseStatus(row.statusText).None?
    ensures ItemOf(row).syncStatus == Pending
    ensures |GetPendingSyncItems(t)| < |t|
  {
    assert StatusName(Pending) == "PENDING";
    CountStrict(t, IsPendingRow, row);
  }
}
