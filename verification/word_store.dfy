/** The local word table of `WordDatabase`: rows in rowid order, the
    listing, search and unsynced queries, the per-row writes, soft and hard
    delete, and the statistics query. */
module WordStore {
  import opened Common
  import opened Seqs
  import opened Text

  /** One row of the `words` table. `kind` is the source's `type` column. */
  datatype Word = Word(
    id: int,
    uid: string,
    word: string,
    kind: string,
    shortMeaning: string,
    details: string,
    examples: string,
    isFavorite: bool,
    proficiencyLevel: string,
    viewCount: int,
    lastViewedDaysAgo: int,
    createdAt: int,
    updatedAt: int,
    syncStatus: SyncStatus,
    retryCount: int,
    lastSyncAttempt: Option<int>)

  /** The table, rows in rowid order. */
  type Table = seq<Word>

  /** The `UNIQUE` constraint on the `uid` column. */
  ghost predicate UniqueUids(t: Table) {
    forall i, j :: 0 <= i < j < |t| ==> t[i].uid != t[j].uid
  }

  predicate HasUid(t: Table, uid: string) {
    exists i :: 0 <= i < |t| && t[i].uid == uid
  }

  /** Number of rows with this `uid` (the `rowsAffected` of a write keyed by it). */
  function CountUid(t: Table, uid: string): (n: nat)
    ensures n <= |t|
    ensures n == 0 <==> !HasUid(t, uid)
  {
    if t == [] then 0
    else (if t[0].uid == uid then 1 else 0) + CountUid(t[1..], uid)
  }

  lemma {:induction false} CountUidUnique(t: Table, uid: string)
    requires UniqueUids(t)
    ensures CountUid(t, uid) <= 1
  {
    if t != [] {
      CountUidUnique(t[1..], uid);
    }
  }

  /** Result of a write: the new table and the count the source reports. */
  datatype Write = Write(table: Table, affected: int)

  /** `UPDATE … WHERE uid = ?`: applies `f` to every row with that `uid`. */
  function UpdateWhere(t: Table, uid: string, f: Word -> Word): (r: Write)
    ensures |r.table| == |t|
    ensures forall i :: 0 <= i < |t| ==> r.table[i] == if t[i].uid == uid then f(t[i]) else t[i]
    ensures r.affected == CountUid(t, uid)
  {
    if t == [] then Write([], 0)
    else
      var rest := UpdateWhere(t[1..], uid, f);
      var head := if t[0].uid == uid then f(t[0]) else t[0];
      Write([head] + rest.table, (if t[0].uid == uid then 1 else 0) + rest.affected)
  }

  /** A write that keeps every row's `uid` keeps the uid constraint. */
  lemma UpdateKeepsUnique(t: Table, r: Table)
    requires UniqueUids(t) && |r| == |t|
    requires forall i :: 0 <= i < |t| ==> r[i].uid == t[i].uid
    ensures UniqueUids(r)
  {
  }

  // ---------------------------------------------------------------------
  // Listing

  datatype SortOrder = CreatedAtAsc | CreatedAtDesc | UpdatedAtAsc | UpdatedAtDesc | WordAsc | WordDesc

  /** The `ORDER BY` column of each sort order. */
  function SortKey(order: SortOrder): Word -> Key {
    match order
    case CreatedAtAsc | CreatedAtDesc => (w: Word) => Num(w.createdAt)
    case UpdatedAtAsc | UpdatedAtDesc => (w: Word) => Num(w.updatedAt)
    case WordAsc | WordDesc => (w: Word) => Text(w.word)
  }

  predicate IsDescending(order: SortOrder) {
    order == CreatedAtDesc || order == UpdatedAtDesc || order == WordDesc
  }

  /** May `a` be listed before `b` under `order`? */
  predicate InOrder(order: SortOrder, a: Word, b: Word) {
    match order
    case CreatedAtAsc => a.createdAt <= b.createdAt
    case CreatedAtDesc => a.createdAt >= b.createdAt
    case UpdatedAtAsc => a.updatedAt <= b.updatedAt
    case UpdatedAtDesc => a.updatedAt >= b.updatedAt
    case WordAsc => TextLe(a.word, b.word)
    case WordDesc => TextLe(b.word, a.word)
  }

  lemma SortedInOrder(order: SortOrder, r: seq<Word>)
    requires SortedBy(r, SortKey(order), IsDescending(order))
    ensures forall i, j :: 0 <= i < j < |r| ==> InOrder(order, r[i], r[j])
  {
    forall i, j | 0 <= i < j < |r| ensures InOrder(order, r[i], r[j]) {
      assert Before(SortKey(order)(r[i]), SortKey(order)(r[j]), IsDescending(order));
    }
  }

  /** A non-null, non-empty proficiency filter. */
  predicate FiltersLevel(proficiencyFilter: Option<string>) {
    proficiencyFilter.Some? && proficiencyFilter.value != ""
  }

  function ListingFilter(favoriteOnly: bool, proficiencyFilter: Option<string>): Word -> bool {
    (w: Word) => w.syncStatus != Deleted
         && (favoriteOnly ==> w.isFavorite)
         && (FiltersLevel(proficiencyFilter) ==> w.proficiencyLevel == proficiencyFilter.value)
  }

  /** `getAllWords`: the rows that are not DELETED, only favourites when
      `favoriteOnly`, only the exact level when a level is given, each row
      once per occurrence, in `order`. */
  function GetAllWords(t: Table, order: SortOrder, favoriteOnly: bool, proficiencyFilter: Option<string>): (r: seq<Word>)
    ensures forall w :: w in r <==>
      && w in t
      && w.syncStatus != Deleted
      && (favoriteOnly ==> w.isFavorite)
      && (FiltersLevel(proficiencyFilter) ==> w.proficiencyLevel == proficiencyFilter.value)
    ensures forall w :: multiset(r)[w] == if w in r then multiset(t)[w] else 0
    ensures forall i, j :: 0 <= i < j < |r| ==> InOrder(order, r[i], r[j])
  {
    var r := Query(t, ListingFilter(favoriteOnly, proficiencyFilter), SortKey(order), IsDescending(order));
    SortedInOrder(order, r);
    r
  }

  /** The search predicate of `searchWords`: `LIKE '%query%'` on the word,
      the short meaning or the details. */
  predicate MatchesSearch(w: Word, query: string) {
    ContainsIgnoreCase(w.word, query) || ContainsIgnoreCase(w.shortMeaning, query)
      || ContainsIgnoreCase(w.details, query)
  }

  /** `searchWords`: the rows that are not DELETED and match the query in
      any of the three text columns, newest update first. */
  function SearchWords(t: Table, query: string): (r: seq<Word>)
    ensures forall w :: w in r <==> w in t && w.syncStatus != Deleted && MatchesSearch(w, query)
    ensures forall w :: multiset(r)[w] == if w in r then multiset(t)[w] else 0
    ensures forall i, j :: 0 <= i < j < |r| ==> r[i].updatedAt >= r[j].updatedAt
  {
    var r := Query(t, (w: Word) => w.syncStatus != Deleted && MatchesSearch(w, query), SortKey(UpdatedAtDesc), true);
    SortedInOrder(UpdatedAtDesc, r);
    r
  }

  /** `getUnsyncedWords`: every row whose status is not SYNCED (so PENDING,
      IN_PROGRESS, FAILED and DELETED rows alike), newest update first. */
  function GetUnsyncedWords(t: Table): (r: seq<Word>)
    ensures forall w :: w in r <==> w in t && w.syncStatus != Synced
    ensures forall w :: multiset(r)[w] == if w in r then multiset(t)[w] else 0
    ensures forall i, j :: 0 <= i < j < |r| ==> r[i].updatedAt >= r[j].updatedAt
  {
    var r := Query(t, (w: Word) => w.syncStatus != Synced, SortKey(UpdatedAtDesc), true);
    SortedInOrder(UpdatedAtDesc, r);
    r
  }

  /** `getWordByUid`: the first row with that `uid`, if any. */
  function GetWordByUid(t: Table, uid: string): (r: Option<Word>)
    ensures r.Some? <==> HasUid(t, uid)
    ensures r.Some? ==> r.value in t && r.value.uid == uid
  {
    if t == [] then None
    else if t[0].uid == uid then Some(t[0])
    else
      var r := GetWordByUid(t[1..], uid);
      assert HasUid(t, uid) <==> HasUid(t[1..], uid) by {
        if HasUid(t, uid) {
          var i :| 0 <= i < |t| && t[i].uid == uid;
          assert t[1..][i - 1].uid == uid;
        }
        if HasUid(t[1..], uid) {
          var i :| 0 <= i < |t[1..]| && t[1..][i].uid == uid;
          assert t[i + 1].uid == uid;
        }
      }
      r
  }

  // ---------------------------------------------------------------------
  // Writes

  /** `insertWord`: a plain INSERT. A row with the same `uid` makes it
      fail (result -1, table unchanged); otherwise the row is appended with
      the rowid the database assigns. */
  function InsertWord(t: Table, w: Word, rowId: int): (r: Write)
    ensures HasUid(t, w.uid) ==> r == Write(t, -1)
    ensures !HasUid(t, w.uid) ==> r.table == t + [w.(id := rowId)] && r.affected == rowId
    ensures UniqueUids(t) ==> UniqueUids(r.table)
  {
    if HasUid(t, w.uid) then Write(t, -1) else Write(t + [w.(id := rowId)], rowId)
  }

  /** `updateWord`: rewrites the payload columns, the view counters, sets
      `updatedAt := now` and the status to PENDING on the row with the
      word's `uid`; `id`, `uid`, `type`, `createdAt`, `retryCount`,
      `lastSyncAttempt` and all other rows are kept. */
  function UpdateWord(t: Table, w: Word, now: int): (r: Write)
    ensures |r.table| == |t| && r.affected == CountUid(t, w.uid)
    ensures forall i :: 0 <= i < |t| && t[i].uid != w.uid ==> r.table[i] == t[i]
    ensures forall i :: 0 <= i < |t| && t[i].uid == w.uid ==>
      var o, n := t[i], r.table[i];
      && n.word == w.word && n.shortMeaning == w.shortMeaning && n.details == w.details
      && n.examples == w.examples && n.isFavorite == w.isFavorite
      && n.proficiencyLevel == w.proficiencyLevel && n.viewCount == w.viewCount
      && n.lastViewedDaysAgo == w.lastViewedDaysAgo
      && n.updatedAt == now && n.syncStatus == Pending
      && n.id == o.id && n.uid == o.uid && n.kind == o.kind && n.createdAt == o.createdAt
      && n.retryCount == o.retryCount && n.lastSyncAttempt == o.lastSyncAttempt
    ensures UniqueUids(t) ==> UniqueUids(r.table)
  {
    UpdateWhere(t, w.uid, (o: Word) => o.(
      word := w.word, shortMeaning := w.shortMeaning, details := w.details,
      examples := w.examples, isFavorite := w.isFavorite,
      proficiencyLevel := w.proficiencyLevel, viewCount := w.viewCount,
      lastViewedDaysAgo := w.lastViewedDaysAgo, updatedAt := now, syncStatus := Pending))
  }

  /** `incrementViewCount`: one more view, `lastViewedDaysAgo := 0`,
      `updatedAt := now`; the sync status and every other column stay. */
  function IncrementViewCount(t: Table, uid: string, now: int): (r: Write)
    ensures |r.table| == |t| && r.affected == CountUid(t, uid)
    ensures forall i :: 0 <= i < |t| && t[i].uid != uid ==> r.table[i] == t[i]
    ensures forall i :: 0 <= i < |t| && t[i].uid == uid ==>
      r.table[i] == t[i].(viewCount := t[i].viewCount + 1, lastViewedDaysAgo := 0, updatedAt := now)
    ensures forall i :: 0 <= i < |t| ==> r.table[i].syncStatus == t[i].syncStatus
    ensures UniqueUids(t) ==> UniqueUids(r.table)
  {
    UpdateWhere(t, uid, (o: Word) => o.(viewCount := o.viewCount + 1, lastViewedDaysAgo := 0, updatedAt := now))
  }

  /** `toggleFavorite`: the new flag is the negation of the first matching
      row's flag (favourite when no row matches); it is written with
      `updatedAt := now` and status PENDING. */
  function ToggleFavorite(t: Table, uid: string, now: int): (r: Write)
    ensures |r.table| == |t| && r.affected == CountUid(t, uid)
    ensures forall i :: 0 <= i < |t| && t[i].uid != uid ==> r.table[i] == t[i]
    ensures forall i :: 0 <= i < |t| && t[i].uid == uid ==>
      r.table[i] == t[i].(isFavorite := r.table[i].isFavorite, updatedAt := now, syncStatus := Pending)
    ensures UniqueUids(t) ==> forall i :: 0 <= i < |t| && t[i].uid == uid ==>
      r.table[i].isFavorite == !t[i].isFavorite
    ensures UniqueUids(t) ==> UniqueUids(r.table)
  {
    var current := GetWordByUid(t, uid);
    var favorite := if current.Some? then !current.value.isFavorite else true;
    var r := UpdateWhere(t, uid, (o: Word) => o.(isFavorite := favorite, updatedAt := now, syncStatus := Pending));
    assert UniqueUids(t) ==> forall i :: 0 <= i < |t| && t[i].uid == uid ==> current == Some(t[i]) by {
      if UniqueUids(t) {
        forall i | 0 <= i < |t| && t[i].uid == uid ensures current == Some(t[i]) {
          var k :| 0 <= k < |t| && t[k] == current.value;
        }
      }
    }
    r
  }

  /** `updateWordSyncStatus`: writes the status and the retry count, the
      attempt time only when one is given, and bumps `updatedAt` only when
      the new status is SYNCED. */
  function UpdateWordSyncStatus(t: Table, uid: string, status: SyncStatus, retryCount: int,
                                lastSyncAttempt: Option<int>, now: int): (r: Write)
    ensures |r.table| == |t| && r.affected == CountUid(t, uid)
    ensures forall i :: 0 <= i < |t| && t[i].uid != uid ==> r.table[i] == t[i]
    ensures forall i :: 0 <= i < |t| && t[i].uid == uid ==>
      var o, n := t[i], r.table[i];
      && n.syncStatus == status && n.retryCount == retryCount
      && n.lastSyncAttempt == (if lastSyncAttempt.Some? then lastSyncAttempt else o.lastSyncAttempt)
      && n.updatedAt == (if status == Synced then now else o.updatedAt)
      && n == o.(syncStatus := n.syncStatus, retryCount := n.retryCount,
                 lastSyncAttempt := n.lastSyncAttempt, updatedAt := n.updatedAt)
    ensures UniqueUids(t) ==> UniqueUids(r.table)
  {
    UpdateWhere(t, uid, (o: Word) => o.(
      syncStatus := status, retryCount := retryCount,
      lastSyncAttempt := if lastSyncAttempt.Some? then lastSyncAttempt else o.lastSyncAttempt,
      updatedAt := if status == Synced then now else o.updatedAt))
  }

  /** `deleteWord`: a soft delete; the row stays, marked DELETED with a new
      `updatedAt`. */
  function DeleteWord(t: Table, uid: string, now: int): (r: Write)
    ensures |r.table| == |t| && r.affected == CountUid(t, uid)
    ensures forall i :: 0 <= i < |t| && t[i].uid != uid ==> r.table[i] == t[i]
    ensures forall i :: 0 <= i < |t| && t[i].uid == uid ==>
      r.table[i] == t[i].(syncStatus := Deleted, updatedAt := now)
    ensures UniqueUids(t) ==> UniqueUids(r.table)
  {
    UpdateWhere(t, uid, (o: Word) => o.(syncStatus := Deleted, updatedAt := now))
  }

  /** `deleteWordHard`: removes every row with that `uid` and keeps the
      others in order. */
  function DeleteWordHard(t: Table, uid: string): (r: Table)
    ensures !HasUid(r, uid)
    ensures forall w :: w in r <==> w in t && w.uid != uid
    ensures IsSubsequence(r, t)
    ensures UniqueUids(t) ==> UniqueUids(r)
  {
    var r := Filter(t, (w: Word) => w.uid != uid);
    assert forall i :: 0 <= i < |r| ==> r[i] in r;
    assert UniqueUids(t) ==> UniqueUids(r) by {
      if UniqueUids(t) {
        SubsequenceKeepsUnique(r, t);
      }
    }
    r
  }

  lemma {:induction false} SubsequenceKeepsUnique(r: Table, t: Table)
    requires IsSubsequence(r, t) && UniqueUids(t)
    ensures UniqueUids(r)
    decreases |t|
  {
    if r != [] && t != [] {
      assert t == [t[0]] + t[1..];
      assert UniqueUids(t[1..]);
      if r[0] == t[0] && IsSubsequence(r[1..], t[1..]) {
        SubsequenceKeepsUnique(r[1..], t[1..]);
        SubsequenceMembers(r[1..], t[1..]);
        forall j | 0 < j < |r| ensures r[0].uid != r[j].uid {
          assert r[1..][j - 1] == r[j];
          assert r[j] in t[1..];
          var k :| 0 <= k < |t[1..]| && t[1..][k] == r[j];
          assert t[k + 1] == r[j];
        }
      } else {
        SubsequenceKeepsUnique(r, t[1..]);
      }
    }
  }

  lemma {:induction false} SubsequenceMembers<T>(r: seq<T>, t: seq<T>)
    requires IsSubsequence(r, t)
    ensures forall x :: x in r ==> x in t
    decreases |t|
  {
    if r != [] && t != [] {
      if r[0] == t[0] && IsSubsequence(r[1..], t[1..]) {
        SubsequenceMembers(r[1..], t[1..]);
        assert r == [r[0]] + r[1..];
      } else {
        SubsequenceMembers(r, t[1..]);
      }
    }
  }

  /** The uid-keyed upsert behind `saveNotes`: replaces the row with the
      record's `uid` in place, or appends the record when there is none. */
  function Upsert(t: Table, w: Word): (r: Table)
    ensures HasUid(t, w.uid) ==> |r| == |t|
    ensures !HasUid(t, w.uid) ==> r == t + [w]
    ensures |r| >= |t|
    ensures w in r
    ensures forall i :: 0 <= i < |t| && t[i].uid != w.uid ==> r[i] == t[i]
    ensures forall i :: 0 <= i < |t| && t[i].uid == w.uid ==> r[i] == w
    ensures UniqueUids(t) ==> UniqueUids(r)
  {
    if HasUid(t, w.uid) then
      var r := UpdateWhere(t, w.uid, (o: Word) => w).table;
      var i :| 0 <= i < |t| && t[i].uid == w.uid;
      assert r[i] == w;
      r
    else
      AppendKeepsUnique(t, w);
      t + [w]
  }

  /** Appending a record whose uid is absent keeps the uid constraint. */
  lemma AppendKeepsUnique(t: Table, w: Word)
    requires !HasUid(t, w.uid)
    ensures UniqueUids(t) ==> UniqueUids(t + [w])
  {
    if UniqueUids(t) {
      forall i, j | 0 <= i < j < |t + [w]| ensures (t + [w])[i].uid != (t + [w])[j].uid {
        if j == |t| {
          assert t[i].uid != w.uid;
        }
      }
    }
  }

  /** `saveNotes(page)`: upserts the page's records in order. */
  function UpsertAll(t: Table, page: seq<Word>): (r: Table)
    ensures UniqueUids(t) ==> UniqueUids(r)
    decreases |page|
  {
    if page == [] then t else UpsertAll(Upsert(t, page[0]), page[1..])
  }

  /** Upserting records whose uids differ from `x`'s keeps the row `x`. */
  lemma {:induction false} UpsertAllKeeps(t: Table, page: seq<Word>, x: Word)
    requires x in t
    requires forall w :: w in page ==> w.uid != x.uid
    ensures x in UpsertAll(t, page)
    decreases |page|
  {
    if page != [] {
      var k :| 0 <= k < |t| && t[k] == x;
      var t' := Upsert(t, page[0]);
      assert t'[k] == x;
      assert forall w :: w in page[1..] ==> w in page;
      UpsertAllKeeps(t', page[1..], x);
    }
  }

  /** No two records of the page share a uid. */
  ghost predicate DistinctUids(page: seq<Word>) {
    forall i, j :: 0 <= i < j < |page| ==> page[i].uid != page[j].uid
  }

  /** The rest of a page with distinct uids has distinct uids and none
      equal to the first record's. */
  lemma DistinctTail(page: seq<Word>)
    requires page != [] && DistinctUids(page)
    ensures DistinctUids(page[1..])
    ensures forall w :: w in page[1..] ==> w.uid != page[0].uid
  {
    forall w | w in page[1..] ensures w.uid != page[0].uid {
      var j :| 0 <= j < |page[1..]| && page[1..][j] == w;
      assert page[j + 1] == w;
    }
  }

  /** After `saveNotes(page)` the table holds every record of the page. */
  lemma {:induction false} UpsertAllContains(t: Table, page: seq<Word>)
    requires DistinctUids(page)
    ensures forall w :: w in page ==> w in UpsertAll(t, page)
    decreases |page|
  {
    hide Upsert, UpsertAll, UniqueUids;
    UpsertAllCons(t, page);
    if page != [] {
      var t' := Upsert(t, page[0]);
      DistinctTail(page);
      UpsertAllContains(t', page[1..]);
      UpsertAllKeeps(t', page[1..], page[0]);
      assert page == [page[0]] + page[1..];
    }
  }

  /** The last record of the page with this uid, if any: the one whose
      upsert a row with that uid ends up holding. */
  function LastOf(page: seq<Word>, uid: string): (r: Option<Word>)
    ensures r.Some? ==> r.value in page && r.value.uid == uid
    ensures r.None? <==> forall w :: w in page ==> w.uid != uid
  {
    if page == [] then None
    else
      var rest := LastOf(page[1..], uid);
      assert forall w :: w in page ==> w == page[0] || w in page[1..];
      if rest.Some? then rest else if page[0].uid == uid then Some(page[0]) else None
  }

  /** The last record with a uid is the rest's, or else the first one. */
  lemma LastOfCons(page: seq<Word>, uid: string)
    requires page != []
    ensures LastOf(page, uid) ==
      if LastOf(page[1..], uid).Some? then LastOf(page[1..], uid)
      else if page[0].uid == uid then Some(page[0]) else None
  {
  }

  /** One step of `saveNotes`: the first record, then the rest. */
  lemma UpsertAllCons(t: Table, page: seq<Word>)
    ensures page == [] ==> UpsertAll(t, page) == t
    ensures page != [] ==> UpsertAll(t, page) == UpsertAll(Upsert(t, page[0]), page[1..])
  {
  }

  /** `saveNotes(page)` only adds rows: the table's rows keep their places
      and uids, every uid of the page is stored afterwards, and when all of
      them were stored already no row is added. */
  lemma {:induction false} UpsertAllGrows(t: Table, page: seq<Word>)
    ensures var r := UpsertAll(t, page);
      && |t| <= |r|
      && (forall i :: 0 <= i < |t| ==> r[i].uid == t[i].uid)
      && (forall w :: w in page ==> HasUid(r, w.uid))
      && ((forall w :: w in page ==> HasUid(t, w.uid)) ==> |r| == |t|)
    decreases |page|
  {
    hide Upsert, UpsertAll, UniqueUids;
    UpsertAllCons(t, page);
    if page != [] {
      var w0, rest := page[0], page[1..];
      var t' := Upsert(t, w0);
      UpsertAllGrows(t', rest);
      var r := UpsertAll(t', rest);
      forall i | 0 <= i < |t| ensures r[i].uid == t[i].uid {
        assert t'[i].uid == t[i].uid;
      }
      assert forall w :: w in page ==> w == w0 || w in rest;
      forall w | w in page ensures HasUid(r, w.uid) {
        if w == w0 {
          var k :| 0 <= k < |t'| && t'[k] == w0;
          assert r[k].uid == w0.uid;
        }
      }
      if forall w :: w in page ==> HasUid(t, w.uid) {
        forall w | w in rest ensures HasUid(t', w.uid) {
          var k :| 0 <= k < |t| && t[k].uid == w.uid;
          assert t'[k].uid == w.uid;
        }
      }
    }
  }

  /** The rows `saveNotes(page)` leaves alone: a row whose uid the page
      never mentions is unchanged, and every appended row carries a uid of
      the page. */
  lemma {:induction false} UpsertAllFrame(t: Table, page: seq<Word>)
    ensures var r := UpsertAll(t, page);
      && (forall i :: 0 <= i < |t| && LastOf(page, t[i].uid).None? ==> i < |r| && r[i] == t[i])
      && (forall j :: |t| <= j < |r| ==> LastOf(page, r[j].uid).Some?)
    decreases |page|
  {
    hide Upsert, UpsertAll, LastOf, UniqueUids;
    UpsertAllCons(t, page);
    if page != [] {
      var w0, rest := page[0], page[1..];
      var t' := Upsert(t, w0);
      UpsertAllFrame(t', rest);
      UpsertAllGrows(t', rest);
      var r := UpsertAll(t', rest);
      forall i | 0 <= i < |t| && LastOf(page, t[i].uid).None? ensures i < |r| && r[i] == t[i] {
        LastOfCons(page, t[i].uid);
      }
      forall j | |t| <= j < |r| ensures LastOf(page, r[j].uid).Some? {
        LastOfCons(page, r[j].uid);
      }
    }
  }

  /** The last record wins: after `saveNotes(page)` every row whose uid the
      page mentions holds the page's last record with that uid. */
  lemma {:induction false} UpsertAllLastWins(t: Table, page: seq<Word>)
    ensures var r := UpsertAll(t, page);
      forall i :: 0 <= i < |r| && LastOf(page, r[i].uid).Some? ==> r[i] == LastOf(page, r[i].uid).value
    decreases |page|
  {
    hide Upsert, UpsertAll, LastOf, UniqueUids;
    UpsertAllCons(t, page);
    if page != [] {
      var w0, rest := page[0], page[1..];
      var t' := Upsert(t, w0);
      UpsertAllLastWins(t', rest);
      UpsertAllFrame(t', rest);
      UpsertAllGrows(t', rest);
      var r := UpsertAll(t', rest);
      forall i | 0 <= i < |r| && LastOf(page, r[i].uid).Some?
        ensures r[i] == LastOf(page, r[i].uid).value
      {
        LastOfCons(page, r[i].uid);
        if LastOf(rest, r[i].uid).None? {
          assert i < |t'|;
          assert r[i] == t'[i];
        }
      }
    }
  }

  /** Applying the same pulled page twice leaves the table as applying it
      once: the uid-keyed upsert is idempotent, even for a page that
      repeats a uid. */
  lemma UpsertAllIdempotent(t: Table, page: seq<Word>)
    ensures UpsertAll(UpsertAll(t, page), page) == UpsertAll(t, page)
  {
    hide UpsertAll, LastOf;
    var once := UpsertAll(t, page);
    var twice := UpsertAll(once, page);
    UpsertAllGrows(t, page);
    UpsertAllGrows(once, page);
    UpsertAllFrame(once, page);
    UpsertAllLastWins(t, page);
    UpsertAllLastWins(once, page);
    assert |twice| == |once|;
    forall i | 0 <= i < |once| ensures twice[i] == once[i] {
      if LastOf(page, once[i].uid).Some? {
        assert twice[i] == LastOf(page, twice[i].uid).value;
      }
    }
  }

  /** After a soft delete every row with that uid is marked DELETED. */
  lemma SoftDeletedRowsMarked(t: Table, uid: string, now: int)
    ensures var d := DeleteWord(t, uid, now).table;
      forall w :: w in d && w.uid == uid ==> w.syncStatus == Deleted
  {
    var d := DeleteWord(t, uid, now).table;
    forall w | w in d && w.uid == uid ensures w.syncStatus == Deleted {
      var i :| 0 <= i < |d| && d[i] == w;
    }
  }

  /** A soft-deleted word disappears from the listing, whatever its
      filters, until a push writes SYNCED over its status
      (`PushJob.PushRevivesDeleted`). */
  lemma SoftDeleteHidesFromListing(t: Table, uid: string, now: int, order: SortOrder,
                                   favoriteOnly: bool, proficiencyFilter: Option<string>)
    ensures forall w :: w in GetAllWords(DeleteWord(t, uid, now).table, order, favoriteOnly, proficiencyFilter)
                        ==> w.uid != uid
  {
    SoftDeletedRowsMarked(t, uid, now);
  }

  /** A soft-deleted word disappears from the search, whatever the query,
      until a push writes SYNCED over its status. */
  lemma SoftDeleteHidesFromSearch(t: Table, uid: string, now: int, query: string)
    ensures forall w :: w in SearchWords(DeleteWord(t, uid, now).table, query) ==> w.uid != uid
  {
    SoftDeletedRowsMarked(t, uid, now);
  }

  /** Soft deletion neither adds nor removes a row with that `uid`. */
  lemma SoftDeleteKeepsUid(t: Table, uid: string, now: int)
    ensures HasUid(DeleteWord(t, uid, now).table, uid) <==> HasUid(t, uid)
  {
    hide DeleteWord;
    var d := DeleteWord(t, uid, now).table;
    if HasUid(t, uid) {
      var i :| 0 <= i < |t| && t[i].uid == uid;
      assert d[i].uid == uid;
    }
    if HasUid(d, uid) {
      var i :| 0 <= i < |d| && d[i].uid == uid;
      assert t[i].uid == uid;
    }
  }

  /** A soft-deleted word keeps its row, and the unsynced query (and so
      the next push) still returns it. */
  lemma SoftDeleteKeepsRow(t: Table, uid: string, now: int)
    ensures var d := DeleteWord(t, uid, now).table;
      && (HasUid(d, uid) <==> HasUid(t, uid))
      && (forall w :: w in d && w.uid == uid ==> w in GetUnsyncedWords(d))
  {
    SoftDeleteKeepsUid(t, uid, now);
    SoftDeletedRowsMarked(t, uid, now);
  }

  /** A hard-deleted word has no row left; other rows are untouched. */
  lemma HardDeleteRemovesRow(t: Table, uid: string)
    ensures !HasUid(DeleteWordHard(t, uid), uid)
    ensures forall w :: w in t && w.uid != uid ==> w in DeleteWordHard(t, uid)
  {
  }

  // ---------------------------------------------------------------------
  // Statistics

  datatype WordStats = WordStats(totalWords: int, favoriteWords: int, beginnerWords: int,
                                 intermediateWords: int, advancedWords: int)

  /** Rows that count in the statistics: every row not marked DELETED. */
  predicate Live(w: Word) {
    w.syncStatus != Deleted
  }

  function CountLive(t: Table): nat {
    if t == [] then 0 else (if Live(t[0]) then 1 else 0) + CountLive(t[1..])
  }

  function CountLiveFavorites(t: Table): nat {
    if t == [] then 0 else (if Live(t[0]) && t[0].isFavorite then 1 else 0) + CountLiveFavorites(t[1..])
  }

  function CountLiveLevel(t: Table, level: string): nat {
    if t == [] then 0
    else (if Live(t[0]) && t[0].proficiencyLevel == level then 1 else 0) + CountLiveLevel(t[1..], level)
  }

  /** The `GROUP BY proficiency_level` result: one entry per level that
      some live row has, with its row count. */
  function LevelBreakdown(t: Table): map<string, nat> {
    if t == [] then map[]
    else
      var m := LevelBreakdown(t[1..]);
      if Live(t[0]) then m[t[0].proficiencyLevel := LevelOr0(m, t[0].proficiencyLevel) + 1] else m
  }

  /** `proficiencyMap[level] ?: 0`. */
  function LevelOr0(m: map<string, nat>, level: string): nat {
    if level in m then m[level] else 0
  }

  /** The grouped counts agree with counting the live rows of each level,
      so a level no live row has reads as 0. */
  lemma {:induction false} BreakdownCountsLevels(t: Table, level: string)
    ensures LevelOr0(LevelBreakdown(t), level) == CountLiveLevel(t, level)
    ensures level in LevelBreakdown(t) <==> CountLiveLevel(t, level) > 0
  {
    if t != [] {
      BreakdownCountsLevels(t[1..], level);
    }
  }

  lemma {:induction false} FavoritesBound(t: Table)
    ensures CountLiveFavorites(t) <= CountLive(t)
  {
    if t != [] {
      FavoritesBound(t[1..]);
    }
  }

  lemma {:induction false} LevelsBound(t: Table)
    ensures CountLiveLevel(t, "Beginner") + CountLiveLevel(t, "Intermediate")
            + CountLiveLevel(t, "Advanced") <= CountLive(t)
  {
    if t != [] {
      LevelsBound(t[1..]);
    }
  }

  /** `getWordStats`: counts over the rows that are not DELETED. */
  function GetWordStats(t: Table): (r: WordStats)
    ensures 0 <= r.favoriteWords <= r.totalWords
    ensures 0 <= r.beginnerWords && 0 <= r.intermediateWords && 0 <= r.advancedWords
    ensures r.beginnerWords + r.intermediateWords + r.advancedWords <= r.totalWords
    ensures r.totalWords == CountLive(t) && r.favoriteWords == CountLiveFavorites(t)
    ensures r.beginnerWords == CountLiveLevel(t, "Beginner")
    ensures r.intermediateWords == CountLiveLevel(t, "Intermediate")
    ensures r.advancedWords == CountLiveLevel(t, "Advanced")
  {
    var m := LevelBreakdown(t);
    BreakdownCountsLevels(t, "Beginner");
    BreakdownCountsLevels(t, "Intermediate");
    BreakdownCountsLevels(t, "Advanced");
    FavoritesBound(t);
    LevelsBound(t);
    WordStats(CountLive(t), CountLiveFavorites(t), LevelOr0(m, "Beginner"),
              LevelOr0(m, "Intermediate"), LevelOr0(m, "Advanced"))
  }

  /** The statistics are those of the table without its DELETED rows. */
  lemma {:induction false} StatsOnlyLiveRows(t: Table)
    ensures GetWordStats(t) == GetWordStats(Filter(t, Live))
  {
    if t != [] {
      StatsOnlyLiveRows(t[1..]);
      var f := Filter(t[1..], Live);
      if Live(t[0]) {
        assert Filter(t, Live) == [t[0]] + f;
        assert ([t[0]] + f)[1..] == f;
      } else {
        assert Filter(t, Live) == f;
      }
    }
  }
}
