/** The persisted pull cursors of `SyncManager`: a preferences file
    ("sync_prefs") holding one long and one string per stream, each read
    with a default when it was never written. */
module SyncCursor {

  /** The preferences file, split by value type: every key of the cursor
      store is written with one type only. */
  datatype Prefs = Prefs(longs: map<string, int>, strings: map<string, string>)

  const LastSyncTimeKey: string := "last_sync_time"
  const CategoryLastSyncTimeKey: string := "category_last_sync_time"
  const NoteCategoryLastSyncTimeKey: string := "note_category_last_sync_time"
  const LastIdKey: string := "last_id"
  const CategoryLastIdKey: string := "category_last_id"

  /** A freshly created (or cleared) preferences file. */
  const Empty: Prefs := Prefs(map[], map[])

  /** `getLong(key, 0L)`. */
  function GetLong(p: Prefs, key: string): int {
    if key in p.longs then p.longs[key] else 0
  }

  /** `getString(key, "") ?: ""`. */
  function GetString(p: Prefs, key: string): string {
    if key in p.strings then p.strings[key] else ""
  }

  function GetLastSyncTime(p: Prefs): int { GetLong(p, LastSyncTimeKey) }
  function GetCategoryLastSyncTime(p: Prefs): int { GetLong(p, CategoryLastSyncTimeKey) }
  function GetNoteCategoryLastSyncTime(p: Prefs): int { GetLong(p, NoteCategoryLastSyncTimeKey) }
  function GetLastId(p: Prefs): string { GetString(p, LastIdKey) }
  function GetCategoryLastId(p: Prefs): string { GetString(p, CategoryLastIdKey) }

  /** All five cursor values agree. */
  predicate SameCursors(p: Prefs, q: Prefs) {
    && GetLastSyncTime(p) == GetLastSyncTime(q)
    && GetCategoryLastSyncTime(p) == GetCategoryLastSyncTime(q)
    && GetNoteCategoryLastSyncTime(p) == GetNoteCategoryLastSyncTime(q)
    && GetLastId(p) == GetLastId(q)
    && GetCategoryLastId(p) == GetCategoryLastId(q)
  }

  /** `updateLastSyncTime`: the word stream's time is overwritten
      unconditionally (a smaller time replaces a larger one); every other
      cursor keeps its value. */
  function UpdateLastSyncTime(p: Prefs, t: int): (r: Prefs)
    ensures GetLastSyncTime(r) == t
    ensures GetCategoryLastSyncTime(r) == GetCategoryLastSyncTime(p)
    ensures GetNoteCategoryLastSyncTime(r) == GetNoteCategoryLastSyncTime(p)
    ensures GetLastId(r) == GetLastId(p)
    ensures GetCategoryLastId(r) == GetCategoryLastId(p)
  {
    p.(longs := p.longs[LastSyncTimeKey := t])
  }

  /** `updateCategoryLastSyncTime`. */
  function UpdateCategoryLastSyncTime(p: Prefs, t: int): (r: Prefs)
    ensures GetCategoryLastSyncTime(r) == t
    ensures GetLastSyncTime(r) == GetLastSyncTime(p)
    ensures GetNoteCategoryLastSyncTime(r) == GetNoteCategoryLastSyncTime(p)
    ensures GetLastId(r) == GetLastId(p)
    ensures GetCategoryLastId(r) == GetCategoryLastId(p)
  {
    p.(longs := p.longs[CategoryLastSyncTimeKey := t])
  }

  /** `setNoteCategoryLastSyncTime`. */
  function SetNoteCategoryLastSyncTime(p: Prefs, t: int): (r: Prefs)
    ensures GetNoteCategoryLastSyncTime(r) == t
    ensures GetLastSyncTime(r) == GetLastSyncTime(p)
    ensures GetCategoryLastSyncTime(r) == GetCategoryLastSyncTime(p)
    ensures GetLastId(r) == GetLastId(p)
    ensures GetCategoryLastId(r) == GetCategoryLastId(p)
  {
    p.(longs := p.longs[NoteCategoryLastSyncTimeKey := t])
  }

  /** `updateLastId`. */
  function UpdateLastId(p: Prefs, id: string): (r: Prefs)
    ensures GetLastId(r) == id
    ensures GetLastSyncTime(r) == GetLastSyncTime(p)
    ensures GetCategoryLastSyncTime(r) == GetCategoryLastSyncTime(p)
    ensures GetNoteCategoryLastSyncTime(r) == GetNoteCategoryLastSyncTime(p)
    ensures GetCategoryLastId(r) == GetCategoryLastId(p)
  {
    p.(strings := p.strings[LastIdKey := id])
  }

  /** `updateCategoryLastId`. */
  function UpdateCategoryLastId(p: Prefs, id: string): (r: Prefs)
    ensures GetCategoryLastId(r) == id
    ensures GetLastSyncTime(r) == GetLastSyncTime(p)
    ensures GetCategoryLastSyncTime(r) == GetCategoryLastSyncTime(p)
    ensures GetNoteCategoryLastSyncTime(r) == GetNoteCategoryLastSyncTime(p)
    ensures GetLastId(r) == GetLastId(p)
  {
    p.(strings := p.strings[CategoryLastIdKey := id])
  }

  /** `resetAll`: clears the file, so every getter returns its default. */
  function ResetAll(p: Prefs): (r: Prefs)
    ensures GetLastSyncTime(r) == 0 && GetLastId(r) == ""
    ensures GetCategoryLastSyncTime(r) == 0 && GetCategoryLastId(r) == ""
    ensures GetNoteCategoryLastSyncTime(r) == 0
    ensures SameCursors(r, Empty)
  {
    Empty
  }

  /** Cursors never written read as their defaults. */
  lemma NeverSetDefaults()
    ensures GetLastSyncTime(Empty) == 0 && GetLastId(Empty) == ""
    ensures GetCategoryLastSyncTime(Empty) == 0 && GetCategoryLastId(Empty) == ""
    ensures GetNoteCategoryLastSyncTime(Empty) == 0
  {
  }

  /** The latest write to a key wins: two writes of the word stream's time
      read back as the second, whatever their order of magnitude. */
  lemma LatestWriteWins(p: Prefs, t1: int, t2: int, id1: string, id2: string)
    ensures GetLastSyncTime(UpdateLastSyncTime(UpdateLastSyncTime(p, t1), t2)) == t2
    ensures GetLastId(UpdateLastId(UpdateLastId(p, id1), id2)) == id2
  {
  }
}
