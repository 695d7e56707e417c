/** The agent's store: an append-only history of update attempts and a
    key/value cache with last-write-wins upsert. SQL, WAL journaling and
    timestamps are not modelled. */
module Database {
  import opened Wrappers

  datatype Status = Success | Error {
    /** The text stored in the `status` column. */
    function Name(): string {
      match this
      case Success => "success"
      case Error => "error"
    }
  }

  /** One row of `update_history` (the row id and timestamp are left out). */
  datatype Record = Record(
    targetId: string,
    status: Status,
    message: string,
    responseCode: Option<int>,
    ipAddress: Option<string>)

  datatype Store = Store(history: seq<Record>, cache: map<string, string>)

  /** A freshly created database. */
  const Empty: Store := Store([], map[])

  /** `log_update`: appends exactly one record and leaves everything else alone. */
  function LogUpdate(st: Store, r: Record): (st': Store)
    ensures |st'.history| == |st.history| + 1
    ensures st'.history[..|st.history|] == st.history
    ensures st'.history[|st.history|] == r
    ensures st'.cache == st.cache
  {
    st.(history := st.history + [r])
  }

  /** `get_cache`: the stored value, or `None` for a key never set. */
  function GetCache(st: Store, key: string): (v: Option<string>)
    ensures v.Some? <==> key in st.cache
    ensures v.Some? ==> v.value == st.cache[key]
  {
    if key in st.cache then Some(st.cache[key]) else None
  }

  /** `set_cache`: insert or overwrite one key. */
  function SetCache(st: Store, key: string, value: string): (st': Store)
    ensures GetCache(st', key) == Some(value)
    ensures forall k :: k != key ==> GetCache(st', k) == GetCache(st, k)
    ensures st'.history == st.history
  {
    st.(cache := st.cache[key := value])
  }

  /** Nothing has been cached in a fresh database. */
  lemma EmptyCacheMisses(key: string)
    ensures GetCache(Empty, key) == None
  {
  }

  /** The later of two writes to the same key wins. */
  lemma LastWriteWins(st: Store, key: string, v1: string, v2: string)
    ensures SetCache(SetCache(st, key, v1), key, v2) == SetCache(st, key, v2)
  {
  }

  /** The store's whole write interface. */
  datatype Write = Log(record: Record) | Put(key: string, value: string)

  function Apply(st: Store, w: Write): Store {
    match w
    case Log(r) => LogUpdate(st, r)
    case Put(k, v) => SetCache(st, k, v)
  }

  function ApplyAll(st: Store, ws: seq<Write>): Store
    decreases |ws|
  {
    if |ws| == 0 then st else ApplyAll(Apply(st, ws[0]), ws[1..])
  }

  /** How many of the writes are `log_update` calls. */
  function LogCount(ws: seq<Write>): nat
    decreases |ws|
  {
    if |ws| == 0 then 0 else (if ws[0].Log? then 1 else 0) + LogCount(ws[1..])
  }

  /** No write edits or removes a history record: any sequence of writes
      leaves the earlier history as a prefix, and the history grows by one
      record per `log_update`. */
  lemma {:induction false} HistoryOnlyGrows(st: Store, ws: seq<Write>)
    ensures |ApplyAll(st, ws).history| == |st.history| + LogCount(ws)
    ensures ApplyAll(st, ws).history[..|st.history|] == st.history
    decreases |ws|
  {
    if |ws| > 0 {
      var next := Apply(st, ws[0]);
      HistoryOnlyGrows(next, ws[1..]);
      assert next.history[..|st.history|] == st.history;
      assert ApplyAll(st, ws).history[..|st.history|] == ApplyAll(next, ws[1..]).history[..|next.history|][..|st.history|];
    }
  }

  /** Appending a batch of records in order, one `log_update` each. */
  function LogAll(st: Store, rs: seq<Record>): (st': Store)
    ensures st'.history == st.history + rs
    ensures st'.cache == st.cache
    decreases |rs|
  {
    if |rs| == 0 then st
    else
      var st' := LogAll(LogUpdate(st, rs[0]), rs[1..]);
      assert st.history + [rs[0]] + rs[1..] == st.history + rs;
      st'
  }
}
