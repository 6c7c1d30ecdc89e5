/** Keyset pagination: pages of rows, newest first, each cursor naming the last row returned. The table may
    change in any way between two pages of a walk. */
module Pagination {
  import opened Wrappers

  /** (created_at, id), compared in that order. */
  datatype Key = Key(ts: int, id: nat)

  datatype Row<+T> = Row(key: Key, value: T)

  predicate Less(a: Key, b: Key) {
    a.ts < b.ts || (a.ts == b.ts && a.id < b.id)
  }

  /** Newest first, no key twice. */
  ghost predicate Descending<T>(rows: seq<Row<T>>) {
    forall i, j :: 0 <= i < j < |rows| ==> Less(rows[j].key, rows[i].key)
  }

  ghost predicate HasKey<T(!new)>(rows: seq<Row<T>>, k: Key) {
    exists i :: 0 <= i < |rows| && rows[i].key == k
  }

  /** The cursor codec, as an inverse pair. */
  datatype Codec = Codec(encode: Key -> string, decode: string -> Option<Key>)

  ghost predicate Inverse(c: Codec) {
    forall k :: c.decode(c.encode(k)) == Some(k)
  }

  datatype Page<+T> = Page(items: seq<Row<T>>, nextCursor: Option<string>, hasMore: bool)

  datatype ListError = InvalidCursor

  // ---------------------------------------------------------------------------
  // One page
  // ---------------------------------------------------------------------------

  /** The page size, and the number of rows to fetch: one more, to learn whether there are more. */
  function ClampLimit(limit: int): (r: (int, int))
    ensures 1 <= r.0 <= 200 && r.1 == r.0 + 1
    ensures forall n :: 1 <= n <= 200 ==> Distance(limit, r.0) <= Distance(limit, n)
  {
    var clamped := if limit < 1 then 1 else if limit > 200 then 200 else limit;
    (clamped, clamped + 1)
  }

  function Distance(a: int, b: int): nat {
    if a <= b then b - a else a - b
  }

  predicate Below(cursor: Option<Key>, k: Key) {
    cursor.Some? ==> Less(k, cursor.value)
  }

  /** Rows after the cursor, in table order. */
  function Select<T>(table: seq<Row<T>>, cursor: Option<Key>): seq<Row<T>> {
    if table == [] then [] else
      var rest, r := Select(table[..|table| - 1], cursor), table[|table| - 1];
      if Below(cursor, r.key) then rest + [r] else rest
  }

  function Take<T>(rows: seq<T>, n: nat): seq<T> {
    if n <= |rows| then rows[..n] else rows
  }

  function FromRows<T>(rows: seq<Row<T>>, limit: nat, codec: Codec): Page<T> {
    var items := Take(rows, limit);
    var hasMore := |rows| > limit;
    Page(items, if hasMore && items != [] then Some(codec.encode(items[|items| - 1].key)) else None, hasMore)
  }

  /** `table`: the rows the listing is filtered to, in `ORDER BY created_at DESC, id DESC` order. */
  function ListPage<T>(table: seq<Row<T>>, codec: Codec, cursor: Option<string>, limit: int): (r: Result<Page<T>, ListError>)
    ensures r.Err? <==> cursor.Some? && codec.decode(cursor.value).None?
  {
    var (size, fetch) := ClampLimit(limit);
    if cursor.Some? && codec.decode(cursor.value).None? then Err(InvalidCursor)
    else
      var after := if cursor.Some? then codec.decode(cursor.value) else None;
      Ok(FromRows(Take(Select(table, after), fetch), size, codec))
  }

  lemma {:induction false} SelectKeys<T(!new)>(table: seq<Row<T>>, cursor: Option<Key>, k: Key)
    ensures HasKey(Select(table, cursor), k) <==> HasKey(table, k) && Below(cursor, k)
  {
    if table != [] {
      var n := |table| - 1;
      SelectKeys(table[..n], cursor, k);
      AppendKey(table[..n], table[n], k);
      assert table == table[..n] + [table[n]];
      AppendKey(Select(table[..n], cursor), table[n], k);
    }
  }

  lemma {:induction false} AppendKey<T(!new)>(rows: seq<Row<T>>, r: Row<T>, k: Key)
    ensures HasKey(rows + [r], k) <==> HasKey(rows, k) || r.key == k
  {
    var all := rows + [r];
    if i :| 0 <= i < |rows| && rows[i].key == k {
      assert all[i].key == k;
    } else if r.key == k {
      assert all[|rows|].key == k;
    }
  }

  lemma {:induction false} SelectDescending<T(!new)>(table: seq<Row<T>>, cursor: Option<Key>)
    requires Descending(table)
    ensures Descending(Select(table, cursor))
  {
    if table != [] {
      var n := |table| - 1;
      SelectDescending(table[..n], cursor);
      var rest := Select(table[..n], cursor);
      forall i | 0 <= i < |rest|
        ensures Less(table[n].key, rest[i].key)
      {
        assert HasKey(rest, rest[i].key);
        SelectKeys(table[..n], cursor, rest[i].key);
      }
    }
  }

  /** A page holds the newest rows after the cursor, and there is a next cursor exactly when rows remain. */
  lemma {:induction false} PageIsTop<T(!new)>(table: seq<Row<T>>, codec: Codec, cursor: Option<Key>, limit: int)
    requires Inverse(codec)
    ensures var p := ListPage(table, codec, Encoded(codec, cursor), limit);
      var all, size := Select(table, cursor), ClampLimit(limit).0;
      && p.Ok?
      && p.value.items == Take(all, size)
      && p.value.hasMore == (|all| > size)
      && p.value.nextCursor == (if |all| > size then Some(codec.encode(all[size - 1].key)) else None)
  {
  }

  // ---------------------------------------------------------------------------
  // Walks
  // ---------------------------------------------------------------------------

  /** One request of a walk: the table as it is when the page is read, and the page size asked for. */
  datatype Call<+T> = Call(table: seq<Row<T>>, limit: int)

  ghost predicate Ordered<T>(calls: seq<Call<T>>) {
    forall i :: 0 <= i < |calls| ==> Descending(calls[i].table)
  }

  function Encoded(codec: Codec, cursor: Option<Key>): Option<string> {
    if cursor.Some? then Some(codec.encode(cursor.value)) else None
  }

  /** The pages read by following cursors until there is none. */
  function Walk<T>(calls: seq<Call<T>>, codec: Codec, cursor: Option<string>): seq<Page<T>> {
    if calls == [] then [] else
      var p := ListPage(calls[0].table, codec, cursor, calls[0].limit);
      if p.Err? then []
      else if p.value.nextCursor.None? then [p.value]
      else [p.value] + Walk(calls[1..], codec, p.value.nextCursor)
  }

  function Items<T>(pages: seq<Page<T>>): seq<Row<T>> {
    if pages == [] then [] else pages[0].items + Items(pages[1..])
  }

  predicate Completed<T>(pages: seq<Page<T>>) {
    pages != [] && pages[|pages| - 1].nextCursor.None?
  }

  ghost predicate AllBelow<T>(rows: seq<Row<T>>, cursor: Option<Key>) {
    forall i :: 0 <= i < |rows| ==> Below(cursor, rows[i].key)
  }

  lemma {:induction false} SelectBelow<T(!new)>(table: seq<Row<T>>, cursor: Option<Key>)
    ensures AllBelow(Select(table, cursor), cursor)
  {
    if table != [] {
      SelectBelow(table[..|table| - 1], cursor);
    }
  }

  /** A walk is its first page followed, if rows remain, by a walk from that page's last row. */
  ghost predicate Opens<T>(calls: seq<Call<T>>, codec: Codec, pages: seq<Page<T>>, all: seq<Row<T>>, size: nat)
    requires calls != []
  {
    && pages != []
    && 0 < size
    && if |all| > size
       then
         && pages[0].items == all[..size]
         && Items(pages) == all[..size] + Items(pages[1..])
         && pages[1..] == Walk(calls[1..], codec, Encoded(codec, Some(all[size - 1].key)))
         && pages[0].nextCursor.Some?
       else
         Items(pages) == all && |pages| == 1 && pages[0].nextCursor.None?
  }

  lemma {:induction false} WalkOpens<T(!new)>(calls: seq<Call<T>>, codec: Codec, cursor: Option<Key>)
    requires Inverse(codec) && calls != []
    ensures Opens(calls, codec, Walk(calls, codec, Encoded(codec, cursor)), Select(calls[0].table, cursor),
                  ClampLimit(calls[0].limit).0)
  {
    PageIsTop(calls[0].table, codec, cursor, calls[0].limit);
    var pages := Walk(calls, codec, Encoded(codec, cursor));
    if |pages| == 1 {
      assert Items(pages[1..]) == [];
    }
  }

  /** The last page of a walk of several pages is the last page of the rest of it. */
  lemma {:induction false} CompletedRest<T(!new)>(pages: seq<Page<T>>)
    requires pages != [] && pages[0].nextCursor.Some?
    ensures Completed(pages) <==> Completed(pages[1..])
  {
    if |pages| > 1 {
      assert pages[1..][|pages| - 2] == pages[|pages| - 1];
    }
  }

  lemma {:induction false} JoinDescending<T(!new)>(head: seq<Row<T>>, tail: seq<Row<T>>)
    requires Descending(head) && Descending(tail)
    requires head != [] && AllBelow(tail, Some(head[|head| - 1].key))
    ensures Descending(head + tail)
  {
    var all := head + tail;
    forall i, j | 0 <= i < j < |all|
      ensures Less(all[j].key, all[i].key)
    {
      if i < |head| <= j {
        assert Less(tail[j - |head|].key, head[|head| - 1].key);
        assert i < |head| - 1 ==> Less(head[|head| - 1].key, head[i].key);
      }
    }
  }

  lemma {:induction false} JoinBelow<T(!new)>(head: seq<Row<T>>, tail: seq<Row<T>>, k: Key, cursor: Option<Key>)
    requires AllBelow(head, cursor) && AllBelow(tail, Some(k)) && Below(cursor, k)
    ensures AllBelow(head + tail, cursor)
  {
    forall i | 0 <= i < |tail|
      ensures Below(cursor, tail[i].key)
    {
      assert Less(tail[i].key, k);
    }
  }

  /** However the table changes between pages, the rows returned are strictly descending: none comes twice. */
  lemma {:induction false} WalkDescends<T(!new)>(calls: seq<Call<T>>, codec: Codec, cursor: Option<Key>)
    requires Inverse(codec) && Ordered(calls)
    ensures Descending(Items(Walk(calls, codec, Encoded(codec, cursor))))
    ensures AllBelow(Items(Walk(calls, codec, Encoded(codec, cursor))), cursor)
    decreases |calls|
  {
    if calls != [] {
      var all, size := Select(calls[0].table, cursor), ClampLimit(calls[0].limit).0;
      WalkOpens(calls, codec, cursor);
      SelectDescending(calls[0].table, cursor);
      SelectBelow(calls[0].table, cursor);
      if |all| > size {
        var next := all[size - 1].key;
        WalkDescends(calls[1..], codec, Some(next));
        var rest := Items(Walk(calls[1..], codec, Encoded(codec, Some(next))));
        JoinDescending(all[..size], rest);
        JoinBelow(all[..size], rest, next, cursor);
      }
    }
  }

  /** `k` is in the table at each of the first `n` pages. */
  ghost predicate PresentThroughout<T(!new)>(calls: seq<Call<T>>, n: nat, k: Key) {
    n <= |calls| && forall i :: 0 <= i < n ==> HasKey(calls[i].table, k)
  }

  lemma {:induction false} PresentRest<T(!new)>(calls: seq<Call<T>>, n: nat, k: Key)
    requires PresentThroughout(calls, n + 1, k)
    ensures PresentThroughout(calls[1..], n, k)
  {
    forall i | 0 <= i < n
      ensures HasKey(calls[1..][i].table, k)
    {
      assert calls[1..][i] == calls[i + 1];
    }
  }

  lemma {:induction false} ConcatKey<T(!new)>(a: seq<Row<T>>, b: seq<Row<T>>, k: Key)
    ensures HasKey(a + b, k) <==> HasKey(a, k) || HasKey(b, k)
  {
    if b == [] {
      assert a + b == a;
    } else {
      var n := |b| - 1;
      ConcatKey(a, b[..n], k);
      AppendKey(b[..n], b[n], k);
      AppendKey(a + b[..n], b[n], k);
      assert b[..n] + [b[n]] == b;
      assert a + b[..n] + [b[n]] == a + b;
    }
  }

  /** A completed walk returns every row that was there throughout it, whatever was inserted or deleted meanwhile. */
  lemma {:induction false} WalkCovers<T(!new)>(calls: seq<Call<T>>, codec: Codec, cursor: Option<Key>, k: Key)
    requires Inverse(codec) && Ordered(calls) && Below(cursor, k)
    requires Completed(Walk(calls, codec, Encoded(codec, cursor)))
    requires PresentThroughout(calls, |Walk(calls, codec, Encoded(codec, cursor))|, k)
    ensures HasKey(Items(Walk(calls, codec, Encoded(codec, cursor))), k)
    decreases |calls|
  {
    var pages := Walk(calls, codec, Encoded(codec, cursor));
    var all, size := Select(calls[0].table, cursor), ClampLimit(calls[0].limit).0;
    WalkOpens(calls, codec, cursor);
    SelectKeys(calls[0].table, cursor, k);
    if |all| > size {
      var next := Some(all[size - 1].key);
      KeyInRest(all, size, k, calls[0].table, cursor);
      CompletedRest(pages);
      PresentRest(calls, |pages| - 1, k);
      if Below(next, k) {
        WalkCovers(calls[1..], codec, next, k);
      }
      ConcatKey(all[..size], Items(pages[1..]), k);
    }
  }

  lemma {:induction false} KeyInRest<T(!new)>(all: seq<Row<T>>, size: nat, k: Key, table: seq<Row<T>>, cursor: Option<Key>)
    requires Descending(table) && all == Select(table, cursor) && 0 < size < |all|
    requires HasKey(all, k)
    ensures HasKey(all[..size], k) || Less(k, all[size - 1].key)
  {
    SelectDescending(table, cursor);
    var i :| 0 <= i < |all| && all[i].key == k;
    if i < size {
      assert all[..size][i].key == k;
    }
  }

  ghost predicate OnlyAt<T>(rows: seq<Row<T>>, k: Key, i: nat) {
    i < |rows| && forall j :: 0 <= j < |rows| ==> (rows[j].key == k <==> j == i)
  }

  /** Exactly once: a walk from the start lists a row that stays in the table in one place only. */
  lemma {:induction false} StableRowOnce<T(!new)>(calls: seq<Call<T>>, codec: Codec, k: Key)
    requires Inverse(codec) && Ordered(calls)
    requires Completed(Walk(calls, codec, None))
    requires PresentThroughout(calls, |Walk(calls, codec, None)|, k)
    ensures exists i :: OnlyAt(Items(Walk(calls, codec, None)), k, i)
  {
    assert Encoded(codec, None) == None;
    WalkCovers(calls, codec, None, k);
    WalkDescends(calls, codec, None);
    var rows := Items(Walk(calls, codec, None));
    var i :| 0 <= i < |rows| && rows[i].key == k;
    assert OnlyAt(rows, k, i);
  }

  // ---------------------------------------------------------------------------
  // A table that does not change
  // ---------------------------------------------------------------------------

  lemma {:induction false} SelectAll<T(!new)>(table: seq<Row<T>>)
    ensures Select(table, None) == table
  {
    if table != [] {
      SelectAll(table[..|table| - 1]);
    }
  }

  /** What a later cursor selects is what remains of an earlier selection. */
  lemma {:induction false} SelectTwice<T(!new)>(table: seq<Row<T>>, cursor: Option<Key>, k: Key)
    requires Below(cursor, k)
    ensures Select(table, Some(k)) == Select(Select(table, cursor), Some(k))
  {
    if table != [] {
      var n := |table| - 1;
      SelectTwice(table[..n], cursor, k);
      var rest := Select(table[..n], cursor);
      assert (rest + [table[n]])[..|rest|] == rest;
    }
  }

  lemma {:induction false} SelectSuffix<T(!new)>(rows: seq<Row<T>>, n: nat)
    requires Descending(rows) && 0 < n <= |rows|
    ensures Select(rows, Some(rows[n - 1].key)) == rows[n..]
  {
    var m := |rows| - 1;
    if n <= m {
      SelectSuffix(rows[..m], n);
      assert rows[n..] == rows[..m][n..] + [rows[m]];
    } else {
      SelectNone(rows, rows[m].key);
    }
  }

  lemma {:induction false} SelectNone<T(!new)>(rows: seq<Row<T>>, k: Key)
    requires forall i :: 0 <= i < |rows| ==> !Less(rows[i].key, k)
    ensures Select(rows, Some(k)) == []
  {
    if rows != [] {
      SelectNone(rows[..|rows| - 1], k);
    }
  }

  lemma {:induction false} SelectRest<T(!new)>(table: seq<Row<T>>, cursor: Option<Key>, n: nat)
    requires Descending(table) && 0 < n <= |Select(table, cursor)|
    ensures Select(table, Some(Select(table, cursor)[n - 1].key)) == Select(table, cursor)[n..]
  {
    SelectDescending(table, cursor);
    SelectBelow(table, cursor);
    SelectTwice(table, cursor, Select(table, cursor)[n - 1].key);
    SelectSuffix(Select(table, cursor), n);
  }

  ghost predicate Unchanging<T>(calls: seq<Call<T>>, table: seq<Row<T>>) {
    forall i :: 0 <= i < |calls| ==> calls[i].table == table
  }

  lemma {:induction false} FixedWalk<T(!new)>(table: seq<Row<T>>, calls: seq<Call<T>>, codec: Codec, cursor: Option<Key>)
    requires Inverse(codec) && Descending(table) && Unchanging(calls, table) && |Select(table, cursor)| < |calls|
    ensures Completed(Walk(calls, codec, Encoded(codec, cursor)))
    ensures Items(Walk(calls, codec, Encoded(codec, cursor))) == Select(table, cursor)
    decreases |calls|
  {
    var all, size := Select(table, cursor), ClampLimit(calls[0].limit).0;
    WalkOpens(calls, codec, cursor);
    if |all| > size {
      SelectRest(table, cursor, size);
      FixedWalk(table, calls[1..], codec, Some(all[size - 1].key));
      CompletedRest(Walk(calls, codec, Encoded(codec, cursor)));
      assert all[..size] + all[size..] == all;
    }
  }

  /** On a table that stays put a walk ends, whatever page sizes are asked for, and its pages concatenate to the table. */
  lemma {:induction false} FixedTableWalk<T(!new)>(table: seq<Row<T>>, calls: seq<Call<T>>, codec: Codec)
    requires Inverse(codec) && Descending(table) && Unchanging(calls, table) && |table| < |calls|
    ensures Completed(Walk(calls, codec, None))
    ensures Items(Walk(calls, codec, None)) == table
  {
    assert Encoded(codec, None) == None;
    SelectAll(table);
    FixedWalk(table, calls, codec, None);
  }
}
