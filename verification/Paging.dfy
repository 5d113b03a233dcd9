/**
 * Keyset paging: pages of a sorted table, the opaque cursor that asks for the next page, and walks that follow the
 * cursor while the table changes under them.
 */
module Paging {
  import opened Text
  import opened Order
  import opened CanonicalJson
  import Base64Url

  datatype Key = Key(createdAt: string, id: string)

  // ----- cursors -----

  /** The platform's UTF-8 coder and JSON reader. */
  datatype Platform = Platform(
    utf8: string -> seq<Base64Url.Byte>,
    text: seq<Base64Url.Byte> -> string,
    parse: string -> Option<Json>)

  function CursorData(k: Key): Json { JObject([Entry("c", JString(k.createdAt)), Entry("i", JString(k.id))]) }

  /** The coder and the reader give back what `JSON.stringify` wrote for a cursor; nothing is asked of other texts. */
  ghost predicate Lawful(p: Platform) {
    && (forall k :: p.text(p.utf8(Render(CursorData(k)))) == Render(CursorData(k))
          && p.utf8(Render(CursorData(k))) != [])
    && (forall k :: p.parse(Render(CursorData(k))) == Some(CursorData(k)))
  }

  function EncodeCursor(p: Platform, k: Key): string { Base64Url.Encode(p.utf8(Render(CursorData(k)))) }

  function StringMember(members: seq<Entry<Json>>, key: string): Option<string> {
    if members == [] then None
    else if members[0].key == key then if members[0].value.JString? then Some(members[0].value.chars) else None
    else StringMember(members[1..], key)
  }

  function DecodeCursor(p: Platform, token: Option<string>): Option<Key> {
    if token.None? || token.value == "" then None
    else
      var bytes :- Base64Url.Decode(token.value);
      var parsed :- p.parse(p.text(bytes));
      if !parsed.JObject? then None
      else
        var createdAt :- StringMember(parsed.members, "c");
        var id :- StringMember(parsed.members, "i");
        Some(Key(createdAt, id))
  }

  /** A cursor given back is the position it was made from. */
  lemma CursorRoundTrip(p: Platform, k: Key)
    requires Lawful(p)
    ensures DecodeCursor(p, Some(EncodeCursor(p, k))) == Some(k)
  {
    var text := Render(CursorData(k));
    var bytes := p.utf8(text);
    assert p.text(bytes) == text && text != "";
    hide Base64Url.Encode, Base64Url.Decode, Render;
    Base64Url.RoundTrip(bytes);
    Base64Url.EncodeIsUrlSafe(bytes);
    var members := CursorData(k).members;
    assert StringMember(members, "c") == Some(k.createdAt);
    assert members[1..][0] == Entry("i", JString(k.id));
    assert StringMember(members, "i") == Some(k.id);
  }

  // ----- page limits -----

  const MAX_PAGE_LIMIT := 100

  datatype Limit = Absent | NonFinite | Finite(value: real)

  function Truncate(v: real): int { if v >= 0.0 then v.Floor else -((-v).Floor) }

  /** The largest whole number of rows that is at most the request, within 1 to 100. */
  function ClampPageLimit(raw: Limit): (n: nat)
    ensures 1 <= n <= MAX_PAGE_LIMIT
    ensures raw.Finite? && n > 1 ==> n as real <= raw.value
    ensures raw.Finite? && n < MAX_PAGE_LIMIT ==> raw.value < (n + 1) as real
    ensures !raw.Finite? ==> n == MAX_PAGE_LIMIT
  {
    match raw
    case Absent => MAX_PAGE_LIMIT
    case NonFinite => MAX_PAGE_LIMIT
    case Finite(v) =>
      var t := Truncate(v);
      if t < 1 then 1 else if t > MAX_PAGE_LIMIT then MAX_PAGE_LIMIT else t
  }

  // ----- orders on keys -----

  predicate Before(a: Key, b: Key) {
    Less(a.createdAt, b.createdAt) || (a.createdAt == b.createdAt && Less(a.id, b.id))
  }

  predicate After(a: Key, b: Key) { Before(b, a) }

  ghost predicate StrictTotal(before: (Key, Key) -> bool) {
    && (forall a :: !before(a, a))
    && (forall a, b, c :: before(a, b) && before(b, c) ==> before(a, c))
    && (forall a, b :: before(a, b) || a == b || before(b, a))
  }

  lemma BeforeIsStrictTotal()
    ensures StrictTotal(Before)
  {
    forall a ensures !Before(a, a) {
      LessIrreflexive(a.createdAt);
      LessIrreflexive(a.id);
    }
    forall a, b, c | Before(a, b) && Before(b, c) ensures Before(a, c) { BeforeTransitive(a, b, c); }
    forall a, b ensures Before(a, b) || a == b || Before(b, a) {
      LessTotal(a.createdAt, b.createdAt);
      LessTotal(a.id, b.id);
    }
  }

  lemma BeforeTransitive(a: Key, b: Key, c: Key)
    requires Before(a, b) && Before(b, c)
    ensures Before(a, c)
  {
    LessIrreflexive(a.createdAt);
    if a.createdAt == b.createdAt == c.createdAt {
      LessTransitive(a.id, b.id, c.id);
    } else if a.createdAt != b.createdAt && b.createdAt != c.createdAt {
      LessTransitive(a.createdAt, b.createdAt, c.createdAt);
    }
  }

  lemma AfterIsStrictTotal()
    ensures StrictTotal(After)
  {
    BeforeIsStrictTotal();
    forall a, b, c | After(a, b) && After(b, c) ensures After(a, c) { BeforeTransitive(c, b, a); }
  }

  /** The rows are strictly ordered by key. */
  ghost predicate Ordered<T>(before: (Key, Key) -> bool, keyset: T -> Key, rows: seq<T>) {
    forall i, j :: 0 <= i < j < |rows| ==> before(keyset(rows[i]), keyset(rows[j]))
  }

  // ----- pages -----

  datatype Page<T> = Page(items: seq<T>, next: Option<string>)

  function FindIndex<T>(rows: seq<T>, p: T -> bool): (k: int)
    ensures -1 <= k < |rows|
    ensures forall j :: 0 <= j < (if k < 0 then |rows| else k) ==> !p(rows[j])
    ensures k >= 0 ==> p(rows[k])
  {
    if rows == [] then -1
    else if p(rows[0]) then 0
    else
      var k := FindIndex(rows[1..], p);
      assert forall j :: 0 <= j < |rows[1..]| ==> rows[1..][j] == rows[j + 1];
      if k < 0 then -1 else k + 1
  }

  /** The first row after the cursor. */
  function StartOf<T>(before: (Key, Key) -> bool, keyset: T -> Key, rows: seq<T>, cursor: Option<Key>): (k: nat)
    ensures k <= |rows| && (cursor.None? ==> k == 0)
    ensures cursor.Some? ==> forall j :: 0 <= j < k ==> !before(cursor.value, keyset(rows[j]))
    ensures cursor.Some? && k < |rows| ==> before(cursor.value, keyset(rows[k]))
  {
    if cursor.None? then 0
    else
      var k := FindIndex(rows, row => before(cursor.value, keyset(row)));
      if k == -1 then |rows| else k
  }

  function Least(a: nat, b: nat): nat { if a < b then a else b }

  /** The page that starts at the given row. */
  function PageAt<T>(p: Platform, keyset: T -> Key, rows: seq<T>, from: nat, n: nat): Page<T>
    requires from <= |rows|
  {
    var window := rows[from..Least(from + n, |rows|)];
    if from + n < |rows| && window != [] then Page(window, Some(EncodeCursor(p, keyset(window[|window| - 1]))))
    else Page(window, None)
  }

  /** The body that `pageSorted`, `pageSortedBy` (with the order `Before`) and `pageSortedDesc` (with `After`) share. */
  function PageBy<T>(p: Platform, before: (Key, Key) -> bool, keyset: T -> Key, rows: seq<T>, limit: Limit,
                     token: Option<string>): Page<T>
  {
    PageAt(p, keyset, rows, StartOf(before, keyset, rows, DecodeCursor(p, token)), ClampPageLimit(limit))
  }

  function PageFromProbeBy<T>(p: Platform, keyset: T -> Key, rows: seq<T>, limit: nat): Page<T> {
    if |rows| <= limit then Page(rows, None)
    else
      var items := rows[..limit];
      if items != [] then Page(items, Some(EncodeCursor(p, keyset(items[|items| - 1])))) else Page(items, None)
  }

  // ----- the probe query -----

  /** The key lies after the cursor; without a cursor every key does. */
  predicate Beyond(before: (Key, Key) -> bool, cursor: Option<Key>, key: Key) {
    cursor.Some? ==> before(cursor.value, key)
  }

  /** The store's condition: the rows strictly after the cursor. */
  function Filter<T>(before: (Key, Key) -> bool, keyset: T -> Key, rows: seq<T>, cursor: Option<Key>): seq<T> {
    if rows == [] then []
    else if Beyond(before, cursor, keyset(rows[0])) then [rows[0]] + Filter(before, keyset, rows[1..], cursor)
    else Filter(before, keyset, rows[1..], cursor)
  }

  /** In an ordered table the rows after the cursor are those from the start on. */
  lemma RowsAfterStart<T>(before: (Key, Key) -> bool, keyset: T -> Key, rows: seq<T>, cursor: Option<Key>, j: nat)
    requires StrictTotal(before) && Ordered(before, keyset, rows) && j < |rows| && cursor.Some?
    ensures before(cursor.value, keyset(rows[j])) <==> StartOf(before, keyset, rows, cursor) <= j
  {
    var k := StartOf(before, keyset, rows, cursor);
    if k < j { assert before(keyset(rows[k]), keyset(rows[j])); }
  }

  lemma {:induction false} FilterIsSuffix<T>(before: (Key, Key) -> bool, keyset: T -> Key, rows: seq<T>,
                                             cursor: Option<Key>, k: nat)
    requires k <= |rows|
    requires forall j :: 0 <= j < |rows| ==> (Beyond(before, cursor, keyset(rows[j])) <==> k <= j)
    ensures Filter(before, keyset, rows, cursor) == rows[k..]
  {
    if rows != [] {
      var tail, k' := rows[1..], if k > 0 then k - 1 else 0;
      assert Beyond(before, cursor, keyset(rows[0])) <==> k == 0;
      forall j | 0 <= j < |tail| ensures Beyond(before, cursor, keyset(tail[j])) <==> k' <= j {
        assert tail[j] == rows[j + 1];
      }
      FilterIsSuffix(before, keyset, tail, cursor, k');
      if k == 0 {
        assert tail[0..] == tail && rows[0..] == [rows[0]] + tail;
      } else {
        assert tail[k - 1..] == rows[k..];
      }
    }
  }

  /** One extra row of the store's query gives the same page as the whole table in memory. */
  lemma ProbeGivesSamePage<T>(p: Platform, before: (Key, Key) -> bool, keyset: T -> Key, table: seq<T>, limit: Limit,
                              token: Option<string>)
    requires StrictTotal(before) && Ordered(before, keyset, table)
    ensures var after := Filter(before, keyset, table, DecodeCursor(p, token));
            var n := ClampPageLimit(limit);
            PageFromProbeBy(p, keyset, after[..Least(n + 1, |after|)], n)
              == PageBy(p, before, keyset, table, limit, token)
  {
    hide Ordered, StrictTotal, DecodeCursor, ClampPageLimit, EncodeCursor, Filter;
    var cursor := DecodeCursor(p, token);
    var from := StartOf(before, keyset, table, cursor);
    forall j | 0 <= j < |table| ensures Beyond(before, cursor, keyset(table[j])) <==> from <= j {
      if cursor.Some? { RowsAfterStart(before, keyset, table, cursor, j); }
    }
    FilterIsSuffix(before, keyset, table, cursor, from);
    var after, n := table[from..], ClampPageLimit(limit);
    var rows := after[..Least(n + 1, |after|)];
    if |rows| <= n {
      assert rows == table[from..Least(from + n, |table|)];
    } else {
      assert rows[..n] == table[from..from + n];
    }
  }

  // ----- one page -----

  /** A page holds rows beyond the cursor, in order, and its cursor stands at its last row. */
  lemma PageIsBeyond<T>(p: Platform, before: (Key, Key) -> bool, keyset: T -> Key, table: seq<T>, limit: Limit,
                        token: Option<string>)
    requires Lawful(p) && StrictTotal(before) && Ordered(before, keyset, table)
    ensures var page := PageBy(p, before, keyset, table, limit, token);
            && Ordered(before, keyset, page.items)
            && (forall row :: row in page.items ==> row in table && Beyond(before, DecodeCursor(p, token), keyset(row)))
            && (page.next.Some? ==>
                  page.items != [] && DecodeCursor(p, page.next) == Some(keyset(page.items[|page.items| - 1])))
  {
    hide DecodeCursor, ClampPageLimit, EncodeCursor, Lawful, StrictTotal;
    var cursor := DecodeCursor(p, token);
    var from := StartOf(before, keyset, table, cursor);
    var page := PageBy(p, before, keyset, table, limit, token);
    assert forall i :: 0 <= i < |page.items| ==> page.items[i] == table[from + i];
    if cursor.Some? {
      forall i | 0 <= i < |page.items| ensures before(cursor.value, keyset(page.items[i])) {
        RowsAfterStart(before, keyset, table, cursor, from + i);
      }
    }
    if page.next.Some? { CursorRoundTrip(p, keyset(page.items[|page.items| - 1])); }
  }

  /** A row beyond the cursor is on the page, or beyond the page. */
  lemma PageSkipsNothing<T>(p: Platform, before: (Key, Key) -> bool, keyset: T -> Key, table: seq<T>, limit: Limit,
                            token: Option<string>, j: nat)
    requires StrictTotal(before) && Ordered(before, keyset, table)
    requires j < |table| && Beyond(before, DecodeCursor(p, token), keyset(table[j]))
    ensures var page := PageBy(p, before, keyset, table, limit, token);
            table[j] in page.items
            || (page.next.Some? && page.items != [] && before(keyset(page.items[|page.items| - 1]), keyset(table[j])))
  {
    hide DecodeCursor, EncodeCursor, StrictTotal;
    var cursor := DecodeCursor(p, token);
    var from := StartOf(before, keyset, table, cursor);
    var page := PageBy(p, before, keyset, table, limit, token);
    if cursor.Some? { RowsAfterStart(before, keyset, table, cursor, j); }
    assert from <= j;
    if j < from + |page.items| {
      assert page.items[j - from] == table[j];
    } else {
      assert page.items[|page.items| - 1] == table[from + |page.items| - 1];
    }
  }

  // ----- walks over a changing table -----

  /** The table as it is when one page is asked for. */
  datatype Request<T> = Request(table: seq<T>, limit: Limit)

  /** All rows that following the cursor returns. */
  function Walk<T>(p: Platform, before: (Key, Key) -> bool, keyset: T -> Key, requests: seq<Request<T>>,
                   token: Option<string>): seq<T>
    decreases |requests|
  {
    if requests == [] then []
    else
      var page := PageBy(p, before, keyset, requests[0].table, requests[0].limit, token);
      page.items + if page.next.None? then [] else Walk(p, before, keyset, requests[1..], page.next)
  }

  /** The walk comes to a page without a cursor. */
  predicate Completes<T>(p: Platform, before: (Key, Key) -> bool, keyset: T -> Key, requests: seq<Request<T>>,
                         token: Option<string>)
    decreases |requests|
  {
    requests != []
    && var page := PageBy(p, before, keyset, requests[0].table, requests[0].limit, token);
       page.next.None? || Completes(p, before, keyset, requests[1..], page.next)
  }

  ghost predicate AllOrdered<T>(before: (Key, Key) -> bool, keyset: T -> Key, requests: seq<Request<T>>) {
    forall k :: 0 <= k < |requests| ==> Ordered(before, keyset, requests[k].table)
  }

  lemma OrderedJoin<T>(before: (Key, Key) -> bool, keyset: T -> Key, a: seq<T>, b: seq<T>)
    requires StrictTotal(before) && Ordered(before, keyset, a) && Ordered(before, keyset, b)
    requires a == [] || forall row :: row in b ==> before(keyset(a[|a| - 1]), keyset(row))
    ensures Ordered(before, keyset, a + b)
  {
    var s := a + b;
    forall i, j | 0 <= i < j < |s| ensures before(keyset(s[i]), keyset(s[j])) {
      if i < |a| <= j {
        var last := keyset(a[|a| - 1]);
        assert s[j] in b && before(last, keyset(s[j]));
        assert i == |a| - 1 || before(keyset(a[i]), last);
      }
    }
  }

  /** Whatever happens to the table, the walk returns strictly increasing keys, all beyond the cursor it began with. */
  lemma {:induction false} WalkIncreases<T>(p: Platform, before: (Key, Key) -> bool, keyset: T -> Key,
                                            requests: seq<Request<T>>, token: Option<string>)
    requires Lawful(p) && StrictTotal(before) && AllOrdered(before, keyset, requests)
    ensures Ordered(before, keyset, Walk(p, before, keyset, requests, token))
    ensures forall row :: row in Walk(p, before, keyset, requests, token)
              ==> Beyond(before, DecodeCursor(p, token), keyset(row))
    decreases |requests|
  {
    hide PageBy, DecodeCursor, StrictTotal, Lawful, Ordered;
    if requests == [] {
      EmptyOrdered(before, keyset);
    } else {
      PageIsBeyond(p, before, keyset, requests[0].table, requests[0].limit, token);
      var page := PageBy(p, before, keyset, requests[0].table, requests[0].limit, token);
      if page.next.Some? {
        var rest := Walk(p, before, keyset, requests[1..], page.next);
        WalkIncreases(p, before, keyset, requests[1..], page.next);
        OrderedJoin(before, keyset, page.items, rest);
        var last := page.items[|page.items| - 1];
        assert last in page.items;
        forall row | row in rest ensures Beyond(before, DecodeCursor(p, token), keyset(row)) {
          BeyondGrows(before, DecodeCursor(p, token), keyset(last), keyset(row));
        }
      } else {
        assert page.items + [] == page.items;
      }
    }
  }

  lemma EmptyOrdered<T>(before: (Key, Key) -> bool, keyset: T -> Key)
    ensures Ordered(before, keyset, [])
  {
  }

  lemma BeyondGrows(before: (Key, Key) -> bool, cursor: Option<Key>, a: Key, b: Key)
    requires StrictTotal(before) && Beyond(before, cursor, a) && before(a, b)
    ensures Beyond(before, cursor, b)
  {
  }

  /** No key is returned twice. */
  lemma WalkRepeatsNothing<T>(p: Platform, before: (Key, Key) -> bool, keyset: T -> Key, requests: seq<Request<T>>,
                              token: Option<string>, i: nat, j: nat)
    requires Lawful(p) && StrictTotal(before) && AllOrdered(before, keyset, requests)
    requires i < j < |Walk(p, before, keyset, requests, token)|
    ensures keyset(Walk(p, before, keyset, requests, token)[i]) != keyset(Walk(p, before, keyset, requests, token)[j])
  {
    hide Walk;
    WalkIncreases(p, before, keyset, requests, token);
  }

  ghost predicate HasKey<T>(keyset: T -> Key, rows: seq<T>, key: Key) {
    exists j :: 0 <= j < |rows| && keyset(rows[j]) == key
  }

  /** A key that every request finds in the table is returned by a walk that completes. */
  lemma {:induction false} WalkReturnsStableKeys<T>(p: Platform, before: (Key, Key) -> bool, keyset: T -> Key,
                                                    requests: seq<Request<T>>, token: Option<string>, key: Key)
    requires Lawful(p) && StrictTotal(before) && AllOrdered(before, keyset, requests)
    requires Completes(p, before, keyset, requests, token)
    requires forall k :: 0 <= k < |requests| ==> HasKey(keyset, requests[k].table, key)
    requires Beyond(before, DecodeCursor(p, token), key)
    ensures HasKey(keyset, Walk(p, before, keyset, requests, token), key)
    decreases |requests|
  {
    hide PageBy, DecodeCursor, StrictTotal, Lawful, Ordered;
    var table := requests[0].table;
    var page := PageBy(p, before, keyset, table, requests[0].limit, token);
    var j :| 0 <= j < |table| && keyset(table[j]) == key;
    PageSkipsNothing(p, before, keyset, table, requests[0].limit, token, j);
    PageIsBeyond(p, before, keyset, table, requests[0].limit, token);
    var walk := Walk(p, before, keyset, requests, token);
    if table[j] in page.items {
      var i :| 0 <= i < |page.items| && page.items[i] == table[j];
      assert walk[i] == table[j];
    } else {
      var rest := Walk(p, before, keyset, requests[1..], page.next);
      WalkReturnsStableKeys(p, before, keyset, requests[1..], page.next, key);
      var i :| 0 <= i < |rest| && keyset(rest[i]) == key;
      assert walk[|page.items| + i] == rest[i];
    }
  }

  /** Only rows that some request finds in the table are returned. */
  lemma {:induction false} WalkInventsNothing<T>(p: Platform, before: (Key, Key) -> bool, keyset: T -> Key,
                                                 requests: seq<Request<T>>, token: Option<string>, row: T)
    requires Lawful(p) && StrictTotal(before) && AllOrdered(before, keyset, requests)
    requires row in Walk(p, before, keyset, requests, token)
    ensures exists k :: 0 <= k < |requests| && row in requests[k].table
    decreases |requests|
  {
    hide PageBy, DecodeCursor, StrictTotal, Lawful, Ordered;
    PageIsBeyond(p, before, keyset, requests[0].table, requests[0].limit, token);
    var page := PageBy(p, before, keyset, requests[0].table, requests[0].limit, token);
    if row !in page.items {
      WalkInventsNothing(p, before, keyset, requests[1..], page.next, row);
      var k :| 0 <= k < |requests[1..]| && row in requests[1..][k].table;
      assert row in requests[k + 1].table;
    }
  }

  // ----- walks over a fixed table -----

  function Repeat<T>(table: seq<T>, limit: Limit, n: nat): seq<Request<T>> { seq(n, _ => Request(table, limit)) }

  /** The cursor at row `from - 1` starts the next page at row `from`. */
  lemma StartAfterRow<T>(before: (Key, Key) -> bool, keyset: T -> Key, table: seq<T>, from: nat)
    requires StrictTotal(before) && Ordered(before, keyset, table) && 0 < from <= |table|
    ensures StartOf(before, keyset, table, Some(keyset(table[from - 1]))) == from
  {
    var cursor := Some(keyset(table[from - 1]));
    RowsAfterStart(before, keyset, table, cursor, from - 1);
    if from < |table| { RowsAfterStart(before, keyset, table, cursor, from); }
  }

  lemma EnoughLeft(n: nat, size: nat, from: nat, rows: nat)
    requires n >= 1 && from + size < rows <= from + n * size
    ensures n > 1 && rows <= from + size + (n - 1) * size
  {
    assert n * size == (n - 1) * size + size;
  }

  /** A page of a fixed table, with the row at which the next one starts. */
  lemma FixedPage<T>(p: Platform, before: (Key, Key) -> bool, keyset: T -> Key, table: seq<T>, limit: Limit,
                     token: Option<string>, from: nat)
    requires Lawful(p) && StrictTotal(before) && Ordered(before, keyset, table) && from <= |table|
    requires StartOf(before, keyset, table, DecodeCursor(p, token)) == from
    ensures var page, till := PageBy(p, before, keyset, table, limit, token), from + ClampPageLimit(limit);
            if till < |table| then
              && page.items == table[from..till] && page.next.Some?
              && StartOf(before, keyset, table, DecodeCursor(p, page.next)) == till
            else page == Page(table[from..], None)
  {
    hide DecodeCursor, EncodeCursor, Lawful, StrictTotal, Ordered, StartOf;
    var page, till := PageBy(p, before, keyset, table, limit, token), from + ClampPageLimit(limit);
    if till < |table| {
      assert page.items[|page.items| - 1] == table[till - 1];
      CursorRoundTrip(p, keyset(table[till - 1]));
      StartAfterRow(before, keyset, table, till);
    }
  }

  lemma {:induction false} WalkFrom<T>(p: Platform, before: (Key, Key) -> bool, keyset: T -> Key, table: seq<T>,
                                       limit: Limit, n: nat, token: Option<string>, from: nat)
    requires Lawful(p) && StrictTotal(before) && Ordered(before, keyset, table) && n >= 1
    requires from <= |table| <= from + n * ClampPageLimit(limit)
    requires StartOf(before, keyset, table, DecodeCursor(p, token)) == from
    ensures Completes(p, before, keyset, Repeat(table, limit, n), token)
    ensures Walk(p, before, keyset, Repeat(table, limit, n), token) == table[from..]
    decreases n
  {
    hide DecodeCursor, EncodeCursor, ClampPageLimit, Lawful, StrictTotal, Ordered, StartOf, PageBy;
    var requests, till := Repeat(table, limit, n), from + ClampPageLimit(limit);
    var page := PageBy(p, before, keyset, table, limit, token);
    assert requests[1..] == Repeat(table, limit, n - 1);
    FixedPage(p, before, keyset, table, limit, token, from);
    if till < |table| {
      EnoughLeft(n, ClampPageLimit(limit), from, |table|);
      WalkFrom(p, before, keyset, table, limit, n - 1, page.next, till);
      assert table[from..till] + table[till..] == table[from..];
    } else {
      assert page.items + [] == page.items;
    }
  }

  /** On a table that does not change, enough requests for its rows return exactly the table. */
  lemma WalkOfFixedTable<T>(p: Platform, before: (Key, Key) -> bool, keyset: T -> Key, table: seq<T>, limit: Limit,
                            n: nat)
    requires Lawful(p) && StrictTotal(before) && Ordered(before, keyset, table)
    requires n >= 1 && n * ClampPageLimit(limit) >= |table|
    ensures Completes(p, before, keyset, Repeat(table, limit, n), None)
    ensures Walk(p, before, keyset, Repeat(table, limit, n), None) == table
  {
    hide Walk, Completes;
    WalkFrom(p, before, keyset, table, limit, n, None, 0);
    assert table[0..] == table;
  }
}
