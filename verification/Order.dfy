/**
 JavaScript's order on strings and its default sort, for lists whose duplicates are dropped.
 */
module Order {

  predicate Less(a: string, b: string) {
    if b == "" then false
    else if a == "" then true
    else if a[0] != b[0] then a[0] < b[0]
    else Less(a[1..], b[1..])
  }

  lemma {:induction false} LessIrreflexive(a: string)
    ensures !Less(a, a)
  {
    if a != "" { LessIrreflexive(a[1..]); }
  }

  /** The order is total: exactly one of less, equal and greater. */
  lemma {:induction false} LessTotal(a: string, b: string)
    ensures Less(a, b) || a == b || Less(b, a)
    ensures !(Less(a, b) && Less(b, a)) && !(a == b && Less(a, b))
  {
    if a == b { LessIrreflexive(a); }
    if a != "" && b != "" && a[0] == b[0] {
      LessTotal(a[1..], b[1..]);
      assert a == [a[0]] + a[1..] && b == [b[0]] + b[1..];
    }
  }

  lemma {:induction false} LessTransitive(a: string, b: string, c: string)
    requires Less(a, b) && Less(b, c)
    ensures Less(a, c)
  {
    if a != "" && a[0] == b[0] == c[0] { LessTransitive(a[1..], b[1..], c[1..]); }
  }

  predicate Sorted(s: seq<string>) { forall j, k :: 0 <= j < k < |s| ==> Less(s[j], s[k]) }

  function Insert(x: string, s: seq<string>): (r: seq<string>)
    requires Sorted(s)
    ensures Sorted(r)
    ensures forall y :: y in r <==> y == x || y in s
  {
    if s == [] then [x]
    else if x == s[0] then s
    else if Less(x, s[0]) then
      InsertFront(x, s);
      [x] + s
    else
      LessTotal(x, s[0]);
      var rest := Insert(x, s[1..]);
      InsertedRest(s, rest, x);
      [s[0]] + rest
  }

  lemma InsertFront(x: string, s: seq<string>)
    requires s != [] && Sorted(s) && Less(x, s[0])
    ensures Sorted([x] + s)
  {
    forall k | 0 < k < |s| ensures Less(x, s[k]) { LessTransitive(x, s[0], s[k]); }
  }

  lemma InsertedRest(s: seq<string>, rest: seq<string>, x: string)
    requires s != [] && Sorted(s) && Sorted(rest) && Less(s[0], x)
    requires forall y :: y in rest <==> y == x || y in s[1..]
    ensures Sorted([s[0]] + rest)
    ensures forall y :: y in [s[0]] + rest <==> y == x || y in s
  {
    assert s == [s[0]] + s[1..];
    forall k | 0 <= k < |rest| ensures Less(s[0], rest[k]) {
      assert rest[k] in rest;
      if rest[k] != x {
        var j :| 0 <= j < |s[1..]| && s[1..][j] == rest[k];
        assert s[j + 1] == rest[k];
      }
    }
  }

  /** `[...new Set(list)].sort()`. */
  function SortUnique(list: seq<string>): (r: seq<string>)
    ensures Sorted(r)
    ensures forall y :: y in r <==> y in list
  {
    if list == [] then []
    else
      assert list == [list[0]] + list[1..];
      Insert(list[0], SortUnique(list[1..]))
  }

  /** A sorted list is determined by its members. */
  lemma {:induction false} SortedByMembers(a: seq<string>, b: seq<string>)
    requires Sorted(a) && Sorted(b) && forall y :: y in a <==> y in b
    ensures a == b
  {
    assert a != [] ==> a[0] in a;
    assert b != [] ==> b[0] in b;
    if a != [] {
      FirstIsLeast(a, b[0]);
      FirstIsLeast(b, a[0]);
      LessTotal(a[0], b[0]);
      assert a[0] == b[0];
      forall y ensures y in a[1..] <==> y in b[1..] {
        TailMembers(a, y);
        TailMembers(b, y);
      }
      SortedByMembers(a[1..], b[1..]);
      assert a == [a[0]] + a[1..] && b == [b[0]] + b[1..];
    }
  }

  lemma FirstIsLeast(s: seq<string>, y: string)
    requires Sorted(s) && y in s
    ensures s[0] == y || Less(s[0], y)
  {
    var k :| 0 <= k < |s| && s[k] == y;
  }

  lemma TailMembers(s: seq<string>, y: string)
    requires s != [] && Sorted(s)
    ensures y in s[1..] <==> y in s && y != s[0]
  {
    assert s == [s[0]] + s[1..];
    if y in s[1..] {
      var k :| 0 <= k < |s[1..]| && s[1..][k] == y;
      assert Less(s[0], s[k + 1]);
      LessIrreflexive(y);
    }
  }
}
