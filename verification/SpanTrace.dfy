/**
 The source-index map of contract/redaction.ts: a text is rewritten by a chain of
 edit lists, and every surviving character keeps the index it had in the original.
 */
module SpanTrace {
  import opened Text

  datatype Span = Span(start: int, end: int)

  datatype Edit = Edit(start: int, end: int, replacement: string,
                       maskStart: Option<int>, maskEnd: Option<int>)
  {
    function MaskFrom(): int { if maskStart.Some? then maskStart.value else start }

    function MaskTo(): int { if maskEnd.Some? then maskEnd.value else end }

    /** The mask leaves part of the replaced range unreported. */
    predicate Narrows() { MaskFrom() != start || MaskTo() != end }
  }

  /** The edit replaces a range of a text of length `n` that lies at or after `from`. */
  predicate EditFits(e: Edit, from: int, n: int) {
    from <= e.start <= e.MaskFrom() <= e.MaskTo() <= e.end <= n
  }

  /** Sorted, non-overlapping edits inside `[from, n)`. */
  predicate WellFormed(edits: seq<Edit>, from: int, n: int)
    ensures WellFormed(edits, from, n) && 0 <= from <= n ==>
              forall k :: 0 <= k < |edits| ==> 0 <= edits[k].start <= edits[k].end <= n
  {
    edits == [] || (EditFits(edits[0], from, n) && WellFormed(edits[1..], edits[0].end, n))
  }

  /** What the edits turn `value[from..]` into. */
  function Splice(value: string, edits: seq<Edit>, from: nat): string
    requires from <= |value| && WellFormed(edits, from, |value|)
  {
    if edits == [] then value[from..]
    else value[from..edits[0].start] + edits[0].replacement + Splice(value, edits[1..], edits[0].end)
  }

  function Blank(n: nat): (r: seq<int>)
    ensures |r| == n && forall k :: 0 <= k < n ==> r[k] == -1
  {
    seq(n, _ => -1)
  }

  /** The index map after the edits: replacement text has no source index. */
  function Reindex(idx: seq<int>, edits: seq<Edit>, from: nat): seq<int>
    requires from <= |idx| && WellFormed(edits, from, |idx|)
  {
    if edits == [] then idx[from..]
    else idx[from..edits[0].start] + Blank(|edits[0].replacement|) + Reindex(idx, edits[1..], edits[0].end)
  }

  /** Maximal runs of consecutive source indices; an open run covers `[runStart, previous]`. */
  function Runs(idx: seq<int>, runStart: int, previous: int): seq<Span> {
    if idx == [] then if runStart >= 0 then [Span(runStart, previous + 1)] else []
    else if idx[0] < 0 then Runs(idx[1..], runStart, previous)
    else if runStart >= 0 && idx[0] != previous + 1 then
      [Span(runStart, previous + 1)] + Runs(idx[1..], idx[0], idx[0])
    else Runs(idx[1..], if runStart < 0 then idx[0] else runStart, idx[0])
  }

  /** The spans that one edit list reports. */
  function Recorded(idx: seq<int>, edits: seq<Edit>, from: nat): seq<Span>
    requires from <= |idx| && WellFormed(edits, from, |idx|)
  {
    if edits == [] then []
    else Runs(idx[edits[0].MaskFrom()..edits[0].MaskTo()], -1, -1)
         + Recorded(idx, edits[1..], edits[0].end)
  }

  datatype State = State(original: string, value: string, indices: seq<int>,
                         spans: seq<Span>, failed: bool)

  function Start(original: string): State {
    State(original, original, seq(|original|, i => i), [], false)
  }

  /** An edit list is faithful when it is well formed and replays to exactly `next`. */
  predicate Faithful(value: string, next: string, edits: seq<Edit>) {
    WellFormed(edits, 0, |value|) && Splice(value, edits, 0) == next
  }

  function Applied(s: State, next: string, edits: seq<Edit>): State
    requires |s.indices| == |s.value|
  {
    if s.failed then s
    else if Faithful(s.value, next, edits) then
      s.(value := next, indices := Reindex(s.indices, edits, 0),
         spans := s.spans + Recorded(s.indices, edits, 0))
    else s.(failed := true, spans := [Span(0, |s.original|)])
  }

  // ----- what the map and the spans mean -----

  /** Source indices that are still present. */
  ghost function Alive(idx: seq<int>): set<int> { set i | i in idx && i >= 0 }

  ghost function Range(lo: int, hi: int): (r: set<int>)
    ensures forall i :: i in r <==> lo <= i < hi
    decreases hi - lo
  {
    if lo >= hi then {} else {lo} + Range(lo + 1, hi)
  }

  ghost function Cover(spans: seq<Span>): set<int> {
    if spans == [] then {} else Range(spans[0].start, spans[0].end) + Cover(spans[1..])
  }

  /** Source indices inside the replaced ranges. */
  ghost function Removed(idx: seq<int>, edits: seq<Edit>, from: nat): set<int>
    requires from <= |idx| && WellFormed(edits, from, |idx|)
  {
    if edits == [] then {}
    else Alive(idx[edits[0].start..edits[0].end]) + Removed(idx, edits[1..], edits[0].end)
  }

  /** Source indices inside the masked ranges. */
  ghost function Masked(idx: seq<int>, edits: seq<Edit>, from: nat): set<int>
    requires from <= |idx| && WellFormed(edits, from, |idx|)
  {
    if edits == [] then {}
    else Alive(idx[edits[0].MaskFrom()..edits[0].MaskTo()]) + Masked(idx, edits[1..], edits[0].end)
  }

  /** Each kept entry names an equal character of the original. */
  ghost predicate Aligned(original: string, value: string, idx: seq<int>) {
    && |idx| == |value|
    && forall k :: 0 <= k < |idx| ==>
         -1 <= idx[k] < |original| && (idx[k] >= 0 ==> value[k] == original[idx[k]])
  }

  ghost predicate Increasing(idx: seq<int>) {
    forall j, k :: 0 <= j < k < |idx| && idx[j] >= 0 && idx[k] >= 0 ==> idx[j] < idx[k]
  }

  ghost predicate Apart(a: Span, b: Span) { a.end <= b.start || b.end <= a.start }

  /** Non-empty spans inside the original, pairwise disjoint. */
  ghost predicate Disjoint(spans: seq<Span>, n: int) {
    && (forall a :: 0 <= a < |spans| ==> 0 <= spans[a].start < spans[a].end <= n)
    && (forall a, b :: 0 <= a < b < |spans| ==> Apart(spans[a], spans[b]))
  }

  ghost predicate Coherent(s: State) {
    && Aligned(s.original, s.value, s.indices)
    && Increasing(s.indices)
    && Disjoint(s.spans, |s.original|)
    && Cover(s.spans) !! Alive(s.indices)
  }

  /** Original positions that neither survive nor are reported. */
  ghost function Lost(s: State): set<int> {
    Range(0, |s.original|) - Cover(s.spans) - Alive(s.indices)
  }

  // ----- lemmas about one edit list -----

  lemma AliveConcat(a: seq<int>, b: seq<int>)
    ensures Alive(a + b) == Alive(a) + Alive(b)
  {
  }

  lemma CoverConcat(a: seq<Span>, b: seq<Span>)
    ensures Cover(a + b) == Cover(a) + Cover(b)
  {
    if a == [] {
      assert a + b == b;
    } else {
      assert (a + b)[1..] == a[1..] + b;
      CoverConcat(a[1..], b);
    }
  }

  lemma {:induction false} CoverMember(spans: seq<Span>, i: int)
    ensures i in Cover(spans) <==> exists k :: 0 <= k < |spans| && spans[k].start <= i < spans[k].end
  {
    if spans != [] {
      CoverMember(spans[1..], i);
      assert forall k :: 0 < k < |spans| ==> spans[k] == spans[1..][k - 1];
      if i in Cover(spans[1..]) {
        var k :| 0 <= k < |spans[1..]| && spans[1..][k].start <= i < spans[1..][k].end;
        assert spans[k + 1].start <= i < spans[k + 1].end;
      }
    }
  }

  /** In an increasing map, a cut separates the surviving indices. */
  lemma AliveCut(idx: seq<int>, a: nat, b: nat, c: nat)
    requires Increasing(idx) && a <= b <= c <= |idx|
    ensures Alive(idx[a..c]) == Alive(idx[a..b]) + Alive(idx[b..c])
    ensures Alive(idx[a..b]) !! Alive(idx[b..c])
  {
    assert idx[a..c] == idx[a..b] + idx[b..c];
    AliveConcat(idx[a..b], idx[b..c]);
    forall i | i in Alive(idx[a..b]) ensures i !in Alive(idx[b..c]) {
      var j :| a <= j < b && idx[j] == i;
      assert forall k :: 0 <= k < |idx[b..c]| ==> idx[b..c][k] == idx[b + k] != i;
    }
  }

  /** Every surviving entry lies beyond the open run, which is sane. */
  ghost predicate Ahead(idx: seq<int>, runStart: int, previous: int, n: int) {
    && Increasing(idx)
    && (forall k :: 0 <= k < |idx| ==> idx[k] < n)
    && (runStart >= 0 ==> runStart <= previous < n)
    && (runStart >= 0 ==> forall k :: 0 <= k < |idx| && idx[k] >= 0 ==> previous < idx[k])
  }

  lemma AheadTail(idx: seq<int>, runStart: int, previous: int, n: int)
    requires Ahead(idx, runStart, previous, n) && idx != []
    ensures idx[0] < 0 ==> Ahead(idx[1..], runStart, previous, n)
    ensures idx[0] >= 0 ==> Ahead(idx[1..], idx[0], idx[0], n)
    ensures idx[0] >= 0 && runStart >= 0 ==> Ahead(idx[1..], runStart, idx[0], n)
  {
    IncreasingSlice(idx, 1, |idx|);
    assert idx[1..|idx|] == idx[1..];
    forall k | 0 <= k < |idx[1..]|
      ensures idx[1..][k] < n
      ensures idx[1..][k] >= 0 && runStart >= 0 ==> previous < idx[1..][k]
      ensures idx[1..][k] >= 0 && idx[0] >= 0 ==> idx[0] < idx[1..][k]
    {
      assert idx[1..][k] == idx[k + 1];
    }
  }

  lemma AliveTail(idx: seq<int>)
    requires idx != []
    ensures Alive(idx) == Alive(idx[1..]) + if idx[0] >= 0 then {idx[0]} else {}
  {
    assert idx == [idx[0]] + idx[1..];
    AliveConcat([idx[0]], idx[1..]);
  }

  lemma IncreasingSlice(idx: seq<int>, a: nat, b: nat)
    requires Increasing(idx) && a <= b <= |idx|
    ensures Increasing(idx[a..b])
  {
    forall j, k | 0 <= j < k < b - a && idx[a..b][j] >= 0 && idx[a..b][k] >= 0
      ensures idx[a..b][j] < idx[a..b][k]
    {
      assert idx[a + j] == idx[a..b][j] && idx[a + k] == idx[a..b][k];
    }
  }

  /** `Runs` covers exactly the surviving entries. */
  lemma {:induction false} RunsCover(idx: seq<int>, runStart: int, previous: int, n: int)
    requires Ahead(idx, runStart, previous, n)
    ensures Cover(Runs(idx, runStart, previous))
            == Alive(idx) + if runStart >= 0 then Range(runStart, previous + 1) else {}
  {
    if idx != [] {
      var o, t := idx[0], idx[1..];
      AheadTail(idx, runStart, previous, n);
      AliveTail(idx);
      if o < 0 {
        RunsCover(t, runStart, previous, n);
      } else if runStart >= 0 && o != previous + 1 {
        RunsCover(t, o, o, n);
        assert Runs(idx, runStart, previous) == [Span(runStart, previous + 1)] + Runs(t, o, o);
        CoverConcat([Span(runStart, previous + 1)], Runs(t, o, o));
        assert Cover([Span(runStart, previous + 1)]) == Range(runStart, previous + 1);
        assert Range(o, o + 1) == {o};
      } else {
        RunsCover(t, if runStart < 0 then o else runStart, o, n);
        assert runStart >= 0 ==> Range(runStart, o + 1) == Range(runStart, previous + 1) + {o};
        assert Range(o, o + 1) == {o};
      }
    }
  }

  /** Non-empty spans in `[low, n)`, sorted and separated by gaps. */
  ghost predicate Separated(spans: seq<Span>, low: int, n: int) {
    && (forall a :: 0 <= a < |spans| ==> low <= spans[a].start < spans[a].end <= n)
    && (forall a, b :: 0 <= a < b < |spans| ==> spans[a].end < spans[b].start)
  }

  lemma SeparatedCons(first: Span, rest: seq<Span>, low: int, next: int, n: int)
    requires low <= first.start < first.end < next && first.end <= n && Separated(rest, next, n)
    ensures Separated([first] + rest, low, n)
  {
    var all := [first] + rest;
    assert forall a :: 0 < a < |all| ==> all[a] == rest[a - 1];
  }

  /** The spans of `Runs` are separated by gaps, hence maximal. */
  lemma {:induction false} RunsSeparated(idx: seq<int>, runStart: int, previous: int, n: int)
    requires Ahead(idx, runStart, previous, n)
    ensures Separated(Runs(idx, runStart, previous), if runStart < 0 then 0 else runStart, n)
  {
    if idx != [] {
      var o, t := idx[0], idx[1..];
      AheadTail(idx, runStart, previous, n);
      if o < 0 {
        assert Runs(idx, runStart, previous) == Runs(t, runStart, previous);
        RunsSeparated(t, runStart, previous, n);
      } else if runStart >= 0 && o != previous + 1 {
        assert Runs(idx, runStart, previous) == [Span(runStart, previous + 1)] + Runs(t, o, o);
        RunsSeparated(t, o, o, n);
        SeparatedCons(Span(runStart, previous + 1), Runs(t, o, o), runStart, o, n);
      } else {
        var first := if runStart < 0 then o else runStart;
        assert Runs(idx, runStart, previous) == Runs(t, first, o);
        RunsSeparated(t, first, o, n);
      }
    }
  }

  /** The reported spans cover exactly the masked survivors. */
  lemma {:induction false} RecordedCover(idx: seq<int>, edits: seq<Edit>, from: nat, n: int)
    requires from <= |idx| && WellFormed(edits, from, |idx|)
    requires Increasing(idx) && forall k :: 0 <= k < |idx| ==> idx[k] < n
    ensures Cover(Recorded(idx, edits, from)) == Masked(idx, edits, from) <= Alive(idx[from..])
  {
    if edits != [] {
      var e := edits[0];
      MaskRuns(idx, e, from, n);
      RecordedCover(idx, edits[1..], e.end, n);
      CoverConcat(Runs(idx[e.MaskFrom()..e.MaskTo()], -1, -1), Recorded(idx, edits[1..], e.end));
      MaskSplit(idx, e, from);
    }
  }

  lemma MaskRuns(idx: seq<int>, e: Edit, from: nat, n: int)
    requires EditFits(e, from, |idx|)
    requires Increasing(idx) && forall k :: 0 <= k < |idx| ==> idx[k] < n
    ensures var mask := idx[e.MaskFrom()..e.MaskTo()];
            Cover(Runs(mask, -1, -1)) == Alive(mask) && Disjoint(Runs(mask, -1, -1), n)
  {
    var mask := idx[e.MaskFrom()..e.MaskTo()];
    IncreasingSlice(idx, e.MaskFrom(), e.MaskTo());
    RunsCover(mask, -1, -1, n);
    RunsSeparated(mask, -1, -1, n);
  }

  lemma {:induction false} RecordedDisjoint(idx: seq<int>, edits: seq<Edit>, from: nat, n: int)
    requires from <= |idx| && WellFormed(edits, from, |idx|)
    requires Increasing(idx) && forall k :: 0 <= k < |idx| ==> idx[k] < n
    ensures Disjoint(Recorded(idx, edits, from), n)
  {
    if edits != [] {
      var e := edits[0];
      var mask := idx[e.MaskFrom()..e.MaskTo()];
      MaskRuns(idx, e, from, n);
      RecordedDisjoint(idx, edits[1..], e.end, n);
      RecordedCover(idx, edits[1..], e.end, n);
      MaskSplit(idx, e, from);
      assert Alive(mask) !! Masked(idx, edits[1..], e.end);
      DisjointConcat(Runs(mask, -1, -1), Recorded(idx, edits[1..], e.end), n);
    }
  }

  /** The mask, the rest of the replaced range and the text around it share no survivor. */
  lemma MaskSplit(idx: seq<int>, e: Edit, from: nat)
    requires Increasing(idx) && EditFits(e, from, |idx|)
    ensures Alive(idx[e.MaskFrom()..e.MaskTo()]) <= Alive(idx[e.start..e.end])
    ensures Alive(idx[from..]) == Alive(idx[from..e.start]) + Alive(idx[e.start..e.end]) + Alive(idx[e.end..])
    ensures Alive(idx[from..e.start]) !! Alive(idx[e.start..e.end])
    ensures Alive(idx[from..e.start]) !! Alive(idx[e.end..])
    ensures Alive(idx[e.start..e.end]) !! Alive(idx[e.end..])
  {
    var m := |idx|;
    assert idx[from..m] == idx[from..] && idx[e.end..m] == idx[e.end..];
    AliveCut(idx, e.start, e.MaskFrom(), e.end);
    AliveCut(idx, e.MaskFrom(), e.MaskTo(), e.end);
    AliveCut(idx, from, e.start, m);
    AliveCut(idx, e.start, e.end, m);
  }

  lemma DisjointConcat(a: seq<Span>, b: seq<Span>, n: int)
    requires Disjoint(a, n) && Disjoint(b, n) && Cover(a) !! Cover(b)
    ensures Disjoint(a + b, n)
  {
    forall x, y | 0 <= x < |a| && 0 <= y < |b| ensures Apart(a[x], b[y]) {
      var i := if a[x].start < b[y].start then b[y].start else a[x].start;
      CoverMember(a, i);
      CoverMember(b, i);
    }
  }

  /** Rewriting removes exactly the replaced survivors. */
  lemma {:induction false} ReindexAlive(idx: seq<int>, edits: seq<Edit>, from: nat)
    requires Increasing(idx)
    requires from <= |idx| && WellFormed(edits, from, |idx|)
    ensures Removed(idx, edits, from) <= Alive(idx[from..])
    ensures Alive(Reindex(idx, edits, from)) == Alive(idx[from..]) - Removed(idx, edits, from)
  {
    if edits != [] {
      var e := edits[0];
      var left, gap, rest := idx[from..e.start], Blank(|e.replacement|), Reindex(idx, edits[1..], e.end);
      ReindexAlive(idx, edits[1..], e.end);
      MaskSplit(idx, e, from);
      AliveConcat(left + gap, rest);
      AliveConcat(left, gap);
      assert Alive(gap) == {};
    }
  }

  lemma {:induction false} ReindexAligned(original: string, value: string, idx: seq<int>, edits: seq<Edit>, from: nat)
    requires Aligned(original, value, idx)
    requires from <= |idx| && WellFormed(edits, from, |idx|)
    ensures Aligned(original, Splice(value, edits, from), Reindex(idx, edits, from))
  {
    if edits != [] {
      var e := edits[0];
      ReindexAligned(original, value, idx, edits[1..], e.end);
      AlignedConcat(original, value[from..e.start], idx[from..e.start], e.replacement, Blank(|e.replacement|));
      AlignedConcat(original, value[from..e.start] + e.replacement, idx[from..e.start] + Blank(|e.replacement|),
                    Splice(value, edits[1..], e.end), Reindex(idx, edits[1..], e.end));
    }
  }

  lemma AlignedConcat(original: string, v: string, a: seq<int>, w: string, b: seq<int>)
    requires Aligned(original, v, a) && Aligned(original, w, b)
    ensures Aligned(original, v + w, a + b)
  {
  }

  lemma {:induction false} ReindexIncreasing(idx: seq<int>, edits: seq<Edit>, from: nat)
    requires Increasing(idx)
    requires from <= |idx| && WellFormed(edits, from, |idx|)
    ensures Increasing(Reindex(idx, edits, from))
  {
    if edits != [] {
      var e := edits[0];
      var left, gap, rest := idx[from..e.start], Blank(|e.replacement|), Reindex(idx, edits[1..], e.end);
      ReindexIncreasing(idx, edits[1..], e.end);
      ReindexAlive(idx, edits[1..], e.end);
      assert Increasing(left + gap);
      forall j, k | 0 <= j < |left| && 0 <= k < |rest| && left[j] >= 0 && rest[k] >= 0
        ensures left[j] < rest[k]
      {
        assert rest[k] in Alive(rest);
        var q :| e.end <= q < |idx| && idx[q] == rest[k];
        assert idx[from + j] == left[j];
      }
      IncreasingConcat(left + gap, rest);
    }
  }

  lemma IncreasingConcat(a: seq<int>, b: seq<int>)
    requires Increasing(a) && Increasing(b)
    requires forall j, k :: 0 <= j < |a| && 0 <= k < |b| && a[j] >= 0 && b[k] >= 0 ==> a[j] < b[k]
    ensures Increasing(a + b)
  {
  }

  lemma {:induction false} MaskedWithinRemoved(idx: seq<int>, edits: seq<Edit>, from: nat)
    requires Increasing(idx)
    requires from <= |idx| && WellFormed(edits, from, |idx|)
    ensures Masked(idx, edits, from) <= Removed(idx, edits, from)
    ensures (forall k :: 0 <= k < |edits| ==> !edits[k].Narrows()) ==>
              Masked(idx, edits, from) == Removed(idx, edits, from)
  {
    if edits != [] {
      MaskSplit(idx, edits[0], from);
      MaskedWithinRemoved(idx, edits[1..], edits[0].end);
    }
  }

  /** A faithful step keeps the invariant and loses exactly the narrowed-away survivors. */
  lemma ApplyKeeps(s: State, next: string, edits: seq<Edit>)
    requires Coherent(s) && !s.failed && Faithful(s.value, next, edits)
    ensures Coherent(Applied(s, next, edits))
    ensures Lost(Applied(s, next, edits))
            == Lost(s) + (Removed(s.indices, edits, 0) - Masked(s.indices, edits, 0))
  {
    var n := |s.original|;
    assert s.indices[0..] == s.indices;
    RecordedCover(s.indices, edits, 0, n);
    RecordedDisjoint(s.indices, edits, 0, n);
    ReindexAligned(s.original, s.value, s.indices, edits, 0);
    ReindexIncreasing(s.indices, edits, 0);
    ReindexAlive(s.indices, edits, 0);
    MaskedWithinRemoved(s.indices, edits, 0);
    CoverConcat(s.spans, Recorded(s.indices, edits, 0));
    DisjointConcat(s.spans, Recorded(s.indices, edits, 0), n);
  }

  lemma StartCoherent(original: string)
    ensures Coherent(Start(original)) && Lost(Start(original)) == {}
  {
    var idx := Start(original).indices;
    assert forall i :: 0 <= i < |original| ==> idx[i] == i;
    forall i | 0 <= i < |original| ensures i in Alive(idx) {
      assert idx[i] in idx;
    }
  }

  // ----- whole runs -----

  datatype Call = Call(next: string, edits: seq<Edit>)

  /** The state after any sequence of `apply` calls. */
  function Run(original: string, calls: seq<Call>): (s: State)
    ensures s.original == original
    ensures |s.indices| == |s.value|
  {
    if calls == [] then Start(original)
    else
      var before := Run(original, calls[..|calls| - 1]);
      var last := calls[|calls| - 1];
      ApplyLength(before, last.next, last.edits);
      Applied(before, last.next, last.edits)
  }

  lemma ApplyLength(s: State, next: string, edits: seq<Edit>)
    requires |s.indices| == |s.value|
    ensures |Applied(s, next, edits).indices| == |Applied(s, next, edits).value|
  {
    if WellFormed(edits, 0, |s.value|) { ReindexLength(s.value, s.indices, edits, 0); }
  }

  lemma ReindexLength(value: string, idx: seq<int>, edits: seq<Edit>, from: nat)
    requires |value| == |idx| && from <= |idx| && WellFormed(edits, from, |idx|)
    ensures |Reindex(idx, edits, from)| == |Splice(value, edits, from)|
    decreases edits
  {
    if edits != [] { ReindexLength(value, idx, edits[1..], edits[0].end); }
  }

  /** The call at position `k` of the run was not a faithful replay of the text reached so far. */
  ghost predicate BadAt(original: string, calls: seq<Call>, k: int)
    requires 0 <= k < |calls|
  {
    !Faithful(Run(original, calls[..k]).value, calls[k].next, calls[k].edits)
  }

  /** Over every run that has not failed, the map is aligned and the spans are disjoint. */
  lemma {:induction false} RunCoherent(original: string, calls: seq<Call>)
    ensures !Run(original, calls).failed ==> Coherent(Run(original, calls))
    ensures !Run(original, calls).failed
            && (forall k, e :: 0 <= k < |calls| && e in calls[k].edits ==> !e.Narrows())
            ==> Lost(Run(original, calls)) == {}
  {
    if calls == [] {
      StartCoherent(original);
    } else {
      var front, last := calls[..|calls| - 1], calls[|calls| - 1];
      var s := Run(original, front);
      RunCoherent(original, front);
      if !Run(original, calls).failed {
        ApplyKeeps(s, last.next, last.edits);
        MaskedWithinRemoved(s.indices, last.edits, 0);
        assert forall k, e :: 0 <= k < |front| && e in front[k].edits ==> front[k] == calls[k];
        assert forall k :: 0 <= k < |last.edits| ==> last.edits[k] in calls[|calls| - 1].edits;
      }
    }
  }

  /** A run fails exactly when one of its calls is bad, and then reports one whole-input span. */
  lemma {:induction false} RunFails(original: string, calls: seq<Call>)
    ensures Run(original, calls).failed <==> exists k :: 0 <= k < |calls| && BadAt(original, calls, k)
    ensures Run(original, calls).failed ==> Run(original, calls).spans == [Span(0, |original|)]
  {
    if calls != [] {
      var m := |calls| - 1;
      var front := calls[..m];
      RunFails(original, front);
      assert forall k :: 0 <= k < m ==> front[..k] == calls[..k] && front[k] == calls[k];
      forall k | 0 <= k < m ensures BadAt(original, front, k) <==> BadAt(original, calls, k) {
        assert front[..k] == calls[..k];
      }
      if Run(original, front).failed {
        var k :| 0 <= k < m && BadAt(original, front, k);
        assert BadAt(original, calls, k);
      } else {
        assert Run(original, calls).failed <==> BadAt(original, calls, m);
      }
    }
  }

  // ----- the class -----

  /** `chunks.join("")`. */
  function Concat(chunks: seq<string>): string {
    if chunks == [] then "" else Concat(chunks[..|chunks| - 1]) + chunks[|chunks| - 1]
  }

  /** The running length check of `apply`. */
  function LengthAfter(n: int, edits: seq<Edit>): int
    decreases edits
  {
    if edits == [] then n
    else LengthAfter(n + |edits[0].replacement| - (edits[0].end - edits[0].start), edits[1..])
  }

  lemma {:induction false} LengthAfterSplice(value: string, edits: seq<Edit>, from: nat, n: int)
    requires from <= |value| && WellFormed(edits, from, |value|)
    ensures LengthAfter(n, edits) == n - (|value| - from) + |Splice(value, edits, from)|
    decreases edits
  {
    if edits != [] {
      var e := edits[0];
      LengthAfterSplice(value, edits[1..], e.end, n + |e.replacement| - (e.end - e.start));
    }
  }

  /** The copy loop stands at edit `k` with this much text, index map and spans produced. */
  ghost predicate Halfway(value: string, idx: seq<int>, edits: seq<Edit>, k: nat, source: nat,
                          text: string, map': seq<int>, spans: seq<Span>)
    requires |value| == |idx| && WellFormed(edits, 0, |idx|) && k <= |edits|
  {
    && source <= |idx| && WellFormed(edits[k..], source, |idx|)
    && text + Splice(value, edits[k..], source) == Splice(value, edits, 0)
    && map' + Reindex(idx, edits[k..], source) == Reindex(idx, edits, 0)
    && spans + Recorded(idx, edits[k..], source) == Recorded(idx, edits, 0)
  }

  lemma HalfwayStep(value: string, idx: seq<int>, edits: seq<Edit>, k: nat, source: nat,
                    text: string, map': seq<int>, spans: seq<Span>)
    requires |value| == |idx| && WellFormed(edits, 0, |idx|) && k < |edits|
    requires Halfway(value, idx, edits, k, source, text, map', spans)
    ensures var e := edits[k];
            && EditFits(e, source, |idx|)
            && |map'| + (e.start - source) + |e.replacement| <= |Reindex(idx, edits, 0)|
            && Halfway(value, idx, edits, k + 1, e.end,
                       text + value[source..e.start] + e.replacement,
                       map' + idx[source..e.start] + Blank(|e.replacement|),
                       spans + Runs(idx[e.MaskFrom()..e.MaskTo()], -1, -1))
  {
    var e, rest := edits[k], edits[k + 1..];
    assert edits[k..][0] == e && edits[k..][1..] == rest;
    Regroup(map', idx[source..e.start], Blank(|e.replacement|), Reindex(idx, rest, e.end));
    Regroup(text, value[source..e.start], e.replacement, Splice(value, rest, e.end));
    Regroup(spans, [], Runs(idx[e.MaskFrom()..e.MaskTo()], -1, -1), Recorded(idx, rest, e.end));
  }

  lemma HalfwayEnd(value: string, idx: seq<int>, edits: seq<Edit>, source: nat,
                   text: string, map': seq<int>, spans: seq<Span>)
    requires |value| == |idx| && WellFormed(edits, 0, |idx|)
    requires Halfway(value, idx, edits, |edits|, source, text, map', spans)
    ensures text + value[source..] == Splice(value, edits, 0)
    ensures map' + idx[source..|idx|] == Reindex(idx, edits, 0)
    ensures spans == Recorded(idx, edits, 0)
  {
    assert edits[|edits|..] == [] && idx[source..|idx|] == idx[source..];
  }

  lemma Regroup<T>(a: seq<T>, b: seq<T>, c: seq<T>, d: seq<T>)
    ensures a + (b + c + d) == a + b + c + d
    ensures |a| + |b| + |c| <= |a + (b + c + d)|
    ensures b == [] ==> a + (c + d) == a + c + d
  {
  }

  class OriginalSpanTrace {
    var value: string
    var spans: seq<Span>
    var failed: bool
    var indices: array<int>
    const originalLength: nat
    ghost const original: string

    ghost predicate Valid()
      reads this, indices
    {
      && indices.Length == |value|
      && originalLength == |original|
      && (!failed ==> Coherent(View()))
      && (failed ==> spans == [Span(0, |original|)])
    }

    ghost function View(): State
      reads this, indices
    {
      State(original, value, indices[..], spans, failed)
    }

    constructor (text: string)
      ensures Valid() && View() == Start(text) && fresh(indices)
    {
      value := text;
      original := text;
      originalLength := |text|;
      spans := [];
      failed := false;
      indices := new int[|text|](i => i);
      new;
      assert indices[..] == Start(text).indices;
      StartCoherent(text);
    }

    method Apply(next: string, edits: seq<Edit>)
      requires Valid()
      modifies this
      ensures Valid()
      ensures View() == Applied(old(View()), next, edits)
      ensures indices == old(indices) || fresh(indices)
    {
      if failed { return; }
      if |edits| == 0 {
        if next != value { FailClosed(); }
        assert old(indices[..])[0..] == old(indices[..]);
        return;
      }
      var well, expectedLength := CheckEdits(edits);
      if well { LengthAfterSplice(value, edits, 0, |value|); }
      if !well || expectedLength != |next| {
        FailClosed();
        return;
      }
      ghost var before := View();
      var nextIndices := new int[|next|];
      var joined := Rewrite(edits, nextIndices);
      if joined != next {
        FailClosed();
        return;
      }
      value := next;
      indices := nextIndices;
      ApplyKeeps(before, next, edits);
    }

    /** The validation loop: sortedness, bounds, masks, and the length of the result. */
    method CheckEdits(edits: seq<Edit>) returns (well: bool, expectedLength: int)
      requires Valid()
      ensures well <==> WellFormed(edits, 0, |value|)
      ensures well ==> expectedLength == LengthAfter(|value|, edits)
    {
      expectedLength := |value|;
      var previousEnd := 0;
      for k := 0 to |edits|
        invariant WellFormed(edits, 0, |value|) <==> WellFormed(edits[k..], previousEnd, |value|)
        invariant LengthAfter(|value|, edits) == LengthAfter(expectedLength, edits[k..])
      {
        var edit := edits[k];
        assert edits[k..][0] == edit && edits[k..][1..] == edits[k + 1..];
        if edit.start < previousEnd || edit.end < edit.start || edit.end > |value|
           || (edit.maskStart.Some? && (edit.maskStart.value < edit.start || edit.maskStart.value > edit.end))
           || (edit.maskEnd.Some? && (edit.maskEnd.value < edit.MaskFrom() || edit.maskEnd.value > edit.end))
        {
          return false, expectedLength;
        }
        expectedLength := expectedLength + |edit.replacement| - (edit.end - edit.start);
        previousEnd := edit.end;
      }
      well := true;
    }

    /** The copy loop: fills the new index map, joins the chunks and records the masks. */
    method Rewrite(edits: seq<Edit>, nextIndices: array<int>) returns (joined: string)
      requires indices.Length == |value|
      requires nextIndices != indices
      requires WellFormed(edits, 0, |value|) && nextIndices.Length == |Splice(value, edits, 0)|
      modifies nextIndices, this`spans
      ensures joined == Splice(value, edits, 0)
      ensures nextIndices[..] == Reindex(indices[..], edits, 0)
      ensures spans == old(spans) + Recorded(indices[..], edits, 0)
    {
      ghost var idx := indices[..];
      ghost var recorded: seq<Span> := [];
      ReindexLength(value, idx, edits, 0);
      var source, target := 0, 0;
      var chunks: seq<string> := [];
      assert edits[0..] == edits;
      for k := 0 to |edits|
        invariant indices[..] == idx && spans == old(spans) + recorded
        invariant 0 <= source <= |value| && 0 <= target <= nextIndices.Length
        invariant Halfway(value, idx, edits, k, source, Concat(chunks), nextIndices[..target], recorded)
      {
        var edit := edits[k];
        HalfwayStep(value, idx, edits, k, source, Concat(chunks), nextIndices[..target], recorded);
        ConcatTwo(chunks, value[source..edit.start], edit.replacement);
        chunks := chunks + [value[source..edit.start], edit.replacement];
        target := CopyEdit(nextIndices, target, source, edit);
        ghost var runs := Runs(idx[edit.MaskFrom()..edit.MaskTo()], -1, -1);
        Regroup(old(spans), [], recorded, runs);
        recorded := recorded + runs;
        source := edit.end;
      }
      HalfwayEnd(value, idx, edits, source, Concat(chunks), nextIndices[..target], recorded);
      chunks := chunks + [value[source..]];
      CopyInto(nextIndices, target, source, |value|);
      assert nextIndices[..] == nextIndices[..target + (|value| - source)];
      joined := Concat(chunks);
    }

    /** One round of the copy loop: the kept piece, blanks for the replacement, the mask. */
    method CopyEdit(nextIndices: array<int>, target: nat, source: nat, edit: Edit) returns (next: nat)
      requires nextIndices != indices && EditFits(edit, source, indices.Length)
      requires target + (edit.start - source) + |edit.replacement| <= nextIndices.Length
      modifies nextIndices, this`spans
      ensures next == target + (edit.start - source) + |edit.replacement|
      ensures nextIndices[..next]
              == old(nextIndices[..target]) + indices[source..edit.start] + Blank(|edit.replacement|)
      ensures spans == old(spans) + Runs(indices[edit.MaskFrom()..edit.MaskTo()], -1, -1)
    {
      CopyInto(nextIndices, target, source, edit.start);
      next := target + (edit.start - source);
      FillBlank(nextIndices, next, |edit.replacement|);
      next := next + |edit.replacement|;
      Record(edit.MaskFrom(), edit.MaskTo());
    }

    /** `nextIndices.set(this.indices.subarray(source, end), target)`. */
    method CopyInto(nextIndices: array<int>, target: nat, source: nat, end: nat)
      requires nextIndices != indices
      requires source <= end <= indices.Length && target + (end - source) <= nextIndices.Length
      modifies nextIndices
      ensures nextIndices[..target + (end - source)] == old(nextIndices[..target]) + indices[source..end]
    {
      forall i | 0 <= i < end - source { nextIndices[target + i] := indices[source + i]; }
      ghost var stop, done := target + (end - source), old(nextIndices[..target]);
      forall i | 0 <= i < stop ensures nextIndices[i] == (done + indices[source..end])[i] {
        if i >= target { assert nextIndices[target + (i - target)] == indices[source + (i - target)]; }
      }
    }

    /** `nextIndices.fill(-1, target, target + fill)`. */
    method FillBlank(nextIndices: array<int>, target: nat, fill: nat)
      requires nextIndices != indices
      requires target + fill <= nextIndices.Length
      modifies nextIndices
      ensures nextIndices[..target + fill] == old(nextIndices[..target]) + Blank(fill)
    {
      forall i | target <= i < target + fill { nextIndices[i] := -1; }
    }

    /** Appends the maximal runs of source indices found in `[start, end)` of the current map. */
    method Record(start: nat, end: nat)
      requires start <= end <= indices.Length
      modifies this`spans
      ensures spans == old(spans) + Runs(indices[start..end], -1, -1)
    {
      var runStart, previous := -1, -1;
      for index := start to end
        invariant spans + Runs(indices[index..end], runStart, previous)
                  == old(spans) + Runs(indices[start..end], -1, -1)
      {
        var entry := indices[index];
        assert indices[index..end][0] == entry && indices[index..end][1..] == indices[index + 1..end];
        if entry < 0 { continue; }
        if runStart >= 0 && entry != previous + 1 {
          spans := spans + [Span(runStart, previous + 1)];
          runStart := -1;
        }
        if runStart < 0 { runStart := entry; }
        previous := entry;
      }
      if runStart >= 0 { spans := spans + [Span(runStart, previous + 1)]; }
    }

    method FailClosed()
      requires originalLength == |original| && indices.Length == |value|
      modifies this`failed, this`spans
      ensures Valid() && failed
    {
      failed := true;
      spans := [Span(0, originalLength)];
    }
  }

  lemma ConcatTwo(chunks: seq<string>, a: string, b: string)
    ensures Concat(chunks + [a, b]) == Concat(chunks) + a + b
  {
    assert (chunks + [a, b])[..|chunks| + 1] == chunks + [a];
    assert (chunks + [a])[..|chunks|] == chunks;
  }
}
