/**
 One field of the portable cron contract (contract/cron.ts): parsing, the values it
 admits, and its normalized text.
 */
module CronFields {
  import opened Text

  const MAX_SAFE_INTEGER := 9_007_199_254_740_991

  /** minute, hour, day-of-month, month, day-of-week. */
  type FieldIndex = i: nat | i < 5

  function Low(i: FieldIndex): nat { if i == 2 || i == 3 then 1 else 0 }

  function High(i: FieldIndex): nat {
    if i == 0 then 59 else if i == 1 then 23 else if i == 2 then 31 else if i == 3 then 12 else 7
  }

  datatype Base = Wildcard | Single(start: nat) | Range(from: nat, to: nat)

  datatype Item = Item(base: Base, step: Option<nat>)
  {
    /** A bare `*`. */
    predicate Bare() { base.Wildcard? && step.None? }

    function StepSize(): nat { if step.Some? then step.value else 1 }

    function From(i: FieldIndex): nat {
      match base
      case Wildcard => Low(i)
      case Single(start) => start
      case Range(from, _) => from
    }

    function To(i: FieldIndex): nat {
      match base
      case Wildcard => High(i)
      case Single(start) => if step.Some? then High(i) else start
      case Range(_, to) => to
    }

    predicate Valid(i: FieldIndex) {
      Low(i) <= From(i) <= To(i) <= High(i) && (step.Some? ==> 1 <= step.value <= MAX_SAFE_INTEGER)
    }
  }

  // ----- values -----

  /** Day-of-week 7 is Sunday, written 0. */
  function Norm(i: FieldIndex, v: nat): nat { if i == 4 && v == 7 then 0 else v }

  /** `from, from + step, ...` up to `to`. */
  function Listed(from: nat, to: nat, step: nat): seq<nat>
    requires step >= 1
    decreases 1 + to - from
  {
    if from > to then [] else [from] + Listed(from + step, to, step)
  }

  /** The listed values are the members of the range at a multiple of the step. */
  lemma {:induction false} ListedMeans(from: nat, to: nat, step: nat, v: nat)
    requires step >= 1
    ensures v in Listed(from, to, step) <==> from <= v <= to && (v - from) % step == 0
    decreases 1 + to - from
  {
    if from <= to {
      ListedMeans(from + step, to, step, v);
      if v < from + step && from <= v { ModSmall(v - from, step); }
      if from + step <= v { ModShift(v - from, step); }
    }
  }

  lemma ModSmall(x: nat, step: nat)
    requires x < step
    ensures x % step == x
  {
  }

  lemma ModShift(x: nat, step: nat)
    requires step >= 1 && x >= step
    ensures x % step == (x - step) % step
  {
    var q, r := (x - step) / step, (x - step) % step;
    assert x == step * (q + 1) + r;
    DivisionUnique(x, step, q + 1, r);
  }

  lemma DivisionUnique(x: nat, step: nat, q: nat, r: nat)
    requires step >= 1 && r < step && x == step * q + r
    ensures x % step == r
  {
    MultipleIsFar(step, q - x / step);
    assert step * (q - x / step) == x % step - r;
  }

  lemma MultipleIsFar(step: nat, d: int)
    requires step >= 1
    ensures d >= 1 ==> step * d >= step
    ensures d <= -1 ==> step * d + step <= 0
  {
  }

  function Normed(i: FieldIndex, vs: seq<nat>): (r: seq<nat>)
    ensures |r| == |vs| && forall k :: 0 <= k < |r| ==> r[k] == Norm(i, vs[k])
  {
    seq(|vs|, k requires 0 <= k < |vs| => Norm(i, vs[k]))
  }

  /** The values of one item, in the order in which they are met. */
  function ItemList(item: Item, i: FieldIndex): seq<nat>
    requires item.Valid(i)
  {
    Normed(i, Listed(item.From(i), item.To(i), item.StepSize()))
  }

  function ItemValues(item: Item, i: FieldIndex): set<nat>
    requires item.Valid(i)
  {
    set v | v in ItemList(item, i)
  }

  // ----- text -----

  /** Keeps the first occurrence of every element. */
  function Dedupe<T(==,!new)>(s: seq<T>): (r: seq<T>)
    ensures forall x :: x in r <==> x in s
    ensures forall j, k :: 0 <= j < k < |r| ==> r[j] != r[k]
  {
    if s == [] then []
    else
      var front, x := Dedupe(s[..|s| - 1]), s[|s| - 1];
      assert s == s[..|s| - 1] + [x];
      if x in front then front else front + [x]
  }

  lemma {:induction false} DedupeDistinct<T(!new)>(s: seq<T>)
    requires forall j, k :: 0 <= j < k < |s| ==> s[j] != s[k]
    ensures Dedupe(s) == s
  {
    if s != [] {
      DedupeDistinct(s[..|s| - 1]);
      assert s == s[..|s| - 1] + [s[|s| - 1]];
    }
  }

  function BaseText(base: Base): string {
    match base
    case Wildcard => "*"
    case Single(start) => Decimal(start)
    case Range(from, to) => Join([Decimal(from), Decimal(to)], '-')
  }

  /** A step of 1 is dropped after a range and kept otherwise. */
  function PrintedStep(item: Item): Option<nat> {
    if item.base.Range? && item.step == Some(1) then None else item.step
  }

  function ItemText(item: Item): string {
    match PrintedStep(item)
    case None => BaseText(item.base)
    case Some(step) => Join([BaseText(item.base), Decimal(step)], '/')
  }

  /** A day-of-week item that reaches 7 is expanded into its values. */
  predicate Expands(item: Item, i: FieldIndex) { i == 4 && (item.From(i) == 7 || item.To(i) == 7) }

  function Decimals(vs: seq<nat>): (r: seq<string>)
    ensures |r| == |vs| && forall k :: 0 <= k < |r| ==> r[k] == Decimal(vs[k])
  {
    seq(|vs|, k requires 0 <= k < |vs| => Decimal(vs[k]))
  }

  /** The normalized pieces of one item. */
  function ItemTexts(item: Item, i: FieldIndex): seq<string>
    requires item.Valid(i)
  {
    if Expands(item, i) then Decimals(Dedupe(ItemList(item, i))) else [ItemText(item)]
  }

  // ----- parsing -----

  /** Number(text) within the bounds; a value beyond the safe integers is refused. */
  function ParseBounded(text: string, low: nat, high: nat): (n: Option<nat>)
    ensures n.Some? ==> low <= n.value <= high && n.value <= MAX_SAFE_INTEGER
  {
    if IsDigits(text) && low <= DecimalValue(text) <= high && DecimalValue(text) <= MAX_SAFE_INTEGER
    then Some(DecimalValue(text)) else None
  }

  function ParseBase(text: string, i: FieldIndex): (base: Option<Base>)
    ensures base.Some? && base.value.Range? ==> Low(i) <= base.value.from <= base.value.to <= High(i)
    ensures base.Some? && base.value.Single? ==> Low(i) <= base.value.start <= High(i)
  {
    if text == "*" then Some(Wildcard)
    else if IsDigits(text) then
      var start := ParseBounded(text, Low(i), High(i));
      if start.None? then None else Some(Single(start.value))
    else
      var ends := Split(text, '-');
      if |ends| != 2 then None
      else
        var from, to := ParseBounded(ends[0], Low(i), High(i)), ParseBounded(ends[1], Low(i), High(i));
        if from.None? || to.None? || from.value > to.value then None else Some(Range(from.value, to.value))
  }

  function ParseItem(part: string, i: FieldIndex): (item: Option<Item>)
    ensures item.Some? ==> item.value.Valid(i)
  {
    var slash := Split(part, '/');
    if |slash| > 2 then None
    else
      var base := ParseBase(slash[0], i);
      if base.None? then None
      else if |slash| == 1 then Some(Item(base.value, None))
      else
        var step := ParseBounded(slash[1], 1, MAX_SAFE_INTEGER);
        if step.None? then None else Some(Item(base.value, step))
  }

  datatype Field = Field(values: set<nat>, normalized: string, unrestricted: bool)

  function ParseItems(parts: seq<string>, i: FieldIndex): (items: Option<seq<Item>>)
    ensures items.Some? ==> |items.value| == |parts|
    ensures items.Some? ==> forall k :: 0 <= k < |parts| ==> ParseItem(parts[k], i) == Some(items.value[k])
    ensures items.None? ==> exists k :: 0 <= k < |parts| && ParseItem(parts[k], i).None?
  {
    if parts == [] then Some([])
    else
      var front, last := ParseItems(parts[..|parts| - 1], i), ParseItem(parts[|parts| - 1], i);
      if front.None? then
        var k :| 0 <= k < |parts| - 1 && ParseItem(parts[..|parts| - 1][k], i).None?;
        assert ParseItem(parts[k], i).None?;
        None
      else if last.None? then None
      else Some(front.value + [last.value])
  }

  function FieldValues(items: seq<Item>, i: FieldIndex): set<nat>
    requires forall k :: 0 <= k < |items| ==> items[k].Valid(i)
  {
    if items == [] then {} else FieldValues(items[..|items| - 1], i) + ItemValues(items[|items| - 1], i)
  }

  function FieldTexts(items: seq<Item>, i: FieldIndex): seq<string>
    requires forall k :: 0 <= k < |items| ==> items[k].Valid(i)
  {
    if items == [] then [] else FieldTexts(items[..|items| - 1], i) + ItemTexts(items[|items| - 1], i)
  }

  /** The specification of `parseCronField`; None is the TypeError. */
  function ParseField(source: string, i: FieldIndex): Option<Field> {
    var items := ParseItems(Split(source, ','), i);
    if items.None? then None
    else Some(Field(FieldValues(items.value, i),
                    Join(Dedupe(FieldTexts(items.value, i)), ','),
                    exists k :: 0 <= k < |items.value| && items.value[k].Bare()))
  }

  // ----- the parsing loops -----

  /** The value loop; leaving it early before an unsafe addition loses nothing. */
  method CollectValues(from: nat, to: nat, step: nat, maximum: nat) returns (list: seq<nat>)
    requires step >= 1 && to <= maximum
    ensures list == Listed(from, to, step)
  {
    list := [];
    var value := from;
    while value <= to
      invariant list + Listed(value, to, step) == Listed(from, to, step)
      decreases 1 + to - value
    {
      list := list + [value];
      if value > maximum - step { break; }
      value := value + step;
    }
  }

  /** The push loop over the pieces of one item. */
  method PushDistinct(done: seq<string>, pieces: seq<string>, ghost before: seq<string>) returns (parts: seq<string>)
    requires done == Dedupe(before)
    ensures parts == Dedupe(before + pieces)
  {
    parts := done;
    assert before + pieces[..0] == before;
    for k := 0 to |pieces|
      invariant parts == Dedupe(before + pieces[..k])
    {
      ghost var longer := before + pieces[..k + 1];
      assert longer[..|longer| - 1] == before + pieces[..k] && longer[|longer| - 1] == pieces[k];
      if pieces[k] !in parts { parts := parts + [pieces[k]]; }
    }
    assert pieces[..|pieces|] == pieces;
  }

  method ParseCronField(source: string, i: FieldIndex) returns (field: Option<Field>)
    ensures field == ParseField(source, i)
  {
    hide *;
    var parts := Split(source, ',');
    var values: set<nat>, normalizedParts: seq<string>, unrestricted := {}, [], false;
    ghost var items: seq<Item> := [];
    StartItems(i);
    assert parts[..0] == [];
    for k := 0 to |parts|
      invariant ParseItems(parts[..k], i) == Some(items) && |items| == k
      invariant forall j :: 0 <= j < |items| ==> items[j].Valid(i)
      invariant values == FieldValues(items, i) && normalizedParts == Dedupe(FieldTexts(items, i))
      invariant unrestricted <==> HasBare(items)
    {
      AddPart(parts, k, i);
      var parsed := ParseItem(parts[k], i);
      if parsed.None? {
        FieldFails(source, i);
        return None;
      }
      var item := parsed.value;
      ItemIsSane(item, i);
      var list := CollectValues(item.From(i), item.To(i), item.StepSize(), High(i));
      values := values + (set v | v in Normed(i, list));
      normalizedParts := PushDistinct(normalizedParts, ItemTexts(item, i), FieldTexts(items, i));
      unrestricted := unrestricted || item.Bare();
      AddItem(items, item, i);
      BareConcat(items, item);
      items := items + [item];
    }
    assert parts[..|parts|] == parts;
    FieldSucceeds(source, i, items);
    field := Some(Field(values, Join(normalizedParts, ','), unrestricted));
  }

  lemma StartItems(i: FieldIndex)
    ensures ParseItems([], i) == Some([]) && FieldValues([], i) == {} && Dedupe(FieldTexts([], i)) == [] && !HasBare([])
  {
  }

  lemma AddPart(parts: seq<string>, k: nat, i: FieldIndex)
    requires k < |parts| && ParseItems(parts[..k], i).Some?
    ensures match ParseItem(parts[k], i)
            case None => ParseItems(parts, i).None?
            case Some(item) => ParseItems(parts[..k + 1], i) == Some(ParseItems(parts[..k], i).value + [item])
  {
    assert parts[..k + 1][..k] == parts[..k];
  }

  lemma ItemIsSane(item: Item, i: FieldIndex)
    requires item.Valid(i)
    ensures item.StepSize() >= 1 && item.To(i) <= High(i)
    ensures ItemList(item, i) == Normed(i, Listed(item.From(i), item.To(i), item.StepSize()))
    ensures ItemValues(item, i) == set v | v in ItemList(item, i)
  {
  }

  lemma AddItem(items: seq<Item>, item: Item, i: FieldIndex)
    requires item.Valid(i) && forall j :: 0 <= j < |items| ==> items[j].Valid(i)
    ensures FieldValues(items + [item], i) == FieldValues(items, i) + ItemValues(item, i)
    ensures FieldTexts(items + [item], i) == FieldTexts(items, i) + ItemTexts(item, i)
  {
    assert (items + [item])[..|items|] == items;
  }

  lemma FieldFails(source: string, i: FieldIndex)
    requires ParseItems(Split(source, ','), i).None?
    ensures ParseField(source, i).None?
  {
  }

  lemma FieldSucceeds(source: string, i: FieldIndex, items: seq<Item>)
    requires ParseItems(Split(source, ','), i) == Some(items) && forall j :: 0 <= j < |items| ==> items[j].Valid(i)
    ensures ParseField(source, i)
            == Some(Field(FieldValues(items, i), Join(Dedupe(FieldTexts(items, i)), ','), HasBare(items)))
  {
  }

  // ----- normalisation keeps the meaning -----

  lemma {:induction false} ListedBounds(from: nat, to: nat, step: nat)
    requires step >= 1
    ensures forall k :: 0 <= k < |Listed(from, to, step)| ==> from <= Listed(from, to, step)[k] <= to
    ensures from <= to ==> Listed(from, to, step) != [] && Listed(from, to, step)[0] == from
    decreases 1 + to - from
  {
    if from <= to { ListedBounds(from + step, to, step); }
  }

  lemma ListedOne(v: nat)
    ensures Listed(v, v, 1) == [v]
  {
    assert Listed(v + 1, v, 1) == [];
  }

  lemma DecimalHas(n: nat, c: char)
    requires !IsDigit(c)
    ensures c !in Decimal(n)
  {
  }

  lemma ParseBoundedDecimal(n: nat, low: nat, high: nat)
    requires low <= n <= high && n <= MAX_SAFE_INTEGER
    ensures ParseBounded(Decimal(n), low, high) == Some(n)
  {
    DecimalRoundTrip(n);
  }

  /** Parsing a printed base gives the base back. */
  lemma ParseBaseText(base: Base, i: FieldIndex)
    requires Item(base, None).Valid(i)
    ensures ParseBase(BaseText(base), i) == Some(base)
    ensures '/' !in BaseText(base) && ',' !in BaseText(base)
  {
    match base
    case Wildcard =>
    case Single(start) =>
      ParseBoundedDecimal(start, Low(i), High(i));
      DecimalHas(start, '/');
      DecimalHas(start, ',');
      assert Decimal(start)[0] != '*';
    case Range(from, to) =>
      var ends := [Decimal(from), Decimal(to)];
      var text := Join(ends, '-');
      ParseBoundedDecimal(from, Low(i), High(i));
      ParseBoundedDecimal(to, Low(i), High(i));
      DecimalHas(from, '-'); DecimalHas(from, '/'); DecimalHas(from, ',');
      DecimalHas(to, '-'); DecimalHas(to, '/'); DecimalHas(to, ',');
      SplitOfJoin(ends, '-');
      assert ends[1..] == [Decimal(to)];
      assert text == Decimal(from) + ['-'] + Decimal(to);
      assert text[|Decimal(from)|] == '-';
      assert text[0] == Decimal(from)[0] != '*';
  }

  /** What a printed item parses to: the same item with a dropped step of 1 after a range. */
  function Reprinted(item: Item): Item { Item(item.base, PrintedStep(item)) }

  lemma ParseItemText(item: Item, i: FieldIndex)
    requires item.Valid(i)
    ensures ParseItem(ItemText(item), i) == Some(Reprinted(item))
    ensures ',' !in ItemText(item)
  {
    ParseBaseText(item.base, i);
    var base := BaseText(item.base);
    match PrintedStep(item)
    case None =>
      SplitOfJoin([base], '/');
    case Some(step) =>
      DecimalHas(step, '/');
      DecimalHas(step, ',');
      SplitOfJoin([base, Decimal(step)], '/');
      assert [base, Decimal(step)][1..] == [Decimal(step)];
      assert ItemText(item) == base + ['/'] + Decimal(step);
      ParseBoundedDecimal(step, 1, MAX_SAFE_INTEGER);
  }

  /** A piece is a fixed point of printing; in day-of-week it is never a bare `*`. */
  ghost predicate Settled(piece: string, i: FieldIndex) {
    && ',' !in piece
    && ParseItem(piece, i).Some?
    && ItemTexts(ParseItem(piece, i).value, i) == [piece]
    && (i == 4 ==> !ParseItem(piece, i).value.Bare())
  }

  ghost function PieceValues(piece: string, i: FieldIndex): set<nat> {
    match ParseItem(piece, i)
    case None => {}
    case Some(item) => ItemValues(item, i)
  }

  ghost function PiecesValues(pieces: seq<string>, i: FieldIndex): set<nat> {
    set p, v | p in pieces && v in PieceValues(p, i) :: v
  }

  lemma SettledDecimal(v: nat)
    requires v <= 6
    ensures Settled(Decimal(v), 4) && PieceValues(Decimal(v), 4) == {v}
    ensures Decimal(v) != "*"
  {
    var item := Item(Single(v), None);
    ParseItemText(item, 4);
    ListedOne(v);
    assert ItemList(item, 4) == [v];
  }

  lemma SettledText(item: Item, i: FieldIndex)
    requires item.Valid(i) && !Expands(item, i)
    ensures Settled(ItemText(item), i) && PieceValues(ItemText(item), i) == ItemValues(item, i)
    ensures ItemText(item) == "*" <==> item.Bare()
  {
    ParseItemText(item, i);
    assert Reprinted(item).From(i) == item.From(i) && Reprinted(item).To(i) == item.To(i);
    assert ItemText(Reprinted(item)) == ItemText(item);
    if !item.Bare() {
      if PrintedStep(item).Some? {
        JoinCons(BaseText(item.base), [Decimal(PrintedStep(item).value)], '/');
        assert [BaseText(item.base)] + [Decimal(PrintedStep(item).value)]
            == [BaseText(item.base), Decimal(PrintedStep(item).value)];
        assert |BaseText(item.base)| > 0;
      } else if item.base.Range? {
        assert [Decimal(item.base.from), Decimal(item.base.to)][1..] == [Decimal(item.base.to)];
      }
    }
  }

  /** Every item is printed as settled pieces that together admit the item's values. */
  lemma ItemSettles(item: Item, i: FieldIndex)
    requires item.Valid(i)
    ensures ItemTexts(item, i) != []
    ensures forall k :: 0 <= k < |ItemTexts(item, i)| ==> Settled(ItemTexts(item, i)[k], i)
    ensures PiecesValues(ItemTexts(item, i), i) == ItemValues(item, i)
    ensures "*" in ItemTexts(item, i) <==> item.Bare() && i != 4
  {
    var texts := ItemTexts(item, i);
    if Expands(item, i) {
      var list := ItemList(item, i);
      var distinct := Dedupe(list);
      ListedBounds(item.From(i), item.To(i), item.StepSize());
      assert list[0] in distinct;
      forall k | 0 <= k < |texts|
        ensures Settled(texts[k], i) && PieceValues(texts[k], i) == {distinct[k]} && texts[k] != "*"
      {
        assert distinct[k] in list;
        SettledDecimal(distinct[k]);
      }
      forall v | v in ItemValues(item, i) ensures v in PiecesValues(texts, i) {
        var k :| 0 <= k < |distinct| && distinct[k] == v;
        assert texts[k] in texts && v in PieceValues(texts[k], i);
      }
      forall v | v in PiecesValues(texts, i) ensures v in ItemValues(item, i) {
        var k :| 0 <= k < |texts| && v in PieceValues(texts[k], i);
        assert distinct[k] in distinct;
      }
    } else {
      SettledText(item, i);
      assert texts == [ItemText(item)];
    }
  }

  /** The pieces of a whole field. */
  lemma {:induction false} FieldSettles(items: seq<Item>, i: FieldIndex)
    requires forall k :: 0 <= k < |items| ==> items[k].Valid(i)
    ensures items != [] ==> FieldTexts(items, i) != []
    ensures forall k :: 0 <= k < |FieldTexts(items, i)| ==> Settled(FieldTexts(items, i)[k], i)
    ensures PiecesValues(FieldTexts(items, i), i) == FieldValues(items, i)
    ensures "*" in FieldTexts(items, i) <==> i != 4 && HasBare(items)
  {
    hide Settled, ItemTexts, PiecesValues, ItemValues, Item.Bare, Item.Valid;
    if items == [] {
      NoPieces(i);
    } else {
      var front, last := items[..|items| - 1], items[|items| - 1];
      FieldSettles(front, i);
      ItemSettles(last, i);
      PiecesConcat(FieldTexts(front, i), ItemTexts(last, i), i);
      assert items == front + [last];
      BareConcat(front, last);
    }
  }

  ghost predicate HasBare(items: seq<Item>) { exists k :: 0 <= k < |items| && items[k].Bare() }

  lemma BareConcat(front: seq<Item>, last: Item)
    ensures HasBare(front + [last]) <==> HasBare(front) || last.Bare()
  {
    var all := front + [last];
    if HasBare(front) {
      var k :| 0 <= k < |front| && front[k].Bare();
      assert all[k].Bare();
    }
    if last.Bare() { assert all[|front|].Bare(); }
  }

  lemma NoPieces(i: FieldIndex)
    ensures PiecesValues([], i) == {}
  {
  }

  lemma PiecesConcat(a: seq<string>, b: seq<string>, i: FieldIndex)
    ensures PiecesValues(a + b, i) == PiecesValues(a, i) + PiecesValues(b, i)
  {
    hide PieceValues;
  }

  lemma PieceAlone(piece: string, i: FieldIndex)
    requires Settled(piece, i)
    ensures ParseItem(piece, i).Some? && ItemTexts(ParseItem(piece, i).value, i) == [piece]
    ensures PiecesValues([piece], i) == ItemValues(ParseItem(piece, i).value, i)
  {
    hide ParseItem, ItemTexts, ItemValues;
    assert piece in [piece] && PieceValues(piece, i) == ItemValues(ParseItem(piece, i).value, i);
  }

  /** Settled pieces, read back as items, print as themselves. */
  lemma {:induction false} PiecesReparse(pieces: seq<string>, i: FieldIndex)
    requires forall k :: 0 <= k < |pieces| ==> Settled(pieces[k], i)
    ensures ParseItems(pieces, i).Some?
    ensures FieldTexts(ParseItems(pieces, i).value, i) == pieces
    ensures FieldValues(ParseItems(pieces, i).value, i) == PiecesValues(pieces, i)
    ensures i == 4 ==> !HasBare(ParseItems(pieces, i).value)
  {
    hide Settled, ItemTexts, PiecesValues, ItemValues, ParseItem, Item.Bare, Item.Valid, HasBare;
    if pieces == [] {
      NoPieces(i);
      NoneBare();
    } else {
      var front, last := pieces[..|pieces| - 1], pieces[|pieces| - 1];
      PiecesReparse(front, i);
      PieceAlone(last, i);
      PiecesConcat(front, [last], i);
      assert pieces == front + [last];
      var items := ParseItems(pieces, i).value;
      assert items == ParseItems(front, i).value + [ParseItem(last, i).value];
      assert items[..|items| - 1] == ParseItems(front, i).value;
      BareConcat(ParseItems(front, i).value, ParseItem(last, i).value);
      SettledNotBare(last, i);
    }
  }

  lemma NoneBare()
    ensures !HasBare([])
  {
  }

  lemma SettledNotBare(piece: string, i: FieldIndex)
    requires Settled(piece, i)
    ensures ParseItem(piece, i).Some? && (i == 4 ==> !ParseItem(piece, i).value.Bare())
  {
  }

  /** Re-parsing a normalized field keeps its values and its text; only day-of-week loses the bare `*`. */
  lemma FieldReparse(source: string, i: FieldIndex)
    requires ParseField(source, i).Some?
    ensures var f := ParseField(source, i).value;
            ParseField(f.normalized, i) == Some(f.(unrestricted := f.unrestricted && i != 4))
  {
    hide Settled, ItemTexts, PiecesValues, ItemValues, ParseItem, ParseItems, FieldTexts, FieldValues, Dedupe, Join,
         Split, Item.Bare, Item.Valid;
    var items := ParseItems(Split(source, ','), i).value;
    var texts := FieldTexts(items, i);
    var pieces := Dedupe(texts);
    ItemsValid(Split(source, ','), i);
    FieldSettles(items, i);
    assert texts[0] in pieces;
    forall k | 0 <= k < |pieces| ensures Settled(pieces[k], i) && ',' !in pieces[k] {
      assert pieces[k] in texts;
      SettledHasNoComma(pieces[k], i);
    }
    PiecesReparse(pieces, i);
    SplitOfJoin(pieces, ',');
    DedupeDistinct(pieces);
    DedupeValues(texts, i);
    ItemsValid(pieces, i);
    FieldSettles(ParseItems(pieces, i).value, i);
    assert "*" in pieces <==> "*" in texts;
  }

  lemma ItemsValid(parts: seq<string>, i: FieldIndex)
    requires ParseItems(parts, i).Some?
    ensures forall k :: 0 <= k < |parts| ==> ParseItems(parts, i).value[k].Valid(i)
  {
  }

  lemma SettledHasNoComma(piece: string, i: FieldIndex)
    requires Settled(piece, i)
    ensures ',' !in piece
  {
  }

  lemma DedupeValues(texts: seq<string>, i: FieldIndex)
    ensures PiecesValues(Dedupe(texts), i) == PiecesValues(texts, i)
  {
    hide PieceValues, Dedupe;
  }

  /** Parsed values lie in the field's range, are not empty, and are everything for a bare `*`. */
  lemma ParsedFieldSane(source: string, i: FieldIndex)
    requires ParseField(source, i).Some?
    ensures Sane(ParseField(source, i).value, i)
  {
    var items := ParseItems(Split(source, ','), i).value;
    ItemsSane(items, i);
  }

  function Top(i: FieldIndex): nat { if i == 4 then 6 else High(i) }

  ghost predicate Sane(f: Field, i: FieldIndex) {
    && f.values != {}
    && (forall v :: v in f.values ==> Low(i) <= v <= Top(i))
    && (f.unrestricted ==> forall v :: Low(i) <= v <= Top(i) ==> v in f.values)
  }

  lemma ItemSane(item: Item, i: FieldIndex)
    requires item.Valid(i)
    ensures ItemValues(item, i) != {}
    ensures forall v :: v in ItemValues(item, i) ==> Low(i) <= v <= Top(i)
    ensures item.Bare() ==> forall v :: Low(i) <= v <= Top(i) ==> v in ItemValues(item, i)
  {
    var raw, list := Listed(item.From(i), item.To(i), item.StepSize()), ItemList(item, i);
    ListedBounds(item.From(i), item.To(i), item.StepSize());
    assert list[0] in ItemValues(item, i);
    if item.Bare() {
      forall v: nat | Low(i) <= v <= Top(i) ensures v in ItemValues(item, i) {
        ListedMeans(item.From(i), item.To(i), 1, v);
        var k :| 0 <= k < |raw| && raw[k] == v;
        assert list[k] == v;
      }
    }
  }

  lemma {:induction false} ItemsSane(items: seq<Item>, i: FieldIndex)
    requires forall k :: 0 <= k < |items| ==> items[k].Valid(i)
    ensures items != [] ==> FieldValues(items, i) != {}
    ensures forall v :: v in FieldValues(items, i) ==> Low(i) <= v <= Top(i)
    ensures (exists k :: 0 <= k < |items| && items[k].Bare())
            ==> forall v :: Low(i) <= v <= Top(i) ==> v in FieldValues(items, i)
  {
    if items != [] {
      ItemsSane(items[..|items| - 1], i);
      ItemSane(items[|items| - 1], i);
    }
  }
}
