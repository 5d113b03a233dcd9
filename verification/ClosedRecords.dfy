/**
 Closed-shape records (contract/background-events.ts, contract/runs.ts): a record is accepted when
 its sorted keys, joined by commas, equal the expected ones.
 */
module ClosedRecords {
  import opened Text
  import opened Order
  import opened CanonicalJson

  /** Property lookup; a missing property reads as undefined. */
  function Get(props: seq<Entry<Value>>, key: string): Value {
    if props == [] then Undefined else if props[0].key == key then props[0].value else Get(props[1..], key)
  }

  /** `exactRecord` and `exactEvidenceRecord`. */
  function Exact(v: Value, keys: seq<string>): Option<seq<Entry<Value>>> {
    if v.Obj? && Join(SortUnique(Keys(v.props)), ',') == Join(SortUnique(keys), ',') then Some(v.props) else None
  }

  /** The record has exactly the expected keys. */
  ghost predicate HasExactly(props: seq<Entry<Value>>, keys: seq<string>) {
    forall y :: y in Keys(props) <==> y in keys
  }

  // ----- joined keys leave no room for extra ones -----

  /** The length of the joined text, counting one more comma. */
  function Weight(list: seq<string>): nat {
    if list == [] then 0 else |list[0]| + 1 + Weight(list[1..])
  }

  lemma {:induction false} JoinWeight(list: seq<string>)
    requires list != []
    ensures |Join(list, ',')| + 1 == Weight(list)
  {
    if |list| > 1 { JoinWeight(list[1..]); }
  }

  /** Among sorted lists, a list with all members of another is heavier unless they are equal. */
  lemma {:induction false} MembersWeigh(some: seq<string>, all: seq<string>)
    requires Sorted(some) && Sorted(all) && forall y :: y in some ==> y in all
    ensures Weight(some) <= Weight(all)
    ensures Weight(some) == Weight(all) ==> some == all
    decreases |all|
  {
    assert some != [] ==> some[0] in some;
    if all != [] {
      assert Sorted(all[1..]);
      if some != [] && some[0] == all[0] {
        assert Sorted(some[1..]);
        forall y | y in some[1..] ensures y in all[1..] {
          TailMembers(some, y);
          TailMembers(all, y);
        }
        MembersWeigh(some[1..], all[1..]);
        assert some == [some[0]] + some[1..] && all == [all[0]] + all[1..];
      } else {
        forall y | y in some ensures y in all[1..] {
          TailMembers(all, y);
          if some != [] { FirstIsLeast(some, y); FirstOfSuperset(some, all); LessTotal(y, all[0]); }
        }
        MembersWeigh(some, all[1..]);
      }
    }
  }

  /** The first of a sorted superset is below every member it is not equal to. */
  lemma FirstOfSuperset(some: seq<string>, all: seq<string>)
    requires some != [] && all != [] && Sorted(some) && Sorted(all) && some[0] != all[0]
    requires forall y :: y in some ==> y in all
    ensures forall y :: y in some ==> y != all[0]
  {
    forall y | y in some ensures y != all[0] {
      assert some[0] in some;
      FirstIsLeast(all, some[0]);
      FirstIsLeast(some, y);
      if y != some[0] { LessTransitive(all[0], some[0], y); }
      LessIrreflexive(y);
    }
  }

  /** If every expected key is present and the joined texts agree, there is no other key. */
  lemma NoExtraKeys(props: seq<Entry<Value>>, keys: seq<string>)
    requires keys != [] && Join(SortUnique(Keys(props)), ',') == Join(SortUnique(keys), ',')
    requires forall y :: y in keys ==> y in Keys(props)
    ensures HasExactly(props, keys)
  {
    hide Join, SortUnique, Weight;
    var all, some := SortUnique(Keys(props)), SortUnique(keys);
    assert keys[0] in some && keys[0] in all;
    JoinWeight(all);
    JoinWeight(some);
    MembersWeigh(some, all);
  }

  /** A defined property belongs to a present key. */
  lemma {:induction false} DefinedIsPresent(props: seq<Entry<Value>>, key: string)
    ensures Get(props, key) != Undefined ==> key in Keys(props)
  {
    if props != [] {
      DefinedIsPresent(props[1..], key);
      assert Keys(props) == [props[0].key] + Keys(props[1..]);
    }
  }

  /** The argument of the parsers: all expected properties are defined, so the shape is closed. */
  lemma ClosedShape(v: Value, keys: seq<string>)
    requires keys != [] && Exact(v, keys).Some?
    requires forall y :: y in keys ==> Get(v.props, y) != Undefined
    ensures HasExactly(v.props, keys)
  {
    hide Join, SortUnique, Keys;
    forall y | y in keys ensures y in Keys(v.props) { DefinedIsPresent(v.props, y); }
    NoExtraKeys(v.props, keys);
  }

  ghost predicate ObjectWith(v: Value, keys: seq<string>) { v.Obj? && HasExactly(v.props, keys) }

  lemma ExactIsObject(v: Value, keys: seq<string>)
    requires Exact(v, keys).Some?
    ensures v.Obj? && Exact(v, keys).value == v.props
  {
  }

  /** The check alone is not closed: one key can spell two. */
  lemma JoinedKeysCollide()
    ensures Exact(Obj([Entry("digest,immutable", Null)]), ["digest", "immutable"]).Some?
    ensures !HasExactly([Entry("digest,immutable", Null)], ["digest", "immutable"])
  {
    var one, two := ["digest,immutable"], ["digest", "immutable"];
    assert Keys([Entry("digest,immutable", Null)]) == one;
    assert SortUnique(one) == one by { assert one[1..] == []; }
    assert two[1..] == ["immutable"] && ["immutable"][1..] == [];
    assert SortUnique(["immutable"]) == ["immutable"];
    assert Less("digest", "immutable");
    assert SortUnique(two) == two;
    assert Join(two, ',') == "digest,immutable";
    assert two[0] in two && two[0] !in one;
  }

  // ----- building records -----

  function Record(keys: seq<string>, values: seq<Value>): (v: Value)
    requires |keys| == |values|
    ensures v.Obj? && Keys(v.props) == keys
  {
    var props := seq(|keys|, k requires 0 <= k < |keys| => Entry(keys[k], values[k]));
    assert Keys(props) == keys;
    Obj(props)
  }

  predicate AllDistinct(keys: seq<string>) { forall j, k :: 0 <= j < k < |keys| ==> keys[j] != keys[k] }

  lemma {:induction false} GetAt(props: seq<Entry<Value>>, k: nat)
    requires k < |props| && forall j :: 0 <= j < k ==> props[j].key != props[k].key
    ensures Get(props, props[k].key) == props[k].value
  {
    if k > 0 { GetAt(props[1..], k - 1); }
  }

  /** A built record passes its own check and gives its values back. */
  lemma RecordReads(keys: seq<string>, values: seq<Value>)
    requires |keys| == |values| && AllDistinct(keys)
    ensures Exact(Record(keys, values), keys) == Some(Record(keys, values).props)
    ensures forall k :: 0 <= k < |keys| ==> Get(Record(keys, values).props, keys[k]) == values[k]
  {
    var props := Record(keys, values).props;
    forall k | 0 <= k < |keys| ensures Get(props, keys[k]) == values[k] {
      assert props[k] == Entry(keys[k], values[k]);
      GetAt(props, k);
    }
  }
}
