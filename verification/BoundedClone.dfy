/**
 * The bounded copy of notification pusher data.
 *
 * The values are a graph: objects are references into a heap, and may be shared or contain themselves. One entry budget
 * and one set of ancestors are updated in place through the whole recursion.
 */
module BoundedClone {
  import opened Text

  const MAX_DATA_BYTES := 2 * 1024
  const MAX_DEPTH := 8
  const MAX_ENTRIES := 64
  const MAX_ARRAY_LENGTH := 64
  const MAX_KEY_BYTES := 128
  const MAX_STRING_BYTES := 1024

  // ----- values -----

  /** `Foreign` is everything that is neither a JSON scalar nor an object. */
  datatype Value = Null | Bool(truth: bool) | Number(digits: string) | NonFinite | Str(text: string) | Foreign
    | Ref(id: nat)

  datatype Slot = Slot(key: string, value: Value)

  /** An array or a plain object with its entries; `Loose` is an object whose entries cannot be read strictly. */
  datatype Shape = Strict(isArray: bool, slots: seq<Slot>) | Loose

  type Heap = map<nat, Shape>

  datatype Tree = TNull | TBool(truth: bool) | TNumber(digits: string) | TStr(text: string)
    | TNode(isArray: bool, members: seq<Member>)

  datatype Member = Member(key: string, tree: Tree)

  function Look(heap: Heap, id: nat): Shape { if id in heap then heap[id] else Loose }

  predicate KeyFits(bytes: string -> nat, isArray: bool, key: string) { isArray || bytes(key) <= MAX_KEY_BYTES }

  // ----- the tree that a value stands for, within the limits on single nodes -----

  function Unfold(bytes: string -> nat, heap: Heap, v: Value, depth: nat): Option<Tree>
    requires depth <= MAX_DEPTH + 1
    decreases MAX_DEPTH + 1 - depth, 0, 0
  {
    match v
    case Null => Some(TNull)
    case Bool(truth) => Some(TBool(truth))
    case Number(digits) => Some(TNumber(digits))
    case NonFinite => None
    case Str(text) => if bytes(text) <= MAX_STRING_BYTES then Some(TStr(text)) else None
    case Foreign => None
    case Ref(id) =>
      if depth > MAX_DEPTH then None
      else
        match Look(heap, id)
        case Loose => None
        case Strict(isArray, slots) =>
          if isArray && |slots| > MAX_ARRAY_LENGTH then None
          else
            var members :- UnfoldSlots(bytes, heap, isArray, slots, depth + 1);
            Some(TNode(isArray, members))
  }

  function UnfoldSlots(bytes: string -> nat, heap: Heap, isArray: bool, slots: seq<Slot>,
                       depth: nat): (ms: Option<seq<Member>>)
    requires depth <= MAX_DEPTH + 1
    ensures ms.Some? ==> |ms.value| == |slots| && forall k :: 0 <= k < |slots| ==>
                           KeyFits(bytes, isArray, slots[k].key) && ms.value[k].key == slots[k].key
                           && Unfold(bytes, heap, slots[k].value, depth) == Some(ms.value[k].tree)
    ensures ms.None? ==> exists k :: 0 <= k < |slots|
                           && !(KeyFits(bytes, isArray, slots[k].key)
                                && Unfold(bytes, heap, slots[k].value, depth).Some?)
    decreases MAX_DEPTH + 1 - depth, 1, |slots|
  {
    if slots == [] then Some([])
    else
      var first, rest := Unfold(bytes, heap, slots[0].value, depth),
        UnfoldSlots(bytes, heap, isArray, slots[1..], depth);
      if !KeyFits(bytes, isArray, slots[0].key) || first.None? then None
      else if rest.None? then
        var k :| 0 <= k < |slots[1..]|
                 && !(KeyFits(bytes, isArray, slots[1..][k].key)
                      && Unfold(bytes, heap, slots[1..][k].value, depth).Some?);
        assert slots[1..][k] == slots[k + 1];
        None
      else Some([Member(slots[0].key, first.value)] + rest.value)
  }

  /** The entries of an object that has a tree have the trees of its members. */
  lemma UnfoldChild(bytes: string -> nat, heap: Heap, id: nat, depth: nat, k: nat)
    requires depth <= MAX_DEPTH + 1 && Unfold(bytes, heap, Ref(id), depth).Some?
    requires Look(heap, id).Strict? && k < |Look(heap, id).slots|
    ensures var t := Unfold(bytes, heap, Ref(id), depth).value;
            && depth <= MAX_DEPTH && t.TNode? && |t.members| == |Look(heap, id).slots|
            && Unfold(bytes, heap, Look(heap, id).slots[k].value, depth + 1) == Some(t.members[k].tree)
  {
    hide UnfoldSlots;
  }

  /** An object has a tree when it keeps its own limits and all its entries have trees. */
  lemma UnfoldObject(bytes: string -> nat, heap: Heap, id: nat, depth: nat)
    requires depth <= MAX_DEPTH && Look(heap, id).Strict?
    requires Look(heap, id).isArray ==> |Look(heap, id).slots| <= MAX_ARRAY_LENGTH
    requires forall k :: 0 <= k < |Look(heap, id).slots|
               ==> KeyFits(bytes, Look(heap, id).isArray, Look(heap, id).slots[k].key)
    requires forall k :: 0 <= k < |Look(heap, id).slots|
               ==> Unfold(bytes, heap, Look(heap, id).slots[k].value, depth + 1).Some?
    ensures Unfold(bytes, heap, Ref(id), depth).Some?
  {
    hide UnfoldSlots;
  }

  /** The number of entries in the whole tree. */
  function Weight(t: Tree): nat
    decreases t, 1
  {
    if t.TNode? then |t.members| + WeightAll(t.members) else 0
  }

  function WeightAll(ms: seq<Member>): nat
    decreases ms, 0
  {
    if ms == [] then 0 else Weight(ms[0].tree) + WeightAll(ms[1..])
  }

  lemma {:induction false} WeightAppend(ms: seq<Member>, m: Member)
    ensures WeightAll(ms + [m]) == WeightAll(ms) + Weight(m.tree)
  {
    if ms == [] {
      assert ms + [m] == [m];
    } else {
      WeightAppend(ms[1..], m);
      assert (ms + [m])[1..] == ms[1..] + [m] && (ms + [m])[0] == ms[0];
    }
  }

  lemma {:induction false} WeightPrefix(ms: seq<Member>, k: nat)
    requires k <= |ms|
    ensures WeightAll(ms[..k]) <= WeightAll(ms)
    decreases |ms| - k
  {
    if k < |ms| {
      WeightPrefix(ms, k + 1);
      assert ms[..k + 1] == ms[..k] + [ms[k]];
      WeightAppend(ms[..k], ms[k]);
    } else {
      assert ms[..k] == ms;
    }
  }

  lemma WeightOfChild(t: Tree, k: nat)
    requires t.TNode? && k < |t.members|
    ensures Weight(t.members[k].tree) < Weight(t)
  {
    WeightPrefix(t.members, k + 1);
    assert t.members[..k + 1] == t.members[..k] + [t.members[k]];
    WeightAppend(t.members[..k], t.members[k]);
  }

  // ----- the same, position by position -----

  /** The value at the end of a path of entry numbers. */
  function Position(heap: Heap, v: Value, path: seq<nat>): Option<Value>
    decreases |path|
  {
    if path == [] then Some(v)
    else if !v.Ref? || Look(heap, v.id).Loose? || path[0] >= |Look(heap, v.id).slots| then None
    else Position(heap, Look(heap, v.id).slots[path[0]].value, path[1..])
  }

  /** The limits on one value at the given depth. */
  ghost predicate NodeFits(bytes: string -> nat, heap: Heap, v: Value, depth: nat) {
    match v
    case Null => true
    case Bool(_) => true
    case Number(_) => true
    case NonFinite => false
    case Str(text) => bytes(text) <= MAX_STRING_BYTES
    case Foreign => false
    case Ref(id) =>
      && depth <= MAX_DEPTH && Look(heap, id).Strict?
      && (Look(heap, id).isArray ==> |Look(heap, id).slots| <= MAX_ARRAY_LENGTH)
      && forall k :: 0 <= k < |Look(heap, id).slots|
           ==> KeyFits(bytes, Look(heap, id).isArray, Look(heap, id).slots[k].key)
  }

  ghost predicate AllFit(bytes: string -> nat, heap: Heap, v: Value, depth: nat) {
    forall path :: Position(heap, v, path).Some?
      ==> NodeFits(bytes, heap, Position(heap, v, path).value, depth + |path|)
  }

  lemma {:induction false} UnfoldFits(bytes: string -> nat, heap: Heap, v: Value, depth: nat, path: seq<nat>)
    requires depth <= MAX_DEPTH + 1 && Unfold(bytes, heap, v, depth).Some? && Position(heap, v, path).Some?
    ensures NodeFits(bytes, heap, Position(heap, v, path).value, depth + |path|)
    decreases |path|
  {
    hide UnfoldSlots;
    if path != [] {
      hide Unfold, NodeFits;
      UnfoldChild(bytes, heap, v.id, depth, path[0]);
      UnfoldFits(bytes, heap, Look(heap, v.id).slots[path[0]].value, depth + 1, path[1..]);
    }
  }

  lemma ChildrenFit(bytes: string -> nat, heap: Heap, v: Value, depth: nat, k: nat)
    requires AllFit(bytes, heap, v, depth) && v.Ref? && Look(heap, v.id).Strict? && k < |Look(heap, v.id).slots|
    ensures AllFit(bytes, heap, Look(heap, v.id).slots[k].value, depth + 1)
  {
    hide NodeFits;
    var child := Look(heap, v.id).slots[k].value;
    forall path | Position(heap, child, path).Some?
      ensures NodeFits(bytes, heap, Position(heap, child, path).value, depth + 1 + |path|)
    {
      var longer := [k] + path;
      assert longer[1..] == path;
      assert Position(heap, v, longer) == Position(heap, child, path);
    }
  }

  lemma AllFitHere(bytes: string -> nat, heap: Heap, v: Value, depth: nat)
    requires AllFit(bytes, heap, v, depth)
    ensures NodeFits(bytes, heap, v, depth)
  {
    hide NodeFits;
    assert Position(heap, v, []) == Some(v);
  }

  lemma {:induction false} FitsUnfold(bytes: string -> nat, heap: Heap, v: Value, depth: nat)
    requires depth <= MAX_DEPTH + 1 && AllFit(bytes, heap, v, depth)
    ensures Unfold(bytes, heap, v, depth).Some?
    decreases MAX_DEPTH + 1 - depth
  {
    hide AllFit, UnfoldSlots;
    AllFitHere(bytes, heap, v, depth);
    if v.Ref? {
      hide Unfold;
      var shape := Look(heap, v.id);
      forall k | 0 <= k < |shape.slots| ensures Unfold(bytes, heap, shape.slots[k].value, depth + 1).Some? {
        ChildrenFit(bytes, heap, v, depth, k);
        FitsUnfold(bytes, heap, shape.slots[k].value, depth + 1);
      }
      UnfoldObject(bytes, heap, v.id, depth);
    }
  }

  /** A tree exists exactly when every value that a path leads to keeps the limits at its depth. */
  lemma UnfoldIffAllFit(bytes: string -> nat, heap: Heap, v: Value)
    ensures Unfold(bytes, heap, v, 0).Some? <==> AllFit(bytes, heap, v, 0)
  {
    hide Unfold, NodeFits;
    if Unfold(bytes, heap, v, 0).Some? {
      forall path | Position(heap, v, path).Some?
        ensures NodeFits(bytes, heap, Position(heap, v, path).value, 0 + |path|)
      {
        UnfoldFits(bytes, heap, v, 0, path);
      }
    }
    if AllFit(bytes, heap, v, 0) { FitsUnfold(bytes, heap, v, 0); }
  }

  // ----- cycles -----

  ghost predicate HasChild(heap: Heap, id: nat, v: Value) {
    Look(heap, id).Strict? && exists k :: 0 <= k < |Look(heap, id).slots| && Look(heap, id).slots[k].value == v
  }

  /** The objects on the path lead, entry by entry, to the value. */
  ghost predicate Leads(heap: Heap, path: seq<nat>, v: Value) {
    path != [] ==>
      && HasChild(heap, path[|path| - 1], v)
      && forall i :: 0 <= i < |path| - 1 ==> HasChild(heap, path[i], Ref(path[i + 1]))
  }

  /** The depth decides whether there is a tree, not which. */
  lemma {:induction false} UnfoldSteady(bytes: string -> nat, heap: Heap, v: Value, d: nat, e: nat)
    requires d <= MAX_DEPTH + 1 && e <= MAX_DEPTH + 1
    requires Unfold(bytes, heap, v, d).Some? && Unfold(bytes, heap, v, e).Some?
    ensures Unfold(bytes, heap, v, d) == Unfold(bytes, heap, v, e)
    decreases MAX_DEPTH + 1 - d
  {
    if v.Ref? {
      var slots := Look(heap, v.id).slots;
      var a, b := Unfold(bytes, heap, v, d).value.members, Unfold(bytes, heap, v, e).value.members;
      forall k | 0 <= k < |slots| ensures a[k] == b[k] { UnfoldSteady(bytes, heap, slots[k].value, d + 1, e + 1); }
      assert a == b;
    }
  }

  /** Going down a path makes the tree lighter. */
  lemma {:induction false} PathShrinks(bytes: string -> nat, heap: Heap, path: seq<nat>, v: Value, depth: nat)
    requires path != [] && Leads(heap, path, v)
    requires depth <= MAX_DEPTH + 1 && Unfold(bytes, heap, Ref(path[0]), depth).Some?
    ensures depth + |path| <= MAX_DEPTH + 1
    ensures Unfold(bytes, heap, v, depth + |path|).Some?
    ensures Weight(Unfold(bytes, heap, v, depth + |path|).value)
            < Weight(Unfold(bytes, heap, Ref(path[0]), depth).value)
    decreases |path|
  {
    hide Weight, Unfold, UnfoldSlots;
    var t := Unfold(bytes, heap, Ref(path[0]), depth).value;
    var next := if |path| == 1 then v else Ref(path[1]);
    assert HasChild(heap, path[0], next);
    var k :| 0 <= k < |Look(heap, path[0]).slots| && Look(heap, path[0]).slots[k].value == next;
    UnfoldChild(bytes, heap, path[0], depth, k);
    WeightOfChild(t, k);
    if |path| > 1 {
      assert forall i :: 0 <= i < |path[1..]| ==> path[1..][i] == path[i + 1];
      PathShrinks(bytes, heap, path[1..], v, depth + 1);
    }
  }

  /** A value that leads back to itself has no tree at any depth: the ancestor check refuses nothing that would fit. */
  lemma CycleHasNoTree(bytes: string -> nat, heap: Heap, path: seq<nat>, id: nat, depth: nat)
    requires id in path && Leads(heap, path, Ref(id)) && depth <= MAX_DEPTH + 1
    ensures Unfold(bytes, heap, Ref(id), depth).None?
  {
    hide Unfold, Weight;
    var i :| 0 <= i < |path| && path[i] == id;
    var loop := path[i..];
    assert Leads(heap, loop, Ref(id)) by {
      assert loop[|loop| - 1] == path[|path| - 1];
      assert forall j :: 0 <= j < |loop| ==> loop[j] == path[i + j];
    }
    if Unfold(bytes, heap, Ref(id), depth).Some? {
      PathShrinks(bytes, heap, loop, Ref(id), depth);
      UnfoldSteady(bytes, heap, Ref(id), depth, depth + |loop|);
      assert false;
    }
  }

  // ----- the copy -----

  class Budget {
    var entries: nat

    constructor ()
      ensures entries == 0
    {
      entries := 0;
    }
  }

  class Ancestors {
    var objects: set<nat>

    constructor ()
      ensures objects == {}
    {
      objects := {};
    }
  }

  /** The value has a tree, and its entries fit into what is left of the budget. */
  ghost predicate Fits(bytes: string -> nat, heap: Heap, v: Value, depth: nat, spent: nat)
    requires depth <= MAX_DEPTH + 1
  {
    Unfold(bytes, heap, v, depth).Some? && spent + Weight(Unfold(bytes, heap, v, depth).value) <= MAX_ENTRIES
  }

  lemma LeadsOn(heap: Heap, path: seq<nat>, id: nat, k: nat)
    requires Leads(heap, path, Ref(id)) && Look(heap, id).Strict? && k < |Look(heap, id).slots|
    ensures Leads(heap, path + [id], Look(heap, id).slots[k].value)
  {
  }

  /**
   * `cloneBoundedJsonValue`; None is `{ ok: false }`. The ghost path lists the ancestors in order.
   */
  method CloneBoundedJsonValue(bytes: string -> nat, heap: Heap, value: Value, depth: nat, budget: Budget,
                               ancestors: Ancestors, ghost path: seq<nat>)
    returns (clone: Option<Tree>)
    requires depth <= MAX_DEPTH + 1 && Leads(heap, path, value) && budget.entries <= MAX_ENTRIES
    requires forall x :: x in ancestors.objects <==> x in path
    modifies budget, ancestors
    ensures ancestors.objects == old(ancestors.objects)
    ensures clone.Some? <==> Fits(bytes, heap, value, depth, old(budget.entries))
    ensures clone.Some? ==> clone == Unfold(bytes, heap, value, depth)
                            && budget.entries == old(budget.entries) + Weight(clone.value)
    decreases MAX_DEPTH + 1 - depth
  {
    hide Leads;
    match value {
      case Null => return Some(TNull);
      case Bool(truth) => return Some(TBool(truth));
      case Number(digits) => return Some(TNumber(digits));
      case NonFinite => return None;
      case Str(text) => return if bytes(text) <= MAX_STRING_BYTES then Some(TStr(text)) else None;
      case Foreign => return None;
      case Ref(id) =>
        if depth > MAX_DEPTH { return None; }
        if id in ancestors.objects {
          CycleHasNoTree(bytes, heap, path, id, depth);
          return None;
        }
        var shape := Look(heap, id);
        if shape.Loose? || (shape.isArray && |shape.slots| > MAX_ARRAY_LENGTH) { return None; }
        clone := CloneSlots(bytes, heap, id, shape, depth, budget, ancestors, path);
    }
  }

  /** The part of the copy that both arrays and plain objects go through. */
  method CloneSlots(bytes: string -> nat, heap: Heap, id: nat, shape: Shape, depth: nat, budget: Budget,
                    ancestors: Ancestors, ghost path: seq<nat>)
    returns (clone: Option<Tree>)
    requires depth <= MAX_DEPTH && Leads(heap, path, Ref(id)) && budget.entries <= MAX_ENTRIES
    requires shape == Look(heap, id) && shape.Strict? && (shape.isArray ==> |shape.slots| <= MAX_ARRAY_LENGTH)
    requires id !in ancestors.objects && forall x :: x in ancestors.objects <==> x in path
    modifies budget, ancestors
    ensures ancestors.objects == old(ancestors.objects)
    ensures clone.Some? <==> Fits(bytes, heap, Ref(id), depth, old(budget.entries))
    ensures clone.Some? ==> clone == Unfold(bytes, heap, Ref(id), depth)
                            && budget.entries == old(budget.entries) + Weight(clone.value)
    decreases MAX_DEPTH + 1 - depth, 0
  {
    hide Leads, Unfold, UnfoldSlots, Weight, WeightAll;
    ghost var spent := budget.entries;
    var slots := shape.slots;
    budget.entries := budget.entries + |slots|;
    if budget.entries > MAX_ENTRIES {
      TooHeavy(bytes, heap, id, depth, spent, [], 0);
      return None;
    }
    ancestors.objects := ancestors.objects + {id};
    var members: seq<Member> := [];
    NoMembers();
    for k := 0 to |slots|
      invariant ancestors.objects == old(ancestors.objects) + {id}
      invariant |members| == k && Copied(bytes, heap, shape, depth, members)
      invariant budget.entries == spent + |slots| + WeightAll(members) <= MAX_ENTRIES
    {
      if !KeyFits(bytes, shape.isArray, slots[k].key) {
        BadSlot(bytes, heap, id, depth, k);
        ancestors.objects := ancestors.objects - {id};
        return None;
      }
      LeadsOn(heap, path, id, k);
      var nested := CloneBoundedJsonValue(bytes, heap, slots[k].value, depth + 1, budget, ancestors, path + [id]);
      if nested.None? {
        if Unfold(bytes, heap, slots[k].value, depth + 1).None? {
          BadSlot(bytes, heap, id, depth, k);
        } else {
          TooHeavy(bytes, heap, id, depth, spent, members, k);
        }
        ancestors.objects := ancestors.objects - {id};
        return None;
      }
      CopiedMore(bytes, heap, shape, depth, members, nested.value);
      WeightAppend(members, Member(slots[k].key, nested.value));
      members := members + [Member(slots[k].key, nested.value)];
    }
    ancestors.objects := ancestors.objects - {id};
    AllCopied(bytes, heap, id, depth, members);
    clone := Some(TNode(shape.isArray, members));
  }

  /** The members are the trees of the first entries. */
  ghost predicate Copied(bytes: string -> nat, heap: Heap, shape: Shape, depth: nat, members: seq<Member>)
    requires shape.Strict? && depth <= MAX_DEPTH
  {
    |members| <= |shape.slots|
    && forall k :: 0 <= k < |members| ==>
         && KeyFits(bytes, shape.isArray, shape.slots[k].key) && members[k].key == shape.slots[k].key
         && Unfold(bytes, heap, shape.slots[k].value, depth + 1) == Some(members[k].tree)
  }

  lemma NoMembers()
    ensures WeightAll([]) == 0
  {
  }

  lemma CopiedMore(bytes: string -> nat, heap: Heap, shape: Shape, depth: nat, members: seq<Member>, t: Tree)
    requires shape.Strict? && depth <= MAX_DEPTH && Copied(bytes, heap, shape, depth, members)
             && |members| < |shape.slots|
    requires KeyFits(bytes, shape.isArray, shape.slots[|members|].key)
    requires Unfold(bytes, heap, shape.slots[|members|].value, depth + 1) == Some(t)
    ensures Copied(bytes, heap, shape, depth, members + [Member(shape.slots[|members|].key, t)])
  {
  }

  lemma BadSlot(bytes: string -> nat, heap: Heap, id: nat, depth: nat, k: nat)
    requires depth <= MAX_DEPTH && Look(heap, id).Strict? && k < |Look(heap, id).slots|
    requires var shape := Look(heap, id);
             !(KeyFits(bytes, shape.isArray, shape.slots[k].key)
               && Unfold(bytes, heap, shape.slots[k].value, depth + 1).Some?)
    ensures Unfold(bytes, heap, Ref(id), depth).None?
  {
    hide UnfoldSlots;
  }

  /** The entries met so far already exceed the budget, so the whole tree does. */
  lemma TooHeavy(bytes: string -> nat, heap: Heap, id: nat, depth: nat, spent: nat, members: seq<Member>, k: nat)
    requires depth <= MAX_DEPTH && Look(heap, id).Strict? && k == |members|
    requires Copied(bytes, heap, Look(heap, id), depth, members)
    requires var slots := Look(heap, id).slots;
             spent + |slots| + WeightAll(members) > MAX_ENTRIES
             || (k < |slots| && Unfold(bytes, heap, slots[k].value, depth + 1).Some?
                 && spent + |slots| + WeightAll(members)
                   + Weight(Unfold(bytes, heap, slots[k].value, depth + 1).value) > MAX_ENTRIES)
    ensures !Fits(bytes, heap, Ref(id), depth, spent)
  {
    hide UnfoldSlots, WeightAll;
    if Unfold(bytes, heap, Ref(id), depth).Some? {
      var all := Unfold(bytes, heap, Ref(id), depth).value.members;
      assert all[..k] == members;
      WeightPrefix(all, k);
      if k < |all| {
        assert all[..k + 1] == members + [all[k]];
        WeightAppend(members, all[k]);
        WeightPrefix(all, k + 1);
      }
    }
  }

  lemma AllCopied(bytes: string -> nat, heap: Heap, id: nat, depth: nat, members: seq<Member>)
    requires depth <= MAX_DEPTH && Look(heap, id).Strict? && Copied(bytes, heap, Look(heap, id), depth, members)
    requires Look(heap, id).isArray ==> |Look(heap, id).slots| <= MAX_ARRAY_LENGTH
    requires |members| == |Look(heap, id).slots|
    ensures Unfold(bytes, heap, Ref(id), depth) == Some(TNode(Look(heap, id).isArray, members))
    ensures Weight(TNode(Look(heap, id).isArray, members)) == |members| + WeightAll(members)
  {
    hide UnfoldSlots;
    var shape := Look(heap, id);
    var all := UnfoldSlots(bytes, heap, shape.isArray, shape.slots, depth + 1);
    assert all.Some?;
    assert all.value == members;
  }

  /** `parseBoundedPusherDataObject`: a plain object within all limits is copied, everything else is refused. */
  method ParseBoundedPusherDataObject(bytes: string -> nat, size: Tree -> nat, heap: Heap, value: Value)
    returns (data: Option<Tree>)
    ensures data.Some? <==>
              && Fits(bytes, heap, value, 0, 0)
              && var t := Unfold(bytes, heap, value, 0).value;
                 t.TNode? && !t.isArray && size(t) <= MAX_DATA_BYTES
    ensures data.Some? ==> data == Unfold(bytes, heap, value, 0)
  {
    var budget := new Budget();
    var ancestors := new Ancestors();
    data := CloneBoundedJsonValue(bytes, heap, value, 0, budget, ancestors, []);
    if data.Some? && !(data.value.TNode? && !data.value.isArray && size(data.value) <= MAX_DATA_BYTES) { data := None; }
  }

  // ----- the order of entries does not matter -----

  /** The same objects with their entries in any order. */
  ghost predicate Reordered(h: Heap, g: Heap) {
    forall id :: Look(h, id).Strict? == Look(g, id).Strict?
                 && (Look(h, id).Strict? ==>
                       Look(h, id).isArray == Look(g, id).isArray && SameSlots(Look(h, id).slots, Look(g, id).slots))
  }

  ghost predicate SameSlots(a: seq<Slot>, b: seq<Slot>) { multiset(a) == multiset(b) }

  ghost function SlotWeight(bytes: string -> nat, heap: Heap, slot: Slot, depth: nat): nat
    requires depth <= MAX_DEPTH + 1
  {
    var t := Unfold(bytes, heap, slot.value, depth);
    if t.Some? then Weight(t.value) else 0
  }

  ghost function SlotWeights(bytes: string -> nat, heap: Heap, slots: seq<Slot>, depth: nat): nat
    requires depth <= MAX_DEPTH + 1
  {
    if slots == [] then 0 else SlotWeight(bytes, heap, slots[0], depth) + SlotWeights(bytes, heap, slots[1..], depth)
  }

  lemma {:induction false} SlotWeightsJoin(bytes: string -> nat, heap: Heap, a: seq<Slot>, b: seq<Slot>, depth: nat)
    requires depth <= MAX_DEPTH + 1
    ensures SlotWeights(bytes, heap, a + b, depth) == SlotWeights(bytes, heap, a, depth)
            + SlotWeights(bytes, heap, b, depth)
  {
    hide SlotWeight;
    if a == [] {
      assert a + b == b;
    } else {
      SlotWeightsJoin(bytes, heap, a[1..], b, depth);
      assert (a + b)[0] == a[0] && (a + b)[1..] == a[1..] + b;
    }
  }

  lemma {:induction false} SlotWeightsPermuted(bytes: string -> nat, heap: Heap, a: seq<Slot>, b: seq<Slot>, depth: nat)
    requires depth <= MAX_DEPTH + 1 && SameSlots(a, b)
    ensures SlotWeights(bytes, heap, a, depth) == SlotWeights(bytes, heap, b, depth)
    decreases |a|
  {
    hide SlotWeight, SlotWeights, SameSlots;
    SameLength(a, b);
    if a != [] {
      var x, rest := a[0], a[1..];
      var j := FindSlot(a, b, 0);
      var front, back := b[..j], b[j + 1..];
      RemoveSlot(a, b, j);
      SlotWeightsPermuted(bytes, heap, rest, front + back, depth);
      assert b == front + ([x] + back);
      SlotWeightsJoin(bytes, heap, front, [x] + back, depth);
      SlotWeightsJoin(bytes, heap, front, back, depth);
      SlotWeightsCons(bytes, heap, x, back, depth);
      SlotWeightsCons(bytes, heap, x, rest, depth);
      assert a == [x] + rest;
    } else {
      assert a == b;
    }
  }

  lemma SlotWeightsCons(bytes: string -> nat, heap: Heap, x: Slot, rest: seq<Slot>, depth: nat)
    requires depth <= MAX_DEPTH + 1
    ensures SlotWeights(bytes, heap, [x] + rest, depth) == SlotWeight(bytes, heap, x, depth)
            + SlotWeights(bytes, heap, rest, depth)
  {
    hide SlotWeight;
    assert ([x] + rest)[1..] == rest;
  }

  lemma RemoveSlot(a: seq<Slot>, b: seq<Slot>, j: nat)
    requires SameSlots(a, b) && a != [] && j < |b| && b[j] == a[0]
    ensures SameSlots(a[1..], b[..j] + b[j + 1..])
  {
    assert a == [a[0]] + a[1..];
    assert b == b[..j] + [b[j]] + b[j + 1..];
    assert multiset(a) == multiset{a[0]} + multiset(a[1..]);
    assert multiset(b) == multiset{b[j]} + (multiset(b[..j]) + multiset(b[j + 1..]));
    assert multiset(a[1..]) == multiset(a) - multiset{a[0]};
    assert multiset(b[..j] + b[j + 1..]) == multiset(b) - multiset{b[j]};
  }

  /** The entries of a tree's root weigh what the slots of the object weigh. */
  lemma {:induction false} MembersWeigh(bytes: string -> nat, heap: Heap, slots: seq<Slot>, ms: seq<Member>, depth: nat)
    requires depth <= MAX_DEPTH + 1 && |ms| == |slots|
    requires forall k :: 0 <= k < |slots| ==> Unfold(bytes, heap, slots[k].value, depth) == Some(ms[k].tree)
    ensures WeightAll(ms) == SlotWeights(bytes, heap, slots, depth)
  {
    hide Unfold, Weight;
    if slots != [] { MembersWeigh(bytes, heap, slots[1..], ms[1..], depth); }
  }

  lemma {:induction false} SameSlotWeights(bytes: string -> nat, h: Heap, g: Heap, slots: seq<Slot>, depth: nat)
    requires depth <= MAX_DEPTH + 1
    requires forall k :: 0 <= k < |slots|
               ==> SlotWeight(bytes, h, slots[k], depth) == SlotWeight(bytes, g, slots[k], depth)
    ensures SlotWeights(bytes, h, slots, depth) == SlotWeights(bytes, g, slots, depth)
  {
    hide SlotWeight;
    if slots != [] { SameSlotWeights(bytes, h, g, slots[1..], depth); }
  }

  /** An object with a tree weighs its entries and what is below them. */
  lemma ObjectWeight(bytes: string -> nat, heap: Heap, id: nat, depth: nat)
    requires depth <= MAX_DEPTH && Unfold(bytes, heap, Ref(id), depth).Some?
    ensures Look(heap, id).Strict?
    ensures var slots := Look(heap, id).slots;
            Weight(Unfold(bytes, heap, Ref(id), depth).value) == |slots| + SlotWeights(bytes, heap, slots, depth + 1)
  {
    hide UnfoldSlots;
    var slots, t := Look(heap, id).slots, Unfold(bytes, heap, Ref(id), depth).value;
    MembersWeigh(bytes, heap, slots, t.members, depth + 1);
  }

  /** Each slot has the same tree weight in both heaps, and a tree in both. */
  ghost predicate SlotsAgree(bytes: string -> nat, h: Heap, g: Heap, slots: seq<Slot>, depth: nat)
    requires depth <= MAX_DEPTH + 1
  {
    forall k :: 0 <= k < |slots| ==>
      Unfold(bytes, g, slots[k].value, depth).Some?
        && SlotWeight(bytes, h, slots[k], depth) == SlotWeight(bytes, g, slots[k], depth)
  }

  lemma ReorderedObject(bytes: string -> nat, h: Heap, g: Heap, id: nat, depth: nat)
    requires depth <= MAX_DEPTH && Reordered(h, g) && Unfold(bytes, h, Ref(id), depth).Some?
    requires Look(h, id).Strict? && SlotsAgree(bytes, h, g, Look(h, id).slots, depth + 1)
    ensures Unfold(bytes, g, Ref(id), depth).Some?
    ensures Weight(Unfold(bytes, g, Ref(id), depth).value) == Weight(Unfold(bytes, h, Ref(id), depth).value)
  {
    hide Unfold, Weight, SlotWeights, SameSlots, SlotWeight;
    RefIsShallow(bytes, h, id, depth);
    ObjectWeight(bytes, h, id, depth);
    var a, b := Look(h, id).slots, Look(g, id).slots;
    SameLength(a, b);
    forall k | 0 <= k < |b|
      ensures Unfold(bytes, g, b[k].value, depth + 1).Some? && KeyFits(bytes, Look(g, id).isArray, b[k].key)
    {
      var j := FindSlot(b, a, k);
      assert a[j] == b[k];
    }
    UnfoldObject(bytes, g, id, depth);
    ObjectWeight(bytes, g, id, depth);
    SameSlotWeights(bytes, h, g, a, depth + 1);
    SlotWeightsPermuted(bytes, g, a, b, depth + 1);
  }

  lemma {:induction false} ReorderedTree(bytes: string -> nat, h: Heap, g: Heap, v: Value, depth: nat)
    requires depth <= MAX_DEPTH + 1 && Reordered(h, g) && Unfold(bytes, h, v, depth).Some?
    ensures Unfold(bytes, g, v, depth).Some?
    ensures Weight(Unfold(bytes, g, v, depth).value) == Weight(Unfold(bytes, h, v, depth).value)
    decreases MAX_DEPTH + 1 - depth
  {
    hide UnfoldSlots, Weight, Reordered;
    if v.Ref? {
      hide Unfold;
      RefIsShallow(bytes, h, v.id, depth);
      var a := Look(h, v.id).slots;
      forall k | 0 <= k < |a|
        ensures Unfold(bytes, g, a[k].value, depth + 1).Some?
                && SlotWeight(bytes, h, a[k], depth + 1) == SlotWeight(bytes, g, a[k], depth + 1)
      {
        UnfoldChild(bytes, h, v.id, depth, k);
        ReorderedTree(bytes, h, g, a[k].value, depth + 1);
      }
      ReorderedObject(bytes, h, g, v.id, depth);
    }
  }

  lemma RefIsShallow(bytes: string -> nat, heap: Heap, id: nat, depth: nat)
    requires depth <= MAX_DEPTH + 1 && Unfold(bytes, heap, Ref(id), depth).Some?
    ensures depth <= MAX_DEPTH && Look(heap, id).Strict?
    ensures Look(heap, id).isArray ==> |Look(heap, id).slots| <= MAX_ARRAY_LENGTH
    ensures forall k :: 0 <= k < |Look(heap, id).slots|
              ==> KeyFits(bytes, Look(heap, id).isArray, Look(heap, id).slots[k].key)
  {
    hide UnfoldSlots;
  }

  lemma SameLength(a: seq<Slot>, b: seq<Slot>)
    requires SameSlots(a, b)
    ensures |a| == |b|
  {
    assert |multiset(a)| == |multiset(b)|;
  }

  lemma FindSlot(b: seq<Slot>, a: seq<Slot>, k: nat) returns (j: nat)
    requires (SameSlots(a, b) || SameSlots(b, a)) && k < |b|
    ensures j < |a| && a[j] == b[k]
  {
    assert b[k] in multiset(a);
    j :| 0 <= j < |a| && a[j] == b[k];
  }

  /** Whether a value is copied does not depend on the order in which any object lists its entries. */
  lemma FitsInAnyOrder(bytes: string -> nat, h: Heap, g: Heap, v: Value, depth: nat, spent: nat)
    requires depth <= MAX_DEPTH + 1 && Reordered(h, g)
    ensures Fits(bytes, h, v, depth, spent) <==> Fits(bytes, g, v, depth, spent)
  {
    hide Unfold, Weight;
    assert Reordered(g, h);
    if Unfold(bytes, h, v, depth).Some? { ReorderedTree(bytes, h, g, v, depth); }
    if Unfold(bytes, g, v, depth).Some? { ReorderedTree(bytes, g, h, v, depth); }
  }
}
