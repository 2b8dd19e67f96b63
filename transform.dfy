/**
 * Transform and TransformKeys: build the nav of the positions that match
 * (without collecting the matches) and replay it with the caller's
 * transform function as a function replacer. The builders are shared: the
 * keys flag is false for Transform and true for TransformKeys, which differs
 * only in the loop over the entries of a non-struct map.
 */
module Transform {
  import opened Values
  import opened Replacers
  import opened NavSpec
  import opened ScanSpec
  import opened ScanLemmas
  import opened NavReplay

  /** navWhen: dispatch on the kind of obj. */
  method NavWhen(obj: Value, pred: Value -> bool, keys: bool) returns (nav: Option<Nav>)
    ensures nav == NavOf(obj, pred, keys)
    decreases obj, 3
  {
    if IsScalar(obj) {
      // nil, a leaf, or an empty sequence (whose seq is null)
      nav := if pred(ScalarOf(obj)) then Some(Scalar) else None;
      return;
    }
    match obj
    case MapV(kind, _, _) =>
      if TestsKeys(obj, keys) {
        var childNavs, hasKeyTransforms := NavKeyedEntries(obj, pred);
        var predRes := pred(obj);
        if childNavs != [] || predRes {
          nav := Some(if kind == SortedMap then MapPersistent(childNavs, predRes, hasKeyTransforms)
                      else MapEditable(childNavs, predRes, hasKeyTransforms));
        } else {
          nav := None;
        }
      } else {
        var childNavs := NavEntries(obj, pred, keys);
        var predRes := pred(obj);
        if childNavs != [] || predRes {
          nav := Some(if kind == StructMap then MapStruct(childNavs, predRes)
                      else if kind == SortedMap then MapPersistent(childNavs, predRes, false)
                      else MapEditable(childNavs, predRes, false));
        } else {
          nav := None;
        }
      }
    case VecV(kind, _, _) =>
      var childNavs := NavElements(obj, pred, keys);
      var predRes := pred(obj);
      if childNavs != [] || predRes {
        nav := Some(if kind == PersistentVector then VecEdit(childNavs, predRes) else VecPersistent(childNavs, predRes));
      } else {
        nav := None;
      }
    case SetV(kind, _, _) =>
      var childNavs := NavMembers(obj, pred, keys);
      var predRes := pred(obj);
      if childNavs != [] || predRes {
        nav := Some(if kind == HashSet then SetEdit(childNavs, predRes) else SetPersistent(childNavs, predRes));
      } else {
        nav := None;
      }
    case SeqV(_, _) =>
      nav := NavSeq(obj, pred, keys);
  }

  /** The entry loop of the map builders that do not test keys: a Val child per value whose subtree matched. */
  method NavEntries(m: Value, pred: Value -> bool, keys: bool) returns (childNavs: seq<KeyNav>)
    requires m.MapV? && !TestsKeys(m, keys)
    ensures childNavs == EntryNavs(m, pred, keys, 0)
    decreases m, 1
  {
    childNavs := [];
    for i := 0 to |m.entries|
      invariant childNavs + EntryNavs(m, pred, keys, i) == EntryNavs(m, pred, keys, 0)
    {
      childNavs := NavEntry(m, pred, keys, i, childNavs);
    }
  }

  /** One entry without key testing: navigate the value and append a Val child when its subtree matched. */
  method NavEntry(m: Value, pred: Value -> bool, keys: bool, i: nat, childNavs: seq<KeyNav>) returns (childNavs': seq<KeyNav>)
    requires m.MapV? && !TestsKeys(m, keys) && i < |m.entries|
    ensures childNavs' == childNavs + EntryNav(m, pred, keys, i)
    ensures childNavs' + EntryNavs(m, pred, keys, i + 1) == childNavs + EntryNavs(m, pred, keys, i)
    decreases m, 0
  {
    var e := m.entries[i];
    assert Children(m)[i] == e.val;
    var nav := NavWhen(e.val, pred, keys);
    childNavs' := if nav.Some? then childNavs + [Val(e.key, nav.value)] else childNavs;
    Shift(childNavs, EntryNav(m, pred, keys, i), EntryNavs(m, pred, keys, i + 1), EntryNavs(m, pred, keys, i));
  }

  /**
   * The entry loop of TransformKeys for a non-struct map: the value is
   * navigated first, then the predicate is applied to the key; hasKeyTransforms records that
   * some key matched.
   */
  method NavKeyedEntries(m: Value, pred: Value -> bool) returns (childNavs: seq<KeyNav>, hasKeyTransforms: bool)
    requires TestsKeys(m, true)
    ensures childNavs == EntryNavs(m, pred, true, 0)
    ensures hasKeyTransforms == KeyHitFrom(m.entries, pred, 0)
    decreases m, 1
  {
    childNavs := [];
    hasKeyTransforms := false;
    for i := 0 to |m.entries|
      invariant childNavs + EntryNavs(m, pred, true, i) == EntryNavs(m, pred, true, 0)
      invariant hasKeyTransforms <==> exists j :: 0 <= j < i && pred(m.entries[j].key)
    {
      childNavs, hasKeyTransforms := NavKeyedEntry(m, pred, i, childNavs, hasKeyTransforms);
    }
  }

  /**
   * One entry with key testing: navigate the value, test the key, and
   * append a KeyVal, Val or Key child for what matched.
   */
  method NavKeyedEntry(m: Value, pred: Value -> bool, i: nat, childNavs: seq<KeyNav>, hasKeyTransforms: bool)
    returns (childNavs': seq<KeyNav>, hasKeyTransforms': bool)
    requires TestsKeys(m, true) && i < |m.entries|
    ensures childNavs' == childNavs + EntryNav(m, pred, true, i)
    ensures childNavs' + EntryNavs(m, pred, true, i + 1) == childNavs + EntryNavs(m, pred, true, i)
    ensures hasKeyTransforms' == (hasKeyTransforms || pred(m.entries[i].key))
    decreases m, 0
  {
    var e := m.entries[i];
    assert Children(m)[i] == e.val;
    var k := e.key;
    var nav := NavWhen(e.val, pred, true);
    var termK := pred(k);
    hasKeyTransforms' := hasKeyTransforms || termK;
    if nav.Some? && termK {
      childNavs' := childNavs + [KeyVal(k, nav.value)];
    } else if nav.Some? {
      childNavs' := childNavs + [Val(k, nav.value)];
    } else if termK {
      childNavs' := childNavs + [Key(k)];
    } else {
      childNavs' := childNavs;
    }
    Shift(childNavs, EntryNav(m, pred, true, i), EntryNavs(m, pred, true, i + 1), EntryNavs(m, pred, true, i));
  }

  /** The index loop of the vector builders: a Pos child per element whose subtree matched. */
  method NavElements(v: Value, pred: Value -> bool, keys: bool) returns (childNavs: seq<Pos>)
    requires v.VecV?
    ensures childNavs == PosNavs(v, pred, keys, 0)
    decreases v, 1
  {
    var count := |v.elems|;
    childNavs := [];
    for i := 0 to count
      invariant childNavs + PosNavs(v, pred, keys, i) == PosNavs(v, pred, keys, 0)
    {
      childNavs := NavPosition(v, pred, keys, i, v.elems[i], childNavs);
    }
  }

  /** One element, given with its index: navigate it and append a Pos child when its subtree matched. */
  method NavPosition(v: Value, pred: Value -> bool, keys: bool, i: nat, elem: Value, childNavs: seq<Pos>) returns (childNavs': seq<Pos>)
    requires (v.VecV? || v.SeqV?) && i < |Items(v)| && elem == Items(v)[i]
    ensures childNavs' == childNavs + PosNav(v, pred, keys, i)
    ensures childNavs' + PosNavs(v, pred, keys, i + 1) == childNavs + PosNavs(v, pred, keys, i)
    decreases v, 0
  {
    assert Children(v)[i] == elem;
    var nav := NavWhen(elem, pred, keys);
    childNavs' := if nav.Some? then childNavs + [Pos(i, nav.value)] else childNavs;
    Shift(childNavs, PosNav(v, pred, keys, i), PosNavs(v, pred, keys, i + 1), PosNavs(v, pred, keys, i));
  }

  /** The member loop of the set builders: a Mem child per member whose subtree matched. */
  method NavMembers(s: Value, pred: Value -> bool, keys: bool) returns (childNavs: seq<Mem>)
    requires s.SetV?
    ensures childNavs == MemNavs(s, pred, keys, 0)
    decreases s, 1
  {
    childNavs := [];
    for i := 0 to |s.members|
      invariant childNavs + MemNavs(s, pred, keys, i) == MemNavs(s, pred, keys, 0)
    {
      childNavs := NavMember(s, pred, keys, i, childNavs);
    }
  }

  /** One member: navigate it and append a Mem child when its subtree matched. */
  method NavMember(s: Value, pred: Value -> bool, keys: bool, i: nat, childNavs: seq<Mem>) returns (childNavs': seq<Mem>)
    requires s.SetV? && i < |s.members|
    ensures childNavs' == childNavs + MemNav(s, pred, keys, i)
    ensures childNavs' + MemNavs(s, pred, keys, i + 1) == childNavs + MemNavs(s, pred, keys, i)
    decreases s, 0
  {
    var elem := s.members[i];
    assert Children(s)[i] == elem;
    var nav := NavWhen(elem, pred, keys);
    childNavs' := if nav.Some? then childNavs + [Mem(elem, nav.value)] else childNavs;
    Shift(childNavs, MemNav(s, pred, keys, i), MemNavs(s, pred, keys, i + 1), MemNavs(s, pred, keys, i));
  }

  /** navSeq on a non-empty sequence: walk the items, then test the sequence itself. */
  method NavSeq(obj: Value, pred: Value -> bool, keys: bool) returns (nav: Option<Nav>)
    requires obj.SeqV? && obj.items != []
    ensures nav == NavOf(obj, pred, keys)
    decreases obj, 2
  {
    var childNavs, count := NavItems(obj, pred, keys);
    var predRes := pred(obj);
    if childNavs != [] || predRes {
      nav := Some(SeqNav(childNavs, predRes, count));
    } else {
      nav := None;
    }
  }

  /** The cursor loop of navSeq: walk the items with an index, which ends as the length. */
  method NavItems(obj: Value, pred: Value -> bool, keys: bool) returns (childNavs: seq<Pos>, idx: nat)
    requires obj.SeqV?
    ensures childNavs == PosNavs(obj, pred, keys, 0)
    ensures idx == |obj.items|
    decreases obj, 1
  {
    var s := obj.items;
    idx := 0;
    childNavs := [];
    while s != []
      invariant idx <= |obj.items| && s == obj.items[idx..]
      invariant childNavs + PosNavs(obj, pred, keys, idx) == PosNavs(obj, pred, keys, 0)
      decreases |s|
    {
      childNavs := NavPosition(obj, pred, keys, idx, s[0], childNavs);
      idx := idx + 1;
      s := s[1..];
    }
  }

  /**
   * What a transform returns: obj itself when nothing matched, otherwise the
   * outcome of replaying its nav with tf as a function replacer (REMOVE when
   * tf removes the root).
   */
  function Transformed(obj: Value, pred: Value -> bool, keys: bool, tf: Value -> Out): Out
    requires Wf(obj)
  {
    match NavOf(obj, pred, keys)
    case None => Kept(obj)
    case Some(n) => NavFits(obj, pred, keys); Replay(n, obj, FunctionSource(tf)).0
  }

  /** transformWhen of Transform (keys false) and of TransformKeys (keys true). */
  method TransformWhen(obj: Value, pred: Value -> bool, keys: bool, tf: Value -> Out) returns (res: Out)
    requires Wf(obj)
    ensures res == Transformed(obj, pred, keys, tf)
  {
    var nav := NavWhen(obj, pred, keys);
    if nav.None? {
      return Kept(obj);
    }
    NavFits(obj, pred, keys);
    var r := new Replacer.Function(tf);
    res := ApplyUpdates(nav.value, obj, r);
  }
}
