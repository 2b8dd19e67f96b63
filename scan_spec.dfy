/**
 * What the scanners compute. Every scan is depth-first and post-order: the
 * children of a composite (map values, vector and sequence elements, set
 * members, in iteration order) are scanned before the predicate is applied to
 * the composite itself. An empty sequence is scanned as the scalar nil.
 *
 * The keys flag selects the key-testing variants: Matches(v, pred, false)
 * is the match list of ScannerMatches and ScannerMatchesNav, and
 * Matches(v, pred, true) that of ScannerMatchesKeys, which also tests every
 * map key after that entry's value. NavOf(v, pred, false) is the nav that
 * ScannerMatchesNav and Transform build, NavOf(v, pred, true) the one
 * TransformKeys builds, which tests the keys of every map except a struct map.
 */
module ScanSpec {
  import opened Values
  import opened NavSpec

  /** The values a scan descends into, in iteration order. */
  function Children(v: Value): (cs: seq<Value>)
    ensures forall i :: 0 <= i < |cs| ==> cs[i] < v
    ensures v.MapV? ==> |cs| == |v.entries| && forall i :: 0 <= i < |cs| ==> cs[i] == v.entries[i].val
    ensures v.VecV? ==> cs == v.elems
    ensures v.SetV? ==> cs == v.members
    ensures v.SeqV? ==> cs == v.items
    ensures !IsComposite(v) ==> cs == []
  {
    match v
    case MapV(_, es, _) => seq(|es|, i requires 0 <= i < |es| => es[i].val)
    case VecV(_, xs, _) => xs
    case SetV(_, ms, _) => ms
    case SeqV(xs, _) => xs
    case _ => []
  }

  /** A leaf, or an empty sequence: scanned as a scalar. */
  predicate IsScalar(v: Value) {
    !IsComposite(v) || (v.SeqV? && v.items == [])
  }

  /** The value the predicate sees for a scalar: nil for the empty sequence. */
  function ScalarOf(v: Value): Value {
    if v.SeqV? then Nil else v
  }

  /** x, when it matches. */
  function Hit(pred: Value -> bool, x: Value): seq<Value> {
    if pred(x) then [x] else []
  }

  // ---------------------------------------------------------------------------
  // Match lists
  // ---------------------------------------------------------------------------

  /** The matches of a scan of v, in append order. */
  function Matches(v: Value, pred: Value -> bool, keys: bool): seq<Value>
    decreases v, 1
  {
    if IsScalar(v) then Hit(pred, ScalarOf(v))
    else ChildMatches(v, pred, keys, 0) + Hit(pred, v)
  }

  /** The matches of the subtree of child i of v; with keys, a map entry's key follows its value's matches. */
  function ChildMatch(v: Value, pred: Value -> bool, keys: bool, i: nat): seq<Value>
    requires i < |Children(v)|
    decreases v, 0, 0
  {
    Matches(Children(v)[i], pred, keys) + (if keys && v.MapV? then Hit(pred, v.entries[i].key) else [])
  }

  /** The matches of the subtrees of children i.. of v, in order. */
  function ChildMatches(v: Value, pred: Value -> bool, keys: bool, i: nat): seq<Value>
    requires i <= |Children(v)|
    decreases v, 0, |Children(v)| - i
  {
    if i == |Children(v)| then [] else ChildMatch(v, pred, keys, i) + ChildMatches(v, pred, keys, i + 1)
  }

  /** Appending x and then the rest is appending the whole, when the whole is x followed by the rest. */
  lemma Shift<T>(done: seq<T>, x: seq<T>, rest: seq<T>, whole: seq<T>)
    requires whole == x + rest
    ensures (done + x) + rest == done + whole
  {
  }

  // ---------------------------------------------------------------------------
  // Navs
  // ---------------------------------------------------------------------------

  /** The nav builder tests the keys of this map: keys are on and it is not a struct map. */
  predicate TestsKeys(v: Value, keys: bool) {
    keys && v.MapV? && v.mkind != StructMap
  }

  /**
   * The child recorded for map entry i, if any: a Val child when only the
   * value's subtree matched, and when keys are examined a Key child when only
   * the key matched and a KeyVal child when both did; nothing when neither.
   */
  function EntryNav(v: Value, pred: Value -> bool, keys: bool, i: nat): (r: seq<KeyNav>)
    requires v.MapV? && i < |v.entries|
    ensures |r| <= 1
    decreases v, 0, 0
  {
    assert v.entries[i].val == Children(v)[i];
    var k := v.entries[i].key;
    var termK := TestsKeys(v, keys) && pred(k);
    match NavOf(v.entries[i].val, pred, keys)
    case Some(c) => if termK then [KeyVal(k, c)] else [Val(k, c)]
    case None => if termK then [Key(k)] else []
  }

  /** The children recorded for map entries i.. , in iteration order. */
  function EntryNavs(v: Value, pred: Value -> bool, keys: bool, i: nat): seq<KeyNav>
    requires v.MapV? && i <= |v.entries|
    decreases v, 0, |v.entries| - i
  {
    if i == |v.entries| then [] else EntryNav(v, pred, keys, i) + EntryNavs(v, pred, keys, i + 1)
  }

  /** The nav of element i with its index, if its subtree matched. */
  function PosNav(v: Value, pred: Value -> bool, keys: bool, i: nat): (r: seq<Pos>)
    requires (v.VecV? || v.SeqV?) && i < |Items(v)|
    ensures |r| <= 1
    decreases v, 0, 0
  {
    assert Items(v)[i] == Children(v)[i];
    match NavOf(Items(v)[i], pred, keys)
    case Some(c) => [Pos(i, c)]
    case None => []
  }

  /** The navs of the elements i.. whose subtree matched, with their indices. */
  function PosNavs(v: Value, pred: Value -> bool, keys: bool, i: nat): seq<Pos>
    requires (v.VecV? || v.SeqV?) && i <= |Items(v)|
    decreases v, 0, |Items(v)| - i
  {
    if i == |Items(v)| then [] else PosNav(v, pred, keys, i) + PosNavs(v, pred, keys, i + 1)
  }

  /** The nav of member i with the member, if its subtree matched. */
  function MemNav(v: Value, pred: Value -> bool, keys: bool, i: nat): (r: seq<Mem>)
    requires v.SetV? && i < |v.members|
    ensures |r| <= 1
    decreases v, 0, 0
  {
    assert v.members[i] == Children(v)[i];
    match NavOf(v.members[i], pred, keys)
    case Some(c) => [Mem(v.members[i], c)]
    case None => []
  }

  /** The navs of the members i.. whose subtree matched, with the members. */
  function MemNavs(v: Value, pred: Value -> bool, keys: bool, i: nat): seq<Mem>
    requires v.SetV? && i <= |v.members|
    decreases v, 0, |v.members| - i
  {
    if i == |v.members| then [] else MemNav(v, pred, keys, i) + MemNavs(v, pred, keys, i + 1)
  }

  /** Some key of entries i.. matches. */
  predicate KeyHitFrom(es: seq<Entry>, pred: Value -> bool, i: nat)
    requires i <= |es|
  {
    exists j :: i <= j < |es| && pred(es[j].key)
  }

  /**
   * The nav recorded for v: None when nothing in v matched. The map
   * variant follows the concrete map (struct, editable hash or array map,
   * other), the vector variant whether the vector supports transients, the
   * set variant whether the set does; hasKeyTransforms is set when the
   * map's keys are examined and one of them matched.
   */
  function NavOf(v: Value, pred: Value -> bool, keys: bool): Option<Nav>
    decreases v, 1, 0
  {
    if IsScalar(v) then (if pred(ScalarOf(v)) then Some(Scalar) else None)
    else
      var t := pred(v);
      match v
      case MapV(kind, es, _) =>
        var cs := EntryNavs(v, pred, keys, 0);
        var hk := TestsKeys(v, keys) && KeyHitFrom(es, pred, 0);
        if cs == [] && !t then None
        else if kind == StructMap then Some(MapStruct(cs, t))
        else if kind == SortedMap then Some(MapPersistent(cs, t, hk))
        else Some(MapEditable(cs, t, hk))
      case VecV(kind, _, _) =>
        var ps := PosNavs(v, pred, keys, 0);
        if ps == [] && !t then None
        else if kind == PersistentVector then Some(VecEdit(ps, t))
        else Some(VecPersistent(ps, t))
      case SetV(kind, _, _) =>
        var ms := MemNavs(v, pred, keys, 0);
        if ms == [] && !t then None
        else if kind == HashSet then Some(SetEdit(ms, t))
        else Some(SetPersistent(ms, t))
      case SeqV(xs, _) =>
        var ps := PosNavs(v, pred, keys, 0);
        if ps == [] && !t then None else Some(SeqNav(ps, t, |xs|))
  }
}
