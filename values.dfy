/**
 * The data that pathling scans and rebuilds: nested maps, vectors, sets and
 * sequences over opaque leaves, the REMOVE sentinel as an outcome type, and
 * the persistent-collection operations the replay engine relies on (lookup,
 * assoc, dissoc, conj, disj, metadata).
 */
module Values {

  datatype Option<T> = None | Some(value: T)

  /** Opaque metadata attached to a composite; NoMeta stands for nil metadata. */
  datatype Meta = NoMeta | Meta(tag: int)

  /** The concrete map representations the scanners dispatch on. */
  datatype MapKind = HashMap | ArrayMap | SortedMap | StructMap

  /** PersistentVector supports transients; SubVector (and other vectors) does not. */
  datatype VecKind = PersistentVector | SubVector

  /** PersistentHashSet supports transients; SortedSet (and other sets) does not. */
  datatype SetKind = HashSet | SortedSet

  /**
   * A value: a leaf (nil, or any scalar or opaque object, here an integer),
   * or a composite. A map is its entry sequence in iteration order, a set its
   * member sequence in iteration order.
   */
  datatype Value =
    | Nil
    | Leaf(atom: int)
    | MapV(mkind: MapKind, entries: seq<Entry>, meta: Meta)
    | VecV(vkind: VecKind, elems: seq<Value>, meta: Meta)
    | SetV(skind: SetKind, members: seq<Value>, meta: Meta)
    | SeqV(items: seq<Value>, meta: Meta)

  datatype Entry = Entry(key: Value, val: Value)

  /** What a replacement produces: a value to keep, or the REMOVE sentinel. */
  datatype Out = Kept(value: Value) | Removed

  predicate IsComposite(v: Value) {
    v.MapV? || v.VecV? || v.SetV? || v.SeqV?
  }

  /** RT.meta: the metadata of a composite, nil for a leaf. */
  function MetaOf(v: Value): Meta {
    if IsComposite(v) then v.meta else NoMeta
  }

  /** Nav.withMeta: attach non-nil metadata to a composite, otherwise return the value as is. */
  function WithMeta(v: Value, m: Meta): (r: Value)
    ensures IsComposite(v) && m != NoMeta ==> MetaOf(r) == m
    ensures m == NoMeta || !IsComposite(v) ==> r == v
    ensures r.MapV? == v.MapV? && r.VecV? == v.VecV? && r.SetV? == v.SetV? && r.SeqV? == v.SeqV?
  {
    if m != NoMeta && IsComposite(v) then v.(meta := m) else v
  }

  // ---------------------------------------------------------------------------
  // Maps as entry sequences
  // ---------------------------------------------------------------------------

  /** The map an entry sequence denotes; an earlier entry wins over a later one with the same key. */
  function ToMap(es: seq<Entry>): map<Value, Value> {
    if es == [] then map[] else ToMap(es[1..])[es[0].key := es[0].val]
  }

  predicate DistinctKeys(es: seq<Entry>) {
    forall i, j :: 0 <= i < j < |es| ==> es[i].key != es[j].key
  }

  /** RT.get: the value at key k, or nil when k is absent. */
  function Get(es: seq<Entry>, k: Value): (r: Value)
    ensures k in ToMap(es) ==> r == ToMap(es)[k]
    ensures k !in ToMap(es) ==> r == Nil
  {
    if es == [] then Nil else if es[0].key == k then es[0].val else Get(es[1..], k)
  }

  /** assoc: replace the value of k where k already is, or add (k, v) at the end. */
  function Assoc(es: seq<Entry>, k: Value, v: Value): (r: seq<Entry>)
    ensures ToMap(r) == ToMap(es)[k := v]
    ensures forall e :: e in r ==> e in es || e.key == k
    ensures DistinctKeys(es) ==> DistinctKeys(r)
  {
    if es == [] then [Entry(k, v)]
    else
      HeadAndTail(es);
      if es[0].key == k then
        ToMapCons(Entry(k, v), es[1..]);
        UpdateTwice(ToMap(es[1..]), k, es[0].val, v);
        DistinctCons(Entry(k, v), es[1..]);
        [Entry(k, v)] + es[1..]
      else
        var tail := Assoc(es[1..], k, v);
        ToMapCons(es[0], tail);
        UpdateSwap(ToMap(es[1..]), k, v, es[0].key, es[0].val);
        DistinctCons(es[0], tail);
        [es[0]] + tail
  }

  /** without / dissoc: drop every entry whose key is k. */
  function Dissoc(es: seq<Entry>, k: Value): (r: seq<Entry>)
    ensures ToMap(r) == ToMap(es) - {k}
    ensures forall e :: e in r ==> e in es
    ensures DistinctKeys(es) ==> DistinctKeys(r)
  {
    if es == [] then []
    else
      HeadAndTail(es);
      if es[0].key == k then Dissoc(es[1..], k)
      else
        var tail := Dissoc(es[1..], k);
        ToMapCons(es[0], tail);
        DistinctCons(es[0], tail);
        [es[0]] + tail
  }

  lemma UpdateTwice(m: map<Value, Value>, k: Value, a: Value, b: Value)
    ensures m[k := a][k := b] == m[k := b]
  {
  }

  lemma UpdateSwap(m: map<Value, Value>, k1: Value, v1: Value, k2: Value, v2: Value)
    requires k1 != k2
    ensures m[k1 := v1][k2 := v2] == m[k2 := v2][k1 := v1]
  {
  }

  lemma ToMapCons(e: Entry, tail: seq<Entry>)
    ensures ToMap([e] + tail) == ToMap(tail)[e.key := e.val]
  {
    assert ([e] + tail)[1..] == tail;
  }

  /** The entries after the first of a distinct entry sequence are distinct and do not repeat its key. */
  lemma HeadAndTail(es: seq<Entry>)
    requires es != []
    ensures ToMap(es) == ToMap(es[1..])[es[0].key := es[0].val]
    ensures forall e :: e in es[1..] ==> e in es
    ensures DistinctKeys(es) ==> DistinctKeys(es[1..]) && forall e :: e in es[1..] ==> e.key != es[0].key
  {
    if DistinctKeys(es) {
      forall e | e in es[1..] ensures e.key != es[0].key {
        var j :| 0 <= j < |es[1..]| && es[1..][j] == e;
        assert es[j + 1] == e;
      }
    }
  }

  lemma DistinctCons(e: Entry, tail: seq<Entry>)
    ensures DistinctKeys(tail) && (forall x :: x in tail ==> x.key != e.key) ==> DistinctKeys([e] + tail)
  {
    if DistinctKeys(tail) && (forall x :: x in tail ==> x.key != e.key) {
      forall i, j | 0 <= i < j < |[e] + tail| ensures ([e] + tail)[i].key != ([e] + tail)[j].key {
        if i == 0 {
          assert ([e] + tail)[j] == tail[j - 1];
          assert tail[j - 1] in tail;
        } else {
          assert ([e] + tail)[i] == tail[i - 1] && ([e] + tail)[j] == tail[j - 1];
        }
      }
    }
  }

  lemma {:induction false} KeysOfToMap(es: seq<Entry>)
    ensures forall k :: k in ToMap(es) <==> exists i :: 0 <= i < |es| && es[i].key == k
  {
    if es != [] {
      KeysOfToMap(es[1..]);
      forall k | k in ToMap(es) ensures exists i :: 0 <= i < |es| && es[i].key == k {
        if k != es[0].key {
          assert k in ToMap(es[1..]);
          var i :| 0 <= i < |es[1..]| && es[1..][i].key == k;
          assert es[i + 1].key == k;
        }
      }
      forall k | exists i :: 0 <= i < |es| && es[i].key == k ensures k in ToMap(es) {
        var i :| 0 <= i < |es| && es[i].key == k;
        if i > 0 { assert es[1..][i - 1].key == k; }
      }
    }
  }

  /** In a map with distinct keys, looking up the key of an entry yields that entry's value. */
  lemma {:induction false} GetEntry(es: seq<Entry>, i: nat)
    requires DistinctKeys(es) && i < |es|
    ensures Get(es, es[i].key) == es[i].val
  {
    if i > 0 {
      assert es[0].key != es[i].key;
      assert es[1..][i - 1] == es[i];
      GetEntry(es[1..], i - 1);
    }
  }

  // ---------------------------------------------------------------------------
  // Sets as member sequences
  // ---------------------------------------------------------------------------

  function Elems(ms: seq<Value>): set<Value> {
    set x | x in ms
  }

  predicate DistinctMembers(ms: seq<Value>) {
    forall i, j :: 0 <= i < j < |ms| ==> ms[i] != ms[j]
  }

  /** conj: add x unless it is already a member. */
  function Conj(ms: seq<Value>, x: Value): (r: seq<Value>)
    ensures Elems(r) == Elems(ms) + {x}
    ensures DistinctMembers(ms) ==> DistinctMembers(r)
  {
    if x in ms then ms else ms + [x]
  }

  /** disjoin: drop x. */
  function Disj(ms: seq<Value>, x: Value): (r: seq<Value>)
    ensures Elems(r) == Elems(ms) - {x}
    ensures DistinctMembers(ms) ==> DistinctMembers(r)
  {
    if ms == [] then []
    else
      var tail := Disj(ms[1..], x);
      assert Elems(ms) == {ms[0]} + Elems(ms[1..]) by {
        assert ms == [ms[0]] + ms[1..];
      }
      if ms[0] == x then tail
      else
        assert Elems([ms[0]] + tail) == {ms[0]} + Elems(tail);
        [ms[0]] + tail
  }

  // ---------------------------------------------------------------------------
  // Well-formed values
  // ---------------------------------------------------------------------------

  /** Every map in v has distinct keys and every set distinct members, at every depth. */
  predicate Wf(v: Value)
    decreases v
  {
    match v
    case MapV(_, es, _) =>
      DistinctKeys(es) && forall i :: 0 <= i < |es| ==> Wf(es[i].key) && Wf(es[i].val)
    case VecV(_, xs, _) => forall i :: 0 <= i < |xs| ==> Wf(xs[i])
    case SetV(_, ms, _) => DistinctMembers(ms) && forall i :: 0 <= i < |ms| ==> Wf(ms[i])
    case SeqV(xs, _) => forall i :: 0 <= i < |xs| ==> Wf(xs[i])
    case _ => true
  }
}
