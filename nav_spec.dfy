/**
 * Navigation records and the meaning of replaying them.
 *
 * A nav node records, for one composite or matched leaf, which children hold
 * matches and whether the node itself matched (terminal). Replay mirrors the
 * node: it rebuilds each recorded child, rebuilds the composite with the
 * strategy of its variant, and passes the result through the replacement
 * source when the node is terminal. The functions here say what replay
 * computes; module Nav holds the imperative engine proved equal to them.
 *
 * A null children list is the empty sequence here: the builders never record
 * an empty non-null list, and replaying an empty list rebuilds the same value.
 */
module NavSpec {
  import opened Values
  import opened Replacers

  /** A map entry's navigation: into the value only, the key only, or both. */
  datatype KeyNav =
    | Val(key: Value, child: Nav)
    | Key(key: Value)
    | KeyVal(key: Value, child: Nav)

  /** A positional element of a vector or sequence. */
  datatype Pos = Pos(index: nat, child: Nav)

  /** A set member. */
  datatype Mem = Mem(member: Value, child: Nav)

  /** The sealed family of updatable navigation nodes, one variant per rebuild strategy. */
  datatype Nav =
    | MapEditable(children: seq<KeyNav>, terminal: bool, hasKeyTransforms: bool)
    | MapPersistent(children: seq<KeyNav>, terminal: bool, hasKeyTransforms: bool)
    | MapStruct(children: seq<KeyNav>, terminal: bool)
    | VecEdit(positions: seq<Pos>, terminal: bool)
    | VecPersistent(positions: seq<Pos>, terminal: bool)
    | SeqNav(positions: seq<Pos>, terminal: bool, length: nat)
    | SetEdit(members: seq<Mem>, terminal: bool)
    | SetPersistent(members: seq<Mem>, terminal: bool)
    | Scalar

  predicate IsMapNav(n: Nav) {
    n.MapEditable? || n.MapPersistent? || n.MapStruct?
  }

  predicate IsPosNav(n: Nav) {
    n.VecEdit? || n.VecPersistent? || n.SeqNav?
  }

  predicate IsMemNav(n: Nav) {
    n.SetEdit? || n.SetPersistent?
  }

  /** The number of recorded children of a composite node. */
  function Arity(n: Nav): nat {
    if IsMapNav(n) then |n.children|
    else if IsPosNav(n) then |n.positions|
    else if IsMemNav(n) then |n.members|
    else 0
  }

  /** The elements of a vector or sequence, in order. */
  function Items(v: Value): seq<Value> {
    if v.VecV? then v.elems else if v.SeqV? then v.items else []
  }

  // ---------------------------------------------------------------------------
  // Shape: which data a nav can be replayed against
  // ---------------------------------------------------------------------------

  /** Indices strictly increasing and inside a collection of the given size. */
  predicate PositionsFit(ps: seq<Pos>, size: nat) {
    && (forall i :: 0 <= i < |ps| ==> ps[i].index < size)
    && (forall i, j :: 0 <= i < j < |ps| ==> ps[i].index < ps[j].index)
  }

  predicate AllVal(cs: seq<KeyNav>) {
    forall i :: 0 <= i < |cs| ==> cs[i].Val?
  }

  /**
   * The casts of replay succeed: a map nav meets a map (an editable one for
   * MapEditable), a vector nav a vector (a persistent vector for VecEdit), a
   * sequence nav a sequence, a set nav a set (a hash set for SetEdit);
   * positions are ascending and in range; a single-pass map nav holds only
   * Val children.
   */
  predicate Shape(n: Nav, data: Value) {
    match n
    case Scalar => true
    case MapEditable(cs, _, hk) =>
      data.MapV? && (data.mkind == HashMap || data.mkind == ArrayMap) && (!hk ==> AllVal(cs))
    case MapPersistent(cs, _, hk) => data.MapV? && (!hk ==> AllVal(cs))
    case MapStruct(cs, _) => data.MapV? && AllVal(cs)
    case VecEdit(ps, _) => data.VecV? && data.vkind == PersistentVector && PositionsFit(ps, |data.elems|)
    case VecPersistent(ps, _) => data.VecV? && PositionsFit(ps, |data.elems|)
    case SeqNav(ps, _, _) => data.SeqV? && PositionsFit(ps, |data.items|)
    case SetEdit(_, _) => data.SetV? && data.skind == HashSet
    case SetPersistent(_, _) => data.SetV?
  }

  /** Child i carries a nav: every child except a Key child. */
  predicate HasChildNav(n: Nav, i: nat)
    requires i < Arity(n)
  {
    !(IsMapNav(n) && n.children[i].Key?)
  }

  /** The nav of child i. */
  function ChildNav(n: Nav, i: nat): (c: Nav)
    requires i < Arity(n) && HasChildNav(n, i)
    ensures c < n
  {
    if IsMapNav(n) then n.children[i].child
    else if IsPosNav(n) then n.positions[i].child
    else n.members[i].child
  }

  /** The original element child i navigates into: the value at its key (nil when absent), the element at its index, or its member. */
  function ChildData(n: Nav, data: Value, i: nat): Value
    requires Shape(n, data) && i < Arity(n)
  {
    if IsMapNav(n) then Get(data.entries, n.children[i].key)
    else if IsPosNav(n) then Items(data)[n.positions[i].index]
    else n.members[i].member
  }

  /** Replay of n against data is defined: the shape holds here and every child nav fits its element. */
  predicate Fits(n: Nav, data: Value)
    decreases n, 1
  {
    Shape(n, data) && forall i :: 0 <= i < Arity(n) ==> ChildFits(n, data, i)
  }

  predicate ChildFits(n: Nav, data: Value, i: nat)
    requires Shape(n, data) && i < Arity(n)
    decreases n, 0
  {
    HasChildNav(n, i) ==> Fits(ChildNav(n, i), ChildData(n, data, i))
  }

  // ---------------------------------------------------------------------------
  // Replacer calls: one per terminal node, per Scalar, per recorded key
  // ---------------------------------------------------------------------------

  /** The number of replace calls a replay of n makes. */
  function Calls(n: Nav): nat
    decreases n, 1, 0
  {
    if n.Scalar? then 1 else (if n.terminal then 1 else 0) + ChildCalls(n, 0)
  }

  /** The replace calls made by children i.. of n. */
  function ChildCalls(n: Nav, i: nat): nat
    requires i <= Arity(n)
    decreases n, 0, Arity(n) - i
  {
    if i == Arity(n) then 0 else ChildCall(n, i) + ChildCalls(n, i + 1)
  }

  /** The replace calls made by child i: one for a recorded key, plus those of its nav. */
  function ChildCall(n: Nav, i: nat): nat
    requires i < Arity(n)
    decreases n, 0, 0
  {
    (if IsMapNav(n) && !n.children[i].Val? then 1 else 0)
    + (if HasChildNav(n, i) then Calls(ChildNav(n, i)) else 0)
  }

  // ---------------------------------------------------------------------------
  // Replay
  // ---------------------------------------------------------------------------

  /**
   * applyUpdates: the outcome of replaying n against data, and the source
   * afterwards. A Scalar hands data to the source; a composite is rebuilt and,
   * when terminal, the rebuilt value is handed to the source.
   */
  function Replay(n: Nav, data: Value, src: Source): (r: (Out, Source))
    requires Fits(n, data) && src.Has(Calls(n))
    ensures r.1 == src.Advance(Calls(n))
    decreases n, 3, 0
  {
    if n.Scalar? then src.Replace(data)
    else
      SplitCalls(src, ChildCalls(n, 0), if n.terminal then 1 else 0);
      var (updated, s) := Rebuild(n, data, src);
      if n.terminal then s.Replace(updated) else (Kept(updated), s)
  }

  /** The composite after its recorded children are replayed; data itself when none are recorded. */
  function Rebuild(n: Nav, data: Value, src: Source): (r: (Value, Source))
    requires !n.Scalar? && Fits(n, data) && src.Has(ChildCalls(n, 0))
    ensures r.1 == src.Advance(ChildCalls(n, 0))
    ensures Arity(n) == 0 ==> r.0 == data
    decreases n, 2, 0
  {
    if Arity(n) == 0 then (data, src)
    else
      match n
      case MapEditable(_, _, hk) =>
        var (es, s) :=
          if hk then Reinsert(n, data, 0, DropKeys(data.entries, n.children, 0), src)
          else ValPass(n, data, 0, data.entries, src);
        (WithMeta(MapV(data.mkind, es, NoMeta), data.meta), s)
      case MapPersistent(_, _, hk) =>
        var (es, s) :=
          if hk then Reinsert(n, data, 0, DropKeys(data.entries, n.children, 0), src)
          else ValPass(n, data, 0, data.entries, src);
        (data.(entries := es), s)
      case MapStruct(_, _) =>
        var (es, s) := ValPass(n, data, 0, data.entries, src);
        (data.(entries := es), s)
      case VecEdit(ps, _) =>
        var (outs, s) := Outcomes(n, data, 0, src);
        (WithMeta(VecV(PersistentVector, PosRebuild(data.elems, ps, outs), NoMeta), data.meta), s)
      case VecPersistent(ps, _) =>
        var (outs, s) := Outcomes(n, data, 0, src);
        (VecV(PersistentVector, PosRebuild(data.elems, ps, outs), data.meta), s)
      case SeqNav(ps, _, _) =>
        var (outs, s) := Outcomes(n, data, 0, src);
        (WithMeta(SeqV(PosRebuild(data.items, ps, outs), NoMeta), data.meta), s)
      case SetEdit(ms, _) =>
        var (outs, s) := Outcomes(n, data, 0, src);
        (WithMeta(SetV(data.skind, ConjAll(DisjAll(data.members, ms, 0), outs), NoMeta), data.meta), s)
      case SetPersistent(ms, _) =>
        var (outs, s) := Outcomes(n, data, 0, src);
        (data.(members := ConjAll(DisjAll(data.members, ms, 0), outs)), s)
  }

  /** Replay of child i's nav against the element it navigates into. */
  function ReplayChild(n: Nav, data: Value, i: nat, src: Source): (r: (Out, Source))
    requires Fits(n, data) && i < Arity(n) && HasChildNav(n, i) && src.Has(Calls(ChildNav(n, i)))
    ensures r.1 == src.Advance(Calls(ChildNav(n, i)))
    decreases n, 0, 0
  {
    assert ChildFits(n, data, i);
    Replay(ChildNav(n, i), ChildData(n, data, i), src)
  }

  /** The set of keys recorded by children i.. of a map nav. */
  function KeysFrom(cs: seq<KeyNav>, i: nat): set<Value>
    requires i <= |cs|
  {
    set j | i <= j < |cs| :: cs[j].key
  }

  /** First pass of a two-pass map update: drop every key recorded by children i.. . */
  function DropKeys(acc: seq<Entry>, cs: seq<KeyNav>, i: nat): (r: seq<Entry>)
    requires i <= |cs|
    ensures ToMap(r) == ToMap(acc) - KeysFrom(cs, i)
    ensures forall e :: e in r ==> e in acc
    ensures DistinctKeys(acc) ==> DistinctKeys(r)
    decreases |cs| - i
  {
    if i == |cs| then acc
    else
      assert KeysFrom(cs, i) == {cs[i].key} + KeysFrom(cs, i + 1);
      DropKeys(Dissoc(acc, cs[i].key), cs, i + 1)
  }

  /**
   * One child of the second pass of a two-pass map update: a Val child puts
   * (key, rebuilt value), a Key child (new key, original value), a KeyVal
   * child (new key, rebuilt value), the key being replaced before the value
   * is rebuilt; nothing is put when an outcome is REMOVE.
   */
  function ReinsertStep(n: Nav, data: Value, i: nat, acc: seq<Entry>, src: Source): (r: (seq<Entry>, Source))
    requires IsMapNav(n) && Fits(n, data) && i < Arity(n) && src.Has(ChildCall(n, i))
    ensures r.1 == src.Advance(ChildCall(n, i))
    ensures n.children[i].Key? && src.Replace(n.children[i].key).0.Kept? ==>
      ToMap(r.0) == ToMap(acc)[src.Replace(n.children[i].key).0.value := Get(data.entries, n.children[i].key)]
    ensures n.children[i].Val? ==>
      var o := ReplayChild(n, data, i, src).0;
      ToMap(r.0) == if o.Kept? then ToMap(acc)[n.children[i].key := o.value] else ToMap(acc)
    ensures !n.children[i].Val? && src.Replace(n.children[i].key).0.Removed? ==> r.0 == acc
    ensures n.children[i].KeyVal? && src.Replace(n.children[i].key).0.Kept? ==>
      var o := ReplayChild(n, data, i, src.Advance(1)).0;
      ToMap(r.0) == if o.Kept? then ToMap(acc)[src.Replace(n.children[i].key).0.value := o.value] else ToMap(acc)
    decreases n, 0, 1
  {
    var k := n.children[i].key;
    match n.children[i]
    case Val(_, _) =>
      var (o, s) := ReplayChild(n, data, i, src);
      (if o.Kept? then Assoc(acc, k, o.value) else acc, s)
    case Key(_) =>
      var (nk, s) := src.Replace(k);
      (if nk.Kept? then Assoc(acc, nk.value, Get(data.entries, k)) else acc, s)
    case KeyVal(_, c) =>
      SplitCalls(src, 1, Calls(c));
      var (nk, s1) := src.Replace(k);
      var (o, s2) := ReplayChild(n, data, i, s1);
      (if nk.Kept? && o.Kept? then Assoc(acc, nk.value, o.value) else acc, s2)
  }

  /** The second pass over children i.. . */
  function Reinsert(n: Nav, data: Value, i: nat, acc: seq<Entry>, src: Source): (r: (seq<Entry>, Source))
    requires IsMapNav(n) && Fits(n, data) && i <= Arity(n) && src.Has(ChildCalls(n, i))
    ensures r.1 == src.Advance(ChildCalls(n, i))
    decreases n, 1, Arity(n) - i
  {
    if i == Arity(n) then (acc, src)
    else
      SplitCalls(src, ChildCall(n, i), ChildCalls(n, i + 1));
      var (acc', s) := ReinsertStep(n, data, i, acc, src);
      Reinsert(n, data, i + 1, acc', s)
  }

  /**
   * One Val child of a single-pass map update: assoc the rebuilt value at its
   * key; on REMOVE, dissoc the key, or for a struct map assoc nil.
   */
  function ValStep(n: Nav, data: Value, i: nat, acc: seq<Entry>, src: Source): (r: (seq<Entry>, Source))
    requires IsMapNav(n) && Fits(n, data) && i < Arity(n) && n.children[i].Val? && src.Has(ChildCall(n, i))
    ensures r.1 == src.Advance(ChildCall(n, i))
    ensures ReplayChild(n, data, i, src).0.Kept? ==> ToMap(r.0) == ToMap(acc)[n.children[i].key := ReplayChild(n, data, i, src).0.value]
    ensures ReplayChild(n, data, i, src).0.Removed? && n.MapStruct? ==> ToMap(r.0) == ToMap(acc)[n.children[i].key := Nil]
    ensures ReplayChild(n, data, i, src).0.Removed? && !n.MapStruct? ==> ToMap(r.0) == ToMap(acc) - {n.children[i].key}
    decreases n, 0, 1
  {
    var k := n.children[i].key;
    var (o, s) := ReplayChild(n, data, i, src);
    (if o.Kept? then Assoc(acc, k, o.value)
     else if n.MapStruct? then Assoc(acc, k, Nil)
     else Dissoc(acc, k), s)
  }

  /** A single-pass map update over children i.. . */
  function ValPass(n: Nav, data: Value, i: nat, acc: seq<Entry>, src: Source): (r: (seq<Entry>, Source))
    requires IsMapNav(n) && AllVal(n.children) && Fits(n, data)
    requires i <= Arity(n) && src.Has(ChildCalls(n, i))
    ensures r.1 == src.Advance(ChildCalls(n, i))
    ensures forall k :: k in ToMap(acc) && k !in KeysFrom(n.children, i) ==> k in ToMap(r.0) && ToMap(r.0)[k] == ToMap(acc)[k]
    ensures forall k :: k in ToMap(r.0) ==> k in ToMap(acc) || k in KeysFrom(n.children, i)
    ensures n.MapStruct? ==> ToMap(r.0).Keys == ToMap(acc).Keys + KeysFrom(n.children, i)
    decreases n, 1, Arity(n) - i
  {
    if i == Arity(n) then (acc, src)
    else
      SplitCalls(src, ChildCall(n, i), ChildCalls(n, i + 1));
      var (acc', s) := ValStep(n, data, i, acc, src);
      ValStepFrame(n, data, i, acc, src);
      assert KeysFrom(n.children, i) == {n.children[i].key} + KeysFrom(n.children, i + 1);
      ValPass(n, data, i + 1, acc', s)
  }

  /** A single-pass step touches only its own key, and a struct map's step keeps that key. */
  lemma ValStepFrame(n: Nav, data: Value, i: nat, acc: seq<Entry>, src: Source)
    requires IsMapNav(n) && Fits(n, data) && i < Arity(n) && n.children[i].Val? && src.Has(ChildCall(n, i))
    ensures var r := ValStep(n, data, i, acc, src).0;
      && (forall k :: k != n.children[i].key ==> (k in ToMap(r) <==> k in ToMap(acc)))
      && (forall k :: k != n.children[i].key && k in ToMap(acc) ==> ToMap(r)[k] == ToMap(acc)[k])
      && (n.MapStruct? ==> ToMap(r).Keys == ToMap(acc).Keys + {n.children[i].key})
    decreases n, 0, 2
  {
  }

  /** The outcomes of replaying positional or member children i.. on their original elements, in order. */
  function Outcomes(n: Nav, data: Value, i: nat, src: Source): (r: (seq<Out>, Source))
    requires (IsPosNav(n) || IsMemNav(n)) && Fits(n, data)
    requires i <= Arity(n) && src.Has(ChildCalls(n, i))
    ensures |r.0| == Arity(n) - i
    ensures r.1 == src.Advance(ChildCalls(n, i))
    decreases n, 1, Arity(n) - i
  {
    if i == Arity(n) then ([], src)
    else
      SplitCalls(src, ChildCall(n, i), ChildCalls(n, i + 1));
      var (o, s) := ReplayChild(n, data, i, src);
      var (os, s') := Outcomes(n, data, i + 1, s);
      ([o] + os, s')
  }

  /** One step of Outcomes: child i's outcome, then the outcomes of the children after it. */
  lemma OutcomesStep(n: Nav, data: Value, i: nat, src: Source)
    requires (IsPosNav(n) || IsMemNav(n)) && Fits(n, data)
    requires i < Arity(n) && src.Has(ChildCalls(n, i))
    ensures Fits(ChildNav(n, i), ChildData(n, data, i)) && src.Has(Calls(ChildNav(n, i)))
    ensures src.Advance(Calls(ChildNav(n, i))).Has(ChildCalls(n, i + 1))
    ensures Outcomes(n, data, i, src).0
         == [ReplayChild(n, data, i, src).0] + Outcomes(n, data, i + 1, src.Advance(Calls(ChildNav(n, i)))).0
  {
    SplitCalls(src, ChildCall(n, i), ChildCalls(n, i + 1));
    assert ChildFits(n, data, i);
  }

  // ---------------------------------------------------------------------------
  // Positional rebuild: patch the recorded indices, then collapse removals
  // ---------------------------------------------------------------------------

  /** Every element kept. */
  function Lift(xs: seq<Value>): (r: seq<Out>)
    ensures |r| == |xs| && forall j :: 0 <= j < |xs| ==> r[j] == Kept(xs[j])
  {
    seq(|xs|, j requires 0 <= j < |xs| => Kept(xs[j]))
  }

  /** Outcome k written at index ps[k].index. */
  function Patch(os: seq<Out>, ps: seq<Pos>, outs: seq<Out>): (r: seq<Out>)
    requires |outs| == |ps| && forall k :: 0 <= k < |ps| ==> ps[k].index < |os|
    ensures |r| == |os|
    decreases |ps|
  {
    if ps == [] then os else Patch(os[ps[0].index := outs[0]], ps[1..], outs[1..])
  }

  /** The kept values, in order, with every REMOVE dropped. */
  function Collapse(os: seq<Out>): (r: seq<Value>)
    ensures |r| <= |os|
  {
    if os == [] then []
    else (if os[0].Kept? then [os[0].value] else []) + Collapse(os[1..])
  }

  /** The elements of a vector or sequence after the recorded positions' outcomes are applied. */
  function PosRebuild(xs: seq<Value>, ps: seq<Pos>, outs: seq<Out>): seq<Value>
    requires |outs| == |ps| && PositionsFit(ps, |xs|)
  {
    Collapse(Patch(Lift(xs), ps, outs))
  }

  /** Indices strictly ascending and below size, as removeIndices demands. */
  predicate Ascending(ix: seq<nat>, size: nat) {
    && (forall t :: 0 <= t < |ix| ==> ix[t] < size)
    && (forall t, u :: 0 <= t < u < |ix| ==> ix[t] < ix[u])
  }

  /** The elements of xs with the listed indices marked REMOVE. */
  function Mark(xs: seq<Value>, ix: seq<nat>): (r: seq<Out>)
    ensures |r| == |xs|
    ensures forall j :: 0 <= j < |xs| ==> r[j] == if j in ix then Removed else Kept(xs[j])
  {
    seq(|xs|, j requires 0 <= j < |xs| => if j in ix then Removed else Kept(xs[j]))
  }

  lemma {:induction false} CollapseAppend(a: seq<Out>, b: seq<Out>)
    ensures Collapse(a + b) == Collapse(a) + Collapse(b)
    decreases |a|
  {
    if a == [] {
      assert a + b == b;
    } else {
      assert (a + b)[0] == a[0] && (a + b)[1..] == a[1..] + b;
      CollapseAppend(a[1..], b);
      var h := if a[0].Kept? then [a[0].value] else [];
      assert Collapse(a + b) == h + (Collapse(a[1..]) + Collapse(b));
      assert Collapse(a) == h + Collapse(a[1..]);
    }
  }

  /** Collapsing one more element of a prefix. */
  lemma CollapseSnoc(os: seq<Out>, j: nat)
    requires j < |os|
    ensures Collapse(os[..j + 1]) == Collapse(os[..j]) + (if os[j].Kept? then [os[j].value] else [])
  {
    assert os[..j + 1] == os[..j] + [os[j]];
    CollapseAppend(os[..j], [os[j]]);
  }

  /** Collapsing a prefix extended by a run of kept elements appends the run. */
  lemma {:induction false} CollapseRun(os: seq<Out>, xs: seq<Value>, lo: nat, hi: nat)
    requires lo <= hi <= |os| && hi <= |xs|
    requires forall j :: lo <= j < hi ==> os[j] == Kept(xs[j])
    ensures Collapse(os[..hi]) == Collapse(os[..lo]) + xs[lo..hi]
    decreases hi
  {
    if lo < hi {
      CollapseRun(os, xs, lo, hi - 1);
      CollapseSnoc(os, hi - 1);
      assert xs[lo..hi] == xs[lo..hi - 1] + [xs[hi - 1]];
    }
  }

  lemma {:induction false} CollapseLift(xs: seq<Value>)
    ensures Collapse(Lift(xs)) == xs
    decreases |xs|
  {
    if xs != [] {
      assert Lift(xs)[1..] == Lift(xs[1..]);
      CollapseLift(xs[1..]);
    }
  }

  /** Marking no index keeps every element. */
  lemma CollapseMarkNone(xs: seq<Value>)
    ensures Collapse(Mark(xs, [])) == xs
  {
    assert Mark(xs, []) == Lift(xs);
    CollapseLift(xs);
  }

  /** The last listed index leaves room for the entries after it. */
  lemma {:induction false} AscendingBound(ix: seq<nat>, size: nat, t: nat)
    requires Ascending(ix, size) && t < |ix|
    ensures ix[t] + (|ix| - t) <= size
    decreases |ix| - t
  {
    if t + 1 < |ix| {
      AscendingBound(ix, size, t + 1);
    }
  }

  /** An index strictly between two consecutive listed indices is not listed. */
  lemma Unlisted(ix: seq<nat>, size: nat, t: nat, j: nat)
    requires Ascending(ix, size) && t <= |ix|
    requires t > 0 ==> ix[t - 1] < j
    requires t < |ix| ==> j < ix[t]
    ensures j !in ix
  {
  }

  /** A recorded position receives its outcome. */
  lemma {:induction false} PatchHit(os: seq<Out>, ps: seq<Pos>, outs: seq<Out>, k: nat)
    requires |outs| == |ps| && PositionsFit(ps, |os|) && k < |ps|
    ensures Patch(os, ps, outs)[ps[k].index] == outs[k]
    decreases |ps|
  {
    var os' := os[ps[0].index := outs[0]];
    if k == 0 {
      PatchMiss(os', ps[1..], outs[1..], ps[0].index);
    } else {
      PatchHit(os', ps[1..], outs[1..], k - 1);
    }
  }

  /** Patching from position i on is writing outcome i and patching from i + 1 on. */
  lemma PatchUnfold(os: seq<Out>, ps: seq<Pos>, outs: seq<Out>, i: nat)
    requires |outs| == |ps| && PositionsFit(ps, |os|) && i < |ps|
    ensures Patch(os, ps[i..], outs[i..]) == Patch(os[ps[i].index := outs[i]], ps[i + 1..], outs[i + 1..])
  {
    assert ps[i..][1..] == ps[i + 1..] && outs[i..][1..] == outs[i + 1..];
  }

  /** A position no child records keeps its element. */
  lemma {:induction false} PatchMiss(os: seq<Out>, ps: seq<Pos>, outs: seq<Out>, j: nat)
    requires |outs| == |ps| && PositionsFit(ps, |os|) && j < |os|
    requires forall k :: 0 <= k < |ps| ==> ps[k].index != j
    ensures Patch(os, ps, outs)[j] == os[j]
    decreases |ps|
  {
    if ps != [] {
      var os' := os[ps[0].index := outs[0]];
      PatchMiss(os', ps[1..], outs[1..], j);
    }
  }

  // ---------------------------------------------------------------------------
  // Set rebuild: disjoin every recorded member, then conj every kept outcome
  // ---------------------------------------------------------------------------

  /** The members recorded by children i.. of a set nav. */
  function MembersFrom(ms: seq<Mem>, i: nat): set<Value>
    requires i <= |ms|
  {
    set j | i <= j < |ms| :: ms[j].member
  }

  function DisjAll(acc: seq<Value>, ms: seq<Mem>, i: nat): (r: seq<Value>)
    requires i <= |ms|
    ensures Elems(r) == Elems(acc) - MembersFrom(ms, i)
    ensures DistinctMembers(acc) ==> DistinctMembers(r)
    decreases |ms| - i
  {
    if i == |ms| then acc
    else
      assert MembersFrom(ms, i) == {ms[i].member} + MembersFrom(ms, i + 1);
      DisjAll(Disj(acc, ms[i].member), ms, i + 1)
  }

  /** The kept values among outcomes. */
  function KeptValues(outs: seq<Out>): set<Value> {
    set j | 0 <= j < |outs| && outs[j].Kept? :: outs[j].value
  }

  function ConjAll(acc: seq<Value>, outs: seq<Out>): (r: seq<Value>)
    ensures Elems(r) == Elems(acc) + KeptValues(outs)
    ensures DistinctMembers(acc) ==> DistinctMembers(r)
    decreases |outs|
  {
    if outs == [] then acc
    else
      assert KeptValues(outs) == (if outs[0].Kept? then {outs[0].value} else {}) + KeptValues(outs[1..]) by {
        forall x | x in KeptValues(outs)
          ensures x in (if outs[0].Kept? then {outs[0].value} else {}) + KeptValues(outs[1..])
        {
          var j :| 0 <= j < |outs| && outs[j].Kept? && outs[j].value == x;
          if j > 0 { assert outs[1..][j - 1] == outs[j]; }
        }
      }
      ConjAll(if outs[0].Kept? then Conj(acc, outs[0].value) else acc, outs[1..])
  }
}
