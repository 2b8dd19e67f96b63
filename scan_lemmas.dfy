/**
 * What the nav builders guarantee: the nav of v fits v (so it can be
 * replayed against it), it exists exactly when something matched, and it
 * makes exactly one replacer call per match.
 */
module ScanLemmas {
  import opened Values
  import opened NavSpec
  import opened ScanSpec

  // ---------------------------------------------------------------------------
  // The nav fits the value it was built from
  // ---------------------------------------------------------------------------

  /** Every child of a value has a nav that fits it, when it has one. */
  predicate ChildNavsFit(v: Value, pred: Value -> bool, keys: bool) {
    forall j :: 0 <= j < |Children(v)| ==> NavOf(Children(v)[j], pred, keys).Some? ==> Fits(NavOf(Children(v)[j], pred, keys).value, Children(v)[j])
  }

  /**
   * The entry children fit: each child nav fits the value at its key, a
   * Key or KeyVal child appears only when keys are examined and some key of
   * entries i.. matched.
   */
  lemma {:induction false} EntryNavsFit(v: Value, pred: Value -> bool, keys: bool, i: nat)
    requires v.MapV? && DistinctKeys(v.entries) && i <= |v.entries| && ChildNavsFit(v, pred, keys)
    ensures forall x :: x in EntryNavs(v, pred, keys, i) && !x.Key? ==> Fits(x.child, Get(v.entries, x.key))
    ensures forall x :: x in EntryNavs(v, pred, keys, i) && !x.Val? ==> TestsKeys(v, keys) && KeyHitFrom(v.entries, pred, i)
    decreases |v.entries| - i
  {
    if i < |v.entries| {
      EntryNavsFit(v, pred, keys, i + 1);
      EntryNavFit(v, pred, keys, i);
      assert KeyHitFrom(v.entries, pred, i + 1) ==> KeyHitFrom(v.entries, pred, i);
    }
  }

  /** The child recorded for entry i fits the value at its key, and records the key only when it is examined and matched. */
  lemma EntryNavFit(v: Value, pred: Value -> bool, keys: bool, i: nat)
    requires v.MapV? && DistinctKeys(v.entries) && i < |v.entries| && ChildNavsFit(v, pred, keys)
    ensures forall x :: x in EntryNav(v, pred, keys, i) && !x.Key? ==> Fits(x.child, Get(v.entries, x.key))
    ensures forall x :: x in EntryNav(v, pred, keys, i) && !x.Val? ==> TestsKeys(v, keys) && KeyHitFrom(v.entries, pred, i)
  {
    var e := v.entries[i];
    assert Children(v)[i] == e.val;
    GetEntry(v.entries, i);
    if TestsKeys(v, keys) && pred(e.key) {
      assert KeyHitFrom(v.entries, pred, i);
    }
  }

  lemma {:induction false} PosNavsFit(v: Value, pred: Value -> bool, keys: bool, i: nat)
    requires (v.VecV? || v.SeqV?) && i <= |Items(v)| && ChildNavsFit(v, pred, keys)
    ensures PositionsFit(PosNavs(v, pred, keys, i), |Items(v)|)
    ensures forall c :: 0 <= c < |PosNavs(v, pred, keys, i)| ==> i <= PosNavs(v, pred, keys, i)[c].index
    ensures forall c :: 0 <= c < |PosNavs(v, pred, keys, i)| ==> Fits(PosNavs(v, pred, keys, i)[c].child, Items(v)[PosNavs(v, pred, keys, i)[c].index])
    decreases |Items(v)| - i
  {
    if i < |Items(v)| {
      PosNavsFit(v, pred, keys, i + 1);
      var rest := PosNavs(v, pred, keys, i + 1);
      assert Children(v)[i] == Items(v)[i];
      match NavOf(Items(v)[i], pred, keys)
      case None =>
      case Some(n) =>
        assert PosNavs(v, pred, keys, i) == [Pos(i, n)] + rest;
        ConsPositions(Pos(i, n), rest, Items(v));
    }
  }

  /** Prepending a fitting position below all the others keeps the positions fitting. */
  lemma ConsPositions(p: Pos, rest: seq<Pos>, xs: seq<Value>)
    requires p.index < |xs| && Fits(p.child, xs[p.index])
    requires PositionsFit(rest, |xs|)
    requires forall c :: 0 <= c < |rest| ==> p.index + 1 <= rest[c].index && Fits(rest[c].child, xs[rest[c].index])
    ensures PositionsFit([p] + rest, |xs|)
    ensures forall c :: 0 <= c < |[p] + rest| ==> p.index <= ([p] + rest)[c].index && Fits(([p] + rest)[c].child, xs[([p] + rest)[c].index])
  {
    var ps := [p] + rest;
    assert forall c :: 1 <= c < |ps| ==> ps[c] == rest[c - 1];
  }

  lemma {:induction false} MemNavsFit(v: Value, pred: Value -> bool, keys: bool, i: nat)
    requires v.SetV? && i <= |v.members| && ChildNavsFit(v, pred, keys)
    ensures forall c :: 0 <= c < |MemNavs(v, pred, keys, i)| ==> Fits(MemNavs(v, pred, keys, i)[c].child, MemNavs(v, pred, keys, i)[c].member)
    decreases |v.members| - i
  {
    if i < |v.members| {
      MemNavsFit(v, pred, keys, i + 1);
      var rest := MemNavs(v, pred, keys, i + 1);
      assert Children(v)[i] == v.members[i];
      match NavOf(v.members[i], pred, keys)
      case None =>
      case Some(n) =>
        var ms := [Mem(v.members[i], n)] + rest;
        assert MemNavs(v, pred, keys, i) == ms;
        assert forall c :: 1 <= c < |ms| ==> ms[c] == rest[c - 1];
    }
  }

  /** Every child of a well-formed value is well-formed. */
  lemma ChildrenWf(v: Value)
    requires Wf(v)
    ensures forall j :: 0 <= j < |Children(v)| ==> Wf(Children(v)[j])
  {
  }

  /** The nav ScannerMatchesNav, Transform and TransformKeys build for a well-formed value can be replayed against it. */
  lemma {:induction false} NavFits(v: Value, pred: Value -> bool, keys: bool)
    requires Wf(v)
    ensures NavOf(v, pred, keys).Some? ==> Fits(NavOf(v, pred, keys).value, v)
    decreases v
  {
    if !IsScalar(v) {
      ChildrenWf(v);
      forall j | 0 <= j < |Children(v)|
        ensures NavOf(Children(v)[j], pred, keys).Some? ==> Fits(NavOf(Children(v)[j], pred, keys).value, Children(v)[j])
      {
        NavFits(Children(v)[j], pred, keys);
      }
      if v.MapV? {
        MapFits(v, pred, keys);
      } else if v.SetV? {
        SetFits(v, pred, keys);
      } else {
        PositionalFits(v, pred, keys);
      }
    }
  }

  /** One level of NavFits for a map, given its children's. */
  lemma MapFits(v: Value, pred: Value -> bool, keys: bool)
    requires v.MapV? && DistinctKeys(v.entries) && ChildNavsFit(v, pred, keys)
    ensures NavOf(v, pred, keys).Some? ==> Fits(NavOf(v, pred, keys).value, v)
  {
    EntryNavsFit(v, pred, keys, 0);
    var r := NavOf(v, pred, keys);
    if r.Some? {
      var n := r.value;
      var cs := EntryNavs(v, pred, keys, 0);
      assert n.children == cs;
      assert forall c :: 0 <= c < |cs| ==> cs[c] in cs;
      assert Shape(n, v);
      forall c | 0 <= c < Arity(n) ensures ChildFits(n, v, c) {
        assert cs[c] in cs;
      }
    }
  }

  /** One level of NavFits for a vector or non-empty sequence, given its children's. */
  lemma PositionalFits(v: Value, pred: Value -> bool, keys: bool)
    requires (v.VecV? || (v.SeqV? && v.items != [])) && ChildNavsFit(v, pred, keys)
    ensures NavOf(v, pred, keys).Some? ==> Fits(NavOf(v, pred, keys).value, v)
  {
    PosNavsFit(v, pred, keys, 0);
    var r := NavOf(v, pred, keys);
    if r.Some? {
      var n := r.value;
      assert n.positions == PosNavs(v, pred, keys, 0);
      assert Shape(n, v);
      assert forall c :: 0 <= c < Arity(n) ==> ChildFits(n, v, c);
    }
  }

  /** One level of NavFits for a set, given its children's. */
  lemma SetFits(v: Value, pred: Value -> bool, keys: bool)
    requires v.SetV? && ChildNavsFit(v, pred, keys)
    ensures NavOf(v, pred, keys).Some? ==> Fits(NavOf(v, pred, keys).value, v)
  {
    MemNavsFit(v, pred, keys, 0);
    var r := NavOf(v, pred, keys);
    if r.Some? {
      var n := r.value;
      assert n.members == MemNavs(v, pred, keys, 0);
      assert forall c :: 0 <= c < Arity(n) ==> ChildFits(n, v, c);
    }
  }

  // ---------------------------------------------------------------------------
  // One replacer call per match
  // ---------------------------------------------------------------------------

  /** The replacer calls of a list of map children: one per recorded key, plus those of each child nav. */
  function KeyNavsCalls(ks: seq<KeyNav>): nat {
    if ks == [] then 0
    else (if ks[0].Val? then 0 else 1) + (if ks[0].Key? then 0 else Calls(ks[0].child)) + KeyNavsCalls(ks[1..])
  }

  function PosCalls(ps: seq<Pos>): nat {
    if ps == [] then 0 else Calls(ps[0].child) + PosCalls(ps[1..])
  }

  function MemCalls(ms: seq<Mem>): nat {
    if ms == [] then 0 else Calls(ms[0].child) + MemCalls(ms[1..])
  }

  lemma {:induction false} ChildCallsOfChildren(n: Nav, c: nat)
    requires !n.Scalar? && c <= Arity(n)
    ensures IsMapNav(n) ==> ChildCalls(n, c) == KeyNavsCalls(n.children[c..])
    ensures IsPosNav(n) ==> ChildCalls(n, c) == PosCalls(n.positions[c..])
    ensures IsMemNav(n) ==> ChildCalls(n, c) == MemCalls(n.members[c..])
    decreases Arity(n) - c
  {
    if c < Arity(n) {
      ChildCallsOfChildren(n, c + 1);
      if IsMapNav(n) {
        assert n.children[c..][1..] == n.children[c + 1..];
      } else if IsPosNav(n) {
        assert n.positions[c..][1..] == n.positions[c + 1..];
      } else {
        assert n.members[c..][1..] == n.members[c + 1..];
      }
    }
  }

  /** The calls of a composite node: one when it is terminal, plus those of its children. */
  lemma NodeCalls(n: Nav)
    requires !n.Scalar?
    ensures IsMapNav(n) ==> Calls(n) == (if n.terminal then 1 else 0) + KeyNavsCalls(n.children)
    ensures IsPosNav(n) ==> Calls(n) == (if n.terminal then 1 else 0) + PosCalls(n.positions)
    ensures IsMemNav(n) ==> Calls(n) == (if n.terminal then 1 else 0) + MemCalls(n.members)
  {
    ChildCallsOfChildren(n, 0);
    if IsMapNav(n) {
      assert n.children[0..] == n.children;
    } else if IsPosNav(n) {
      assert n.positions[0..] == n.positions;
    } else if IsMemNav(n) {
      assert n.members[0..] == n.members;
    }
  }

  /** No map in v at any depth the scans descend into is a struct map. */
  predicate NoStructMaps(v: Value)
    decreases v
  {
    && !(v.MapV? && v.mkind == StructMap)
    && forall j :: 0 <= j < |Children(v)| ==> NoStructMaps(Children(v)[j])
  }

  /**
   * The nav and the match list agree on what is recorded: without key
   * testing always, with it as long as no struct map is involved (the nav
   * builder skips struct-map keys, the match scanner does not).
   */
  predicate Aligned(v: Value, keys: bool) {
    !keys || NoStructMaps(v)
  }

  /** The nav of v exists exactly when something in v matched, and makes one call per match. */
  predicate CallsMatch(v: Value, pred: Value -> bool, keys: bool) {
    && (NavOf(v, pred, keys).None? <==> Matches(v, pred, keys) == [])
    && (NavOf(v, pred, keys).Some? ==> Calls(NavOf(v, pred, keys).value) == |Matches(v, pred, keys)|)
  }

  /** Every child's nav makes one call per match of the child's subtree, and exists exactly when it matched. */
  predicate ChildCallsMatch(v: Value, pred: Value -> bool, keys: bool) {
    forall j :: 0 <= j < |Children(v)| ==> CallsMatch(Children(v)[j], pred, keys)
  }

  lemma KeyNavsCallsCons(x: seq<KeyNav>, rest: seq<KeyNav>)
    requires |x| <= 1
    ensures KeyNavsCalls(x + rest) == KeyNavsCalls(x) + KeyNavsCalls(rest)
  {
    if |x| == 1 {
      assert (x + rest)[1..] == rest && x[1..] == [];
    } else {
      assert x + rest == rest;
    }
  }

  lemma PosCallsCons(x: seq<Pos>, rest: seq<Pos>)
    requires |x| <= 1
    ensures PosCalls(x + rest) == PosCalls(x) + PosCalls(rest)
  {
    if |x| == 1 {
      assert (x + rest)[1..] == rest && x[1..] == [];
    } else {
      assert x + rest == rest;
    }
  }

  lemma MemCallsCons(x: seq<Mem>, rest: seq<Mem>)
    requires |x| <= 1
    ensures MemCalls(x + rest) == MemCalls(x) + MemCalls(rest)
  {
    if |x| == 1 {
      assert (x + rest)[1..] == rest && x[1..] == [];
    } else {
      assert x + rest == rest;
    }
  }

  /** The child recorded for entry i makes one call per match of the entry (its value's subtree, then its key). */
  lemma EntryNavCalls(v: Value, pred: Value -> bool, keys: bool, i: nat)
    requires v.MapV? && i < |v.entries| && ChildCallsMatch(v, pred, keys) && (keys ==> v.mkind != StructMap)
    ensures KeyNavsCalls(EntryNav(v, pred, keys, i)) == |ChildMatch(v, pred, keys, i)|
    ensures EntryNav(v, pred, keys, i) == [] <==> ChildMatch(v, pred, keys, i) == []
  {
    var e := v.entries[i];
    assert Children(v)[i] == e.val;
    assert ChildMatch(v, pred, keys, i) == Matches(e.val, pred, keys) + (if keys then Hit(pred, e.key) else []);
    var x := EntryNav(v, pred, keys, i);
    if x != [] {
      assert x[1..] == [];
    }
  }

  lemma {:induction false} EntryNavsCalls(v: Value, pred: Value -> bool, keys: bool, i: nat)
    requires v.MapV? && i <= |v.entries| && ChildCallsMatch(v, pred, keys) && (keys ==> v.mkind != StructMap)
    ensures KeyNavsCalls(EntryNavs(v, pred, keys, i)) == |ChildMatches(v, pred, keys, i)|
    ensures EntryNavs(v, pred, keys, i) == [] <==> ChildMatches(v, pred, keys, i) == []
    decreases |v.entries| - i
  {
    if i < |v.entries| {
      EntryNavsCalls(v, pred, keys, i + 1);
      EntryNavCalls(v, pred, keys, i);
      KeyNavsCallsCons(EntryNav(v, pred, keys, i), EntryNavs(v, pred, keys, i + 1));
      assert EntryNavs(v, pred, keys, i) == EntryNav(v, pred, keys, i) + EntryNavs(v, pred, keys, i + 1);
      assert ChildMatches(v, pred, keys, i) == ChildMatch(v, pred, keys, i) + ChildMatches(v, pred, keys, i + 1);
    }
  }

  /** The position recorded for element i makes one call per match of its subtree. */
  lemma PosNavCalls(v: Value, pred: Value -> bool, keys: bool, i: nat)
    requires (v.VecV? || v.SeqV?) && i < |Items(v)| && ChildCallsMatch(v, pred, keys)
    ensures PosCalls(PosNav(v, pred, keys, i)) == |ChildMatch(v, pred, keys, i)|
    ensures PosNav(v, pred, keys, i) == [] <==> ChildMatch(v, pred, keys, i) == []
  {
    assert Children(v)[i] == Items(v)[i];
    assert ChildMatch(v, pred, keys, i) == Matches(Items(v)[i], pred, keys);
    var x := PosNav(v, pred, keys, i);
    if x != [] {
      assert x[1..] == [];
    }
  }

  lemma {:induction false} PosNavsCalls(v: Value, pred: Value -> bool, keys: bool, i: nat)
    requires (v.VecV? || v.SeqV?) && i <= |Items(v)| && ChildCallsMatch(v, pred, keys)
    ensures PosCalls(PosNavs(v, pred, keys, i)) == |ChildMatches(v, pred, keys, i)|
    ensures PosNavs(v, pred, keys, i) == [] <==> ChildMatches(v, pred, keys, i) == []
    decreases |Items(v)| - i
  {
    if i < |Items(v)| {
      PosNavsCalls(v, pred, keys, i + 1);
      PosNavCalls(v, pred, keys, i);
      PosCallsCons(PosNav(v, pred, keys, i), PosNavs(v, pred, keys, i + 1));
      assert PosNavs(v, pred, keys, i) == PosNav(v, pred, keys, i) + PosNavs(v, pred, keys, i + 1);
      assert ChildMatches(v, pred, keys, i) == ChildMatch(v, pred, keys, i) + ChildMatches(v, pred, keys, i + 1);
    }
  }

  /** The member recorded for member i makes one call per match of its subtree. */
  lemma MemNavCalls(v: Value, pred: Value -> bool, keys: bool, i: nat)
    requires v.SetV? && i < |v.members| && ChildCallsMatch(v, pred, keys)
    ensures MemCalls(MemNav(v, pred, keys, i)) == |ChildMatch(v, pred, keys, i)|
    ensures MemNav(v, pred, keys, i) == [] <==> ChildMatch(v, pred, keys, i) == []
  {
    assert Children(v)[i] == v.members[i];
    assert ChildMatch(v, pred, keys, i) == Matches(v.members[i], pred, keys);
    var x := MemNav(v, pred, keys, i);
    if x != [] {
      assert x[1..] == [];
    }
  }

  lemma {:induction false} MemNavsCalls(v: Value, pred: Value -> bool, keys: bool, i: nat)
    requires v.SetV? && i <= |v.members| && ChildCallsMatch(v, pred, keys)
    ensures MemCalls(MemNavs(v, pred, keys, i)) == |ChildMatches(v, pred, keys, i)|
    ensures MemNavs(v, pred, keys, i) == [] <==> ChildMatches(v, pred, keys, i) == []
    decreases |v.members| - i
  {
    if i < |v.members| {
      MemNavsCalls(v, pred, keys, i + 1);
      MemNavCalls(v, pred, keys, i);
      MemCallsCons(MemNav(v, pred, keys, i), MemNavs(v, pred, keys, i + 1));
      assert MemNavs(v, pred, keys, i) == MemNav(v, pred, keys, i) + MemNavs(v, pred, keys, i + 1);
      assert ChildMatches(v, pred, keys, i) == ChildMatch(v, pred, keys, i) + ChildMatches(v, pred, keys, i + 1);
    }
  }

  /** One level of NavCalls for a map, given its children's. */
  lemma MapCalls(v: Value, pred: Value -> bool, keys: bool)
    requires v.MapV?
    requires KeyNavsCalls(EntryNavs(v, pred, keys, 0)) == |ChildMatches(v, pred, keys, 0)|
    requires EntryNavs(v, pred, keys, 0) == [] <==> ChildMatches(v, pred, keys, 0) == []
    ensures NavOf(v, pred, keys).None? <==> Matches(v, pred, keys) == []
    ensures NavOf(v, pred, keys).Some? ==> Calls(NavOf(v, pred, keys).value) == |Matches(v, pred, keys)|
  {
    assert Matches(v, pred, keys) == ChildMatches(v, pred, keys, 0) + Hit(pred, v);
    var cs := EntryNavs(v, pred, keys, 0);
    if cs == [] && !pred(v) {
      assert NavOf(v, pred, keys) == None;
    } else {
      var n := NavOf(v, pred, keys).value;
      assert n.children == cs && n.terminal == pred(v);
      NodeCalls(n);
    }
  }

  /** One level of NavCalls for a vector or sequence, given its children's. */
  lemma PositionalCalls(v: Value, pred: Value -> bool, keys: bool)
    requires v.VecV? || (v.SeqV? && v.items != [])
    requires PosCalls(PosNavs(v, pred, keys, 0)) == |ChildMatches(v, pred, keys, 0)|
    requires PosNavs(v, pred, keys, 0) == [] <==> ChildMatches(v, pred, keys, 0) == []
    ensures NavOf(v, pred, keys).None? <==> Matches(v, pred, keys) == []
    ensures NavOf(v, pred, keys).Some? ==> Calls(NavOf(v, pred, keys).value) == |Matches(v, pred, keys)|
  {
    assert Matches(v, pred, keys) == ChildMatches(v, pred, keys, 0) + Hit(pred, v);
    var r := NavOf(v, pred, keys);
    if r.Some? {
      var n := r.value;
      assert n.positions == PosNavs(v, pred, keys, 0) && n.terminal == pred(v);
      NodeCalls(n);
    }
  }

  /** One level of NavCalls for a set, given its children's. */
  lemma SetCalls(v: Value, pred: Value -> bool, keys: bool)
    requires v.SetV?
    requires MemCalls(MemNavs(v, pred, keys, 0)) == |ChildMatches(v, pred, keys, 0)|
    requires MemNavs(v, pred, keys, 0) == [] <==> ChildMatches(v, pred, keys, 0) == []
    ensures NavOf(v, pred, keys).None? <==> Matches(v, pred, keys) == []
    ensures NavOf(v, pred, keys).Some? ==> Calls(NavOf(v, pred, keys).value) == |Matches(v, pred, keys)|
  {
    assert Matches(v, pred, keys) == ChildMatches(v, pred, keys, 0) + Hit(pred, v);
    var r := NavOf(v, pred, keys);
    if r.Some? {
      var n := r.value;
      assert n.members == MemNavs(v, pred, keys, 0) && n.terminal == pred(v);
      NodeCalls(n);
    }
  }

  /**
   * The builder returns None exactly when nothing matched, and otherwise a
   * nav whose replay calls the replacer once per match: a list replacer
   * given one replacement per match is used up exactly.
   */
  lemma {:induction false} NavCalls(v: Value, pred: Value -> bool, keys: bool)
    requires Aligned(v, keys)
    ensures NavOf(v, pred, keys).None? <==> Matches(v, pred, keys) == []
    ensures NavOf(v, pred, keys).Some? ==> Calls(NavOf(v, pred, keys).value) == |Matches(v, pred, keys)|
    decreases v
  {
    if !IsScalar(v) {
      forall j | 0 <= j < |Children(v)|
        ensures CallsMatch(Children(v)[j], pred, keys)
      {
        assert Aligned(Children(v)[j], keys);
        NavCalls(Children(v)[j], pred, keys);
      }
      if v.MapV? {
        EntryNavsCalls(v, pred, keys, 0);
        MapCalls(v, pred, keys);
      } else if v.SetV? {
        MemNavsCalls(v, pred, keys, 0);
        SetCalls(v, pred, keys);
      } else {
        PosNavsCalls(v, pred, keys, 0);
        PositionalCalls(v, pred, keys);
      }
    }
  }

  /** A matching key of a struct map among entries i.. is among the key-testing matches of those entries. */
  lemma {:induction false} StructKeyMatched(v: Value, pred: Value -> bool, i: nat, j: nat)
    requires v.MapV? && i <= j < |v.entries| && pred(v.entries[j].key)
    ensures v.entries[j].key in ChildMatches(v, pred, true, i)
    decreases j - i
  {
    if i == j {
      assert v.entries[j].key in ChildMatch(v, pred, true, j);
    } else {
      StructKeyMatched(v, pred, i + 1, j);
    }
  }

  /** The key-testing nav builder records only Val children for the entries i.. of a struct map. */
  lemma {:induction false} StructEntryNavsVal(v: Value, pred: Value -> bool, i: nat)
    requires v.MapV? && v.mkind == StructMap && i <= |v.entries|
    ensures forall c :: c in EntryNavs(v, pred, true, i) ==> c.Val?
    decreases |v.entries| - i
  {
    if i < |v.entries| {
      StructEntryNavsVal(v, pred, i + 1);
    }
  }

  /**
   * A struct map whose key matches: the key-testing match scan reports the
   * key, while the key-testing nav builder records no Key or KeyVal child,
   * for that key or any other.
   */
  lemma StructMapKeysDiffer(v: Value, pred: Value -> bool, j: nat)
    requires v.MapV? && v.mkind == StructMap && j < |v.entries| && pred(v.entries[j].key)
    ensures v.entries[j].key in Matches(v, pred, true)
    ensures NavOf(v, pred, true).Some? ==> NavOf(v, pred, true).value.MapStruct?
    ensures NavOf(v, pred, true).Some? ==> forall c :: c in NavOf(v, pred, true).value.children ==> c.Val?
  {
    StructKeyMatched(v, pred, 0, j);
    StructEntryNavsVal(v, pred, 0);
  }

  /** For instance: the single entry 1 -> 2 with 1 matching leaves a nav of None, so a transform leaves the map alone. */
  lemma StructMapKeysDifferExample()
    ensures var v := MapV(StructMap, [Entry(Leaf(1), Leaf(2))], NoMeta);
      && Matches(v, x => x == Leaf(1), true) == [Leaf(1)]
      && NavOf(v, x => x == Leaf(1), true) == None
  {
    var v := MapV(StructMap, [Entry(Leaf(1), Leaf(2))], NoMeta);
    var pred := x => x == Leaf(1);
    assert Children(v) == [Leaf(2)];
    assert ChildMatches(v, pred, true, 1) == [];
    assert ChildMatches(v, pred, true, 0) == [Leaf(1)];
    assert EntryNavs(v, pred, true, 1) == [];
    assert EntryNavs(v, pred, true, 0) == [];
  }
}
