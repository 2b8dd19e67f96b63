/**
 * Laws that relate the builders, the match lists and replay.
 *
 * removeIndices keeps the survivors in their original order: its result is
 * the vector with the listed indices taken out one by one, from the highest
 * down, and so has count - |indices| elements.
 *
 * Replaying the nav of v with a source that hands back each match itself,
 * the k-th call answering the k-th match, rebuilds v. Such a source is the
 * list replacer over the match list, the way update-paths feeds externally
 * computed replacements back, or the identity function. The law holds on
 * values the rebuild reproduces exactly: no set (re-adding members changes
 * their iteration order), no sub-vector (which is rebuilt as a persistent
 * vector), no empty sequence (its match is nil, so the list replacer hands
 * nil back in its place), and without key testing (whose two-pass rebuild
 * reorders entries, and which replays a matched key before its value while
 * the key is matched after the value).
 */
module ReplayLaws {
  import opened Values
  import opened Replacers
  import opened NavSpec
  import opened ScanSpec
  import opened ScanLemmas
  import opened Transform

  // ---------------------------------------------------------------------------
  // removeIndices
  // ---------------------------------------------------------------------------

  /** xs with the elements at the ascending indices ix removed, the highest index first. */
  function DropAt(xs: seq<Value>, ix: seq<nat>): (r: seq<Value>)
    requires Ascending(ix, |xs|)
    decreases |ix|
  {
    if ix == [] then xs
    else
      var l := ix[|ix| - 1];
      DropAt(xs[..l] + xs[l + 1..], ix[..|ix| - 1])
  }

  /** Removing one index at a time drops exactly one element per index. */
  lemma {:induction false} DropAtLength(xs: seq<Value>, ix: seq<nat>)
    requires Ascending(ix, |xs|)
    ensures |DropAt(xs, ix)| == |xs| - |ix|
    decreases |ix|
  {
    if ix != [] {
      var l := ix[|ix| - 1];
      DropAtLength(xs[..l] + xs[l + 1..], ix[..|ix| - 1]);
    }
  }

  /** Every index before the last of an ascending list is below the last. */
  lemma AscendingPrefix(ix: seq<nat>, size: nat)
    requires Ascending(ix, size) && ix != []
    ensures var l := ix[|ix| - 1]; l < size && Ascending(ix[..|ix| - 1], l)
  {
  }

  /** Marking a last index l as well marks just position l. */
  lemma MarkLast(xs: seq<Value>, ix: seq<nat>)
    requires ix != [] && ix[|ix| - 1] < |xs| && forall t :: 0 <= t < |ix| - 1 ==> ix[t] < ix[|ix| - 1]
    ensures var l := ix[|ix| - 1]; var m := Mark(xs, ix[..|ix| - 1]);
      Mark(xs, ix) == m[..l] + [Removed] + m[l + 1..]
  {
    var l := ix[|ix| - 1];
    var ix' := ix[..|ix| - 1];
    assert forall j :: j in ix <==> j in ix' || j == l;
    assert l !in ix';
  }

  /** Marking indices below l in xs without element l is marking them before l and keeping the rest. */
  lemma MarkWithout(xs: seq<Value>, ix': seq<nat>, l: nat)
    requires l < |xs| && forall t :: 0 <= t < |ix'| ==> ix'[t] < l
    ensures Mark(xs[..l] + xs[l + 1..], ix') == Mark(xs, ix')[..l] + Lift(xs[l + 1..])
    ensures Mark(xs, ix')[l + 1..] == Lift(xs[l + 1..])
  {
    assert forall j :: j in ix' ==> j < l;
  }

  /** A removal mark between a and b collapses to nothing. */
  lemma CollapseSkip(a: seq<Out>, b: seq<Out>)
    ensures Collapse(a + [Removed] + b) == Collapse(a + b)
  {
    CollapseAppend(a + [Removed], b);
    CollapseAppend(a, [Removed]);
    CollapseAppend(a, b);
  }

  /**
   * What VecRemover.removeIndices keeps (Collapse of the marked vector) is
   * the vector with the listed indices removed: the survivors in their
   * original order, count - |indices| of them.
   */
  lemma {:induction false} RemoveIndicesDropsListed(xs: seq<Value>, ix: seq<nat>)
    requires Ascending(ix, |xs|)
    ensures Collapse(Mark(xs, ix)) == DropAt(xs, ix)
    ensures |Collapse(Mark(xs, ix))| == |xs| - |ix|
    decreases |ix|
  {
    DropAtLength(xs, ix);
    if ix == [] {
      CollapseMarkNone(xs);
    } else {
      var l := ix[|ix| - 1];
      var ix' := ix[..|ix| - 1];
      var xs' := xs[..l] + xs[l + 1..];
      AscendingPrefix(ix, |xs|);
      RemoveIndicesDropsListed(xs', ix');
      var m' := Mark(xs, ix');
      MarkLast(xs, ix);
      MarkWithout(xs, ix', l);
      CollapseSkip(m'[..l], m'[l + 1..]);
      assert DropAt(xs, ix) == DropAt(xs', ix');
    }
  }

  // ---------------------------------------------------------------------------
  // Replaying the matches themselves
  // ---------------------------------------------------------------------------

  /**
   * Nothing in v that the scans descend into is a set or a sub-vector, and,
   * unless empties holds, nothing is an empty sequence either (its one match
   * is nil, so only a replacer that answers nil with the list itself echoes it).
   */
  predicate Exact(v: Value, empties: bool)
    decreases v
  {
    && !v.SetV? && !(v.VecV? && v.vkind == SubVector) && (empties || !(v.SeqV? && v.items == []))
    && forall j :: 0 <= j < |Children(v)| ==> Exact(Children(v)[j], empties)
  }

  /** The k-th call of src answers the k-th of ms itself: the identity function, or a list replacer positioned on ms. */
  ghost predicate Echoes(src: Source, ms: seq<Value>) {
    match src
    case FunctionSource(f) => forall x :: f(x) == Kept(x)
    case ListSource(rs, i) => i + |ms| <= |rs| && forall k :: 0 <= k < |ms| ==> rs[i + k] == Kept(ms[k])
  }

  /** A source that echoes ms can serve |ms| calls. */
  lemma EchoesHas(src: Source, ms: seq<Value>)
    requires Echoes(src, ms)
    ensures src.Has(|ms|)
  {
  }

  /** A source that echoes a + b echoes a, and then b. */
  lemma EchoesSplit(src: Source, a: seq<Value>, b: seq<Value>)
    requires Echoes(src, a + b)
    ensures src.Has(|a| + |b|) && Echoes(src, a) && Echoes(src.Advance(|a|), b)
  {
    if src.ListSource? {
      forall k | 0 <= k < |a| ensures src.replacements[src.idx + k] == Kept(a[k]) {
        assert (a + b)[k] == a[k];
      }
      forall k | 0 <= k < |b| ensures src.replacements[src.idx + |a| + k] == Kept(b[k]) {
        assert (a + b)[|a| + k] == b[k];
      }
    }
  }

  /** A source that echoes [x] answers its next call on x with x. */
  lemma EchoReplace(src: Source, x: Value)
    requires Echoes(src, [x])
    ensures src.Has(1) && src.Replace(x).0 == Kept(x)
  {
    if src.ListSource? {
      assert src.replacements[src.idx + 0] == Kept([x][0]);
    }
  }

  /** Assoc of the key and value of an entry of a distinct-key map leaves the map as it is. */
  lemma {:induction false} AssocPresent(es: seq<Entry>, i: nat)
    requires DistinctKeys(es) && i < |es|
    ensures Assoc(es, es[i].key, es[i].val) == es
    decreases i
  {
    HeadAndTail(es);
    if i > 0 {
      assert es[1..][i - 1] == es[i];
      AssocPresent(es[1..], i - 1);
      assert es[0].key != es[i].key;
    }
  }

  /** The slice from c that starts with x continues with the slice from c + 1. */
  lemma SliceCons<T>(s: seq<T>, c: nat, x: T, rest: seq<T>)
    requires c < |s| && s[c..] == [x] + rest
    ensures s[c] == x && s[c + 1..] == rest
  {
    assert s[c..][0] == s[c];
    assert s[c + 1..] == s[c..][1..];
  }

  /** Every child of v has a nav exactly when it has matches, making one call per match. */
  lemma ChildrenMatch(v: Value, pred: Value -> bool)
    requires Wf(v)
    ensures ChildCallsMatch(v, pred, false)
  {
    ChildrenWf(v);
    forall j | 0 <= j < |Children(v)| ensures CallsMatch(Children(v)[j], pred, false) {
      NavCalls(Children(v)[j], pred, false);
    }
  }

  /** Child j of v is well-formed and Exact, and has a nav exactly when it has matches. */
  lemma ChildFacts(v: Value, pred: Value -> bool, j: nat, empties: bool)
    requires Wf(v) && Exact(v, empties) && j < |Children(v)|
    ensures Wf(Children(v)[j]) && Exact(Children(v)[j], empties) && CallsMatch(Children(v)[j], pred, false)
  {
    ChildrenWf(v);
    NavCalls(Children(v)[j], pred, false);
  }

  /** A child without a nav has no matches. */
  lemma NoNavNoMatches(v: Value, pred: Value -> bool, j: nat)
    requires Wf(v) && j < |Children(v)| && NavOf(Children(v)[j], pred, false).None?
    ensures Matches(Children(v)[j], pred, false) == []
  {
    ChildrenWf(v);
    NavCalls(Children(v)[j], pred, false);
  }

  /** Entry j contributes its value's matches and its recorded child, if any. */
  lemma EntryUnfold(v: Value, pred: Value -> bool, j: nat)
    requires v.MapV? && j < |v.entries|
    ensures ChildMatches(v, pred, false, j) == Matches(v.entries[j].val, pred, false) + ChildMatches(v, pred, false, j + 1)
    ensures EntryNavs(v, pred, false, j) == EntryNav(v, pred, false, j) + EntryNavs(v, pred, false, j + 1)
    ensures Children(v)[j] == v.entries[j].val
  {
    assert ChildMatch(v, pred, false, j) == Matches(v.entries[j].val, pred, false);
  }

  /** Element j contributes its matches and its recorded child, if any. */
  lemma PosUnfold(v: Value, pred: Value -> bool, j: nat)
    requires (v.VecV? || v.SeqV?) && j < |Items(v)|
    ensures ChildMatches(v, pred, false, j) == Matches(Items(v)[j], pred, false) + ChildMatches(v, pred, false, j + 1)
    ensures PosNavs(v, pred, false, j) == PosNav(v, pred, false, j) + PosNavs(v, pred, false, j + 1)
    ensures Children(v)[j] == Items(v)[j]
  {
    assert Children(v)[j] == Items(v)[j];
    assert ChildMatch(v, pred, false, j) == Matches(Items(v)[j], pred, false);
  }

  /**
   * The first child recorded for entries j.. belongs to the first entry idx
   * at or after j whose value has a nav; the entries between have no matches.
   */
  lemma {:induction false} EntrySkip(v: Value, pred: Value -> bool, j: nat) returns (idx: nat)
    requires v.MapV? && Wf(v) && j <= |v.entries| && EntryNavs(v, pred, false, j) != []
    ensures j <= idx < |v.entries| && NavOf(v.entries[idx].val, pred, false).Some?
    ensures EntryNavs(v, pred, false, j)
         == [Val(v.entries[idx].key, NavOf(v.entries[idx].val, pred, false).value)] + EntryNavs(v, pred, false, idx + 1)
    ensures ChildMatches(v, pred, false, j) == Matches(v.entries[idx].val, pred, false) + ChildMatches(v, pred, false, idx + 1)
    decreases |v.entries| - j
  {
    var x := v.entries[j].val;
    EntryUnfold(v, pred, j);
    if NavOf(x, pred, false).None? {
      NoNavNoMatches(v, pred, j);
      idx := EntrySkip(v, pred, j + 1);
    } else {
      idx := j;
    }
  }

  /**
   * The first child recorded for elements j.. is at the first index at or
   * after j whose element has a nav; the elements between have no matches.
   */
  lemma {:induction false} PosSkip(v: Value, pred: Value -> bool, j: nat) returns (idx: nat)
    requires (v.VecV? || v.SeqV?) && Wf(v) && j <= |Items(v)| && PosNavs(v, pred, false, j) != []
    ensures j <= idx < |Items(v)| && NavOf(Items(v)[idx], pred, false).Some?
    ensures PosNavs(v, pred, false, j) == [Pos(idx, NavOf(Items(v)[idx], pred, false).value)] + PosNavs(v, pred, false, idx + 1)
    ensures ChildMatches(v, pred, false, j) == Matches(Items(v)[idx], pred, false) + ChildMatches(v, pred, false, idx + 1)
    decreases |Items(v)| - j
  {
    var x := Items(v)[j];
    PosUnfold(v, pred, j);
    if NavOf(x, pred, false).None? {
      NoNavNoMatches(v, pred, j);
      idx := PosSkip(v, pred, j + 1);
    } else {
      idx := j;
    }
  }

  /** The map children c.. recorded for entries j.. make one call per match of those entries. */
  lemma EntryCallsAt(v: Value, pred: Value -> bool, n: Nav, c: nat, j: nat)
    requires v.MapV? && Wf(v) && IsMapNav(n)
    requires c <= |n.children| && j <= |v.entries| && n.children[c..] == EntryNavs(v, pred, false, j)
    ensures ChildCalls(n, c) == |ChildMatches(v, pred, false, j)|
  {
    ChildrenMatch(v, pred);
    EntryNavsCalls(v, pred, false, j);
    ChildCallsOfChildren(n, c);
  }

  /** The positional children c.. recorded for elements j.. make one call per match of those elements. */
  lemma PosCallsAt(v: Value, pred: Value -> bool, n: Nav, c: nat, j: nat)
    requires (v.VecV? || v.SeqV?) && Wf(v) && IsPosNav(n)
    requires c <= |n.positions| && j <= |Items(v)| && n.positions[c..] == PosNavs(v, pred, false, j)
    ensures ChildCalls(n, c) == |ChildMatches(v, pred, false, j)|
  {
    ChildrenMatch(v, pred);
    PosNavsCalls(v, pred, false, j);
    ChildCallsOfChildren(n, c);
  }

  /** A child replayed to the value it had, followed by a pass that keeps the entries, keeps the entries. */
  lemma ValStepKeep(n: Nav, v: Value, c: nat, src: Source, j: nat, cn: Nav, m: nat)
    requires v.MapV? && Wf(v) && IsMapNav(n) && AllVal(n.children) && Fits(n, v)
    requires c < |n.children| && src.Has(ChildCalls(n, c))
    requires j < |v.entries| && n.children[c] == Val(v.entries[j].key, cn) && Calls(cn) == m
    requires Fits(cn, v.entries[j].val) && src.Has(m) && src.Advance(m).Has(ChildCalls(n, c + 1))
    requires Replay(cn, v.entries[j].val, src).0 == Kept(v.entries[j].val)
    requires ValPass(n, v, c + 1, v.entries, src.Advance(m)).0 == v.entries
    ensures ValPass(n, v, c, v.entries, src).0 == v.entries
  {
    SplitCalls(src, ChildCall(n, c), ChildCalls(n, c + 1));
    GetEntry(v.entries, j);
    AssocPresent(v.entries, j);
    assert ValStep(n, v, c, v.entries, src) == (v.entries, src.Advance(m));
  }

  /** The recorded indices of a positional nav that fits v are ascending and inside v. */
  lemma PosFits(n: Nav, v: Value)
    requires IsPosNav(n) && Fits(n, v)
    ensures PositionsFit(n.positions, |Items(v)|)
  {
    assert Shape(n, v);
  }

  /** The outcomes of keeping the recorded element at each of ps from c on. */
  function KeptFrom(xs: seq<Value>, ps: seq<Pos>, c: nat): (r: seq<Out>)
    requires c <= |ps| && forall d :: 0 <= d < |ps| ==> ps[d].index < |xs|
    decreases |ps| - c
  {
    if c == |ps| then [] else [Kept(xs[ps[c].index])] + KeptFrom(xs, ps, c + 1)
  }

  /** Outcome d, counted from c, keeps the element recorded at position c + d. */
  lemma {:induction false} KeptFromAt(xs: seq<Value>, ps: seq<Pos>, c: nat, d: nat)
    requires c + d < |ps| && forall e :: 0 <= e < |ps| ==> ps[e].index < |xs|
    ensures |KeptFrom(xs, ps, c)| == |ps| - c && KeptFrom(xs, ps, c)[d] == Kept(xs[ps[c + d].index])
    decreases d
  {
    KeptFromLength(xs, ps, c);
    if d > 0 {
      KeptFromAt(xs, ps, c + 1, d - 1);
    }
  }

  lemma {:induction false} KeptFromLength(xs: seq<Value>, ps: seq<Pos>, c: nat)
    requires c <= |ps| && forall e :: 0 <= e < |ps| ==> ps[e].index < |xs|
    ensures |KeptFrom(xs, ps, c)| == |ps| - c
    decreases |ps| - c
  {
    if c < |ps| {
      KeptFromLength(xs, ps, c + 1);
    }
  }

  /** A child replayed to its element, followed by outcomes that keep theirs, keeps every element from c. */
  lemma OutcomesKeep(n: Nav, v: Value, c: nat, src: Source, idx: nat, cn: Nav, m: nat)
    requires IsPosNav(n) && Fits(n, v) && c < |n.positions| && src.Has(ChildCalls(n, c))
    requires n.positions[c] == Pos(idx, cn) && Calls(cn) == m && idx < |Items(v)|
    requires Fits(cn, Items(v)[idx]) && src.Has(m) && src.Advance(m).Has(ChildCalls(n, c + 1))
    requires PositionsFit(n.positions, |Items(v)|)
    requires Replay(cn, Items(v)[idx], src).0 == Kept(Items(v)[idx])
    requires Outcomes(n, v, c + 1, src.Advance(m)).0 == KeptFrom(Items(v), n.positions, c + 1)
    ensures Outcomes(n, v, c, src).0 == KeptFrom(Items(v), n.positions, c)
  {
    OutcomesStep(n, v, c, src);
  }

  /** Outcomes that keep every recorded element patch nothing. */
  lemma PatchEchoes(xs: seq<Value>, ps: seq<Pos>)
    requires PositionsFit(ps, |xs|)
    ensures |KeptFrom(xs, ps, 0)| == |ps| && Patch(Lift(xs), ps, KeptFrom(xs, ps, 0)) == Lift(xs)
  {
    KeptFromLength(xs, ps, 0);
    var outs := KeptFrom(xs, ps, 0);
    forall j | 0 <= j < |xs| ensures Patch(Lift(xs), ps, outs)[j] == Lift(xs)[j] {
      if d :| 0 <= d < |ps| && ps[d].index == j {
        KeptFromAt(xs, ps, 0, d);
        PatchHit(Lift(xs), ps, outs, d);
      } else {
        PatchMiss(Lift(xs), ps, outs, j);
      }
    }
  }

  /**
   * Replaying the nav of v with a source that echoes the matches of v gives
   * v back. With the list replacer this says that the k-th replacement lands
   * at the position of the k-th match: the match order is the replay order.
   */
  lemma {:induction false} EchoReplay(v: Value, pred: Value -> bool, src: Source)
    requires Wf(v) && Exact(v, src.FunctionSource?) && NavOf(v, pred, false).Some?
    requires Echoes(src, Matches(v, pred, false))
    ensures Fits(NavOf(v, pred, false).value, v) && src.Has(Calls(NavOf(v, pred, false).value))
    ensures Replay(NavOf(v, pred, false).value, v, src).0 == Kept(v)
    decreases v, 2
  {
    NavFits(v, pred, false);
    NavCalls(v, pred, false);
    var ms := Matches(v, pred, false);
    EchoesHas(src, ms);
    if IsScalar(v) {
      if src.ListSource? {
        assert ms == [v];
      }
      EchoReplace(src, v);
    } else {
      var n := NavOf(v, pred, false).value;
      var cm := ChildMatches(v, pred, false, 0);
      assert ms == cm + Hit(pred, v);
      assert n.terminal == pred(v);
      EchoesSplit(src, cm, Hit(pred, v));
      if v.MapV? {
        EchoRebuildMap(v, pred, src);
      } else {
        EchoRebuildPos(v, pred, src);
      }
      SplitCalls(src, ChildCalls(n, 0), if n.terminal then 1 else 0);
      if n.terminal {
        EchoReplace(src.Advance(|cm|), v);
      }
    }
  }

  /** A map whose single pass keeps its entries is rebuilt as itself. */
  lemma MapRebuildSame(n: Nav, v: Value, src: Source)
    requires IsMapNav(n) && Fits(n, v) && AllVal(n.children) && (n.MapStruct? || !n.hasKeyTransforms)
    requires src.Has(ChildCalls(n, 0)) && ValPass(n, v, 0, v.entries, src).0 == v.entries
    ensures Rebuild(n, v, src).0 == v
  {
  }

  /** A positional value whose outcomes keep every recorded element is rebuilt as itself. */
  lemma PosRebuildSame(n: Nav, v: Value, src: Source)
    requires (n.VecEdit? || n.SeqNav?) && Fits(n, v) && src.Has(ChildCalls(n, 0))
    requires PositionsFit(n.positions, |Items(v)|)
    requires Outcomes(n, v, 0, src).0 == KeptFrom(Items(v), n.positions, 0)
    ensures Rebuild(n, v, src).0 == v
  {
    PatchEchoes(Items(v), n.positions);
    CollapseLift(Items(v));
  }

  /** A map rebuilt from its children's echoed replays is the map itself. */
  lemma EchoRebuildMap(v: Value, pred: Value -> bool, src: Source)
    requires v.MapV? && Wf(v) && Exact(v, src.FunctionSource?) && NavOf(v, pred, false).Some?
    requires Echoes(src, ChildMatches(v, pred, false, 0))
    ensures Fits(NavOf(v, pred, false).value, v)
    ensures ChildCalls(NavOf(v, pred, false).value, 0) == |ChildMatches(v, pred, false, 0)|
    ensures src.Has(ChildCalls(NavOf(v, pred, false).value, 0))
    ensures Rebuild(NavOf(v, pred, false).value, v, src).0 == v
    decreases v, 1
  {
    NavFits(v, pred, false);
    var n := NavOf(v, pred, false).value;
    assert n.children == EntryNavs(v, pred, false, 0) && (n.MapStruct? || !n.hasKeyTransforms);
    assert n.children[0..] == n.children;
    EchoEntries(v, pred, n, src, 0, 0);
    MapRebuildSame(n, v, src);
  }

  /** A vector or sequence rebuilt from its children's echoed replays is the value itself. */
  lemma EchoRebuildPos(v: Value, pred: Value -> bool, src: Source)
    requires (v.VecV? || v.SeqV?) && !IsScalar(v) && Wf(v) && Exact(v, src.FunctionSource?) && NavOf(v, pred, false).Some?
    requires Echoes(src, ChildMatches(v, pred, false, 0))
    ensures Fits(NavOf(v, pred, false).value, v)
    ensures ChildCalls(NavOf(v, pred, false).value, 0) == |ChildMatches(v, pred, false, 0)|
    ensures src.Has(ChildCalls(NavOf(v, pred, false).value, 0))
    ensures Rebuild(NavOf(v, pred, false).value, v, src).0 == v
    decreases v, 1
  {
    NavFits(v, pred, false);
    var n := NavOf(v, pred, false).value;
    assert n.positions == PosNavs(v, pred, false, 0) && (n.VecEdit? || n.SeqNav?);
    assert n.positions[0..] == n.positions;
    EchoPositions(v, pred, n, src, 0, 0);
    PosFits(n, v);
    PosRebuildSame(n, v, src);
  }

  /** The next recorded map child, at c, is the Val child of entry idx, with m matches, and the rest follows. */
  lemma EntryHead(v: Value, pred: Value -> bool, n: Nav, src: Source, c: nat, j: nat) returns (idx: nat, cn: Nav, m: nat)
    requires v.MapV? && Wf(v) && Exact(v, src.FunctionSource?) && IsMapNav(n)
    requires c < |n.children| && j <= |v.entries| && n.children[c..] == EntryNavs(v, pred, false, j)
    requires Echoes(src, ChildMatches(v, pred, false, j))
    ensures idx < |v.entries| && n.children[c] == Val(v.entries[idx].key, cn) && n.children[c + 1..] == EntryNavs(v, pred, false, idx + 1)
    ensures Wf(v.entries[idx].val) && Exact(v.entries[idx].val, src.FunctionSource?) && NavOf(v.entries[idx].val, pred, false) == Some(cn)
    ensures Echoes(src, Matches(v.entries[idx].val, pred, false)) && Calls(cn) == m && m == |Matches(v.entries[idx].val, pred, false)|
    ensures Echoes(src.Advance(m), ChildMatches(v, pred, false, idx + 1))
    ensures Fits(cn, v.entries[idx].val) && src.Has(m) && Replay(cn, v.entries[idx].val, src).0 == Kept(v.entries[idx].val)
    decreases v, 0, 0
  {
    idx := EntrySkip(v, pred, j);
    var e := v.entries[idx];
    cn := NavOf(e.val, pred, false).value;
    m := |Matches(e.val, pred, false)|;
    assert Children(v)[idx] == e.val;
    ChildFacts(v, pred, idx, src.FunctionSource?);
    SliceCons(n.children, c, Val(e.key, cn), EntryNavs(v, pred, false, idx + 1));
    EchoesSplit(src, Matches(e.val, pred, false), ChildMatches(v, pred, false, idx + 1));
    EchoReplay(e.val, pred, src);
  }

  /**
   * The single pass over map children c.. , which are the children recorded
   * for entries j.. , with a source echoing those entries' matches: every
   * rebuilt value is the original one, so the entries stay as they are.
   */
  lemma {:induction false} EchoEntries(v: Value, pred: Value -> bool, n: Nav, src: Source, c: nat, j: nat)
    requires v.MapV? && Wf(v) && Exact(v, src.FunctionSource?) && IsMapNav(n) && AllVal(n.children) && Fits(n, v)
    requires c <= |n.children| && j <= |v.entries| && n.children[c..] == EntryNavs(v, pred, false, j)
    requires Echoes(src, ChildMatches(v, pred, false, j))
    ensures ChildCalls(n, c) == |ChildMatches(v, pred, false, j)|
    ensures src.Has(ChildCalls(n, c))
    ensures ValPass(n, v, c, v.entries, src).0 == v.entries
    decreases v, 0, |n.children| - c
  {
    EntryCallsAt(v, pred, n, c, j);
    EchoesHas(src, ChildMatches(v, pred, false, j));
    if c < |n.children| {
      var idx, cn, m := EntryHead(v, pred, n, src, c, j);
      EchoEntries(v, pred, n, src.Advance(m), c + 1, idx + 1);
      ValStepKeep(n, v, c, src, idx, cn, m);
    }
  }

  /** The next recorded positional child, at c, is the Pos child of element idx, with m matches, and the rest follows. */
  lemma PosHead(v: Value, pred: Value -> bool, n: Nav, src: Source, c: nat, j: nat) returns (idx: nat, cn: Nav, m: nat)
    requires (v.VecV? || v.SeqV?) && Wf(v) && Exact(v, src.FunctionSource?) && IsPosNav(n)
    requires c < |n.positions| && j <= |Items(v)| && n.positions[c..] == PosNavs(v, pred, false, j)
    requires Echoes(src, ChildMatches(v, pred, false, j))
    ensures idx < |Items(v)| && n.positions[c] == Pos(idx, cn) && n.positions[c + 1..] == PosNavs(v, pred, false, idx + 1)
    ensures Wf(Items(v)[idx]) && Exact(Items(v)[idx], src.FunctionSource?) && NavOf(Items(v)[idx], pred, false) == Some(cn)
    ensures Echoes(src, Matches(Items(v)[idx], pred, false)) && Calls(cn) == m && m == |Matches(Items(v)[idx], pred, false)|
    ensures Echoes(src.Advance(m), ChildMatches(v, pred, false, idx + 1))
    ensures Fits(cn, Items(v)[idx]) && src.Has(m) && Replay(cn, Items(v)[idx], src).0 == Kept(Items(v)[idx])
    decreases v, 0, 0
  {
    idx := PosSkip(v, pred, j);
    var x := Items(v)[idx];
    cn := NavOf(x, pred, false).value;
    m := |Matches(x, pred, false)|;
    assert Children(v)[idx] == x;
    ChildFacts(v, pred, idx, src.FunctionSource?);
    SliceCons(n.positions, c, Pos(idx, cn), PosNavs(v, pred, false, idx + 1));
    EchoesSplit(src, Matches(x, pred, false), ChildMatches(v, pred, false, idx + 1));
    EchoReplay(x, pred, src);
  }

  /**
   * The replays of positional children c.. , which are the children recorded
   * for elements j.. , with a source echoing those elements' matches: each
   * keeps its original element.
   */
  lemma {:induction false} EchoPositions(v: Value, pred: Value -> bool, n: Nav, src: Source, c: nat, j: nat)
    requires (v.VecV? || v.SeqV?) && Wf(v) && Exact(v, src.FunctionSource?) && IsPosNav(n) && Fits(n, v)
    requires c <= |n.positions| && j <= |Items(v)| && n.positions[c..] == PosNavs(v, pred, false, j)
    requires Echoes(src, ChildMatches(v, pred, false, j))
    ensures ChildCalls(n, c) == |ChildMatches(v, pred, false, j)|
    ensures src.Has(ChildCalls(n, c))
    ensures Outcomes(n, v, c, src).0 == KeptFrom(Items(v), n.positions, c)
    decreases v, 0, |n.positions| - c
  {
    PosCallsAt(v, pred, n, c, j);
    EchoesHas(src, ChildMatches(v, pred, false, j));
    PosFits(n, v);
    if c < |n.positions| {
      var idx, cn, m := PosHead(v, pred, n, src, c, j);
      EchoPositions(v, pred, n, src.Advance(m), c + 1, idx + 1);
      OutcomesKeep(n, v, c, src, idx, cn, m);
    }
  }

  /** The list replacer over the matches themselves, from its start, echoes them. */
  lemma LiftEchoes(ms: seq<Value>)
    ensures Echoes(ListSource(Lift(ms), 0), ms)
  {
    forall k | 0 <= k < |ms| ensures Lift(ms)[0 + k] == Kept(ms[k]) {
    }
  }

  /** update-paths with each match as its own replacement returns the input, and uses up the whole list. */
  lemma ListReplayOfMatches(v: Value, pred: Value -> bool)
    requires Wf(v) && Exact(v, false) && NavOf(v, pred, false).Some?
    ensures Fits(NavOf(v, pred, false).value, v)
    ensures ListSource(Lift(Matches(v, pred, false)), 0).Has(Calls(NavOf(v, pred, false).value))
    ensures Replay(NavOf(v, pred, false).value, v, ListSource(Lift(Matches(v, pred, false)), 0))
         == (Kept(v), ListSource(Lift(Matches(v, pred, false)), |Matches(v, pred, false)|))
  {
    LiftEchoes(Matches(v, pred, false));
    EchoReplay(v, pred, ListSource(Lift(Matches(v, pred, false)), 0));
    NavCalls(v, pred, false);
  }

  /** transform-when with the identity function returns the input (Transform, without key testing). */
  lemma TransformIdentity(v: Value, pred: Value -> bool)
    requires Wf(v) && Exact(v, true)
    ensures Transformed(v, pred, false, x => Kept(x)) == Kept(v)
  {
    if NavOf(v, pred, false).Some? {
      EchoReplay(v, pred, FunctionSource(x => Kept(x)));
    }
  }
}
