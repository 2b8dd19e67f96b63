/**
 * The replay engine: applyUpdates of every nav variant, written as the loops
 * the source runs (a working copy reassigned child by child, a removal-index
 * list, an array filled by a moving cursor), each proved to compute what
 * NavSpec.Replay says, with the replacer object threaded through the
 * recursion.
 */
module NavReplay {
  import opened Values
  import opened Replacers
  import opened NavSpec

  /** Updatable.applyUpdates: dispatch on the nav variant. */
  method ApplyUpdates(n: Nav, data: Value, r: Replacer) returns (o: Out)
    requires Fits(n, data) && r.State().Has(Calls(n))
    modifies r
    ensures (o, r.State()) == Replay(n, data, old(r.State()))
    decreases n, 4
  {
    match n {
      case Scalar => o := r.Replace(data);
      case MapEditable(_, _, _) => o := MapEditableApply(n, data, r);
      case MapPersistent(_, _, _) => o := MapPersistentApply(n, data, r);
      case MapStruct(_, _) => o := MapStructApply(n, data, r);
      case VecEdit(_, _) => o := VecEditApply(n, data, r);
      case VecPersistent(_, _) => o := VecPersistentApply(n, data, r);
      case SeqNav(_, _, _) => o := SeqNavApply(n, data, r);
      case SetEdit(_, _) => o := SetEditApply(n, data, r);
      case SetPersistent(_, _) => o := SetPersistentApply(n, data, r);
    }
  }

  // ---------------------------------------------------------------------------
  // Maps
  // ---------------------------------------------------------------------------

  /** Two passes over the children: without every recorded key, then the Val/Key/KeyVal reinsertions. */
  method TwoPass(n: Nav, data: Value, r: Replacer) returns (tm: seq<Entry>)
    requires (n.MapEditable? || n.MapPersistent?) && Fits(n, data) && r.State().Has(ChildCalls(n, 0))
    modifies r
    ensures (tm, r.State()) == Reinsert(n, data, 0, DropKeys(data.entries, n.children, 0), old(r.State()))
    decreases n, 2
  {
    var cs := n.children;
    tm := data.entries;
    for i := 0 to |cs|
      invariant DropKeys(tm, cs, i) == DropKeys(data.entries, cs, 0)
    {
      tm := Dissoc(tm, cs[i].key);
    }
    ghost var goal := Reinsert(n, data, 0, tm, old(r.State()));
    for i := 0 to |cs|
      invariant r.State().Has(ChildCalls(n, i))
      invariant Reinsert(n, data, i, tm, r.State()) == goal
    {
      SplitCalls(r.State(), ChildCall(n, i), ChildCalls(n, i + 1));
      tm := ReinsertChild(n, data, i, tm, r);
    }
  }

  /** One child of the second pass: Val puts the rebuilt value, Key the new key, KeyVal both. */
  method ReinsertChild(n: Nav, data: Value, i: nat, tm: seq<Entry>, r: Replacer) returns (tm': seq<Entry>)
    requires IsMapNav(n) && Fits(n, data) && i < Arity(n) && r.State().Has(ChildCall(n, i))
    modifies r
    ensures (tm', r.State()) == ReinsertStep(n, data, i, tm, old(r.State()))
    decreases n, 1
  {
    assert ChildFits(n, data, i);
    tm' := tm;
    match n.children[i] {
      case Val(k, c) =>
        var rebuilt := ApplyUpdates(c, Get(data.entries, k), r);
        if rebuilt.Kept? {
          tm' := Assoc(tm, k, rebuilt.value);
        }
      case Key(k) =>
        var newK := r.Replace(k);
        if newK.Kept? {
          tm' := Assoc(tm, newK.value, Get(data.entries, k));
        }
      case KeyVal(k, c) =>
        SplitCalls(r.State(), 1, Calls(c));
        var newK := r.Replace(k);
        var rebuilt := ApplyUpdates(c, Get(data.entries, k), r);
        if newK.Kept? && rebuilt.Kept? {
          tm' := Assoc(tm, newK.value, rebuilt.value);
        }
    }
  }

  /** One pass over Val children: assoc the rebuilt value, or without the key on REMOVE (nil for a struct map). */
  method OnePass(n: Nav, data: Value, r: Replacer) returns (tm: seq<Entry>)
    requires IsMapNav(n) && AllVal(n.children) && Fits(n, data)
    requires r.State().Has(ChildCalls(n, 0))
    modifies r
    ensures (tm, r.State()) == ValPass(n, data, 0, data.entries, old(r.State()))
    decreases n, 2
  {
    var cs := n.children;
    ghost var goal := ValPass(n, data, 0, data.entries, old(r.State()));
    tm := data.entries;
    for i := 0 to |cs|
      invariant r.State().Has(ChildCalls(n, i))
      invariant ValPass(n, data, i, tm, r.State()) == goal
    {
      SplitCalls(r.State(), ChildCall(n, i), ChildCalls(n, i + 1));
      tm := ValChild(n, data, i, tm, r);
    }
  }

  /** One Val child of a single pass. */
  method ValChild(n: Nav, data: Value, i: nat, tm: seq<Entry>, r: Replacer) returns (tm': seq<Entry>)
    requires IsMapNav(n) && Fits(n, data) && i < Arity(n) && n.children[i].Val? && r.State().Has(ChildCall(n, i))
    modifies r
    ensures (tm', r.State()) == ValStep(n, data, i, tm, old(r.State()))
    decreases n, 1
  {
    assert ChildFits(n, data, i);
    var v := n.children[i];
    var rebuilt := ApplyUpdates(v.child, Get(data.entries, v.key), r);
    if n.MapStruct? {
      // no dissoc on a struct map: REMOVE is stored as nil
      tm' := Assoc(tm, v.key, if rebuilt.Removed? then Nil else rebuilt.value);
    } else if rebuilt.Kept? {
      tm' := Assoc(tm, v.key, rebuilt.value);
    } else {
      tm' := Dissoc(tm, v.key);
    }
  }

  method MapEditableApply(n: Nav, data: Value, r: Replacer) returns (o: Out)
    requires n.MapEditable? && Fits(n, data) && r.State().Has(Calls(n))
    modifies r
    ensures (o, r.State()) == Replay(n, data, old(r.State()))
    decreases n, 3
  {
    SplitCalls(r.State(), ChildCalls(n, 0), if n.terminal then 1 else 0);
    var updated: Value;
    if |n.children| != 0 {
      var tm: seq<Entry>;
      if n.hasKeyTransforms {
        tm := TwoPass(n, data, r);
      } else {
        tm := OnePass(n, data, r);
      }
      updated := WithMeta(MapV(data.mkind, tm, NoMeta), data.meta);
    } else {
      updated := data;
    }
    if n.terminal {
      o := r.Replace(updated);
    } else {
      o := Kept(updated);
    }
  }

  method MapPersistentApply(n: Nav, data: Value, r: Replacer) returns (o: Out)
    requires n.MapPersistent? && Fits(n, data) && r.State().Has(Calls(n))
    modifies r
    ensures (o, r.State()) == Replay(n, data, old(r.State()))
    decreases n, 3
  {
    SplitCalls(r.State(), ChildCalls(n, 0), if n.terminal then 1 else 0);
    var updated: Value;
    if |n.children| != 0 {
      var result: seq<Entry>;
      if n.hasKeyTransforms {
        result := TwoPass(n, data, r);
      } else {
        result := OnePass(n, data, r);
      }
      // persistent operations keep the metadata
      updated := data.(entries := result);
    } else {
      updated := data;
    }
    if n.terminal {
      o := r.Replace(updated);
    } else {
      o := Kept(updated);
    }
  }

  method MapStructApply(n: Nav, data: Value, r: Replacer) returns (o: Out)
    requires n.MapStruct? && Fits(n, data) && r.State().Has(Calls(n))
    modifies r
    ensures (o, r.State()) == Replay(n, data, old(r.State()))
    decreases n, 3
  {
    SplitCalls(r.State(), ChildCalls(n, 0), if n.terminal then 1 else 0);
    var updated: Value;
    if |n.children| != 0 {
      var result := OnePass(n, data, r);
      updated := data.(entries := result);
    } else {
      updated := data;
    }
    if n.terminal {
      o := r.Replace(updated);
    } else {
      o := Kept(updated);
    }
  }

  // ---------------------------------------------------------------------------
  // Vectors and sequences
  // ---------------------------------------------------------------------------

  /**
   * The replay of positional or member child i on elem, its original
   * element: one step of Outcomes.
   */
  method ReplayElement(n: Nav, data: Value, i: nat, elem: Value, r: Replacer) returns (o: Out)
    requires (IsPosNav(n) || IsMemNav(n)) && Fits(n, data) && i < Arity(n)
    requires elem == ChildData(n, data, i) && r.State().Has(ChildCalls(n, i))
    modifies r
    ensures r.State().Has(ChildCalls(n, i + 1))
    ensures r.State().Advance(ChildCalls(n, i + 1)) == old(r.State()).Advance(ChildCalls(n, i))
    ensures o == Outcomes(n, data, i, old(r.State())).0[0]
    ensures Outcomes(n, data, i + 1, r.State()).0 == Outcomes(n, data, i, old(r.State())).0[1..]
    decreases n, 0
  {
    SplitCalls(r.State(), ChildCall(n, i), ChildCalls(n, i + 1));
    OutcomesStep(n, data, i, r.State());
    o := ApplyUpdates(ChildNav(n, i), elem, r);
  }

  /** Appends xs[from..to] to list, one element at a time. */
  method CopyRun(list: seq<Value>, xs: seq<Value>, lo: nat, hi: nat) returns (list': seq<Value>)
    requires lo <= hi <= |xs|
    ensures list' == list + xs[lo..hi]
  {
    list' := list;
    for j := lo to hi
      invariant list' == list + xs[lo..j]
    {
      assert xs[lo..j + 1] == xs[lo..j] + [xs[j]];
      list' := list' + [xs[j]];
    }
  }

  /** Writes xs[from..to] into arr from pos on, advancing the cursor. */
  method FillRun(arr: array<Value>, pos: nat, xs: seq<Value>, lo: nat, hi: nat) returns (pos': nat)
    requires lo <= hi <= |xs| && pos + (hi - lo) <= arr.Length
    modifies arr
    ensures pos' == pos + (hi - lo)
    ensures arr[..pos'] == old(arr[..pos]) + xs[lo..hi]
  {
    pos' := pos;
    for j := lo to hi
      invariant pos' == pos + (j - lo)
      invariant arr[..pos'] == old(arr[..pos]) + xs[lo..j]
    {
      assert xs[lo..j + 1] == xs[lo..j] + [xs[j]];
      arr[pos'] := xs[j];
      assert arr[..pos' + 1] == arr[..pos'] + [xs[j]];
      pos' := pos' + 1;
    }
  }

  /** The elements strictly between listed indices k - 1 and k are unmarked. */
  lemma UnmarkedRun(xs: seq<Value>, ix: seq<nat>, k: nat, lo: nat, hi: nat)
    requires Ascending(ix, |xs|) && k <= |ix| && hi <= |xs|
    requires k > 0 ==> ix[k - 1] < lo
    requires k < |ix| ==> hi <= ix[k]
    ensures forall j :: lo <= j < hi ==> Mark(xs, ix)[j] == Kept(xs[j])
  {
    forall j | lo <= j < hi ensures Mark(xs, ix)[j] == Kept(xs[j]) {
      Unlisted(ix, |xs|, k, j);
    }
  }

  /** The direct-adoption path of removeIndices: runs between the indices copied into an array of the final size. */
  method AdoptRuns(xs: seq<Value>, indices: seq<nat>) returns (res: seq<Value>)
    requires Ascending(indices, |xs|) && |indices| <= |xs|
    ensures res == Collapse(Mark(xs, indices))
  {
    var end := |xs|;
    var finalSize := end - |indices|;
    ghost var marked := Mark(xs, indices);
    var arr := new Value[finalSize];
    var pos := 0;
    var prevEnd: nat := 0;
    for k := 0 to |indices|
      invariant (k == 0 ==> prevEnd == 0) && (k > 0 ==> prevEnd == indices[k - 1] + 1)
      invariant k <= prevEnd <= end && pos == prevEnd - k && pos <= finalSize == arr.Length
      invariant arr[..pos] == Collapse(marked[..prevEnd])
    {
      var removeIdx := indices[k];
      AscendingBound(indices, end, k);
      UnmarkedRun(xs, indices, k, prevEnd, removeIdx);
      CollapseRun(marked, xs, prevEnd, removeIdx);
      pos := FillRun(arr, pos, xs, prevEnd, removeIdx);
      CollapseSnoc(marked, removeIdx);
      prevEnd := removeIdx + 1;
    }
    UnmarkedRun(xs, indices, |indices|, prevEnd, end);
    CollapseRun(marked, xs, prevEnd, end);
    pos := FillRun(arr, pos, xs, prevEnd, end);
    assert marked[..end] == marked && arr[..] == arr[..pos];
    res := arr[..];
  }

  /** The transient path of removeIndices: runs between the indices conj'd onto an empty vector. */
  method ConjRuns(xs: seq<Value>, indices: seq<nat>) returns (res: seq<Value>)
    requires Ascending(indices, |xs|)
    ensures res == Collapse(Mark(xs, indices))
  {
    var end := |xs|;
    ghost var marked := Mark(xs, indices);
    res := [];
    var prevEnd: nat := 0;
    for k := 0 to |indices|
      invariant (k == 0 ==> prevEnd == 0) && (k > 0 ==> prevEnd == indices[k - 1] + 1)
      invariant prevEnd <= end
      invariant res == Collapse(marked[..prevEnd])
    {
      var removeIdx := indices[k];
      UnmarkedRun(xs, indices, k, prevEnd, removeIdx);
      CollapseRun(marked, xs, prevEnd, removeIdx);
      res := CopyRun(res, xs, prevEnd, removeIdx);
      CollapseSnoc(marked, removeIdx);
      prevEnd := removeIdx + 1;
    }
    UnmarkedRun(xs, indices, |indices|, prevEnd, end);
    CollapseRun(marked, xs, prevEnd, end);
    res := CopyRun(res, xs, prevEnd, end);
    assert marked[..end] == marked;
  }

  /**
   * VecRemover.removeIndices: the elements of v outside the ascending index
   * list, as a fresh vector with meta attached when it is not nil; v itself
   * (meta attached) when there is no index. Up to 32 remaining elements are
   * copied into an adopted array, more are conj'd onto a transient.
   */
  method RemoveIndices(v: Value, indices: seq<nat>, meta: Meta) returns (r: Value)
    requires v.VecV? && Ascending(indices, |v.elems|)
    ensures indices == [] ==> r == WithMeta(v, meta)
    ensures indices != [] ==> r == WithMeta(VecV(PersistentVector, Collapse(Mark(v.elems, indices)), NoMeta), meta)
  {
    if |indices| == 0 {
      return WithMeta(v, meta);
    }
    AscendingBound(indices, |v.elems|, 0);
    var finalSize := |v.elems| - |indices|;
    var elems;
    if finalSize <= 32 {
      elems := AdoptRuns(v.elems, indices);
    } else {
      elems := ConjRuns(v.elems, indices);
    }
    r := WithMeta(VecV(PersistentVector, elems, NoMeta), meta);
  }

  /** Marking one more index, or writing a kept value at an unmarked one, patches the marked view there. */
  lemma MarkStep(tv: seq<Value>, removals: seq<nat>, idx: nat, o: Out)
    requires idx < |tv| && idx !in removals
    ensures o.Removed? ==> Mark(tv, removals + [idx]) == Mark(tv, removals)[idx := o]
    ensures o.Kept? ==> Mark(tv[idx := o.value], removals) == Mark(tv, removals)[idx := o]
  {
  }

  /** Every element of list after index lo is still the original one. */
  predicate Untouched(list: seq<Value>, xs: seq<Value>, lo: int) {
    |list| == |xs| && forall j :: 0 <= j < |xs| && lo < j ==> list[j] == xs[j]
  }

  /** Every listed index is below bound. */
  predicate Below(ix: seq<nat>, bound: nat) {
    forall t :: 0 <= t < |ix| ==> ix[t] < bound
  }

  lemma BelowMono(ix: seq<nat>, a: nat, b: nat)
    requires Below(ix, a) && a <= b
    ensures Below(ix, b)
  {
  }

  /**
   * The shared loop of VecEdit and SeqNav: replay each position's child on its
   * element; write kept results in place and list removed indices.
   */
  method UpdatePositions(n: Nav, data: Value, r: Replacer) returns (list: seq<Value>, removals: seq<nat>)
    requires (n.VecEdit? || n.SeqNav?) && Fits(n, data) && r.State().Has(ChildCalls(n, 0))
    modifies r
    ensures Ascending(removals, |list|)
    ensures Collapse(Mark(list, removals)) == PosRebuild(Items(data), n.positions, Outcomes(n, data, 0, old(r.State())).0)
    ensures r.State() == Outcomes(n, data, 0, old(r.State())).1
    decreases n, 2
  {
    ghost var outs := Outcomes(n, data, 0, old(r.State())).0;
    ghost var target := Patch(Lift(Items(data)), n.positions, outs);
    ghost var final := old(r.State()).Advance(ChildCalls(n, 0));
    ghost var lo: int := -1;
    list := Items(data);
    removals := [];
    UpdateStart(n, data, outs, r.State());
    for i := 0 to |n.positions|
      invariant UpdateLoop(n, data, outs, target, final, i, lo, list, removals, r.State())
    {
      list, removals := UpdatePosition(n, data, outs, target, final, i, lo, list, removals, r);
      lo := n.positions[i].index;
    }
    UpdateDone(n, data, outs, target, final, lo, list, removals, r.State());
  }

  /**
   * The state of UpdatePositions before position i: positions before i are
   * done (their results written or their indices listed), the elements
   * after lo are untouched, and the replacer is where positions i.. start.
   */
  ghost predicate UpdateLoop(n: Nav, data: Value, outs: seq<Out>, target: seq<Out>, final: Source,
                             i: nat, lo: int, list: seq<Value>, removals: seq<nat>, st: Source)
  {
    && (n.VecEdit? || n.SeqNav?) && Fits(n, data) && |outs| == |n.positions| && i <= |n.positions|
    && Untouched(list, Items(data), lo)
    && (i < |n.positions| ==> lo < n.positions[i].index)
    && st.Has(ChildCalls(n, i)) && st.Advance(ChildCalls(n, i)) == final
    && Outcomes(n, data, i, st).0 == outs[i..]
    && Patch(Mark(list, removals), n.positions[i..], outs[i..]) == target
    && Ascending(removals, |Items(data)|)
    && (i < |n.positions| ==> Below(removals, n.positions[i].index))
  }

  lemma UpdateStart(n: Nav, data: Value, outs: seq<Out>, st: Source)
    requires (n.VecEdit? || n.SeqNav?) && Fits(n, data) && st.Has(ChildCalls(n, 0))
    requires outs == Outcomes(n, data, 0, st).0
    ensures UpdateLoop(n, data, outs, Patch(Lift(Items(data)), n.positions, outs), st.Advance(ChildCalls(n, 0)),
                       0, -1, Items(data), [], st)
  {
    assert Mark(Items(data), []) == Lift(Items(data));
    assert n.positions[0..] == n.positions && outs[0..] == outs;
  }

  lemma UpdateDone(n: Nav, data: Value, outs: seq<Out>, target: seq<Out>, final: Source,
                   lo: int, list: seq<Value>, removals: seq<nat>, st: Source)
    requires (n.VecEdit? || n.SeqNav?) && UpdateLoop(n, data, outs, target, final, |n.positions|, lo, list, removals, st)
    ensures Ascending(removals, |list|)
    ensures Collapse(Mark(list, removals)) == Collapse(target)
    ensures st == final
  {
    assert n.positions[|n.positions|..] == [] && outs[|n.positions|..] == [];
    assert Mark(list, removals) == target;
  }

  /** One position of UpdatePositions. */
  method UpdatePosition(n: Nav, data: Value, ghost outs: seq<Out>, ghost target: seq<Out>, ghost final: Source,
                        i: nat, ghost lo: int, list: seq<Value>, removals: seq<nat>, r: Replacer)
    returns (list': seq<Value>, removals': seq<nat>)
    requires (n.VecEdit? || n.SeqNav?) && i < |n.positions|
    requires UpdateLoop(n, data, outs, target, final, i, lo, list, removals, r.State())
    modifies r
    ensures UpdateLoop(n, data, outs, target, final, i + 1, n.positions[i].index, list', removals', r.State())
    decreases n, 1
  {
    var p := n.positions[i];
    ghost var st := r.State();
    PatchUnfold(Mark(list, removals), n.positions, outs, i);
    assert outs[i..][0] == outs[i] && outs[i..][1..] == outs[i + 1..];
    // the element at p.index is still the original: earlier writes are at lower indices
    var result := ReplayElement(n, data, i, list[p.index], r);
    MarkStep(list, removals, p.index, result);
    if result.Removed? {
      removals' := removals + [p.index];
      list' := list;
    } else {
      list' := list[p.index := result.value];
      removals' := removals;
    }
    if i + 1 < |n.positions| {
      BelowMono(removals', p.index + 1, n.positions[i + 1].index);
    }
  }

  method VecEditApply(n: Nav, data: Value, r: Replacer) returns (o: Out)
    requires n.VecEdit? && Fits(n, data) && r.State().Has(Calls(n))
    modifies r
    ensures (o, r.State()) == Replay(n, data, old(r.State()))
    decreases n, 3
  {
    SplitCalls(r.State(), ChildCalls(n, 0), if n.terminal then 1 else 0);
    var updated: Value;
    if |n.positions| != 0 {
      var tv, removals := UpdatePositions(n, data, r);
      if removals == [] {
        CollapseMarkNone(tv);
      }
      updated := RemoveIndices(VecV(PersistentVector, tv, NoMeta), removals, data.meta);
    } else {
      updated := data;
    }
    if n.terminal {
      o := r.Replace(updated);
    } else {
      o := Kept(updated);
    }
  }

  /** SeqNav's filter: a moving pointer into the ascending removals skips the removed indices. */
  method FilterRemovals(list: seq<Value>, removals: seq<nat>) returns (filtered: seq<Value>)
    requires Ascending(removals, |list|)
    ensures filtered == Collapse(Mark(list, removals))
  {
    ghost var marked := Mark(list, removals);
    filtered := [];
    var removePtr := 0;
    for i := 0 to |list|
      invariant removePtr <= |removals|
      invariant forall t :: 0 <= t < removePtr ==> removals[t] < i
      invariant removePtr < |removals| ==> i <= removals[removePtr]
      invariant filtered == Collapse(marked[..i])
    {
      CollapseSnoc(marked, i);
      if removePtr < |removals| && removals[removePtr] == i {
        removePtr := removePtr + 1;
      } else {
        Unlisted(removals, |list|, removePtr, i);
        filtered := filtered + [list[i]];
      }
    }
    assert marked[..|list|] == marked;
  }

  /** A list built by consing the elements of xs in reverse order onto the empty list. */
  method ConsReversed(xs: seq<Value>) returns (result: seq<Value>)
    ensures result == xs
  {
    result := [];
    var i := |xs|;
    while i > 0
      invariant 0 <= i <= |xs| && result == xs[i..]
    {
      i := i - 1;
      result := [xs[i]] + result;
    }
  }

  method SeqNavApply(n: Nav, data: Value, r: Replacer) returns (o: Out)
    requires n.SeqNav? && Fits(n, data) && r.State().Has(Calls(n))
    modifies r
    ensures (o, r.State()) == Replay(n, data, old(r.State()))
    decreases n, 3
  {
    SplitCalls(r.State(), ChildCalls(n, 0), if n.terminal then 1 else 0);
    var updated: Value;
    if |n.positions| != 0 {
      var list, removals := UpdatePositions(n, data, r);
      var filtered: seq<Value>;
      if removals != [] {
        filtered := FilterRemovals(list, removals);
      } else {
        CollapseMarkNone(list);
        filtered := list;
      }
      var result := ConsReversed(filtered);
      updated := WithMeta(SeqV(result, NoMeta), data.meta);
    } else {
      updated := data;
    }
    if n.terminal {
      o := r.Replace(updated);
    } else {
      o := Kept(updated);
    }
  }

  /**
   * VecPersistent's loop: copy the unchanged run before each recorded index,
   * add the child's rebuilt element unless it is REMOVE, then copy the rest.
   */
  method CopyPositions(n: Nav, data: Value, r: Replacer) returns (list: seq<Value>)
    requires n.VecPersistent? && Fits(n, data) && r.State().Has(ChildCalls(n, 0))
    modifies r
    ensures list == PosRebuild(data.elems, n.positions, Outcomes(n, data, 0, old(r.State())).0)
    ensures r.State() == Outcomes(n, data, 0, old(r.State())).1
    decreases n, 2
  {
    var ps := n.positions;
    var xs := data.elems;
    var count := |xs|;
    ghost var outs := Outcomes(n, data, 0, old(r.State())).0;
    ghost var target := Patch(Lift(xs), ps, outs);
    ghost var final := old(r.State()).Advance(ChildCalls(n, 0));
    list := [];
    var prevEnd: nat := 0;
    assert outs[0..] == outs;
    for i := 0 to |ps|
      invariant CopyLoop(n, data, outs, target, final, i, list, prevEnd, r.State())
    {
      list := CopyPosition(n, data, outs, target, final, i, list, prevEnd, r);
      prevEnd := ps[i].index + 1;
    }
    CopyDone(n, data, outs, target, final, list, prevEnd, r.State());
    list := CopyTail(xs, ps, outs, list, prevEnd);
  }

  /** After the last recorded index: copy the remaining unchanged elements. */
  method CopyTail(xs: seq<Value>, ps: seq<Pos>, ghost outs: seq<Out>, list: seq<Value>, prevEnd: nat) returns (list': seq<Value>)
    requires |outs| == |ps| && PositionsFit(ps, |xs|) && prevEnd <= |xs|
    requires (ps == [] ==> prevEnd == 0) && (ps != [] ==> prevEnd == ps[|ps| - 1].index + 1)
    requires list == Collapse(Patch(Lift(xs), ps, outs)[..prevEnd])
    ensures list' == PosRebuild(xs, ps, outs)
  {
    ghost var target := Patch(Lift(xs), ps, outs);
    forall j | prevEnd <= j < |xs| ensures target[j] == Kept(xs[j]) {
      PatchMissBetween(Lift(xs), ps, outs, |ps|, j);
    }
    CollapseRun(target, xs, prevEnd, |xs|);
    list' := CopyRun(list, xs, prevEnd, |xs|);
    assert target[..|xs|] == target;
  }

  /**
   * The state of CopyPositions before recorded index i: list holds the
   * rebuilt elements below prevEnd, the end of the previous recorded index,
   * and the replacer is where positions i.. start.
   */
  ghost predicate CopyLoop(n: Nav, data: Value, outs: seq<Out>, target: seq<Out>, final: Source,
                           i: nat, list: seq<Value>, prevEnd: nat, st: Source)
  {
    && n.VecPersistent? && Fits(n, data) && |outs| == |n.positions| && i <= |n.positions|
    && target == Patch(Lift(data.elems), n.positions, outs)
    && st.Has(ChildCalls(n, i)) && st.Advance(ChildCalls(n, i)) == final
    && Outcomes(n, data, i, st).0 == outs[i..]
    && (i == 0 ==> prevEnd == 0) && (i > 0 ==> prevEnd == n.positions[i - 1].index + 1)
    && prevEnd <= |data.elems|
    && list == Collapse(target[..prevEnd])
  }

  lemma CopyDone(n: Nav, data: Value, outs: seq<Out>, target: seq<Out>, final: Source,
                 list: seq<Value>, prevEnd: nat, st: Source)
    requires n.VecPersistent? && CopyLoop(n, data, outs, target, final, |n.positions|, list, prevEnd, st)
    ensures PositionsFit(n.positions, |data.elems|)
    ensures n.positions == [] ==> prevEnd == 0
    ensures n.positions != [] ==> prevEnd == n.positions[|n.positions| - 1].index + 1
    ensures list == Collapse(Patch(Lift(data.elems), n.positions, outs)[..prevEnd])
    ensures st == final
  {
    assert outs[|n.positions|..] == [];
  }

  /** One recorded index of CopyPositions: the run before it, then its rebuilt element unless REMOVE. */
  method CopyPosition(n: Nav, data: Value, ghost outs: seq<Out>, ghost target: seq<Out>, ghost final: Source,
                      i: nat, list: seq<Value>, prevEnd: nat, r: Replacer)
    returns (list': seq<Value>)
    requires n.VecPersistent? && i < |n.positions|
    requires CopyLoop(n, data, outs, target, final, i, list, prevEnd, r.State())
    modifies r
    ensures CopyLoop(n, data, outs, target, final, i + 1, list', n.positions[i].index + 1, r.State())
    decreases n, 1
  {
    var ps := n.positions;
    var xs := data.elems;
    var idx := ps[i].index;
    forall j | prevEnd <= j < idx ensures target[j] == Kept(xs[j]) {
      PatchMissBetween(Lift(xs), ps, outs, i, j);
    }
    CollapseRun(target, xs, prevEnd, idx);
    list' := CopyRun(list, xs, prevEnd, idx);
    assert outs[i..][0] == outs[i] && outs[i..][1..] == outs[i + 1..];
    var value := ReplayElement(n, data, i, xs[idx], r);
    PatchHit(Lift(xs), ps, outs, i);
    CollapseSnoc(target, idx);
    if value.Kept? {
      list' := list' + [value.value];
    }
  }

  method VecPersistentApply(n: Nav, data: Value, r: Replacer) returns (o: Out)
    requires n.VecPersistent? && Fits(n, data) && r.State().Has(Calls(n))
    modifies r
    ensures (o, r.State()) == Replay(n, data, old(r.State()))
    decreases n, 3
  {
    SplitCalls(r.State(), ChildCalls(n, 0), if n.terminal then 1 else 0);
    var updated: Value;
    if |n.positions| != 0 {
      var list := CopyPositions(n, data, r);
      // PersistentVector.create(list) with the original metadata
      updated := VecV(PersistentVector, list, data.meta);
    } else {
      updated := data;
    }
    if n.terminal {
      o := r.Replace(updated);
    } else {
      o := Kept(updated);
    }
  }

  /** An index strictly between the recorded positions i - 1 and i keeps its element. */
  lemma PatchMissBetween(os: seq<Out>, ps: seq<Pos>, outs: seq<Out>, i: nat, j: nat)
    requires |outs| == |ps| && PositionsFit(ps, |os|) && i <= |ps| && j < |os|
    requires i > 0 ==> ps[i - 1].index < j
    requires i < |ps| ==> j < ps[i].index
    ensures Patch(os, ps, outs)[j] == os[j]
  {
    forall k | 0 <= k < |ps| ensures ps[k].index != j {
      if k < i { assert ps[k].index <= ps[i - 1].index; } else { assert ps[i].index <= ps[k].index; }
    }
    PatchMiss(os, ps, outs, j);
  }

  // ---------------------------------------------------------------------------
  // Sets
  // ---------------------------------------------------------------------------

  /** Disjoin every recorded member, then conj every kept rebuilt member. */
  method SetPasses(n: Nav, data: Value, r: Replacer) returns (ts: seq<Value>)
    requires IsMemNav(n) && Fits(n, data) && r.State().Has(ChildCalls(n, 0))
    modifies r
    ensures ts == ConjAll(DisjAll(data.members, n.members, 0), Outcomes(n, data, 0, old(r.State())).0)
    ensures r.State() == Outcomes(n, data, 0, old(r.State())).1
    decreases n, 2
  {
    ts := DisjMembers(data.members, n.members);
    ghost var outs := Outcomes(n, data, 0, old(r.State())).0;
    ghost var goal := ConjAll(ts, outs);
    ghost var final := old(r.State()).Advance(ChildCalls(n, 0));
    ConjStart(n, data, outs, ts, r.State());
    for i := 0 to |n.members|
      invariant ConjLoop(n, data, outs, goal, final, i, ts, r.State())
    {
      ts := ConjMember(n, data, outs, goal, final, i, ts, r);
    }
    ConjDone(n, data, outs, goal, final, ts, r.State());
  }

  lemma ConjStart(n: Nav, data: Value, outs: seq<Out>, ts: seq<Value>, st: Source)
    requires IsMemNav(n) && Fits(n, data) && st.Has(ChildCalls(n, 0))
    requires outs == Outcomes(n, data, 0, st).0
    ensures ConjLoop(n, data, outs, ConjAll(ts, outs), st.Advance(ChildCalls(n, 0)), 0, ts, st)
  {
    assert outs[0..] == outs;
  }

  lemma ConjDone(n: Nav, data: Value, outs: seq<Out>, goal: seq<Value>, final: Source, ts: seq<Value>, st: Source)
    requires IsMemNav(n) && ConjLoop(n, data, outs, goal, final, |n.members|, ts, st)
    ensures ts == goal && st == final
  {
    assert outs[|n.members|..] == [];
  }

  /**
   * The state of the second set pass before member i: conj'ing the kept
   * outcomes of members i.. onto ts gives the result, and the replacer is
   * where members i.. start.
   */
  ghost predicate ConjLoop(n: Nav, data: Value, outs: seq<Out>, goal: seq<Value>, final: Source,
                           i: nat, ts: seq<Value>, st: Source)
  {
    && IsMemNav(n) && Fits(n, data) && |outs| == |n.members| && i <= |n.members|
    && st.Has(ChildCalls(n, i)) && st.Advance(ChildCalls(n, i)) == final
    && Outcomes(n, data, i, st).0 == outs[i..]
    && ConjAll(ts, outs[i..]) == goal
  }

  /** One member of the second set pass: replay its child and conj the result unless it is REMOVE. */
  method ConjMember(n: Nav, data: Value, ghost outs: seq<Out>, ghost goal: seq<Value>, ghost final: Source,
                    i: nat, ts: seq<Value>, r: Replacer) returns (ts': seq<Value>)
    requires IsMemNav(n) && i < |n.members| && ConjLoop(n, data, outs, goal, final, i, ts, r.State())
    modifies r
    ensures ConjLoop(n, data, outs, goal, final, i + 1, ts', r.State())
    decreases n, 1
  {
    assert outs[i..][0] == outs[i] && outs[i..][1..] == outs[i + 1..];
    var result := ReplayElement(n, data, i, n.members[i].member, r);
    ts' := if result.Kept? then Conj(ts, result.value) else ts;
  }

  /** The first pass of a set update: disjoin every recorded member. */
  method DisjMembers(members: seq<Value>, ms: seq<Mem>) returns (ts: seq<Value>)
    ensures ts == DisjAll(members, ms, 0)
  {
    ts := members;
    for i := 0 to |ms|
      invariant DisjAll(ts, ms, i) == DisjAll(members, ms, 0)
    {
      ts := Disj(ts, ms[i].member);
    }
  }

  method SetEditApply(n: Nav, data: Value, r: Replacer) returns (o: Out)
    requires n.SetEdit? && Fits(n, data) && r.State().Has(Calls(n))
    modifies r
    ensures (o, r.State()) == Replay(n, data, old(r.State()))
    decreases n, 3
  {
    SplitCalls(r.State(), ChildCalls(n, 0), if n.terminal then 1 else 0);
    var updated: Value;
    if |n.members| != 0 {
      var ts := SetPasses(n, data, r);
      updated := WithMeta(SetV(data.skind, ts, NoMeta), data.meta);
    } else {
      updated := data;
    }
    if n.terminal {
      o := r.Replace(updated);
    } else {
      o := Kept(updated);
    }
  }

  method SetPersistentApply(n: Nav, data: Value, r: Replacer) returns (o: Out)
    requires n.SetPersistent? && Fits(n, data) && r.State().Has(Calls(n))
    modifies r
    ensures (o, r.State()) == Replay(n, data, old(r.State()))
    decreases n, 3
  {
    SplitCalls(r.State(), ChildCalls(n, 0), if n.terminal then 1 else 0);
    var updated: Value;
    if |n.members| != 0 {
      var result := SetPasses(n, data, r);
      // persistent operations keep the metadata
      updated := data.(members := result);
    } else {
      updated := data;
    }
    if n.terminal {
      o := r.Replace(updated);
    } else {
      o := Kept(updated);
    }
  }
}
