/**
 * The match buffer the scanners append to, and ScannerMatchesNav: the
 * post-order walk that appends every match to the buffer and returns the
 * nav of the positions that matched, None when nothing did.
 */
module Buffers {
  import opened Values

  /** The caller-owned match list; scanners only ever append to it. */
  class MatchBuffer {
    var items: seq<Value>

    constructor ()
      ensures items == []
    {
      items := [];
    }

    method Add(x: Value)
      modifies this
      ensures items == old(items) + [x]
    {
      items := items + [x];
    }
  }
}

module ScannerMatchesNav {
  import opened Values
  import opened NavSpec
  import opened ScanSpec
  import opened Buffers

  /** pathWhen: dispatch on the kind of obj. */
  method PathWhen(obj: Value, matches: MatchBuffer, pred: Value -> bool) returns (nav: Option<Nav>)
    modifies matches
    ensures matches.items == old(matches.items) + Matches(obj, pred, false)
    ensures nav == NavOf(obj, pred, false)
    decreases obj, 3
  {
    if IsScalar(obj) {
      // nil, a leaf, or an empty sequence (whose seq is null)
      nav := PathScalar(ScalarOf(obj), matches, pred);
      return;
    }
    match obj
    case MapV(kind, _, _) =>
      var childNavs := PathEntries(obj, matches, pred);
      var predRes := PathSelf(obj, matches, pred);
      if childNavs != [] || predRes {
        nav := Some(if kind == StructMap then MapStruct(childNavs, predRes)
                    else if kind == SortedMap then MapPersistent(childNavs, predRes, false)
                    else MapEditable(childNavs, predRes, false));
      } else {
        nav := None;
      }
    case VecV(kind, _, _) =>
      var childNavs := PathElements(obj, matches, pred);
      var predRes := PathSelf(obj, matches, pred);
      if childNavs != [] || predRes {
        nav := Some(if kind == PersistentVector then VecEdit(childNavs, predRes) else VecPersistent(childNavs, predRes));
      } else {
        nav := None;
      }
    case SetV(kind, _, _) =>
      var childNavs := PathMembers(obj, matches, pred);
      var predRes := PathSelf(obj, matches, pred);
      if childNavs != [] || predRes {
        nav := Some(if kind == HashSet then SetEdit(childNavs, predRes) else SetPersistent(childNavs, predRes));
      } else {
        nav := None;
      }
    case SeqV(_, _) =>
      nav := PathSeq(obj, matches, pred);
  }

  /** The composite's own test, after its children: append it when it matches. */
  method PathSelf(obj: Value, matches: MatchBuffer, pred: Value -> bool) returns (predRes: bool)
    modifies matches
    ensures predRes == pred(obj)
    ensures matches.items == old(matches.items) + Hit(pred, obj)
  {
    predRes := pred(obj);
    if predRes {
      matches.Add(obj);
    }
  }

  /** pathScalar: a match yields Scalar and is appended. */
  method PathScalar(obj: Value, matches: MatchBuffer, pred: Value -> bool) returns (nav: Option<Nav>)
    modifies matches
    ensures matches.items == old(matches.items) + Hit(pred, obj)
    ensures nav == if pred(obj) then Some(Scalar) else None
  {
    if pred(obj) {
      matches.Add(obj);
      nav := Some(Scalar);
    } else {
      nav := None;
    }
  }

  /** The entry loop shared by the map builders: a Val child for every value whose subtree matched. */
  method PathEntries(m: Value, matches: MatchBuffer, pred: Value -> bool) returns (childNavs: seq<KeyNav>)
    requires m.MapV?
    modifies matches
    ensures matches.items == old(matches.items) + ChildMatches(m, pred, false, 0)
    ensures childNavs == EntryNavs(m, pred, false, 0)
    decreases m, 1
  {
    childNavs := [];
    for i := 0 to |m.entries|
      invariant matches.items + ChildMatches(m, pred, false, i) == old(matches.items) + ChildMatches(m, pred, false, 0)
      invariant childNavs + EntryNavs(m, pred, false, i) == EntryNavs(m, pred, false, 0)
    {
      childNavs := PathEntry(m, matches, pred, i, childNavs);
    }
  }

  /**
   * One entry: walk its value and append a Val child to childNavs when the
   * value's subtree matched. What remains to be appended shrinks by exactly
   * what this entry appended.
   */
  method PathEntry(m: Value, matches: MatchBuffer, pred: Value -> bool, i: nat, childNavs: seq<KeyNav>)
    returns (childNavs': seq<KeyNav>)
    requires m.MapV? && i < |m.entries|
    modifies matches
    ensures matches.items == old(matches.items) + ChildMatch(m, pred, false, i)
    ensures childNavs' == childNavs + EntryNav(m, pred, false, i)
    ensures matches.items + ChildMatches(m, pred, false, i + 1) == old(matches.items) + ChildMatches(m, pred, false, i)
    ensures childNavs' + EntryNavs(m, pred, false, i + 1) == childNavs + EntryNavs(m, pred, false, i)
    decreases m, 0
  {
    var e := m.entries[i];
    ghost var before := matches.items;
    var child := PathWhen(e.val, matches, pred);
    childNavs' := if child.Some? then childNavs + [Val(e.key, child.value)] else childNavs;
    assert ChildMatch(m, pred, false, i) == Matches(e.val, pred, false);
    assert childNavs' == childNavs + EntryNav(m, pred, false, i);
    Shift(before, ChildMatch(m, pred, false, i), ChildMatches(m, pred, false, i + 1), ChildMatches(m, pred, false, i));
    Shift(childNavs, EntryNav(m, pred, false, i), EntryNavs(m, pred, false, i + 1), EntryNavs(m, pred, false, i));
  }

  /** The index loop of the vector builders: a Pos child for every element whose subtree matched. */
  method PathElements(v: Value, matches: MatchBuffer, pred: Value -> bool) returns (childNavs: seq<Pos>)
    requires v.VecV?
    modifies matches
    ensures matches.items == old(matches.items) + ChildMatches(v, pred, false, 0)
    ensures childNavs == PosNavs(v, pred, false, 0)
    decreases v, 1
  {
    var count := |v.elems|;
    childNavs := [];
    for i := 0 to count
      invariant matches.items + ChildMatches(v, pred, false, i) == old(matches.items) + ChildMatches(v, pred, false, 0)
      invariant childNavs + PosNavs(v, pred, false, i) == PosNavs(v, pred, false, 0)
    {
      childNavs := PathPosition(v, matches, pred, i, v.elems[i], childNavs);
    }
  }

  /** One element, given with its index: walk it and append a Pos child when its subtree matched. */
  method PathPosition(v: Value, matches: MatchBuffer, pred: Value -> bool, i: nat, elem: Value, childNavs: seq<Pos>)
    returns (childNavs': seq<Pos>)
    requires (v.VecV? || v.SeqV?) && i < |Items(v)| && elem == Items(v)[i]
    modifies matches
    ensures matches.items == old(matches.items) + ChildMatch(v, pred, false, i)
    ensures childNavs' == childNavs + PosNav(v, pred, false, i)
    ensures matches.items + ChildMatches(v, pred, false, i + 1) == old(matches.items) + ChildMatches(v, pred, false, i)
    ensures childNavs' + PosNavs(v, pred, false, i + 1) == childNavs + PosNavs(v, pred, false, i)
    decreases v, 0
  {
    ghost var before := matches.items;
    var child := PathWhen(elem, matches, pred);
    childNavs' := if child.Some? then childNavs + [Pos(i, child.value)] else childNavs;
    assert ChildMatch(v, pred, false, i) == Matches(elem, pred, false);
    assert childNavs' == childNavs + PosNav(v, pred, false, i);
    Shift(before, ChildMatch(v, pred, false, i), ChildMatches(v, pred, false, i + 1), ChildMatches(v, pred, false, i));
    Shift(childNavs, PosNav(v, pred, false, i), PosNavs(v, pred, false, i + 1), PosNavs(v, pred, false, i));
  }

  /** The member loop of the set builders: a Mem child for every member whose subtree matched. */
  method PathMembers(s: Value, matches: MatchBuffer, pred: Value -> bool) returns (childNavs: seq<Mem>)
    requires s.SetV?
    modifies matches
    ensures matches.items == old(matches.items) + ChildMatches(s, pred, false, 0)
    ensures childNavs == MemNavs(s, pred, false, 0)
    decreases s, 1
  {
    childNavs := [];
    for i := 0 to |s.members|
      invariant matches.items + ChildMatches(s, pred, false, i) == old(matches.items) + ChildMatches(s, pred, false, 0)
      invariant childNavs + MemNavs(s, pred, false, i) == MemNavs(s, pred, false, 0)
    {
      childNavs := PathMember(s, matches, pred, i, childNavs);
    }
  }

  /** One member: walk it and append a Mem child when its subtree matched. */
  method PathMember(s: Value, matches: MatchBuffer, pred: Value -> bool, i: nat, childNavs: seq<Mem>)
    returns (childNavs': seq<Mem>)
    requires s.SetV? && i < |s.members|
    modifies matches
    ensures matches.items == old(matches.items) + ChildMatch(s, pred, false, i)
    ensures childNavs' == childNavs + MemNav(s, pred, false, i)
    ensures matches.items + ChildMatches(s, pred, false, i + 1) == old(matches.items) + ChildMatches(s, pred, false, i)
    ensures childNavs' + MemNavs(s, pred, false, i + 1) == childNavs + MemNavs(s, pred, false, i)
    decreases s, 0
  {
    var elem := s.members[i];
    ghost var before := matches.items;
    var child := PathWhen(elem, matches, pred);
    childNavs' := if child.Some? then childNavs + [Mem(elem, child.value)] else childNavs;
    assert ChildMatch(s, pred, false, i) == Matches(elem, pred, false);
    assert childNavs' == childNavs + MemNav(s, pred, false, i);
    Shift(before, ChildMatch(s, pred, false, i), ChildMatches(s, pred, false, i + 1), ChildMatches(s, pred, false, i));
    Shift(childNavs, MemNav(s, pred, false, i), MemNavs(s, pred, false, i + 1), MemNavs(s, pred, false, i));
  }

  /** pathSeq on a non-empty sequence: walk the items, then test the sequence itself. */
  method PathSeq(obj: Value, matches: MatchBuffer, pred: Value -> bool) returns (nav: Option<Nav>)
    requires obj.SeqV? && obj.items != []
    modifies matches
    ensures matches.items == old(matches.items) + Matches(obj, pred, false)
    ensures nav == NavOf(obj, pred, false)
    decreases obj, 2
  {
    var childNavs, count := PathItems(obj, matches, pred);
    var predRes := PathSelf(obj, matches, pred);
    if childNavs != [] || predRes {
      nav := Some(SeqNav(childNavs, predRes, count));
    } else {
      nav := None;
    }
  }

  /** The cursor loop of pathSeq: walk the items with an index, which ends as the length. */
  method PathItems(obj: Value, matches: MatchBuffer, pred: Value -> bool) returns (childNavs: seq<Pos>, idx: nat)
    requires obj.SeqV?
    modifies matches
    ensures matches.items == old(matches.items) + ChildMatches(obj, pred, false, 0)
    ensures childNavs == PosNavs(obj, pred, false, 0)
    ensures idx == |obj.items|
    decreases obj, 1
  {
    var s := obj.items;
    idx := 0;
    childNavs := [];
    while s != []
      invariant idx <= |obj.items| && s == obj.items[idx..]
      invariant matches.items + ChildMatches(obj, pred, false, idx) == old(matches.items) + ChildMatches(obj, pred, false, 0)
      invariant childNavs + PosNavs(obj, pred, false, idx) == PosNavs(obj, pred, false, 0)
      decreases |s|
    {
      childNavs := PathPosition(obj, matches, pred, idx, s[0], childNavs);
      idx := idx + 1;
      s := s[1..];
    }
  }
}
