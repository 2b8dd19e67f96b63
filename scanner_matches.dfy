/**
 * ScannerMatches and ScannerMatchesKeys: the read-only scans that append
 * every match to a list and build no nav. The walk is shared: the keys flag
 * is false for ScannerMatches, which visits map values only, and true for
 * ScannerMatchesKeys, which tests each map key after that entry's value.
 */
module ScannerMatches {
  import opened Values
  import opened ScanSpec
  import opened Buffers

  /** matchesWhen: the match vector, None (nil) when nothing matched. */
  method MatchesWhen(obj: Value, pred: Value -> bool, keys: bool) returns (r: Option<seq<Value>>)
    ensures r.None? <==> Matches(obj, pred, keys) == []
    ensures r.Some? ==> r.value == Matches(obj, pred, keys)
  {
    var matches := new MatchBuffer();
    ScanWhen(obj, matches, pred, keys);
    r := if matches.items == [] then None else Some(matches.items);
  }

  /** scanWhen: dispatch on the kind of obj. */
  method ScanWhen(obj: Value, matches: MatchBuffer, pred: Value -> bool, keys: bool)
    modifies matches
    ensures matches.items == old(matches.items) + Matches(obj, pred, keys)
    decreases obj, 2
  {
    if IsScalar(obj) {
      // nil, a leaf, or an empty sequence (whose seq is null)
      ScanTest(ScalarOf(obj), matches, pred);
      return;
    }
    if obj.MapV? && keys {
      ScanEntries(obj, matches, pred);
    } else if obj.MapV? {
      ScanValues(obj, matches, pred);
    } else if obj.VecV? {
      ScanElements(obj, matches, pred, keys);
    } else if obj.SetV? {
      ScanMembers(obj, matches, pred, keys);
    } else {
      ScanSeq(obj, matches, pred, keys);
    }
    ScanTest(obj, matches, pred);
  }

  /** Test x and append it when it matches: scanScalar, and the test every composite ends with. */
  method ScanTest(x: Value, matches: MatchBuffer, pred: Value -> bool)
    modifies matches
    ensures matches.items == old(matches.items) + Hit(pred, x)
  {
    if pred(x) {
      matches.Add(x);
    }
  }

  /** The map loop of ScannerMatches: the values, in iteration order. */
  method ScanValues(m: Value, matches: MatchBuffer, pred: Value -> bool)
    requires m.MapV?
    modifies matches
    ensures matches.items == old(matches.items) + ChildMatches(m, pred, false, 0)
    decreases m, 1
  {
    var es := m.entries;
    var i := 0;
    while i < |es|
      invariant i <= |es|
      invariant matches.items + ChildMatches(m, pred, false, i) == old(matches.items) + ChildMatches(m, pred, false, 0)
    {
      ScanChild(m, matches, pred, false, i, es[i].val);
      i := i + 1;
    }
  }

  /** The map loop of ScannerMatchesKeys: each entry's value, then its key. */
  method ScanEntries(m: Value, matches: MatchBuffer, pred: Value -> bool)
    requires m.MapV?
    modifies matches
    ensures matches.items == old(matches.items) + ChildMatches(m, pred, true, 0)
    decreases m, 1
  {
    var es := m.entries;
    for i := 0 to |es|
      invariant matches.items + ChildMatches(m, pred, true, i) == old(matches.items) + ChildMatches(m, pred, true, 0)
    {
      ScanEntry(m, matches, pred, i);
    }
  }

  /** One entry of the ScannerMatchesKeys map loop: scan the value, then test the key. */
  method ScanEntry(m: Value, matches: MatchBuffer, pred: Value -> bool, i: nat)
    requires m.MapV? && i < |m.entries|
    modifies matches
    ensures matches.items == old(matches.items) + Matches(m.entries[i].val, pred, true) + Hit(pred, m.entries[i].key)
    ensures matches.items + ChildMatches(m, pred, true, i + 1) == old(matches.items) + ChildMatches(m, pred, true, i)
    decreases m, 0
  {
    var e := m.entries[i];
    ghost var before := matches.items;
    ScanWhen(e.val, matches, pred, true);
    ScanTest(e.key, matches, pred);
    assert ChildMatch(m, pred, true, i) == Matches(e.val, pred, true) + Hit(pred, e.key);
    assert matches.items == before + ChildMatch(m, pred, true, i);
    Shift(before, ChildMatch(m, pred, true, i), ChildMatches(m, pred, true, i + 1), ChildMatches(m, pred, true, i));
  }

  /** Scan child i of v, given as child; no key is examined here. */
  method ScanChild(v: Value, matches: MatchBuffer, pred: Value -> bool, keys: bool, ghost i: nat, child: Value)
    requires i < |Children(v)| && child == Children(v)[i] && !(keys && v.MapV?)
    modifies matches
    ensures matches.items == old(matches.items) + Matches(child, pred, keys)
    ensures matches.items + ChildMatches(v, pred, keys, i + 1) == old(matches.items) + ChildMatches(v, pred, keys, i)
    decreases v, 0
  {
    ghost var before := matches.items;
    ScanWhen(child, matches, pred, keys);
    assert ChildMatch(v, pred, keys, i) == Matches(child, pred, keys);
    Shift(before, ChildMatch(v, pred, keys, i), ChildMatches(v, pred, keys, i + 1), ChildMatches(v, pred, keys, i));
  }

  /** The index loop over a vector's elements. */
  method ScanElements(v: Value, matches: MatchBuffer, pred: Value -> bool, keys: bool)
    requires v.VecV?
    modifies matches
    ensures matches.items == old(matches.items) + ChildMatches(v, pred, keys, 0)
    decreases v, 1
  {
    var count := |v.elems|;
    for i := 0 to count
      invariant matches.items + ChildMatches(v, pred, keys, i) == old(matches.items) + ChildMatches(v, pred, keys, 0)
    {
      ScanChild(v, matches, pred, keys, i, v.elems[i]);
    }
  }

  /** The loop over a set's members, in iteration order. */
  method ScanMembers(s: Value, matches: MatchBuffer, pred: Value -> bool, keys: bool)
    requires s.SetV?
    modifies matches
    ensures matches.items == old(matches.items) + ChildMatches(s, pred, keys, 0)
    decreases s, 1
  {
    for i := 0 to |s.members|
      invariant matches.items + ChildMatches(s, pred, keys, i) == old(matches.items) + ChildMatches(s, pred, keys, 0)
    {
      ScanChild(s, matches, pred, keys, i, s.members[i]);
    }
  }

  /** The walk of a non-empty sequence, by cursor. */
  method ScanSeq(obj: Value, matches: MatchBuffer, pred: Value -> bool, keys: bool)
    requires obj.SeqV?
    modifies matches
    ensures matches.items == old(matches.items) + ChildMatches(obj, pred, keys, 0)
    decreases obj, 1
  {
    var s := obj.items;
    ghost var idx := 0;
    while s != []
      invariant idx <= |obj.items| && s == obj.items[idx..]
      invariant matches.items + ChildMatches(obj, pred, keys, idx) == old(matches.items) + ChildMatches(obj, pred, keys, 0)
      decreases |s|
    {
      ScanChild(obj, matches, pred, keys, idx, s[0]);
      idx := idx + 1;
      s := s[1..];
    }
    assert ChildMatches(obj, pred, keys, idx) == [];
  }
}
