/**
 * ScannerMatchesXf: the match scan with a transducer between the scan and
 * the match list. Each match is handed to the transducer's reducing
 * function, which may pass values on to the list and may signal reduced;
 * once it does the scan stops at once (no further children, no test of the
 * enclosing composites). The completing step runs once at the end, and the
 * result is None (nil) when the list ends up empty.
 */
module ScannerMatchesXf {
  import opened Values
  import opened ScanSpec

  /** One call of the reducing function: the transducer's new state, the values it passes to the list, and whether it returned reduced. */
  datatype Step<S> = Step(state: S, emit: seq<Value>, reduced: bool)

  /**
   * A transducer applied to the base reducing function that appends to the
   * list, seen as a state machine: its initial state, its step, and the
   * values its completing arity flushes to the list.
   */
  datatype Xf<!S> = Xf(init: S, step: (S, Value) -> Step<S>, complete: S -> seq<Value>)

  /** The transducer state, the list so far, and whether reduced was signalled. */
  datatype Run<S> = Run(state: S, out: seq<Value>, stopped: bool)

  /** Feed xs to the reducing function one by one, stopping at the first reduced. */
  function Feed<S>(xf: Xf<S>, r: Run<S>, xs: seq<Value>): (res: Run<S>)
    ensures r.stopped ==> res == r
    ensures r.out <= res.out
    decreases |xs|
  {
    if r.stopped || xs == [] then r
    else
      var st := xf.step(r.state, xs[0]);
      Feed(xf, Run(st.state, r.out + st.emit, st.reduced), xs[1..])
  }

  /** Feeding a + b is feeding a, then b from where a left off (nothing more once it stopped). */
  lemma {:induction false} FeedAppend<S>(xf: Xf<S>, r: Run<S>, a: seq<Value>, b: seq<Value>)
    ensures Feed(xf, r, a + b) == Feed(xf, Feed(xf, r, a), b)
    decreases |a|
  {
    if !r.stopped && a != [] {
      var st := xf.step(r.state, a[0]);
      assert (a + b)[0] == a[0] && (a + b)[1..] == a[1..] + b;
      FeedAppend(xf, Run(st.state, r.out + st.emit, st.reduced), a[1..], b);
    } else if a == [] {
      assert a + b == b;
    }
  }

  /** What matchesWhen returns: the scan's matches fed through the transducer, completed, None when empty. */
  function XfMatches<S>(obj: Value, pred: Value -> bool, xf: Xf<S>): Option<seq<Value>> {
    var run := Feed(xf, Run(xf.init, [], false), Matches(obj, pred, false));
    var out := run.out + xf.complete(run.state);
    if out == [] then None else Some(out)
  }

  /** The list with the transducer's reducing function in front of it (rf, addMatch and the list). */
  class Reducer<S> {
    const xf: Xf<S>
    var state: S
    var items: seq<Value>

    constructor (xf: Xf<S>)
      ensures this.xf == xf && state == xf.init && items == []
    {
      this.xf := xf;
      state := xf.init;
      items := [];
    }

    /** addMatch: rf.invoke(list, x); answers whether the result is reduced. */
    method AddMatch(x: Value) returns (reduced: bool)
      modifies this
      ensures Run(state, items, reduced) == Feed(xf, Run(old(state), old(items), false), [x])
    {
      var st := xf.step(state, x);
      state := st.state;
      items := items + st.emit;
      reduced := st.reduced;
    }

    /** The completing call rf.invoke(list). */
    method Complete()
      modifies this
      ensures items == old(items) + xf.complete(old(state)) && state == old(state)
    {
      items := items + xf.complete(state);
    }
  }

  /** matchesWhen. */
  method MatchesWhen<S>(obj: Value, pred: Value -> bool, xf: Xf<S>) returns (r: Option<seq<Value>>)
    ensures r == XfMatches(obj, pred, xf)
  {
    var red := new Reducer(xf);
    var _ := ScanWhen(obj, red, pred);
    red.Complete();
    r := if red.items == [] then None else Some(red.items);
  }

  /** scanWhen: answers true once reduced was signalled, and the scan stops there. */
  method ScanWhen<S>(obj: Value, red: Reducer<S>, pred: Value -> bool) returns (stop: bool)
    modifies red
    ensures Run(red.state, red.items, stop) == Feed(red.xf, Run(old(red.state), old(red.items), false), Matches(obj, pred, false))
    decreases obj, 2
  {
    ghost var r0 := Run(red.state, red.items, false);
    if IsScalar(obj) {
      // nil, a leaf, or an empty sequence (whose seq is null)
      stop := ScanTest(ScalarOf(obj), red, pred);
      return;
    }
    stop := ScanChildren(obj, red, pred);
    FeedAppend(red.xf, r0, ChildMatches(obj, pred, false, 0), Hit(pred, obj));
    if stop {
      return;
    }
    stop := ScanTest(obj, red, pred);
  }

  /** scanScalar, and the test every composite ends with: hand x to addMatch when it matches. */
  method ScanTest<S>(x: Value, red: Reducer<S>, pred: Value -> bool) returns (stop: bool)
    modifies red
    ensures Run(red.state, red.items, stop) == Feed(red.xf, Run(old(red.state), old(red.items), false), Hit(pred, x))
  {
    if pred(x) {
      stop := red.AddMatch(x);
    } else {
      stop := false;
    }
  }

  /**
   * The loops over map values, vector elements, set members and sequence
   * items: scan each child in turn and stop as soon as one reports reduced.
   */
  method ScanChildren<S>(obj: Value, red: Reducer<S>, pred: Value -> bool) returns (stop: bool)
    requires !IsScalar(obj)
    modifies red
    ensures Run(red.state, red.items, stop) == Feed(red.xf, Run(old(red.state), old(red.items), false), ChildMatches(obj, pred, false, 0))
    decreases obj, 1
  {
    ghost var r0 := Run(red.state, red.items, false);
    var cs := Children(obj);
    var i := 0;
    while i < |cs|
      invariant i <= |cs|
      invariant Feed(red.xf, r0, ChildMatches(obj, pred, false, 0)) == Feed(red.xf, Run(red.state, red.items, false), ChildMatches(obj, pred, false, i))
    {
      var hit := ScanChild(obj, red, pred, i, cs[i]);
      if hit {
        return true;
      }
      i := i + 1;
    }
    stop := false;
  }

  /** Scan child i of obj, given as child: the rest of the feed continues from where it leaves the reducer. */
  method ScanChild<S>(obj: Value, red: Reducer<S>, pred: Value -> bool, ghost i: nat, child: Value) returns (stop: bool)
    requires i < |Children(obj)| && child == Children(obj)[i]
    modifies red
    ensures Run(red.state, red.items, stop) == Feed(red.xf, Run(old(red.state), old(red.items), false), Matches(child, pred, false))
    ensures Feed(red.xf, Run(old(red.state), old(red.items), false), ChildMatches(obj, pred, false, i))
         == Feed(red.xf, Run(red.state, red.items, stop), ChildMatches(obj, pred, false, i + 1))
    decreases obj, 0
  {
    ghost var ri := Run(red.state, red.items, false);
    stop := ScanWhen(child, red, pred);
    FeedAppend(red.xf, ri, Matches(child, pred, false), ChildMatches(obj, pred, false, i + 1));
    assert ChildMatch(obj, pred, false, i) == Matches(child, pred, false);
    assert ChildMatches(obj, pred, false, i) == Matches(child, pred, false) + ChildMatches(obj, pred, false, i + 1);
  }

  // ---------------------------------------------------------------------------
  // Two transducers: the identity and take
  // ---------------------------------------------------------------------------

  /** The identity transducer: every match goes to the list, reduced is never signalled. */
  function Identity(): Xf<bool> {
    Xf(false, (s, x) => Step(s, [x], false), s => [])
  }

  lemma {:induction false} FeedIdentity(r: Run<bool>, xs: seq<Value>)
    requires !r.stopped
    ensures Feed(Identity(), r, xs) == Run(r.state, r.out + xs, false)
    decreases |xs|
  {
    if xs != [] {
      FeedIdentity(Run(r.state, r.out + [xs[0]], false), xs[1..]);
      assert r.out + [xs[0]] + xs[1..] == r.out + xs;
    }
  }

  /** With the identity transducer the result is that of ScannerMatches. */
  lemma IdentityIsPlain(obj: Value, pred: Value -> bool)
    ensures XfMatches(obj, pred, Identity()) == if Matches(obj, pred, false) == [] then None else Some(Matches(obj, pred, false))
  {
    var ms := Matches(obj, pred, false);
    FeedIdentity(Run(false, [], false), ms);
    var run := Feed(Identity(), Run(false, [], false), ms);
    assert run.out == ms && Identity().complete(run.state) == [];
    assert run.out + Identity().complete(run.state) == ms;
  }

  /** (take n): pass on the first n values and signal reduced with the n-th (at once, passing nothing, when n is 0). */
  function Take(n: nat): Xf<int> {
    Xf(n as int, (s: int, x: Value) => Step(s - 1, if s > 0 then [x] else [], s - 1 <= 0), (s: int) => [])
  }

  function Min(a: nat, b: nat): nat {
    if a <= b then a else b
  }

  lemma {:induction false} FeedTake(n: nat, r: Run<int>, xs: seq<Value>)
    requires !r.stopped && r.state >= 1
    ensures var k := Min(r.state as nat, |xs|);
      Feed(Take(n), r, xs) == Run(r.state - k, r.out + xs[..k], |xs| >= r.state)
    decreases |xs|
  {
    if xs != [] {
      var r' := Run(r.state - 1, r.out + [xs[0]], r.state - 1 <= 0);
      assert Feed(Take(n), r, xs) == Feed(Take(n), r', xs[1..]);
      if r.state > 1 {
        FeedTake(n, r', xs[1..]);
        var k := Min(r.state as nat, |xs|);
        assert xs[..k] == [xs[0]] + xs[1..][..k - 1];
      } else {
        assert xs[..1] == [xs[0]];
      }
    }
  }

  /** With (take n) the result is the first n matches: the scan stops after the n-th. */
  lemma TakeFirst(obj: Value, pred: Value -> bool, n: nat)
    ensures var ms := Matches(obj, pred, false); var k := Min(n, |ms|);
      XfMatches(obj, pred, Take(n)) == if k == 0 then None else Some(ms[..k])
  {
    var ms := Matches(obj, pred, false);
    if n >= 1 {
      FeedTake(n, Run(n as int, [], false), ms);
      var run := Feed(Take(n), Run(n as int, [], false), ms);
      assert run.out == ms[..Min(n, |ms|)] && Take(n).complete(run.state) == [];
      assert run.out + Take(n).complete(run.state) == ms[..Min(n, |ms|)];
    } else if ms != [] {
      assert Feed(Take(n), Run(0, [], false), ms) == Run(-1, [], true);
    }
  }
}
