/**
 * Replacement sources. The Replacer interface has two implementations: a
 * function replacer, which applies a caller function to each matched value,
 * and a list replacer, which ignores its argument and hands out the elements
 * of a precomputed list one by one through an index cursor.
 *
 * Source is the value-level view of a replacer (its strategy and, for the
 * list replacer, the cursor); Replacer is the stateful object the replay
 * engine threads through its recursion.
 */
module Replacers {
  import opened Values

  datatype Source =
    | FunctionSource(f: Value -> Out)
    | ListSource(replacements: seq<Out>, idx: nat)
  {
    /** The source can serve n more calls: a list replacer fails once its list is exhausted. */
    predicate Has(n: nat) {
      FunctionSource? || idx + n <= |replacements|
    }

    /** The source after n calls: only the list cursor moves. */
    function Advance(n: nat): Source {
      match this
      case FunctionSource(_) => this
      case ListSource(rs, i) => ListSource(rs, i + n)
    }

    /** One call of replace on v: the replacement and the source afterwards. */
    function Replace(v: Value): (r: (Out, Source))
      requires Has(1)
      ensures r.1 == Advance(1)
      ensures ListSource? ==> r.0 == replacements[idx]
      ensures FunctionSource? ==> r.0 == f(v)
    {
      match this
      case FunctionSource(g) => (g(v), this)
      case ListSource(rs, i) => (rs[i], ListSource(rs, i + 1))
    }
  }

  /** Serving a + b calls is serving a calls and then b more. */
  lemma SplitCalls(src: Source, a: nat, b: nat)
    requires src.Has(a + b)
    ensures src.Has(a) && src.Advance(a).Has(b) && src.Advance(a).Advance(b) == src.Advance(a + b)
  {
  }

  /** The replacements produced by calling replace on each of vs in turn. */
  function ReplaceEach(src: Source, vs: seq<Value>): (Source, seq<Out>)
    requires src.Has(|vs|)
    decreases |vs|
  {
    if vs == [] then (src, [])
    else
      var (o, s) := src.Replace(vs[0]);
      var (s', os) := ReplaceEach(s, vs[1..]);
      (s', [o] + os)
  }

  /** The k-th call of a list replacer returns the k-th list element, whatever the arguments. */
  lemma {:induction false} ListReplacerIsPositional(rs: seq<Out>, i: nat, vs: seq<Value>)
    requires i + |vs| <= |rs|
    ensures ReplaceEach(ListSource(rs, i), vs) == (ListSource(rs, i + |vs|), rs[i..i + |vs|])
    decreases |vs|
  {
    if vs != [] {
      ListReplacerIsPositional(rs, i + 1, vs[1..]);
      var rest := ReplaceEach(ListSource(rs, i + 1), vs[1..]);
      assert rest.0 == ListSource(rs, i + |vs|);
      assert rest.1 == rs[i + 1..i + |vs|];
      assert ReplaceEach(ListSource(rs, i), vs) == (rest.0, [rs[i]] + rest.1);
      assert rs[i..i + |vs|] == [rs[i]] + rs[i + 1..i + |vs|];
    } else {
      assert rs[i..i + |vs|] == [];
    }
  }

  /** A function replacer calls its function once per call, on that call's argument. */
  lemma {:induction false} FunctionReplacerIsPointwise(f: Value -> Out, vs: seq<Value>)
    ensures ReplaceEach(FunctionSource(f), vs).1 == seq(|vs|, k requires 0 <= k < |vs| => f(vs[k]))
    decreases |vs|
  {
    if vs != [] {
      FunctionReplacerIsPointwise(f, vs[1..]);
    }
  }

  /**
   * The replacer object. Built with Function it is a function replacer;
   * built with List it is a list replacer whose cursor idx starts at 0 and
   * whose list is never modified.
   */
  class Replacer {
    const byList: bool
    const fn: Value -> Out
    const replacements: seq<Out>
    var idx: nat

    ghost function State(): Source
      reads this
    {
      if byList then ListSource(replacements, idx) else FunctionSource(fn)
    }

    constructor Function(f: Value -> Out)
      ensures State() == FunctionSource(f)
    {
      byList := false;
      fn := f;
      replacements := [];
      idx := 0;
    }

    constructor List(rs: seq<Out>)
      ensures State() == ListSource(rs, 0)
    {
      byList := true;
      fn := v => Kept(v);
      replacements := rs;
      idx := 0;
    }

    /** replace: apply the function, or return replacements[idx] and advance idx by one. */
    method Replace(v: Value) returns (o: Out)
      requires State().Has(1)
      modifies this
      ensures (o, State()) == old(State()).Replace(v)
    {
      if byList {
        o := replacements[idx];
        idx := idx + 1;
      } else {
        o := fn(v);
      }
    }
  }
}
