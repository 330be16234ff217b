/** Sequence helpers shared by both loaders: mapping a function over lines, and
    keeping the values of the lines that produced one. */
module Sequences {
  import opened Wrappers

  /** `f` applied to every element, in order. */
  function Apply<A, B>(f: A -> B, xs: seq<A>): seq<B> {
    seq(|xs|, i requires 0 <= i < |xs| => f(xs[i]))
  }

  /** The position of the first `x` at or after `i` in `s`, or the length of `s`
      when there is none. */
  function IndexOf<T(==)>(s: seq<T>, x: T, i: nat): (j: nat)
    requires i <= |s|
    ensures i <= j <= |s|
    ensures forall k :: i <= k < j ==> s[k] != x
    ensures j < |s| ==> s[j] == x
    decreases |s| - i
  {
    if i < |s| && s[i] != x then IndexOf(s, x, i + 1) else i
  }

  /** `IndexOf` is determined by its contract. */
  lemma {:induction false} IndexOfAt<T>(s: seq<T>, x: T, i: nat, j: nat)
    requires i <= j <= |s|
    requires forall k :: i <= k < j ==> s[k] != x
    requires j < |s| ==> s[j] == x
    ensures IndexOf(s, x, i) == j
    decreases j - i
  {
    if i < j {
      IndexOfAt(s, x, i + 1, j);
    }
  }

  /** The values held by the `Some` entries, in order. */
  function Present<T>(rs: seq<Option<T>>): seq<T> {
    if rs == [] then []
    else Present(rs[..|rs| - 1]) + (if rs[|rs| - 1].Some? then [rs[|rs| - 1].value] else [])
  }

  /** One more entry adds its value, if it holds one, at the end. */
  lemma {:induction false} PresentStep<T>(rs: seq<Option<T>>, i: nat)
    requires i < |rs|
    ensures Present(rs[..i + 1]) == Present(rs[..i]) + (if rs[i].Some? then [rs[i].value] else [])
  {
    assert rs[..i + 1][..i] == rs[..i];
  }

  /** Keeping the values distributes over concatenation. */
  lemma {:induction false} PresentConcat<T>(a: seq<Option<T>>, b: seq<Option<T>>)
    ensures Present(a + b) == Present(a) + Present(b)
    decreases |b|
  {
    if b == [] {
      assert a + b == a;
    } else {
      var n := |b| - 1;
      PresentConcat(a, b[..n]);
      assert (a + b)[..|a + b| - 1] == a + b[..n];
    }
  }

  /** A value is kept exactly when some entry holds it. */
  lemma {:induction false} PresentExactly<T>(rs: seq<Option<T>>, v: T)
    ensures v in Present(rs) <==> exists i :: 0 <= i < |rs| && rs[i] == Some(v)
    decreases |rs|
  {
    if rs != [] {
      var n := |rs| - 1;
      var front := rs[..n];
      PresentExactly(front, v);
      if exists i :: 0 <= i < |rs| && rs[i] == Some(v) {
        var i :| 0 <= i < |rs| && rs[i] == Some(v);
        if i < n {
          assert front[i] == rs[i];
        }
      }
      if v in Present(front) {
        var i :| 0 <= i < |front| && front[i] == Some(v);
        assert rs[i] == front[i];
      }
    }
  }

  /** One value is kept per `Some` entry. */
  lemma {:induction false} PresentCount<T>(rs: seq<Option<T>>)
    ensures |Present(rs)| == |set i | 0 <= i < |rs| && rs[i].Some?|
    decreases |rs|
  {
    if rs != [] {
      var n := |rs| - 1;
      var front := rs[..n];
      PresentCount(front);
      var before := set i | 0 <= i < |front| && front[i].Some?;
      var all := set i | 0 <= i < |rs| && rs[i].Some?;
      assert before == set i | 0 <= i < n && rs[i].Some?;
      if rs[n].Some? {
        assert all == before + {n};
      } else {
        assert all == before;
      }
    }
  }

  /** Mapping distributes over concatenation. */
  lemma {:induction false} ApplyConcat<A, B>(f: A -> B, a: seq<A>, b: seq<A>)
    ensures Apply(f, a + b) == Apply(f, a) + Apply(f, b)
  {
  }
}
