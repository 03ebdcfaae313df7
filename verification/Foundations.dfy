/** Small shared vocabulary: optional values and counting over sequences. */
module Foundations {

  datatype Option<+T> = None | Some(value: T)

  /** Number of elements of `s` that satisfy `p`. */
  ghost function Count<T>(p: T -> bool, s: seq<T>): nat
  {
    if s == [] then 0 else Count(p, s[..|s| - 1]) + (if p(s[|s| - 1]) then 1 else 0)
  }

  /** Replacing one element changes the count by what that element contributed. */
  lemma {:induction false} CountUpdate<T>(p: T -> bool, s: seq<T>, i: nat, v: T)
    requires i < |s|
    ensures Count(p, s[i := v]) + (if p(s[i]) then 1 else 0) == Count(p, s) + (if p(v) then 1 else 0)
  {
    var n := |s| - 1;
    if i == n {
      assert s[i := v][..n] == s[..n];
    } else {
      CountUpdate(p, s[..n], i, v);
      assert s[i := v][..n] == s[..n][i := v];
    }
  }

  /** Appending one element adds what it contributes. */
  lemma CountAppend<T>(p: T -> bool, s: seq<T>, v: T)
    ensures Count(p, s + [v]) == Count(p, s) + (if p(v) then 1 else 0)
  {
    assert (s + [v])[..|s|] == s;
  }

  /** A weaker predicate counts at least as much. */
  lemma {:induction false} CountMonotone<T>(p: T -> bool, q: T -> bool, s: seq<T>)
    requires forall x <- s :: p(x) ==> q(x)
    ensures Count(p, s) <= Count(q, s)
  {
    if s != [] {
      CountMonotone(p, q, s[..|s| - 1]);
    }
  }

  /** Nothing satisfies the predicate, so the count is zero. */
  lemma {:induction false} CountNone<T>(p: T -> bool, s: seq<T>)
    requires forall x <- s :: !p(x)
    ensures Count(p, s) == 0
  {
    if s != [] {
      CountNone(p, s[..|s| - 1]);
    }
  }

  /** A member that satisfies the predicate makes the count positive. */
  lemma {:induction false} CountPositive<T>(p: T -> bool, s: seq<T>, i: nat)
    requires i < |s| && p(s[i])
    ensures 1 <= Count(p, s)
  {
    if i < |s| - 1 {
      CountPositive(p, s[..|s| - 1], i);
    }
  }

  // ----- Selections -----------------------------------------------------------------------

  ghost predicate Increasing(ps: seq<nat>) {
    forall i, j | 0 <= i < j < |ps| :: ps[i] < ps[j]
  }

  /**
    `r` shows, in order and once each, `f` of exactly the elements of `s` that satisfy `p`;
    `ps` are their positions.
  */
  ghost predicate Selects<T, U>(s: seq<T>, p: T -> bool, f: T -> U, r: seq<U>, ps: seq<nat>)
  {
    && |r| == |ps| && Increasing(ps)
    && (forall i | 0 <= i < |ps| :: ps[i] < |s| && r[i] == f(s[ps[i]]))
    && (forall k | 0 <= k < |s| :: p(s[k]) <==> k in ps)
  }

  /** A selection grows by one element at the end of the sequence. */
  lemma SelectsOneMore<T, U>(s: seq<T>, x: T, p: T -> bool, f: T -> U, r: seq<U>, ps: seq<nat>)
    requires Selects(s, p, f, r, ps)
    ensures
      if p(x) then Selects(s + [x], p, f, r + [f(x)], ps + [|s|])
      else Selects(s + [x], p, f, r, ps)
  {
    var t := s + [x];
    assert forall k | 0 <= k < |s| :: t[k] == s[k];
    assert |s| !in ps;
    if p(x) {
      var qs := ps + [|s|];
      forall k | 0 <= k < |t| ensures p(t[k]) <==> k in qs {
        if k < |s| { assert k in qs <==> k in ps; }
      }
    }
  }
}
