/**
 * The shape shared by the bullet pass and the particle pass: each element
 * is stepped once (moved and aged), and the ones whose life has run out are
 * deleted from the slice on the spot, the rest keeping their order.
 */
module Pruning {

  /** What one pass leaves of s: the stepped elements that are still alive, in order. */
  function AgeAndPrune<T>(s: seq<T>, step: T -> T, alive: T -> bool): (r: seq<T>)
    ensures |r| <= |s|
  {
    if |s| == 0 then []
    else
      var x := step(s[|s| - 1]);
      AgeAndPrune(s[..|s| - 1], step, alive) + (if alive(x) then [x] else [])
  }

  /** One more element processed extends the pass's result by that element, when it survives. */
  lemma AgeAndPruneSnoc<T>(s: seq<T>, x: T, step: T -> T, alive: T -> bool)
    ensures AgeAndPrune(s + [x], step, alive) ==
      AgeAndPrune(s, step, alive) + (if alive(step(x)) then [step(x)] else [])
  {
    assert (s + [x])[..|s + [x]| - 1] == s;
  }

  /**
   * One turn of the in-place loop that runs the pass: r holds the survivors
   * of the first d elements of s, then the d-th element and the rest still
   * unvisited. Writing the stepped element back into slot i and moving on,
   * when it survives, or deleting slot i and staying, when it does not,
   * keeps that shape with one element more visited.
   */
  lemma AgeAndPruneInPlace<T>(s: seq<T>, d: nat, r: seq<T>, i: nat, step: T -> T, alive: T -> bool)
    requires d < |s| && i < |r|
    requires r[..i] == AgeAndPrune(s[..d], step, alive) && r[i..] == s[d..]
    ensures r[i] == s[d]
    ensures alive(step(r[i])) ==>
      r[i := step(r[i])][..i + 1] == AgeAndPrune(s[..d + 1], step, alive) && r[i := step(r[i])][i + 1..] == s[d + 1..]
    ensures !alive(step(r[i])) ==>
      (r[..i] + r[i + 1..])[..i] == AgeAndPrune(s[..d + 1], step, alive) && (r[..i] + r[i + 1..])[i..] == s[d + 1..]
  {
    assert r[i] == r[i..][0] == s[d..][0] == s[d];
    assert s[..d + 1] == s[..d] + [s[d]];
    AgeAndPruneSnoc(s[..d], s[d], step, alive);
    var x := step(r[i]);
    if alive(x) {
      assert r[i := x][..i + 1] == r[..i] + [x];
      assert r[i := x][i + 1..] == r[i + 1..] == r[i..][1..];
    } else {
      assert (r[..i] + r[i + 1..])[..i] == r[..i];
      assert (r[..i] + r[i + 1..])[i..] == r[i + 1..] == r[i..][1..];
    }
  }

  /** The pass works element by element: on a concatenation it is the concatenation of the passes, so survivors keep their relative order. */
  lemma {:induction false} AgeAndPruneAppend<T>(a: seq<T>, b: seq<T>, step: T -> T, alive: T -> bool)
    ensures AgeAndPrune(a + b, step, alive) == AgeAndPrune(a, step, alive) + AgeAndPrune(b, step, alive)
    decreases |b|
  {
    if |b| == 0 {
      assert a + b == a;
    } else {
      var c := b[..|b| - 1];
      var x := b[|b| - 1];
      assert b == c + [x];
      assert a + b == (a + c) + [x];
      AgeAndPruneSnoc(a + c, x, step, alive);
      AgeAndPruneSnoc(c, x, step, alive);
      AgeAndPruneAppend(a, c, step, alive);
    }
  }

  /** Exactly the stepped elements that are alive survive: y is in the result iff it is alive and the step of some element. */
  lemma {:induction false} AgeAndPruneMembers<T>(s: seq<T>, step: T -> T, alive: T -> bool, y: T)
    ensures y in AgeAndPrune(s, step, alive) <==> alive(y) && exists i :: 0 <= i < |s| && y == step(s[i])
  {
    if |s| > 0 {
      var c := s[..|s| - 1];
      AgeAndPruneMembers(c, step, alive, y);
      if y in AgeAndPrune(c, step, alive) {
        var i :| 0 <= i < |c| && y == step(c[i]);
        assert s[i] == c[i];
      }
      if alive(y) && exists i :: 0 <= i < |s| && y == step(s[i]) {
        var i :| 0 <= i < |s| && y == step(s[i]);
        if i < |c| {
          assert c[i] == s[i];
        }
      }
    }
  }

  /** When every stepped element is alive nothing is deleted: the pass just steps each element. */
  lemma {:induction false} AgeAndPruneAllAlive<T>(s: seq<T>, step: T -> T, alive: T -> bool)
    requires forall x <- s :: alive(step(x))
    ensures AgeAndPrune(s, step, alive) == seq(|s|, i requires 0 <= i < |s| => step(s[i]))
  {
    if |s| > 0 {
      var c := s[..|s| - 1];
      assert forall x <- c :: x in s;
      AgeAndPruneAllAlive(c, step, alive);
    }
  }

  /** When no stepped element is alive the pass empties the slice. */
  lemma {:induction false} AgeAndPruneNoneAlive<T>(s: seq<T>, step: T -> T, alive: T -> bool)
    requires forall x <- s :: !alive(step(x))
    ensures AgeAndPrune(s, step, alive) == []
  {
    if |s| > 0 {
      var c := s[..|s| - 1];
      assert forall x <- c :: x in s;
      AgeAndPruneNoneAlive(c, step, alive);
    }
  }

  /**
   * An invariant that the step carries from every element to its survivor
   * holds of every survivor.
   */
  lemma {:induction false} AgeAndPruneKeeps<T>(s: seq<T>, step: T -> T, alive: T -> bool, inv: T -> bool)
    requires forall x <- s :: inv(x)
    requires forall x :: inv(x) && alive(step(x)) ==> inv(step(x))
    ensures forall y <- AgeAndPrune(s, step, alive) :: inv(y)
  {
    if |s| > 0 {
      var c := s[..|s| - 1];
      assert forall x <- c :: x in s;
      AgeAndPruneKeeps(c, step, alive, inv);
    }
  }
}
