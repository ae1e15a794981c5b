/**
 The key order of a JavaScript `Map`: keys are listed in insertion order,
 `set` on a new key appends it, `delete` drops it, and no key is listed
 twice.
 */
module KeyOrder {

  /** No element occurs twice. */
  ghost predicate NoDups(xs: seq<string>) {
    forall i, j :: 0 <= i < j < |xs| ==> xs[i] != xs[j]
  }

  /** The set of elements listed. */
  function Elems(xs: seq<string>): set<string> {
    set x | x in xs
  }

  /** `xs` with every occurrence of `x` dropped, the others kept in order. */
  function Without(xs: seq<string>, x: string): (r: seq<string>)
    ensures forall y :: y in r <==> y in xs && y != x
    ensures NoDups(xs) ==> NoDups(r)
    ensures |r| <= |xs|
    ensures x !in xs ==> r == xs
  {
    if |xs| == 0 then []
    else if xs[0] == x then Without(xs[1..], x)
    else
      var rest := Without(xs[1..], x);
      NoDupsCons(xs[0], xs[1..]);
      NoDupsCons(xs[0], rest);
      assert xs == [xs[0]] + xs[1..];
      [xs[0]] + rest
  }

  /** A list headed by `h` is duplicate-free exactly when its tail is and
      does not list `h`. */
  lemma NoDupsCons(h: string, t: seq<string>)
    ensures NoDups([h] + t) <==> h !in t && NoDups(t)
  {
    var xs := [h] + t;
    if NoDups(xs) {
      forall i, j | 0 <= i < j < |t| ensures t[i] != t[j] {
        assert t[i] == xs[i + 1] && t[j] == xs[j + 1];
      }
      forall k | 0 <= k < |t| ensures t[k] != h {
        assert t[k] == xs[k + 1] && h == xs[0];
      }
    }
    if h !in t && NoDups(t) {
      forall i, j | 0 <= i < j < |xs| ensures xs[i] != xs[j] {
        if i > 0 {
          assert xs[i] == t[i - 1] && xs[j] == t[j - 1];
        } else {
          assert xs[j] == t[j - 1];
        }
      }
    }
  }

  /** `a` is listed somewhere before `b`. */
  ghost predicate Precedes(xs: seq<string>, a: string, b: string) {
    exists i, j :: 0 <= i < j < |xs| && xs[i] == a && xs[j] == b
  }

  /** Dropping `x` invents no new order: whatever comes before what in
      the result came in that order before. */
  lemma {:induction false} WithoutKeepsOrder(xs: seq<string>, x: string, a: string, b: string)
    ensures Precedes(Without(xs, x), a, b) ==> Precedes(xs, a, b)
  {
    if |xs| > 0 && Precedes(Without(xs, x), a, b) {
      var h, t := xs[0], xs[1..];
      var r, r' := Without(xs, x), Without(t, x);
      assert r == if h == x then r' else [h] + r';
      var i, j :| 0 <= i < j < |r| && r[i] == a && r[j] == b;
      if h == x || i > 0 {
        assert Precedes(r', a, b) by {
          if h != x {
            assert r'[i - 1] == a && r'[j - 1] == b;
          }
        }
        WithoutKeepsOrder(t, x, a, b);
        var i', j' :| 0 <= i' < j' < |t| && t[i'] == a && t[j'] == b;
        assert xs[i' + 1] == a && xs[j' + 1] == b;
      } else {
        assert b == r'[j - 1] && b in r';
        var k :| 0 <= k < |t| && t[k] == b;
        assert xs[0] == a && xs[k + 1] == b;
      }
    }
  }

  /** Dropping `x` loses no order among the elements that stay. */
  lemma {:induction false} WithoutKeepsOrderOfRest(xs: seq<string>, x: string, a: string, b: string)
    requires a != x && b != x
    ensures Precedes(xs, a, b) ==> Precedes(Without(xs, x), a, b)
  {
    if Precedes(xs, a, b) {
      var h, t := xs[0], xs[1..];
      var r, r' := Without(xs, x), Without(t, x);
      assert r == if h == x then r' else [h] + r';
      var i, j :| 0 <= i < j < |xs| && xs[i] == a && xs[j] == b;
      if i > 0 {
        assert t[i - 1] == a && t[j - 1] == b;
        WithoutKeepsOrderOfRest(t, x, a, b);
        var i', j' :| 0 <= i' < j' < |r'| && r'[i'] == a && r'[j'] == b;
        if h != x {
          assert r[i' + 1] == a && r[j' + 1] == b;
        }
      } else {
        assert t[j - 1] == b && b in r';
        var k :| 0 <= k < |r'| && r'[k] == b;
        assert r[0] == a && r[k + 1] == b;
      }
    }
  }

  /** Appending a fresh element keeps the list duplicate-free. */
  lemma AppendFresh(xs: seq<string>, x: string)
    requires NoDups(xs) && x !in xs
    ensures NoDups(xs + [x])
  {
    forall i, j | 0 <= i < j < |xs + [x]|
      ensures (xs + [x])[i] != (xs + [x])[j]
    {
      if j == |xs| {
        assert xs[i] in xs;
      }
    }
  }

  /** A duplicate-free list has as many elements as the set it lists. */
  lemma {:induction false} DistinctCard(xs: seq<string>)
    requires NoDups(xs)
    ensures |Elems(xs)| == |xs|
  {
    if |xs| > 0 {
      var rest := xs[1..];
      assert NoDups(rest) by {
        forall i, j | 0 <= i < j < |rest| ensures rest[i] != rest[j] {
          assert rest[i] == xs[i + 1] && rest[j] == xs[j + 1];
        }
      }
      DistinctCard(rest);
      assert xs[0] !in rest by {
        forall k | 0 <= k < |rest| ensures rest[k] != xs[0] {
          assert rest[k] == xs[k + 1];
        }
      }
      assert Elems(xs) == Elems(rest) + {xs[0]} by {
        assert xs == [xs[0]] + rest;
      }
    }
  }
}
