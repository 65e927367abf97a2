/** Logical block numbers and the paths of pointers that reach them (kernel/src/ext2.rs:592-606). */
module BlockRoutes {
  import opened Basics

  /** Which of the 15 inode pointers to start from, and the pointer index at each level below it. */
  datatype Route = Route(slot: nat, path: seq<nat>)

  /** Depth of the tree below an inode pointer: 12 direct, then single, double and triple indirect. */
  function SlotLevel(slot: nat): nat
  {
    if slot < 12 then 0 else slot - 11
  }

  /** Data blocks below one pointer at `level`. */
  function Span(p: nat, level: nat): nat
  {
    if level == 0 then 1 else p * Span(p, level - 1)
  }

  /** Position of the data block at the end of `path` among those below its root. */
  function Off(p: nat, path: seq<nat>): nat
  {
    if path == [] then 0 else path[0] * Span(p, |path| - 1) + Off(p, path[1..])
  }

  /** First logical block below an inode pointer. */
  function Base(p: nat, slot: nat): nat
  {
    if slot <= 12 then slot else if slot == 13 then 12 + p else 12 + p + p * p
  }

  function Div(a: nat, b: nat): nat
    requires b > 0
  {
    a / b
  }

  function Mod(a: nat, b: nat): nat
    requires b > 0
  {
    a % b
  }

  function RouteOf(p: nat, l: nat): (r: Option<Route>)
    requires p > 0
  {
    if l < 12 then Some(Route(l, []))
    else
      var l := l - 12;
      if l < p then Some(Route(12, [l]))
      else
        var l := l - p;
        if l < p * p then Some(Route(13, [Div(l, p), Mod(l, p)]))
        else
          var l := l - p * p;
          if l < p * p * p then
            SquarePositive(p);
            Some(Route(14, [Div(l, p * p), Mod(Div(l, p), p), Mod(l, p)]))
          else None
  }

  lemma SquarePositive(p: nat)
    requires p > 0
    ensures p * p > 0
  {
    MulMono(p, 1, p);
  }

  ghost predicate InPath(p: nat, path: seq<nat>)
  {
    forall k :: 0 <= k < |path| ==> path[k] < p
  }

  lemma DivBelow(l: nat, p: nat, q: nat)
    requires p > 0 && l < q * p
    ensures l / p < q && l / p * p + l % p == l && l % p < p
  {
    assert l == p * (l / p) + l % p;
    if l / p >= q { MulMono(p, q, l / p); }
  }

  lemma MulMono(p: nat, q: nat, r: nat)
    requires q <= r
    ensures p * q <= p * r
  {
  }

  lemma Spans(p: nat)
    ensures Span(p, 0) == 1 && Span(p, 1) == p && Span(p, 2) == p * p && Span(p, 3) == p * (p * p)
  {
    assert Span(p, 1) == p * Span(p, 0);
    assert Span(p, 2) == p * Span(p, 1);
    assert Span(p, 3) == p * Span(p, 2);
  }

  lemma Off1(p: nat, a: nat)
    ensures Off(p, [a]) == a
  {
    assert [a][1..] == [];
    Spans(p);
    assert Off(p, [a]) == a * Span(p, 0) + Off(p, []);
  }

  lemma Off2(p: nat, a: nat, b: nat)
    ensures Off(p, [a, b]) == a * p + b
  {
    assert [a, b][1..] == [b];
    Spans(p);
    Off1(p, b);
  }

  lemma Off3(p: nat, a: nat, b: nat, c: nat)
    ensures Off(p, [a, b, c]) == a * (p * p) + b * p + c
  {
    assert [a, b, c][1..] == [b, c];
    Spans(p);
    Off2(p, b, c);
  }

  /** A route has the depth of its slot, stays within the pointer blocks, and its position counted
      from the slot's first block is the logical block. So two blocks never share a route. */
  lemma RouteMeaning(p: nat, l: nat)
    requires p > 0 && RouteOf(p, l).Some?
    ensures var r := RouteOf(p, l).value;
            && r.slot < 15 && |r.path| == SlotLevel(r.slot) && InPath(p, r.path)
            && Base(p, r.slot) + Off(p, r.path) == l
  {
    if l < 12 {
    } else if l - 12 < p {
      Off1(p, l - 12);
    } else if l - 12 - p < p * p {
      var m := l - 12 - p;
      DivBelow(m, p, p);
      Off2(p, m / p, m % p);
    } else {
      var m := l - 12 - p - p * p;
      TripleRoute(p, m);
    }
  }

  lemma TripleRoute(p: nat, m: nat)
    requires p > 0 && m < p * p * p
    ensures p * p > 0 && m / (p * p) < p && m / p % p < p && m % p < p
    ensures Off(p, [m / (p * p), m / p % p, m % p]) == m
  {
    DivBelow(m, p, p * p);
    DivBelow(m / p, p, p);
    Compose(p, m, m / p, m / p / p, m / p % p, m % p);
  }

  lemma Compose(p: nat, m: nat, q: nat, a: nat, b: nat, c: nat)
    requires p > 0 && m == q * p + c && q == a * p + b && b < p && c < p
    ensures p * p > 0 && m / (p * p) == a && Off(p, [a, b, c]) == m
  {
    Digits(p, a, b, c);
    DivUnique(m, p * p, a, b * p + c);
    Off3(p, a, b, c);
  }

  /** Three digits in base `p`, read from either end. */
  lemma Digits(p: nat, a: nat, b: nat, c: nat)
    requires p > 0 && b < p && c < p
    ensures (a * p + b) * p + c == a * (p * p) + (b * p + c)
    ensures b * p + c < p * p
  {
    MulMono(p, b, p - 1);
    assert b * p <= (p - 1) * p;
    assert (p - 1) * p == p * p - p;
    assert (a * p + b) * p == a * p * p + b * p;
    assert a * p * p == a * (p * p);
  }

  lemma DivUnique(m: nat, n: nat, q: nat, r: nat)
    requires n > 0 && m == q * n + r && r < n
    ensures m / n == q
  {
    var k := m / n;
    assert m == n * k + m % n;
    if k < q {
      MulMono(n, k + 1, q);
    } else if k > q {
      MulMono(n, q + 1, k);
    }
  }

  /** A path below a root stays within the root's span. */
  lemma {:induction false} OffBound(p: nat, path: seq<nat>)
    requires InPath(p, path)
    ensures Off(p, path) < Span(p, |path|)
  {
    if path != [] {
      OffBound(p, path[1..]);
      var s := Span(p, |path| - 1);
      MulMono(s, path[0], p - 1);
      assert path[0] * s <= (p - 1) * s;
      assert (p - 1) * s + s == p * s;
    }
  }

  // ---------------------------------------------------------------- every block the pointers can reach

  /** Logical blocks below 12 direct pointers and one single, one double and one triple indirect block. */
  lemma RoutesReach(p: nat, l: nat)
    requires p > 0
    ensures RouteOf(p, l).Some? <==> l < 12 + p + p * p + p * p * p
  {
  }

  lemma DirectRoute(p: nat, l: nat)
    requires p > 0 && l < 12
    ensures RouteOf(p, l) == Some(Route(l, []))
  {
  }

  lemma SingleRoute(p: nat, i: nat)
    requires i < p
    ensures RouteOf(p, 12 + i) == Some(Route(12, [i]))
  {
  }

  lemma DoubleRoute(p: nat, i: nat, j: nat)
    requires i < p && j < p
    ensures RouteOf(p, 12 + p + i * p + j) == Some(Route(13, [i, j]))
  {
    var l := i * p + j;
    TwoDigits(p, p, i, j);
    assert 12 + p + i * p + j - 12 - p == l;
  }

  lemma TripleRouteFound(p: nat, i: nat, j: nat, k: nat)
    requires i < p && j < p && k < p
    ensures RouteOf(p, 12 + p + p * p + (i * p + j) * p + k) == Some(Route(14, [i, j, k]))
  {
    var q := i * p + j;
    var l := q * p + k;
    TwoDigits(p, p, i, j);
    TwoDigits(p, p * p, q, k);
    Compose(p, l, q, i, j, k);
    SquarePositive(p);
    assert 12 + p + p * p + (i * p + j) * p + k - 12 - p - p * p == l;
  }

  lemma TwoDigits(p: nat, n: nat, a: nat, b: nat)
    requires a < n && b < p
    ensures p > 0 && a * p + b < n * p && Div(a * p + b, p) == a && Mod(a * p + b, p) == b
  {
    MulMono(p, a, n - 1);
    assert a * p <= (n - 1) * p;
    assert (n - 1) * p == n * p - p;
    DivUnique(a * p + b, p, a, b);
    assert a * p + b == p * Div(a * p + b, p) + Mod(a * p + b, p);
  }
}
