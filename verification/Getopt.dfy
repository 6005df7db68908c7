/** The in-place exchange of two adjacent blocks of arguments (lib/util/getopt_long.c). */
module Getopt {
  import opened Arithmetic
  import opened Bits

  ghost predicate Divides(d: nat, v: int)
    requires 0 < d
  {
    exists q: int :: Times(q, d) == v
  }

  function Times(q: int, d: int): (r: int) {
    q * d
  }

  /** A positive combination of a and b that divides both is their greatest common divisor. */
  ghost predicate IsGcd(g: nat, a: nat, b: nat, x: int, y: int) {
    0 < g && Divides(g, a) && Divides(g, b) && g == Times(x, a) + Times(y, b)
  }

  lemma IsGcdMeansGreatest(g: nat, a: nat, b: nat, x: int, y: int, d: nat)
    requires IsGcd(g, a, b, x, y) && 0 < d && Divides(d, a) && Divides(d, b)
    ensures Divides(d, g) && d <= g
  {
    var p, q :| Times(p, d) == a && Times(q, d) == b;
    Reassociate(x, p, d);
    Reassociate(y, q, d);
    Distribute(x * p, y * q, d);
    assert Times(x * p + y * q, d) == g;
    MulAtLeast(x * p + y * q, d);
  }

  /** The remainder of a by b has the same common divisors with b. */
  lemma DividesRemainder(g: nat, a: nat, b: nat)
    requires 0 < g && 0 < b && Divides(g, b) && Divides(g, a % b)
    ensures Divides(g, a)
  {
    var p, q, k := a / b, Quotient(b, g), Quotient(a % b, g);
    calc {
      a;
      p * b + a % b;
      p * (q * g) + k * g;
      (p * q + k) * g;
      Times(p * q + k, g);
    }
  }

  ghost function Quotient(v: int, d: nat): (q: int)
    requires 0 < d && Divides(d, v)
    ensures q * d == v
  {
    var q :| Times(q, d) == v;
    q
  }

  function GcdOf(a: nat, b: nat): (g: nat)
    requires 0 < b
    decreases b
  {
    if a % b == 0 then b else GcdOf(b, a % b)
  }

  lemma {:induction false} GcdOfIsGcd(a: nat, b: nat) returns (x: int, y: int)
    requires 0 < b
    ensures IsGcd(GcdOf(a, b), a, b, x, y)
    decreases b
  {
    var c := a % b;
    if c == 0 {
      x, y := 0, 1;
      assert Times(1, b) == b && Times(a / b, b) == a;
    } else {
      var x', y' := GcdOfIsGcd(b, c);
      DividesRemainder(GcdOf(b, c), a, b);
      x, y := y', x' - y' * (a / b);
      Combination(a, b, a / b, c, x', y');
    }
  }

  lemma Combination(a: int, b: int, q: int, c: int, x: int, y: int)
    requires a == q * b + c
    ensures Times(x, b) + Times(y, c) == Times(y, a) + Times(x - y * q, b)
  {
    Distribute(x, -(y * q), b);
    Reassociate(y, q, b);
    Distribute(q * b, c, y);
  }

  /** gcd. */
  method Gcd(first: nat, second: nat) returns (g: nat)
    requires 0 < second
    ensures g == GcdOf(first, second)
    ensures exists x, y :: IsGcd(g, first, second, x, y)
  {
    var a, b := first, second;
    var c := a % b;
    while c != 0
      invariant 0 < b && c == a % b && GcdOf(a, b) == GcdOf(first, second)
      decreases b
    {
      a := b;
      b := c;
      c := a % b;
    }
    ghost var x, y := GcdOfIsGcd(first, second);
    assert IsGcd(b, first, second, x, y);
    return b;
  }

  // ----- the cycles of the exchange

  /** Where an element of the two blocks goes. */
  function Step(p: nat, m: nat, n: nat): (r: nat)
    requires p < m + n
    ensures r < m + n && Back(r, m, n) == p
  {
    if p >= m then p - m else p + n
  }

  /** Where it came from. */
  function Back(q: nat, m: nat, n: nat): (r: nat)
    requires q < m + n
    ensures r < m + n
  {
    if q < n then q + m else q - n
  }

  function Orbit(c: nat, m: nat, n: nat, j: nat): (p: nat)
    requires c < m + n
    ensures p < m + n
  {
    if j == 0 then c else Step(Orbit(c, m, n, j - 1), m, n)
  }

  /** How often the orbit has wrapped around. */
  function Laps(c: nat, m: nat, n: nat, j: nat): (r: nat)
    requires c < m + n
  {
    if j == 0 then 0 else Laps(c, m, n, j - 1) + if Orbit(c, m, n, j - 1) >= m then 1 else 0
  }

  lemma {:induction false} OrbitIsModular(c: nat, m: nat, n: nat, j: nat)
    requires c < m + n
    ensures Orbit(c, m, n, j) == c + j * n - Laps(c, m, n, j) * (m + n)
  {
    if j > 0 {
      OrbitIsModular(c, m, n, j - 1);
      AddOne(j - 1, n);
      AddOne(Laps(c, m, n, j - 1), m + n);
    }
  }

  lemma AddOne(q: int, d: int)
    ensures (q + 1) * d == q * d + d
  {
  }

  /** Two positions that differ by a multiple of the length are equal. */
  lemma SamePosition(p: nat, q: nat, l: nat, w: int)
    requires p < l && q < l && p == q + w * l
    ensures p == q
  {
    MulAtLeast(w, l);
    if w == 0 {
      assert w * l == 0;
    }
  }

  /** How the two blocks are cut by their greatest common divisor. */
  ghost predicate Cut(m: nat, n: nat, g: nat, m': nat, n': nat, x: int, y: int) {
    0 < g && 0 < m' && 0 < n' && m == m' * g && n == n' * g && g == x * m + y * n
  }

  /** An orbit does not meet itself within its length. */
  lemma {:induction false} OrbitIsSimple(c: nat, m: nat, n: nat, g: nat, m': nat, n': nat, x: int, y: int, j: nat,
                                         k: nat)
    requires Cut(m, n, g, m', n', x, y) && c < m + n && j < k < m' + n'
    ensures Orbit(c, m, n, j) != Orbit(c, m, n, k)
  {
    OrbitIsModular(c, m, n, j);
    OrbitIsModular(c, m, n, k);
    if Orbit(c, m, n, j) == Orbit(c, m, n, k) {
      var l, l', d, w := m + n, m' + n', k - j, Laps(c, m, n, k) - Laps(c, m, n, j);
      Subtract(k, j, n);
      Subtract(Laps(c, m, n, k), Laps(c, m, n, j), l);
      Lengthen(m, n, g, m', n', x, y, d, w);
    }
  }

  /** Only multiples of the cycle length take a position to itself. */
  lemma Lengthen(m: nat, n: nat, g: nat, m': nat, n': nat, x: int, y: int, d: nat, w: int)
    requires Cut(m, n, g, m', n', x, y) && 0 < d < m' + n'
    ensures d * n != w * (m + n)
  {
    if d * n == w * (m + n) {
      Factor(m, n, g, m', n');
      Multiple(m, n, g, x, y, d);
      var u := Combined(x, y, d, w, m + n, n);
      Reassociate(u, m' + n', g);
      Cancel(d, u * (m' + n'), g);
      MulAtLeast(u, m' + n');
    }
  }

  lemma Combined(x: int, y: int, d: int, w: int, l: int, n: int) returns (u: int)
    requires d * n == w * l
    ensures (d * x) * l + (d * (y - x)) * n == u * l
  {
    u := d * x + (y - x) * w;
    calc {
      (d * (y - x)) * n;
      { Reassociate(y - x, d, n); }
      (y - x) * (w * l);
      { Reassociate(y - x, w, l); }
      ((y - x) * w) * l;
    }
    Distribute(d * x, (y - x) * w, l);
  }

  lemma Expand(d: int, x: int, y: int, l: int, n: int)
    ensures d * (x * (l - n) + y * n) == (x * d) * l + (y - x) * (d * n)
  {
  }

  lemma Cancel(a: int, b: int, g: nat)
    requires 0 < g && a * g == b * g
    ensures a == b
  {
    MulAtLeast(a - b, g);
    assert (a - b) * g == 0;
  }

  /** After its length the orbit is back where it started. */
  lemma OrbitCloses(c: nat, m: nat, n: nat, g: nat, m': nat, n': nat)
    requires m == m' * g && n == n' * g && c < m + n
    ensures Orbit(c, m, n, m' + n') == c
  {
    var w := Laps(c, m, n, m' + n');
    OrbitIsModular(c, m, n, m' + n');
    Revolution(m, n, g, m', n');
    Subtract(n', w, m + n);
    SamePosition(Orbit(c, m, n, m' + n'), c, m + n, n' - w);
  }

  lemma Subtract(a: int, b: int, c: int)
    ensures (a - b) * c == a * c - b * c
  {
  }

  /** The orbit of c passes every position that differs from c by a multiple of g; j says when. */
  lemma OrbitCovers(c: nat, m: nat, n: nat, g: nat, m': nat, n': nat, x: int, y: int, p: nat, t: int) returns (j: nat)
    requires Cut(m, n, g, m', n', x, y) && c < m + n && p < m + n && p == c + t * g
    ensures j < m' + n' && Orbit(c, m, n, j) == p
  {
    var l, l', u := m + n, m' + n', t * (y - x);
    j := u % l';
    var v := u / l';
    assert u == v * l' + j;
    var w := Laps(c, m, n, j);
    OrbitIsModular(c, m, n, j);
    Multiple(m, n, g, x, y, t);
    Factor(m, n, g, m', n');
    Unroll(v, l', j, n', g);
    Collect(t * x, v * n', w, l);
    SamePosition(Orbit(c, m, n, j), p, l, -(t * x) - v * n' - w);
  }

  lemma Factor(m: nat, n: nat, g: nat, m': nat, n': nat)
    requires m == m' * g && n == n' * g
    ensures m + n == (m' + n') * g
  {
  }

  lemma Revolution(m: nat, n: nat, g: nat, m': nat, n': nat)
    requires m == m' * g && n == n' * g
    ensures (m' + n') * n == n' * (m + n)
  {
    Exchange(1, m' + n', n', g);
    Factor(m, n, g, m', n');
  }

  lemma Multiple(m: nat, n: nat, g: nat, x: int, y: int, t: int)
    requires g == x * m + y * n
    ensures t * g == (t * x) * (m + n) + (t * (y - x)) * n
  {
    var l := m + n;
    Expand(t, x, y, l, n);
    assert m == l - n;
    assert (y - x) * (t * n) == (t * (y - x)) * n;
  }

  lemma Unroll(v: int, l': nat, j: nat, n': nat, g: nat)
    ensures (v * l' + j) * (n' * g) == (v * n') * (l' * g) + j * (n' * g)
  {
    Exchange(v, l', n', g);
    Distribute(v * l', j, n' * g);
  }

  lemma Exchange(a: int, b: int, c: int, d: int)
    ensures (a * b) * (c * d) == (a * c) * (b * d)
  {
    calc {
      (a * b) * (c * d);
      a * (b * (c * d));
      a * (c * (b * d));
      (a * c) * (b * d);
    }
  }

  lemma Collect(a: int, b: int, w: int, l: int)
    ensures (-a - b - w) * l == -(a * l) - b * l - w * l
  {
  }

  /** A step keeps the remainder by g. */
  lemma {:induction false} OrbitKeepsClass(c: nat, m: nat, n: nat, g: nat, m': nat, n': nat, x: int, y: int, j: nat)
    requires Cut(m, n, g, m', n', x, y) && c < m + n
    ensures Orbit(c, m, n, j) % g == c % g
  {
    if j > 0 {
      OrbitKeepsClass(c, m, n, g, m', n', x, y, j - 1);
      var p := Orbit(c, m, n, j - 1);
      if p >= m {
        AddMultiple(p - m, g, m');
      } else {
        AddMultiple(p, g, n');
      }
    }
  }

  /** The class of a position is its remainder by g; the orbit that starts at m + i is all of class i. */
  lemma OrbitIsClass(m: nat, n: nat, g: nat, m': nat, n': nat, x: int, y: int, i: nat, p: nat) returns (j: nat)
    requires Cut(m, n, g, m', n', x, y) && i < g && p < m + n && p % g == i && m + i < m + n
    ensures j < m' + n' && Orbit(m + i, m, n, j) == p
  {
    assert p == (p / g) * g + i;
    assert (p / g - m') * g == (p / g) * g - m;
    j := OrbitCovers(m + i, m, n, g, m', n', x, y, p, p / g - m');
  }

  /** The positions of one cycle, with the first position again at the end. */
  ghost predicate IsCycle(path: seq<nat>, m: nat, n: nat) {
    && 1 < |path| && path[|path| - 1] == path[0]
    && (forall k :: 0 <= k < |path| ==> path[k] < m + n)
    && (forall k :: 0 <= k < |path| - 1 ==> Follows(path, k, m, n))
    && (forall j, k :: 0 <= j < k < |path| - 1 ==> path[j] != path[k])
  }

  predicate Follows(path: seq<nat>, k: nat, m: nat, n: nat)
    requires k + 1 < |path| && path[k] < m + n
  {
    path[k + 1] == Step(path[k], m, n)
  }

  function Path(c: nat, m: nat, n: nat, l': nat): (path: seq<nat>)
    requires c < m + n
  {
    seq(l' + 1, k requires 0 <= k <= l' => Orbit(c, m, n, k))
  }

  lemma CutOf(m: nat, n: nat, g: nat) returns (m': nat, n': nat, x: int, y: int)
    requires 0 < m && 0 < n && g == GcdOf(m, n)
    ensures Cut(m, n, g, m', n', x, y) && (m + n) / g == m' + n' && g <= n
  {
    x, y := GcdOfIsGcd(m, n);
    var p, q := Quotient(m, g), Quotient(n, g);
    MulAtLeast(p, g);
    MulAtLeast(q, g);
    m', n' := p, q;
    Factor(m, n, g, m', n');
    ModUnique(m + n, g, m' + n', 0);
  }

  /** The cycle from m + i is made of exactly the positions with remainder i by g. */
  ghost predicate CycleIsClass(m: nat, n: nat, g: nat, l': nat, i: nat)
    requires i < g <= n
  {
    && IsCycle(Path(m + i, m, n, l'), m, n)
    && (forall q :: 0 <= q < m + n ==> (q in Path(m + i, m, n, l') <==> q % g == i))
  }

  /** The cycles, as many as the greatest common divisor, are disjoint and cover both blocks. */
  lemma CyclesPartition(m: nat, n: nat, g: nat, i: nat)
    requires 0 < m && 0 < n && g == GcdOf(m, n) && i < g
    ensures g <= n && CycleIsClass(m, n, g, (m + n) / g, i)
  {
    var m', n', x, y := CutOf(m, n, g);
    CycleOfClass(m, n, g, m', n', x, y, i);
  }

  lemma CycleOfClass(m: nat, n: nat, g: nat, m': nat, n': nat, x: int, y: int, i: nat)
    requires Cut(m, n, g, m', n', x, y) && i < g <= n
    ensures CycleIsClass(m, n, g, m' + n', i)
  {
    var c, l' := m + i, m' + n';
    var path := Path(c, m, n, l');
    OrbitCloses(c, m, n, g, m', n');
    assert forall k :: 0 <= k < l' ==> Follows(path, k, m, n);
    forall j, k | 0 <= j < k < l' ensures path[j] != path[k] {
      OrbitIsSimple(c, m, n, g, m', n', x, y, j, k);
    }
    forall q | 0 <= q < m + n ensures q in path <==> q % g == i {
      InClass(m, n, g, m', n', x, y, i, q);
    }
  }

  lemma InClass(m: nat, n: nat, g: nat, m': nat, n': nat, x: int, y: int, i: nat, q: nat)
    requires Cut(m, n, g, m', n', x, y) && i < g <= n && q < m + n
    ensures q in Path(m + i, m, n, m' + n') <==> q % g == i
  {
    var path := Path(m + i, m, n, m' + n');
    if q % g == i {
      var j := OrbitIsClass(m, n, g, m', n', x, y, i, q);
      assert path[j] == q;
    }
    forall j | 0 <= j < |path| ensures path[j] % g == i {
      OrbitKeepsClass(m + i, m, n, g, m', n', x, y, j);
      ClassOfStart(m, g, m', i);
    }
  }

  lemma ClassOfStart(m: nat, g: nat, m': nat, i: nat)
    requires m == m' * g && i < g
    ensures (m + i) % g == i
  {
    ModUnique(m + i, g, m', i);
  }

  // ----- the exchange in place

  /** The second block followed by the first, each in its own order. */
  function Exchanged<T>(s: seq<T>, start: nat, mid: nat, end: nat): (r: seq<T>)
    requires start <= mid <= end <= |s|
  {
    s[..start] + s[mid..end] + s[start..mid] + s[end..]
  }

  /** What belongs at a position of the two blocks. */
  function Due<T>(s: seq<T>, start: nat, m: nat, n: nat, done: bool, q: nat): (r: T)
    requires start + m + n <= |s| && q < m + n
  {
    if done then s[start + Back(q, m, n)] else s[start + q]
  }

  /** The positions in done hold what belongs there, the others what they held. */
  ghost predicate ExchangedAt<T>(s: seq<T>, a: seq<T>, start: nat, m: nat, n: nat, done: set<nat>)
    requires start + m + n <= |s|
  {
    && |a| == |s|
    && (forall k :: 0 <= k < |s| && (k < start || start + m + n <= k) ==> a[k] == s[k])
    && (forall q :: 0 <= q < m + n ==> a[start + q] == Due(s, start, m, n, q in done, q))
  }

  lemma AllExchanged<T>(s: seq<T>, a: seq<T>, start: nat, m: nat, n: nat, done: set<nat>)
    requires start + m + n <= |s| && ExchangedAt(s, a, start, m, n, done)
    requires forall q :: 0 <= q < m + n ==> q in done
    ensures a == Exchanged(s, start, start + m, start + m + n)
  {
    var r := Exchanged(s, start, start + m, start + m + n);
    forall k | 0 <= k < |s| ensures a[k] == r[k] {
      if start <= k < start + m + n {
        var q := k - start;
        assert q in done && a[start + q] == Due(s, start, m, n, q in done, q);
      }
    }
  }

  /** Within a cycle j swaps are done. */
  ghost predicate CycleUpTo<T>(s: seq<T>, a: seq<T>, start: nat, m: nat, n: nat, path: seq<nat>, j: nat)
    requires IsCycle(path, m, n) && start + m + n <= |s| == |a|
  {
    forall k :: 0 <= k < |path| - 1 ==> Moved(s, a, start, m, n, path, j, k)
  }

  /** Each position passed holds what the position before it held, and the first what the last one passed held. */
  ghost predicate Moved<T>(s: seq<T>, a: seq<T>, start: nat, m: nat, n: nat, path: seq<nat>, j: nat, k: nat)
    requires IsCycle(path, m, n) && start + m + n <= |s| == |a| && k < |path| - 1
  {
    a[start + path[k]] == s[start + path[Origin(|path| - 1, j, k)]]
  }

  function Origin(l: nat, j: nat, k: nat): (r: nat)
    requires k < l
    ensures r < l
  {
    if k == 0 then (if j < l then j else l - 1) else if k <= j then k - 1 else k
  }

  /** Positions off the cycle keep what they hold. */
  ghost predicate OffCycleKept<T>(before: seq<T>, a: seq<T>, start: nat, path: seq<nat>)
    requires |before| == |a|
  {
    forall k :: 0 <= k < |a| && k - start !in path ==> a[k] == before[k]
  }

  lemma CycleStep<T>(s: seq<T>, a: seq<T>, b: seq<T>, start: nat, m: nat, n: nat, path: seq<nat>, j: nat)
    requires IsCycle(path, m, n) && start + m + n <= |s| == |a| == |b| && j < |path| - 1
    requires CycleUpTo(s, a, start, m, n, path, j)
    requires b == a[start + path[j + 1] := a[start + path[0]]][start + path[0] := a[start + path[j + 1]]]
    ensures CycleUpTo(s, b, start, m, n, path, j + 1)
  {
    var l := |path| - 1;
    assert Moved(s, a, start, m, n, path, j, 0);
    assert j + 1 < l ==> Moved(s, a, start, m, n, path, j, j + 1);
    var j' := j + 1;
    forall k | 0 <= k < l ensures Moved(s, b, start, m, n, path, j', k) {
      assert Moved(s, a, start, m, n, path, j, k);
      assert k > 0 ==> path[k] != path[0];
      assert j + 1 < l && k != j + 1 ==> path[k] != path[j + 1];
    }
  }

  lemma SwapOnCycle<T>(before: seq<T>, a: seq<T>, b: seq<T>, start: nat, path: seq<nat>, j: nat)
    requires |before| == |a| == |b| && j + 1 < |path| && start + path[j + 1] < |a| && start + path[0] < |a|
    requires b == a[start + path[j + 1] := a[start + path[0]]][start + path[0] := a[start + path[j + 1]]]
    requires OffCycleKept(before, a, start, path)
    ensures OffCycleKept(before, b, start, path)
  {
    assert path[0] in path && path[j + 1] in path;
  }

  /** A finished cycle puts its positions right. */
  lemma CycleDone<T>(s: seq<T>, before: seq<T>, a: seq<T>, start: nat, m: nat, n: nat, path: seq<nat>, done: set<nat>)
    requires IsCycle(path, m, n) && start + m + n <= |s| == |a|
    requires ExchangedAt(s, before, start, m, n, done) && Apart(path, done)
    requires CycleUpTo(before, a, start, m, n, path, |path| - 1) && OffCycleKept(before, a, start, path)
    ensures ExchangedAt(s, a, start, m, n, done + set q | q in path)
  {
    var done' := done + set q | q in path;
    forall q | 0 <= q < m + n ensures a[start + q] == Due(s, start, m, n, q in done', q) {
      if q in path {
        PositionDone(s, before, a, start, m, n, path, done, q);
      } else {
        assert a[start + q] == before[start + q];
      }
    }
    forall k | 0 <= k < |s| && (k < start || start + m + n <= k) ensures a[k] == s[k] {
      assert k - start !in path;
    }
  }

  lemma PositionDone<T>(s: seq<T>, before: seq<T>, a: seq<T>, start: nat, m: nat, n: nat, path: seq<nat>,
                        done: set<nat>, q: nat)
    requires IsCycle(path, m, n) && start + m + n <= |s| == |a| && q in path
    requires ExchangedAt(s, before, start, m, n, done) && Apart(path, done)
    requires CycleUpTo(before, a, start, m, n, path, |path| - 1)
    ensures q < m + n && a[start + q] == s[start + Back(q, m, n)]
  {
    var k :| 0 <= k < |path| && path[k] == q;
    var last := |path| - 1;
    var k' := if k == 0 || k == last then last - 1 else k - 1;
    assert Follows(path, k', m, n);
    assert Moved(before, a, start, m, n, path, last, if k == last then 0 else k);
    assert before[start + path[k']] == Due(s, start, m, n, path[k'] in done, path[k']);
  }

  method Swap<T>(nargv: array<T>, pos: nat, cstart: nat)
    requires pos < nargv.Length && cstart < nargv.Length
    modifies nargv
    ensures nargv[..] == old(nargv[..])[pos := old(nargv[cstart])][cstart := old(nargv[pos])]
  {
    var swap := nargv[pos];
    nargv[pos] := nargv[cstart];
    nargv[cstart] := swap;
  }

  /** One cycle of the exchange. */
  method RunCycle<T>(nargv: array<T>, start: nat, mid: nat, end: nat, i: nat, cyclelen: nat, ghost path: seq<nat>)
    requires start <= mid <= end <= nargv.Length && mid + i < end && cyclelen == |path| - 1
    requires IsCycle(path, mid - start, end - mid) && path[0] == mid - start + i
    modifies nargv
    ensures CycleUpTo(old(nargv[..]), nargv[..], start, mid - start, end - mid, path, |path| - 1)
    ensures OffCycleKept(old(nargv[..]), nargv[..], start, path)
  {
    ghost var before := nargv[..];
    var nnonopts, nopts := mid - start, end - mid;
    var cstart := mid + i;
    var pos := cstart;
    for j := 0 to cyclelen
      invariant pos == start + path[j]
      invariant CycleUpTo(before, nargv[..], start, nnonopts, nopts, path, j)
      invariant OffCycleKept(before, nargv[..], start, path)
    {
      ghost var held := nargv[..];
      assert Follows(path, j, nnonopts, nopts);
      if pos >= mid {
        pos := pos - nnonopts;
      } else {
        pos := pos + nopts;
      }
      Swap(nargv, pos, cstart);
      SwapOnCycle(before, held, nargv[..], start, path, j);
      CycleStep(before, held, nargv[..], start, nnonopts, nopts, path, j);
    }
  }

  /** The positions with a remainder below i. */
  ghost predicate ClassesBelow(done: set<nat>, l: nat, g: nat, i: nat)
    requires 0 < g
  {
    forall q :: 0 <= q < l ==> (q in done <==> q % g < i)
  }

  /** The cycle from m + i adds the positions with remainder i. */
  lemma NextClass(m: nat, n: nat, g: nat, l': nat, i: nat, done: set<nat>) returns (path: seq<nat>, done': set<nat>)
    requires 0 < m && 0 < n && g == GcdOf(m, n) && i < g && l' == (m + n) / g && ClassesBelow(done, m + n, g, i)
    ensures g <= n && |path| == l' + 1 && IsCycle(path, m, n) && path[0] == m + i && Added(path, done, done')
    ensures ClassesBelow(done', m + n, g, i + 1)
  {
    CyclesPartition(m, n, g, i);
    path := Path(m + i, m, n, l');
    done' := done + set q | q in path;
    forall k | 0 <= k < |path| ensures path[k] !in done {
      assert path[k] in path;
    }
  }

  ghost predicate Apart(path: seq<nat>, done: set<nat>) {
    forall k :: 0 <= k < |path| ==> path[k] !in done
  }

  /** The positions of a cycle are done now, and none was before. */
  ghost predicate Added(path: seq<nat>, done: set<nat>, done': set<nat>) {
    Apart(path, done) && done' == done + set q | q in path
  }

  method RunAdded<T>(nargv: array<T>, start: nat, mid: nat, end: nat, i: nat, cyclelen: nat,
                     ghost path: seq<nat>, ghost s: seq<T>, ghost done: set<nat>, ghost done': set<nat>)
    requires start <= mid <= end <= nargv.Length == |s| && mid + i < end && cyclelen == |path| - 1
    requires IsCycle(path, mid - start, end - mid) && path[0] == mid - start + i && Added(path, done, done')
    requires ExchangedAt(s, nargv[..], start, mid - start, end - mid, done)
    modifies nargv
    ensures ExchangedAt(s, nargv[..], start, mid - start, end - mid, done')
  {
    ghost var before := nargv[..];
    RunCycle(nargv, start, mid, end, i, cyclelen, path);
    CycleDone(s, before, nargv[..], start, mid - start, end - mid, path, done);
  }

  /** The cycle of the positions with remainder i. */
  method RunClass<T>(nargv: array<T>, start: nat, mid: nat, end: nat, i: nat, ncycle: nat, cyclelen: nat,
                     ghost s: seq<T>, ghost done: set<nat>)
      returns (ghost done': set<nat>)
    requires start < mid < end <= nargv.Length == |s|
    requires ncycle == GcdOf(mid - start, end - mid) && i < ncycle && cyclelen == (end - start) / ncycle
    requires ExchangedAt(s, nargv[..], start, mid - start, end - mid, done)
             && ClassesBelow(done, end - start, ncycle, i)
    modifies nargv
    ensures ExchangedAt(s, nargv[..], start, mid - start, end - mid, done')
            && ClassesBelow(done', end - start, ncycle, i + 1)
  {
    ghost var path: seq<nat>;
    path, done' := NextClass(mid - start, end - mid, ncycle, cyclelen, i, done);
    RunAdded(nargv, start, mid, end, i, cyclelen, path, s, done, done');
  }

  method RunClasses<T>(nargv: array<T>, start: nat, mid: nat, end: nat, ncycle: nat, cyclelen: nat)
    requires start < mid < end <= nargv.Length
    requires ncycle == GcdOf(mid - start, end - mid) && 0 < ncycle && cyclelen == (end - start) / ncycle
    modifies nargv
    ensures nargv[..] == Exchanged(old(nargv[..]), start, mid, end)
  {
    ghost var s, done: set<nat> := nargv[..], {};
    for i := 0 to ncycle
      invariant ExchangedAt(s, nargv[..], start, mid - start, end - mid, done)
        && ClassesBelow(done, end - start, ncycle, i)
    {
      done := RunClass(nargv, start, mid, end, i, ncycle, cyclelen, s, done);
    }
    AllClasses(s, nargv[..], start, mid - start, end - mid, done, ncycle);
  }

  lemma AllClasses<T>(s: seq<T>, a: seq<T>, start: nat, m: nat, n: nat, done: set<nat>, g: nat)
    requires 0 < g && start + m + n <= |s| && ExchangedAt(s, a, start, m, n, done) && ClassesBelow(done, m + n, g, g)
    ensures a == Exchanged(s, start, start + m, start + m + n)
  {
    forall q | 0 <= q < m + n ensures q in done {
      assert q % g < g;
    }
    AllExchanged(s, a, start, m, n, done);
  }

  /** permute_args. */
  method PermuteArgs<T>(panonopt_start: nat, panonopt_end: nat, opt_end: nat, nargv: array<T>)
    requires panonopt_start < panonopt_end < opt_end <= nargv.Length
    modifies nargv
    ensures nargv[..] == Exchanged(old(nargv[..]), panonopt_start, panonopt_end, opt_end)
  {
    var nnonopts := panonopt_end - panonopt_start;
    var nopts := opt_end - panonopt_end;
    var ncycle := Gcd(nnonopts, nopts);
    var cyclelen := (opt_end - panonopt_start) / ncycle;
    RunClasses(nargv, panonopt_start, panonopt_end, opt_end, ncycle, cyclelen);
  }
}
