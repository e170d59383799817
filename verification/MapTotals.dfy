/** Sums over finite maps, taken in an arbitrary key order and shown independent of it. */
module MapTotals {

  ghost function Total(m: map<string, int>): int
  {
    if m == map[] then 0 else
      var k :| k in m;
      m[k] + Total(m - {k})
  }

  /** Any key may be split off first, so the sum does not depend on the order. */
  lemma {:induction false} TotalWithout(m: map<string, int>, k: string)
    requires k in m
    ensures Total(m) == m[k] + Total(m - {k})
    decreases |m|
  {
    var k0 :| k0 in m && Total(m) == m[k0] + Total(m - {k0});
    if k0 != k {
      TotalWithout(m - {k0}, k);
      TotalWithout(m - {k}, k0);
      assert (m - {k0}) - {k} == (m - {k}) - {k0};
    }
  }

  lemma TotalUpdate(m: map<string, int>, k: string, v: int)
    ensures Total(m[k := v]) == Total(m) - (if k in m then m[k] else 0) + v
  {
    TotalWithout(m[k := v], k);
    if k in m {
      TotalWithout(m, k);
      assert m[k := v] - {k} == m - {k};
    } else {
      assert m[k := v] - {k} == m;
    }
  }

  lemma {:induction false} TotalAtMost(a: map<string, int>, b: map<string, int>)
    requires a.Keys == b.Keys
    requires forall k :: k in a ==> a[k] <= b[k]
    ensures Total(a) <= Total(b)
    decreases |a|
  {
    if a != map[] {
      var k :| k in a;
      assert k in b;
      TotalWithout(a, k);
      TotalWithout(b, k);
      assert (a - {k}).Keys == (b - {k}).Keys;
      TotalAtMost(a - {k}, b - {k});
    } else {
      assert b == map[];
    }
  }

  lemma {:induction false} TotalNonNegative(m: map<string, int>)
    requires forall k :: k in m ==> 0 <= m[k]
    ensures 0 <= Total(m)
    decreases |m|
  {
    if m != map[] {
      var k :| k in m;
      TotalWithout(m, k);
      TotalNonNegative(m - {k});
    }
  }

  lemma {:induction false} TotalOfZeros(m: map<string, int>)
    requires forall k :: k in m ==> m[k] == 0
    ensures Total(m) == 0
    decreases |m|
  {
    if m != map[] {
      var k :| k in m;
      TotalWithout(m, k);
      TotalOfZeros(m - {k});
    }
  }

  /** A sum of non-negative terms is at least each of them. */
  lemma TermAtMostTotal(m: map<string, int>, k: string)
    requires k in m
    requires forall j :: j in m ==> 0 <= m[j]
    ensures m[k] <= Total(m)
  {
    TotalWithout(m, k);
    TotalNonNegative(m - {k});
  }

  lemma {:induction false} TotalAtMostTwice(m: map<string, int>)
    requires forall k :: k in m ==> m[k] <= 2
    ensures Total(m) <= 2 * |m|
    decreases |m|
  {
    if m != map[] {
      var k :| k in m;
      TotalWithout(m, k);
      TotalAtMostTwice(m - {k});
      assert |m| == |m - {k}| + 1 by {
        assert m.Keys == (m - {k}).Keys + {k};
      }
    }
  }

  /** Splitting the keys splits the sum. */
  lemma {:induction false} TotalSplit(m: map<string, int>, part: set<string>)
    ensures Total(m) == Total(map k | k in m && k in part :: m[k]) + Total(m - part)
    decreases |m|
  {
    var left := map k | k in m && k in part :: m[k];
    if m == map[] {
      assert left == map[] && m - part == map[];
    } else {
      var k :| k in m;
      var rest := m - {k};
      TotalWithout(m, k);
      TotalSplit(rest, part);
      var restLeft := map j | j in rest && j in part :: rest[j];
      if k in part {
        TotalWithout(left, k);
        assert left - {k} == restLeft;
        assert rest - part == m - part;
      } else {
        TotalWithout(m - part, k);
        assert left == restLeft;
        assert (m - part) - {k} == rest - part;
      }
    }
  }
}
