/** Facts about finite sets and maps that the address allocator and the
    resource accounting rest on. */
module Collections {

  /** The integers `lo..hi`, upper bound excluded. */
  function Range(lo: int, hi: int): set<int> {
    set x: int | lo <= x < hi && Between(lo, x, hi)
  }

  predicate Between(lo: int, x: int, hi: int) {
    lo <= x < hi
  }

  lemma {:induction false} RangeSize(lo: int, hi: int)
    requires lo <= hi
    ensures |Range(lo, hi)| == hi - lo
    decreases hi - lo
  {
    if lo == hi {
      assert Range(lo, hi) == {};
    } else {
      RangeSize(lo, hi - 1);
      assert Range(lo, hi) == Range(lo, hi - 1) + {hi - 1};
    }
  }

  lemma {:induction false} SubsetSize<T>(a: set<T>, b: set<T>)
    requires a <= b
    ensures |a| <= |b|
    ensures |a| == |b| ==> a == b
  {
    assert b == a + (b - a);
    assert |b| == |a| + |b - a|;
    if |a| == |b| {
      assert b - a == {};
    }
  }

  /** A map that never repeats a value has as many values as keys. */
  lemma {:induction false} InjectiveSize<K>(m: map<K, int>)
    requires forall j, k | j in m && k in m && m[j] == m[k] :: j == k
    ensures |m.Values| == |m.Keys|
    decreases |m|
  {
    if m.Keys == {} {
      assert m.Values == {};
    } else {
      var k :| k in m.Keys;
      var rest := map j | j in m && j != k :: m[j];
      assert rest.Keys == m.Keys - {k};
      assert |rest| < |m| by { assert |rest.Keys| < |m.Keys|; }
      InjectiveSize(rest);
      assert m.Values == rest.Values + {m[k]} by {
        forall v | v in m.Values ensures v in rest.Values + {m[k]} {
          var j :| j in m && m[j] == v;
          if j != k { assert rest[j] == v; }
        }
        forall v | v in rest.Values ensures v in m.Values {
          var j :| j in rest && rest[j] == v;
          assert m[j] == v;
        }
      }
      assert m[k] !in rest.Values;
    }
  }
}
