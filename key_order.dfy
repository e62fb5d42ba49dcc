/** The order in which a bolt cursor (and so `Bucket.ForEach`) visits the keys
    of a bucket: ascending lexicographic order. Keys are strings here; comparing
    them character by character (by code point) agrees with comparing their
    UTF-8 encodings byte by byte, which is what bolt does. */
module KeyOrder {

  /** `a` comes strictly before `b`: a proper prefix comes first, otherwise the
      first differing character decides. */
  predicate Less(a: string, b: string)
    decreases |a|
  {
    |b| > 0 && (|a| == 0 || a[0] < b[0] || (a[0] == b[0] && Less(a[1..], b[1..])))
  }

  lemma {:induction false} LessIrreflexive(a: string)
    ensures !Less(a, a)
    decreases |a|
  {
    if |a| > 0 {
      LessIrreflexive(a[1..]);
    }
  }

  lemma {:induction false} LessAsymmetric(a: string, b: string)
    ensures !(Less(a, b) && Less(b, a))
    decreases |a|
  {
    if |a| > 0 && |b| > 0 && a[0] == b[0] {
      LessAsymmetric(a[1..], b[1..]);
    }
  }

  lemma {:induction false} LessTransitive(a: string, b: string, c: string)
    requires Less(a, b) && Less(b, c)
    ensures Less(a, c)
    decreases |a|
  {
    if |a| > 0 && a[0] == b[0] && b[0] == c[0] {
      LessTransitive(a[1..], b[1..], c[1..]);
    }
  }

  /** Any two different keys are ordered one way or the other. */
  lemma {:induction false} LessTotal(a: string, b: string)
    requires a != b
    ensures Less(a, b) || Less(b, a)
    decreases |a|
  {
    if |a| > 0 && |b| > 0 && a[0] == b[0] {
      assert a == a[..1] + a[1..] && b == b[..1] + b[1..];
      assert a[..1] == b[..1];
      LessTotal(a[1..], b[1..]);
    }
  }

  /** `m` is the first key of `s` in cursor order. */
  predicate IsLeast(m: string, s: set<string>)
  {
    m in s && forall x :: x in s && x != m ==> Less(m, x)
  }

  /** Every non-empty bucket has a first key. */
  lemma {:induction false} LeastExists(s: set<string>)
    requires s != {}
    ensures exists m :: IsLeast(m, s)
    decreases s
  {
    var x :| x in s;
    var rest := s - {x};
    if rest == {} {
      assert forall y :: y in s ==> y in rest || y == x;
      assert IsLeast(x, s);
    } else {
      LeastExists(rest);
      var m :| IsLeast(m, rest);
      if Less(x, m) {
        forall y | y in s && y != x
          ensures Less(x, y)
        {
          if y != m {
            LessTransitive(x, m, y);
          }
        }
        assert IsLeast(x, s);
      } else {
        LessTotal(x, m);
        assert IsLeast(m, s);
      }
    }
  }

  /** The first key is unique. */
  lemma LeastUnique(a: string, b: string, s: set<string>)
    requires IsLeast(a, s) && IsLeast(b, s)
    ensures a == b
  {
    LessAsymmetric(a, b);
  }

  /** The keys of a bucket in the order a cursor walks them. */
  ghost function SortedKeys(s: set<string>): (r: seq<string>)
    ensures |r| == |s|
    ensures forall k :: k in r ==> k in s
    decreases s
  {
    if s == {} then []
    else
      LeastExists(s);
      var m :| IsLeast(m, s);
      [m] + SortedKeys(s - {m})
  }

  /** The walk visits exactly the keys of the bucket. */
  lemma {:induction false} SortedKeysMembers(s: set<string>)
    ensures forall k :: k in SortedKeys(s) <==> k in s
    decreases s
  {
    if s != {} {
      var r := SortedKeys(s);
      var m := r[0];
      assert IsLeast(m, s) && r == [m] + SortedKeys(s - {m});
      SortedKeysMembers(s - {m});
    }
  }

  /** Each key of the walk comes strictly before the next, so none repeats. */
  lemma {:induction false} SortedKeysIncreasing(s: set<string>)
    ensures forall i, j :: 0 <= i < j < |SortedKeys(s)| ==> Less(SortedKeys(s)[i], SortedKeys(s)[j])
    decreases s
  {
    if s != {} {
      var r := SortedKeys(s);
      var m := r[0];
      var rest := SortedKeys(s - {m});
      assert IsLeast(m, s) && r == [m] + rest;
      SortedKeysIncreasing(s - {m});
      forall i, j | 0 <= i < j < |r|
        ensures Less(r[i], r[j])
      {
        if i == 0 {
          assert r[j] == rest[j - 1];
        } else {
          assert r[i] == rest[i - 1] && r[j] == rest[j - 1];
        }
      }
    }
  }

  /** The walk starts at the first key and continues with the others. */
  lemma SortedKeysUnfold(s: set<string>, m: string)
    requires IsLeast(m, s)
    ensures SortedKeys(s) == [m] + SortedKeys(s - {m})
  {
    var r := SortedKeys(s);
    var m' :| IsLeast(m', s) && r == [m'] + SortedKeys(s - {m'});
    LeastUnique(m, m', s);
  }

  /** The key a cursor visits next among the keys `s` not yet visited. */
  method NextKey(s: set<string>) returns (k: string)
    requires s != {}
    ensures k in s
    ensures SortedKeys(s) == [k] + SortedKeys(s - {k})
  {
    LeastExists(s);
    k :| IsLeast(k, s);
    SortedKeysUnfold(s, k);
  }
}
