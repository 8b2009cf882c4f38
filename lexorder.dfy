// The order of `std::string`'s `operator<` (lexicographic by character code),
// which orders the keys of every `std::map` of the inventory core and the
// pharmacy tree, and the ascending sequence of the keys of a map, which is the
// order in which the core's range-for loops visit a `std::map`.

module LexOrder {

  predicate Less(a: string, b: string)
    decreases |a|
  {
    if |a| == 0 then |b| > 0
    else if |b| == 0 then false
    else if a[0] != b[0] then a[0] < b[0]
    else Less(a[1..], b[1..])
  }

  lemma {:induction false} LessIrreflexive(a: string)
    ensures !Less(a, a)
    decreases |a|
  {
    if |a| > 0 { LessIrreflexive(a[1..]); }
  }

  lemma {:induction false} LessTransitive(a: string, b: string, c: string)
    requires Less(a, b) && Less(b, c)
    ensures Less(a, c)
    decreases |a|
  {
    if |a| > 0 && a[0] == b[0] && b[0] == c[0] {
      LessTransitive(a[1..], b[1..], c[1..]);
    }
  }

  lemma {:induction false} LessTotal(a: string, b: string)
    ensures a == b || Less(a, b) || Less(b, a)
    decreases |a|
  {
    if |a| > 0 && |b| > 0 && a[0] == b[0] {
      LessTotal(a[1..], b[1..]);
      if a[1..] == b[1..] {
        assert a == [a[0]] + a[1..] && b == [b[0]] + b[1..];
      }
    }
  }

  lemma LessAsymmetric(a: string, b: string)
    requires Less(a, b)
    ensures !Less(b, a)
  {
    if Less(b, a) {
      LessTransitive(a, b, a);
      LessIrreflexive(a);
    }
  }

  predicate StrictlySorted(s: seq<string>) {
    forall i, j {:trigger Less(s[i], s[j])} :: 0 <= i < j < |s| ==> Less(s[i], s[j])
  }

  ghost predicate IsMinimum(m: string, keys: set<string>) {
    m in keys && forall k :: k in keys && k != m ==> Less(m, k)
  }

  lemma {:induction false} MinimumExists(keys: set<string>)
    requires keys != {}
    ensures exists m :: IsMinimum(m, keys)
    decreases |keys|
  {
    var x :| x in keys;
    var rest := keys - {x};
    if rest == {} {
      assert keys == {x};
      assert IsMinimum(x, keys);
    } else {
      MinimumExists(rest);
      var y :| IsMinimum(y, rest);
      LessTotal(x, y);
      if Less(x, y) {
        forall k | k in keys && k != x ensures Less(x, k) {
          if k != y { LessTransitive(x, y, k); }
        }
        assert IsMinimum(x, keys);
      } else {
        assert IsMinimum(y, keys);
      }
    }
  }

  /** The keys in ascending order: the order of a `std::map`'s iteration. */
  ghost function Ordered(keys: set<string>): (r: seq<string>)
    ensures StrictlySorted(r)
    ensures forall k :: k in r <==> k in keys
    ensures |r| == |keys|
    decreases |keys|
  {
    if keys == {} then []
    else
      MinimumExists(keys);
      var m :| IsMinimum(m, keys);
      var rest := Ordered(keys - {m});
      assert forall j :: 0 <= j < |rest| ==> Less(m, rest[j]) by {
        forall j | 0 <= j < |rest| ensures Less(m, rest[j]) {
          assert rest[j] in keys - {m};
        }
      }
      [m] + rest
  }

  lemma NoElementsEmpty(b: seq<string>)
    ensures (forall k :: k !in b) ==> b == []
  {
    if |b| > 0 { assert b[0] in b; }
  }

  /** A strictly sorted sequence is fixed by its elements. */
  lemma {:induction false} SortedUnique(a: seq<string>, b: seq<string>)
    requires StrictlySorted(a) && StrictlySorted(b)
    requires forall k :: k in a <==> k in b
    ensures a == b
    decreases |a|
  {
    if |a| == 0 {
      NoElementsEmpty(b);
    } else {
      assert a[0] in b;
      assert |b| > 0;
      assert b[0] in a;
      if a[0] != b[0] {
        var i :| 0 <= i < |a| && a[i] == b[0];
        var j :| 0 <= j < |b| && b[j] == a[0];
        assert i > 0 && j > 0;
        LessAsymmetric(a[0], a[i]);
        assert false;
      }
      assert a == [a[0]] + a[1..] && b == [b[0]] + b[1..];
      forall k ensures k in a[1..] <==> k in b[1..] {
        if k in a[1..] {
          var i :| 1 <= i < |a| && a[i] == k;
          assert Less(a[0], a[i]);
          LessIrreflexive(k);
          assert k in b && k != b[0];
        }
        if k in b[1..] {
          var j :| 1 <= j < |b| && b[j] == k;
          assert Less(b[0], b[j]);
          LessIrreflexive(k);
          assert k in a && k != a[0];
        }
      }
      SortedUnique(a[1..], b[1..]);
    }
  }

  /** Computes the keys in ascending order by repeated selection of the
      smallest remaining key. */
  method OrderedKeys(keys: set<string>) returns (r: seq<string>)
    ensures r == Ordered(keys)
  {
    r := [];
    var remaining := keys;
    while remaining != {}
      invariant StrictlySorted(r)
      invariant forall k :: k in keys <==> (k in r || k in remaining)
      invariant forall k :: k in r ==> k !in remaining
      invariant forall i, k :: 0 <= i < |r| && k in remaining ==> Less(r[i], k)
      decreases |remaining|
    {
      var m := Smallest(remaining);
      r := r + [m];
      remaining := remaining - {m};
    }
    SortedUnique(r, Ordered(keys));
  }

  method Smallest(keys: set<string>) returns (m: string)
    requires keys != {}
    ensures m in keys && forall k :: k in keys && k != m ==> Less(m, k)
  {
    m :| m in keys;
    var rest := keys - {m};
    while rest != {}
      invariant rest <= keys && m in keys && m !in rest
      invariant forall k :: k in keys && k !in rest && k != m ==> Less(m, k)
      decreases |rest|
    {
      var x :| x in rest;
      LessTotal(x, m);
      if Less(x, m) {
        forall k | k in keys && k !in rest && k != x ensures Less(x, k) {
          if k != m { LessTransitive(x, m, k); }
        }
        m := x;
      }
      rest := rest - {x};
    }
  }
}
