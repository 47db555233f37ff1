/** The order of Go strings, and sorted listings of sets of strings. */
module Order {
  predicate Less(a: string, b: string) {
    b != [] && (a == [] || a[0] < b[0] || (a[0] == b[0] && Less(a[1..], b[1..])))
  }

  lemma {:induction false} Trichotomy(a: string, b: string)
    ensures !(Less(a, b) && Less(b, a))
    ensures a == b <==> !Less(a, b) && !Less(b, a)
  {
    if a != [] && b != [] {
      Trichotomy(a[1..], b[1..]);
      assert a == [a[0]] + a[1..] && b == [b[0]] + b[1..];
    }
  }

  lemma {:induction false} Transitive(a: string, b: string, c: string)
    requires Less(a, b) && Less(b, c)
    ensures Less(a, c)
  {
    if a != [] && a[0] == b[0] == c[0] {
      Transitive(a[1..], b[1..], c[1..]);
    }
  }

  predicate Least(k: string, keys: set<string>) {
    k in keys && forall other <- keys :: other == k || Less(k, other)
  }

  lemma {:induction false} LeastExists(keys: set<string>)
    requires keys != {}
    ensures exists k :: Least(k, keys)
    ensures forall k, l :: Least(k, keys) && Least(l, keys) ==> k == l
    decreases |keys|
  {
    var any :| any in keys;
    var others := keys - {any};
    assert keys == others + {any};
    if others == {} {
      assert Least(any, keys);
    } else {
      LeastExists(others);
      var k :| Least(k, others);
      Trichotomy(k, any);
      if Less(k, any) {
        assert Least(k, keys);
      } else {
        forall other <- others
          ensures other == any || Less(any, other)
        {
          if other != k && k != any {
            Transitive(any, k, other);
          }
        }
        assert Least(any, keys);
      }
    }
    forall k, l | Least(k, keys) && Least(l, keys)
      ensures k == l
    {
      Trichotomy(k, l);
    }
  }

  function Sorted(keys: set<string>): (s: seq<string>)
    ensures |s| == |keys| && forall k :: k in s <==> k in keys
    decreases |keys|
  {
    if keys == {} then []
    else
      LeastExists(keys);
      var k :| Least(k, keys);
      [k] + Sorted(keys - {k})
  }

  /** The order is lexicographic: at the first difference the lesser character decides, and a prefix comes first. */
  predicate FirstDifference(a: string, b: string, i: nat) {
    i <= |a| && i < |b| && a[..i] == b[..i] && (i == |a| || a[i] < b[i])
  }

  lemma SamePrefix(a: string, b: string, i: nat)
    requires 0 < i <= |a| && i <= |b| && a[..i] == b[..i]
    ensures a[0] == b[0] && a[1..][..i - 1] == b[1..][..i - 1]
  {
    assert a[..i][0] == a[0] && b[..i][0] == b[0];
    assert a[1..][..i - 1] == a[..i][1..] && b[1..][..i - 1] == b[..i][1..];
  }

  lemma {:induction false} LessHasDifference(a: string, b: string) returns (i: nat)
    requires Less(a, b)
    ensures FirstDifference(a, b, i)
  {
    if a == [] || a[0] < b[0] {
      i := 0;
    } else {
      i := LessHasDifference(a[1..], b[1..]);
      assert a[..i + 1] == [a[0]] + a[1..][..i] && b[..i + 1] == [b[0]] + b[1..][..i];
      i := i + 1;
    }
  }

  lemma {:induction false} DifferenceIsLess(a: string, b: string, i: nat)
    requires FirstDifference(a, b, i)
    ensures Less(a, b)
    decreases i
  {
    if i > 0 {
      SamePrefix(a, b, i);
      DifferenceIsLess(a[1..], b[1..], i - 1);
    }
  }

  lemma LessIsLexicographic(a: string, b: string)
    ensures Less(a, b) <==> exists i :: FirstDifference(a, b, i)
  {
    hide Less;
    if Less(a, b) {
      var i := LessHasDifference(a, b);
    }
    if i: nat :| FirstDifference(a, b, i) {
      DifferenceIsLess(a, b, i);
    }
  }

  /** A sorted listing ascends. */
  lemma {:induction false} SortedAscends(keys: set<string>, i: nat, j: nat)
    requires i < j < |keys|
    ensures Less(Sorted(keys)[i], Sorted(keys)[j])
    decreases |keys|
  {
    hide Less;
    LeastExists(keys);
    var k := Sorted(keys)[0];
    assert Least(k, keys) && Sorted(keys) == [k] + Sorted(keys - {k}) by {
      SortedBegins(keys);
    }
    if i == 0 {
      assert Sorted(keys)[j] == Sorted(keys - {k})[j - 1];
      assert Sorted(keys - {k})[j - 1] in Sorted(keys - {k});
    } else {
      SortedAscends(keys - {k}, i - 1, j - 1);
    }
  }

  lemma SortedBegins(keys: set<string>)
    requires keys != {}
    ensures var k := Sorted(keys)[0]; Least(k, keys) && Sorted(keys) == [k] + Sorted(keys - {k})
  {
    hide Less;
    LeastExists(keys);
  }
}
