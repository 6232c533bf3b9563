/** The order in which sort.Strings and encoding/json put the keys of a map. */
module KeyOrder {
  /** The order of code points, which is also the order of the bytes of UTF-8. */
  predicate Less(a: string, b: string) {
    b != [] && (a == [] || a[0] < b[0] || (a[0] == b[0] && Less(a[1..], b[1..])))
  }

  /** The texts agree up to position k, where the first ends or has the smaller character. */
  predicate PartAt(a: string, b: string, k: nat) {
    k <= |a| && k < |b| && a[..k] == b[..k] && (k == |a| || a[k] < b[k])
  }

  /** The order is the alphabetical one. */
  lemma {:induction false} LessIsAlphabetical(a: string, b: string)
    ensures Less(a, b) <==> exists k: nat :: PartAt(a, b, k)
  {
    if a != [] && b != [] && a[0] == b[0] {
      LessIsAlphabetical(a[1..], b[1..]);
      if k: nat :| PartAt(a[1..], b[1..], k) {
        assert a[..k + 1] == [a[0]] + a[1..][..k] && b[..k + 1] == [b[0]] + b[1..][..k];
        assert PartAt(a, b, k + 1);
      }
      if k: nat :| PartAt(a, b, k) {
        assert k > 0;
        assert a[1..][..k - 1] == a[..k][1..] && b[1..][..k - 1] == b[..k][1..];
        assert PartAt(a[1..], b[1..], k - 1);
      }
    } else {
      PartsAtOnce(a, b);
    }
  }

  lemma PartsAtOnce(a: string, b: string)
    requires a == [] || b == [] || a[0] != b[0]
    ensures (exists k: nat :: PartAt(a, b, k)) <==> b != [] && (a == [] || a[0] < b[0])
  {
    forall k: nat
      ensures PartAt(a, b, k) <==> k == 0 && b != [] && (a == [] || a[0] < b[0])
    {
      if 0 < k <= |a| && k < |b| {
        assert a[..k][0] == a[0] && b[..k][0] == b[0];
      }
    }
    if b != [] && (a == [] || a[0] < b[0]) {
      assert PartAt(a, b, 0);
    }
  }

  lemma {:induction false} LessIsTotal(a: string, b: string)
    ensures a == b || Less(a, b) || Less(b, a)
  {
    if a != [] && b != [] {
      LessIsTotal(a[1..], b[1..]);
      assert a == [a[0]] + a[1..] && b == [b[0]] + b[1..];
    }
  }

  lemma {:induction false} LessIsStrict(a: string, b: string)
    ensures !(Less(a, b) && Less(b, a)) && !Less(a, a)
  {
    if a != [] {
      LessIsStrict(a[1..], a[1..]);
      if b != [] {
        LessIsStrict(a[1..], b[1..]);
      }
    }
  }

  lemma {:induction false} LessIsTransitive(a: string, b: string, c: string)
    requires Less(a, b) && Less(b, c)
    ensures Less(a, c)
  {
    if a != [] && a[0] == b[0] == c[0] {
      LessIsTransitive(a[1..], b[1..], c[1..]);
    }
  }

  predicate IsFirst(k: string, keys: set<string>) {
    k in keys && forall j :: j in keys && j != k ==> Less(k, j)
  }

  lemma {:induction false} FirstExists(keys: set<string>)
    requires keys != {}
    ensures exists k :: IsFirst(k, keys)
  {
    var k :| k in keys;
    var rest := keys - {k};
    if rest == {} {
      assert forall j :: j in keys && j != k ==> j in rest;
      assert IsFirst(k, keys);
    } else {
      FirstExists(rest);
      var f :| IsFirst(f, rest);
      LessIsTotal(k, f);
      if Less(k, f) {
        forall j | j in keys && j != k
          ensures Less(k, j)
        {
          if j != f {
            LessIsTransitive(k, f, j);
          }
        }
        assert IsFirst(k, keys);
      } else {
        assert IsFirst(f, keys);
      }
    }
  }

  /** The keys in order. */
  function Sorted(keys: set<string>): (r: seq<string>)
    ensures forall k :: k in r <==> k in keys
  {
    if keys == {} then []
    else
      FirstExists(keys);
      assert forall a, b :: IsFirst(a, keys) && IsFirst(b, keys) && a != b ==> false by {
        forall a, b | IsFirst(a, keys) && IsFirst(b, keys) && a != b
          ensures false
        {
          LessIsStrict(a, b);
        }
      }
      var k :| IsFirst(k, keys);
      [k] + Sorted(keys - {k})
  }

  predicate Ascending(ks: seq<string>) {
    forall i, j :: 0 <= i < j < |ks| ==> Less(ks[i], ks[j])
  }

  lemma {:induction false} SortedAscends(keys: set<string>)
    ensures Ascending(Sorted(keys))
  {
    hide Less;
    if keys != {} {
      FirstExists(keys);
      var r := Sorted(keys);
      assert IsFirst(r[0], keys) && r[1..] == Sorted(keys - {r[0]});
      SortedAscends(keys - {r[0]});
      forall i, j | 0 <= i < j < |r|
        ensures Less(r[i], r[j])
      {
        assert r[j] == r[1..][j - 1] && r[j] in keys - {r[0]};
        if i > 0 {
          assert r[i] == r[1..][i - 1];
        }
      }
    }
  }

  /** Sorted keys stand in alphabetical order. */
  lemma SortedIsAlphabetical(keys: set<string>, i: nat, j: nat)
    requires i < j < |Sorted(keys)|
    ensures exists k: nat :: PartAt(Sorted(keys)[i], Sorted(keys)[j], k)
  {
    SortedAscends(keys);
    LessIsAlphabetical(Sorted(keys)[i], Sorted(keys)[j]);
    hide Less, PartAt, Sorted;
  }

  lemma RestAscends(ks: seq<string>, keys: set<string>)
    requires ks != [] && Ascending(ks) && forall k :: k in ks <==> k in keys
    ensures IsFirst(ks[0], keys) && Ascending(ks[1..])
    ensures forall k :: k in ks[1..] <==> k in keys - {ks[0]}
  {
    hide Less;
    LessIsStrict(ks[0], ks[0]);
    assert ks == [ks[0]] + ks[1..];
    assert forall k :: k in ks[1..] ==> Less(ks[0], k);
    assert forall k :: k in ks <==> k == ks[0] || k in ks[1..];
  }

  /** There is one order: however the keys are gathered, sorting them gives the same sequence. */
  lemma {:induction false} AscendingIsSorted(ks: seq<string>, keys: set<string>)
    requires Ascending(ks) && forall k :: k in ks <==> k in keys
    ensures ks == Sorted(keys)
  {
    hide Less, Ascending;
    if ks == [] {
      assert keys == {};
    } else {
      RestAscends(ks, keys);
      hide IsFirst;
      FirstIsSorted(ks[0], keys);
      AscendingIsSorted(ks[1..], keys - {ks[0]});
    }
  }

  lemma FirstIsSorted(k: string, keys: set<string>)
    requires IsFirst(k, keys)
    ensures Sorted(keys) == [k] + Sorted(keys - {k})
  {
    FirstExists(keys);
    var f := Sorted(keys)[0];
    assert IsFirst(f, keys);
    LessIsStrict(k, f);
  }
}
