/** Sorted lists of strings in Go's order. */
module Lines {

  /** Go's string order: lexicographic. */
  predicate Leq(a: string, b: string) {
    a == [] || (b != [] && (a[0] < b[0] || (a[0] == b[0] && Leq(a[1..], b[1..]))))
  }

  lemma {:induction false} LeqAntisymmetric(a: string, b: string)
    requires Leq(a, b) && Leq(b, a)
    ensures a == b
  {
    if a != [] {
      LeqAntisymmetric(a[1..], b[1..]);
      assert a == [a[0]] + a[1..] && b == [b[0]] + b[1..];
    }
  }

  lemma {:induction false} LeqTotal(a: string, b: string)
    ensures Leq(a, b) || Leq(b, a)
  {
    if a != [] && b != [] && a[0] == b[0] {
      LeqTotal(a[1..], b[1..]);
    }
  }

  lemma {:induction false} LeqTransitive(a: string, b: string, c: string)
    requires Leq(a, b) && Leq(b, c)
    ensures Leq(a, c)
  {
    if a != [] && a[0] == b[0] == c[0] {
      LeqTransitive(a[1..], b[1..], c[1..]);
    }
  }

  ghost predicate Sorted(s: seq<string>) {
    forall i, j :: 0 <= i < j < |s| ==> Leq(s[i], s[j])
  }

  /** Puts one string in its place in a sorted list. */
  function Insert(x: string, s: seq<string>): (r: seq<string>)
    ensures multiset(r) == multiset{x} + multiset(s)
    ensures Sorted(s) ==> Sorted(r)
  {
    if s == [] then [x]
    else if Leq(x, s[0]) then
      assert Sorted(s) ==> forall i :: 0 <= i < |s| ==> Leq(x, s[i]) by {
        if Sorted(s) {
          forall i | 0 < i < |s| ensures Leq(x, s[i]) { LeqTransitive(x, s[0], s[i]); }
        }
      }
      [x] + s
    else
      assert s == [s[0]] + s[1..];
      var t := Insert(x, s[1..]);
      assert Sorted(s) ==> forall i :: 0 <= i < |t| ==> Leq(s[0], t[i]) by {
        LeqTotal(x, s[0]);
        forall i | 0 <= i < |t| && Sorted(s) ensures Leq(s[0], t[i]) {
          assert t[i] in multiset(t);
          assert t[i] == x || t[i] in s[1..];
        }
      }
      [s[0]] + t
  }

  lemma {:induction false} LeqReflexive(a: string)
    ensures Leq(a, a)
  {
    if a != [] {
      LeqReflexive(a[1..]);
    }
  }

  lemma HeadIsLeast(s: seq<string>, x: string)
    requires Sorted(s) && x in multiset(s)
    ensures s != [] && Leq(s[0], x)
  {
    var j :| 0 <= j < |s| && s[j] == x;
    LeqReflexive(x);
  }

  lemma TailContents(s: seq<string>)
    requires s != []
    ensures multiset(s[1..]) == multiset(s) - multiset{s[0]}
  {
    assert s == [s[0]] + s[1..];
  }

  /** A sorted list is determined by its contents. */
  lemma {:induction false} SortedIsUnique(s: seq<string>, t: seq<string>)
    requires Sorted(s) && Sorted(t) && multiset(s) == multiset(t)
    ensures s == t
  {
    if s == [] {
      assert |multiset(t)| == |t|;
    } else {
      HeadIsLeast(t, s[0]);
      HeadIsLeast(s, t[0]);
      LeqAntisymmetric(s[0], t[0]);
      TailContents(s);
      TailContents(t);
      SortedIsUnique(s[1..], t[1..]);
      assert s == [s[0]] + s[1..] && t == [t[0]] + t[1..];
    }
  }

  /** The sorted list with the given contents. */
  ghost function SortedList(m: multiset<string>): (s: seq<string>)
    ensures Sorted(s) && multiset(s) == m
  {
    if m == multiset{} then []
    else
      var x :| x in m;
      Insert(x, SortedList(m - multiset{x}))
  }

  /** sort.Strings: the same strings in ascending order. */
  method SortStrings(s: seq<string>) returns (r: seq<string>)
    ensures Sorted(r) && multiset(r) == multiset(s)
    ensures r == SortedList(multiset(s))
  {
    r := [];
    for i := 0 to |s|
      invariant Sorted(r) && multiset(r) == multiset(s[..i])
    {
      assert s[..i + 1] == s[..i] + [s[i]];
      r := Insert(s[i], r);
    }
    assert s[..|s|] == s;
    SortedIsUnique(r, SortedList(multiset(s)));
  }

  /** One text is no greater than another: it is a prefix of it, or smaller where they first differ. */
  ghost predicate ComesFirst(a: string, b: string) {
    exists k: nat :: SplitsAt(a, b, k)
  }

  predicate SplitsAt(a: string, b: string, k: nat) {
    k <= |a| && k <= |b| && a[..k] == b[..k] && (k == |a| || (k < |b| && a[k] < b[k]))
  }

  /** The order is the lexicographic one. */
  lemma {:induction false} LeqIsLexicographic(a: string, b: string)
    ensures Leq(a, b) <==> ComesFirst(a, b)
  {
    if a == [] {
      assert SplitsAt(a, b, 0);
    } else if b != [] {
      LeqIsLexicographic(a[1..], b[1..]);
      if a[0] < b[0] {
        assert SplitsAt(a, b, 0);
      } else if Leq(a, b) {
        var k: nat :| SplitsAt(a[1..], b[1..], k);
        assert a[..k + 1] == [a[0]] + a[1..][..k] && b[..k + 1] == [b[0]] + b[1..][..k];
        assert SplitsAt(a, b, k + 1);
      }
      if k: nat :| SplitsAt(a, b, k) {
        if k > 0 {
          assert a[0] == a[..k][0] == b[..k][0] == b[0];
          assert a[1..][..k - 1] == a[..k][1..] && b[1..][..k - 1] == b[..k][1..];
          assert SplitsAt(a[1..], b[1..], k - 1);
        }
      }
    }
  }
}
