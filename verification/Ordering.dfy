/** The lexicographic order of strings, and sequences sorted by it. */
module Ordering {

  predicate Before(a: string, b: string) {
    if b == [] then false
    else if a == [] then true
    else a[0] < b[0] || (a[0] == b[0] && Before(a[1..], b[1..]))
  }

  /** After `i` common characters, `a` ends or has the smaller character. */
  predicate SmallerAt(a: string, b: string, i: nat) {
    && i <= |a| && i <= |b| && a[..i] == b[..i]
    && if i < |a| then i < |b| && a[i] < b[i] else i < |b|
  }

  /** The order is that of the first character in which two texts differ, where an end comes first. */
  lemma {:induction false} BeforeExactly(a: string, b: string)
    ensures Before(a, b) <==> exists i: nat :: SmallerAt(a, b, i)
  {
    if a == [] || b == [] {
      assert b != [] ==> SmallerAt(a, b, 0);
    } else {
      assert a == [a[0]] + a[1..] && b == [b[0]] + b[1..];
      BeforeExactly(a[1..], b[1..]);
      if Before(a, b) {
        if a[0] < b[0] {
          assert SmallerAt(a, b, 0);
        } else {
          var i: nat :| SmallerAt(a[1..], b[1..], i);
          assert a[..i + 1] == [a[0]] + a[1..][..i] && b[..i + 1] == [b[0]] + b[1..][..i];
          assert SmallerAt(a, b, i + 1);
        }
      }
      if exists i: nat :: SmallerAt(a, b, i) {
        var i: nat :| SmallerAt(a, b, i);
        if i > 0 {
          assert a[..i][0] == b[..i][0];
          assert a[1..][..i - 1] == a[..i][1..] && b[1..][..i - 1] == b[..i][1..];
          assert SmallerAt(a[1..], b[1..], i - 1);
        }
      }
    }
  }

  lemma {:induction false} BeforeIsTotal(a: string, b: string)
    ensures a == b || Before(a, b) || Before(b, a)
  {
    if a != [] && b != [] && a[0] == b[0] {
      BeforeIsTotal(a[1..], b[1..]);
      assert a == [a[0]] + a[1..] && b == [b[0]] + b[1..];
    }
  }

  lemma {:induction false} BeforeIsStrict(a: string, b: string)
    requires Before(a, b)
    ensures a != b && !Before(b, a)
  {
    if a != [] && a[0] == b[0] {
      BeforeIsStrict(a[1..], b[1..]);
    }
  }

  lemma {:induction false} BeforeTransitive(a: string, b: string, c: string)
    requires Before(a, b) && Before(b, c)
    ensures Before(a, c)
  {
    if a != [] && a[0] == b[0] == c[0] {
      BeforeTransitive(a[1..], b[1..], c[1..]);
    }
  }

  predicate Sorted(s: seq<string>) { forall i, j | 0 <= i < j < |s| :: Before(s[i], s[j]) }

  function Members(s: seq<string>): set<string> { set x | x in s }

  lemma MembersSnoc(s: seq<string>, x: string)
    ensures Members(s + [x]) == Members(s) + {x}
  {
  }

  lemma FirstIsLeast(s: seq<string>)
    requires Sorted(s) && s != []
    ensures forall x | x in Members(s) :: x == s[0] || Before(s[0], x)
    ensures Members(s[1..]) == Members(s) - {s[0]}
  {
    assert s == [s[0]] + s[1..];
    forall x | x in s[1..] ensures x != s[0] {
      var i :| 0 <= i < |s[1..]| && s[1..][i] == x;
      BeforeIsStrict(s[0], s[i + 1]);
    }
    forall x | x in Members(s) ensures x == s[0] || Before(s[0], x) {
      var i :| 0 <= i < |s| && s[i] == x;
    }
  }

  lemma NoMembers(s: seq<string>)
    ensures Members(s) == {} <==> s == []
  {
    if s != [] {
      assert s[0] in Members(s);
    }
  }

  /** A set of strings has one sorted enumeration. */
  lemma {:induction false} SortedUnique(a: seq<string>, b: seq<string>)
    requires Sorted(a) && Sorted(b) && Members(a) == Members(b)
    ensures a == b
  {
    NoMembers(a);
    NoMembers(b);
    if a != [] {
      FirstIsLeast(a);
      FirstIsLeast(b);
      assert a[0] in Members(a) && b[0] in Members(b);
      if a[0] != b[0] {
        BeforeIsStrict(a[0], b[0]);
      }
      SortedUnique(a[1..], b[1..]);
      assert a == [a[0]] + a[1..] && b == [b[0]] + b[1..];
    }
  }

  lemma SortedHasNoRepeats(s: seq<string>)
    requires Sorted(s)
    ensures forall i, j | 0 <= i < j < |s| :: s[i] != s[j]
  {
    forall i, j | 0 <= i < j < |s| ensures s[i] != s[j] {
      BeforeIsStrict(s[i], s[j]);
    }
  }

  method Least(s: set<string>) returns (least: string)
    requires s != {}
    ensures least in s && forall x | x in s :: x == least || Before(least, x)
  {
    least :| least in s;
    var rest := s - {least};
    while rest != {}
      invariant least in s && rest <= s
      invariant forall x | x in s && x !in rest :: x == least || Before(least, x)
      decreases rest
    {
      var x :| x in rest;
      rest := rest - {x};
      if Before(x, least) {
        forall y | y in s && y !in rest ensures y == x || Before(x, y) {
          if y != x && y != least {
            BeforeTransitive(x, least, y);
          }
        }
        least := x;
      } else {
        BeforeIsTotal(x, least);
      }
    }
  }

  method Sort(s: set<string>) returns (r: seq<string>)
    ensures Sorted(r) && Members(r) == s
  {
    r := [];
    var todo := s;
    while todo != {}
      invariant Sorted(r) && todo <= s && Members(r) == s - todo
      invariant forall i, x | 0 <= i < |r| && x in todo :: Before(r[i], x)
      decreases todo
    {
      var least := Least(todo);
      MembersSnoc(r, least);
      r := r + [least];
      todo := todo - {least};
    }
  }

  lemma {:induction false} PrefixBefore(a: string, rest: string)
    requires rest != ""
    ensures Before(a, a + rest)
  {
    if a == [] {
      assert a + rest == rest;
    } else {
      assert (a + rest)[1..] == a[1..] + rest;
      PrefixBefore(a[1..], rest);
    }
  }

  lemma {:induction false} SortedSize(s: seq<string>)
    requires Sorted(s)
    ensures |Members(s)| == |s|
  {
    NoMembers(s);
    if s != [] {
      FirstIsLeast(s);
      assert s[0] in Members(s);
      SortedSize(s[1..]);
    }
  }

  function InsertSorted(s: seq<string>, x: string): seq<string> {
    if s == [] || Before(x, s[0]) then [x] + s else [s[0]] + InsertSorted(s[1..], x)
  }

  lemma {:induction false} InsertedIsSorted(s: seq<string>, x: string)
    requires Sorted(s) && x !in s
    ensures Sorted(InsertSorted(s, x)) && Members(InsertSorted(s, x)) == Members(s) + {x}
  {
    if s == [] || Before(x, s[0]) {
      forall i | 0 <= i < |s| ensures Before(x, s[i]) {
        if i > 0 {
          BeforeTransitive(x, s[0], s[i]);
        }
      }
    } else {
      assert s[0] in s;
      BeforeIsTotal(x, s[0]);
      InsertedIsSorted(s[1..], x);
      var rest := InsertSorted(s[1..], x);
      forall i | 0 <= i < |rest| ensures Before(s[0], rest[i]) {
        assert rest[i] in Members(rest);
        if rest[i] != x {
          var j :| 0 <= j < |s[1..]| && s[1..][j] == rest[i];
          assert s[j + 1] == rest[i];
        }
      }
      assert s == [s[0]] + s[1..];
    }
  }

  /** Every set of strings has a sorted enumeration. */
  lemma {:induction false} Enumeration(s: set<string>) returns (r: seq<string>)
    ensures Sorted(r) && Members(r) == s
  {
    r := [];
    if s != {} {
      var x :| x in s;
      r := Enumeration(s - {x});
      assert x !in r by { assert x !in Members(r); }
      InsertedIsSorted(r, x);
      r := InsertSorted(r, x);
    }
  }
}
