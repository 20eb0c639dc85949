/**
 * Python's ordering of strings (code point by code point, a proper prefix first)
 * and `sorted()` of a collection of distinct names.
 */
module Order {

  /** `a < b` on Python strings. */
  predicate Below(a: string, b: string)
  {
    BelowFrom(a, b, 0)
  }

  /** `a[i..] < b[i..]`, comparing position by position from `i`. */
  predicate BelowFrom(a: string, b: string, i: nat)
    requires i <= |a| && i <= |b|
    decreases |a| - i
  {
    if i == |a| then i < |b|
    else if i == |b| then false
    else if a[i] != b[i] then a[i] < b[i]
    else BelowFrom(a, b, i + 1)
  }

  lemma {:induction false} BelowFromIrreflexive(a: string, i: nat)
    requires i <= |a|
    ensures !BelowFrom(a, a, i)
    decreases |a| - i
  {
    if i < |a| {
      BelowFromIrreflexive(a, i + 1);
    }
  }

  lemma BelowIrreflexive(a: string)
    ensures !Below(a, a)
  {
    BelowFromIrreflexive(a, 0);
  }

  lemma {:induction false} BelowFromTransitive(a: string, b: string, c: string, i: nat)
    requires i <= |a| && i <= |b| && i <= |c|
    requires BelowFrom(a, b, i) && BelowFrom(b, c, i)
    ensures BelowFrom(a, c, i)
    decreases |a| - i
  {
    if i < |a| && i < |b| && i < |c| && a[i] == b[i] && b[i] == c[i] {
      BelowFromTransitive(a, b, c, i + 1);
    }
  }

  lemma BelowTransitive(a: string, b: string, c: string)
    requires Below(a, b) && Below(b, c)
    ensures Below(a, c)
  {
    BelowFromTransitive(a, b, c, 0);
  }

  lemma {:induction false} BelowFromTotal(a: string, b: string, i: nat)
    requires i <= |a| && i <= |b| && a[..i] == b[..i]
    ensures a != b ==> BelowFrom(a, b, i) || BelowFrom(b, a, i)
    ensures !(BelowFrom(a, b, i) && BelowFrom(b, a, i))
    decreases |a| - i
  {
    if i < |a| && i < |b| && a[i] == b[i] {
      assert a[..i + 1] == a[..i] + [a[i]] && b[..i + 1] == b[..i] + [b[i]];
      BelowFromTotal(a, b, i + 1);
    } else if i == |a| && i == |b| {
      assert a == a[..i] && b == b[..i];
    }
  }

  /** Any two distinct strings are ordered one way or the other, and never both ways. */
  lemma BelowTotal(a: string, b: string)
    ensures a != b ==> Below(a, b) || Below(b, a)
    ensures !(Below(a, b) && Below(b, a))
  {
    BelowFromTotal(a, b, 0);
  }

  lemma {:induction false} BelowFromShift(p: string, a: string, b: string, j: nat)
    requires j <= |a| && j <= |b|
    ensures BelowFrom(p + a, p + b, |p| + j) <==> BelowFrom(a, b, j)
    decreases |a| - j
  {
    if j < |a| && j < |b| {
      assert (p + a)[|p| + j] == a[j] && (p + b)[|p| + j] == b[j];
      if a[j] == b[j] {
        BelowFromShift(p, a, b, j + 1);
      }
    }
  }

  lemma {:induction false} BelowFromCommon(p: string, a: string, b: string, i: nat)
    requires i <= |p|
    ensures BelowFrom(p + a, p + b, i) <==> BelowFrom(p + a, p + b, |p|)
    decreases |p| - i
  {
    if i < |p| {
      assert (p + a)[i] == p[i] == (p + b)[i];
      BelowFromCommon(p, a, b, i + 1);
    }
  }

  /** Names sharing a prefix compare as what follows the prefix does. */
  lemma BelowAfterPrefix(p: string, a: string, b: string)
    ensures Below(p + a, p + b) <==> Below(a, b)
  {
    BelowFromCommon(p, a, b, 0);
    BelowFromShift(p, a, b, 0);
  }

  /** Names that differ in their first character compare as that character does. */
  lemma BelowAtFirst(a: string, b: string)
    requires a != [] && b != [] && a[0] != b[0]
    ensures Below(a, b) <==> a[0] < b[0]
  {
  }

  /** The names a sequence holds. */
  function Elements(r: seq<string>): set<string>
  {
    set n | n in r
  }

  predicate StrictlySorted(r: seq<string>)
  {
    forall i, j :: 0 <= i < j < |r| ==> Below(r[i], r[j])
  }

  /** A strictly sorted sequence holds each name once. */
  lemma SortedDistinct(r: seq<string>, i: nat)
    requires StrictlySorted(r) && i < |r|
    ensures forall j :: i < j < |r| ==> r[j] != r[i]
  {
    BelowIrreflexive(r[i]);
  }

  /** Puts `x` into its place in a sorted sequence that does not hold it. */
  function Insert(r: seq<string>, x: string): (r': seq<string>)
    requires StrictlySorted(r) && x !in r
    ensures StrictlySorted(r')
    ensures Elements(r') == Elements(r) + {x}
    ensures |r'| == |r| + 1
  {
    if r == [] then [x]
    else if Below(x, r[0]) then
      assert forall j :: 0 <= j < |r| ==> Below(x, r[j]) by {
        forall j | 0 < j < |r| ensures Below(x, r[j]) {
          BelowTransitive(x, r[0], r[j]);
        }
      }
      [x] + r
    else
      BelowTotal(x, r[0]);
      var rest := Insert(r[1..], x);
      assert forall n :: n in rest ==> Below(r[0], n) by {
        forall n | n in rest ensures Below(r[0], n) {
          assert n in Elements(rest);
          if n != x {
            assert n in Elements(r[1..]);
            var j :| 0 <= j < |r[1..]| && r[1..][j] == n;
            assert r[j + 1] == n;
          }
        }
      }
      [r[0]] + rest
  }

  /** The sorted list of a set of names, as `sorted()` returns it. */
  ghost function SortedNames(names: set<string>): (r: seq<string>)
    ensures StrictlySorted(r)
    ensures Elements(r) == names
    ensures |r| == |names|
  {
    if names == {} then []
    else
      var x :| x in names;
      Insert(SortedNames(names - {x}), x)
  }

  /** The first element of a sorted sequence is below all the others. */
  lemma FirstIsLeast(a: seq<string>, n: string)
    requires StrictlySorted(a) && a != [] && n in a && n != a[0]
    ensures Below(a[0], n)
  {
    var i :| 0 <= i < |a| && a[i] == n;
  }

  /** Two sorted sequences of the same names are the same sequence. */
  lemma {:induction false} SortedUnique(a: seq<string>, b: seq<string>)
    requires StrictlySorted(a) && StrictlySorted(b)
    requires Elements(a) == Elements(b)
    ensures a == b
  {
    assert a != [] ==> a[0] in Elements(a);
    assert b != [] ==> b[0] in Elements(b);
    if a != [] && b != [] {
      assert a[0] in Elements(b) && b[0] in Elements(a);
      if a[0] != b[0] {
        FirstIsLeast(a, b[0]);
        FirstIsLeast(b, a[0]);
        BelowTotal(a[0], b[0]);
      }
      assert Elements(a[1..]) == Elements(b[1..]) by {
        BelowIrreflexive(a[0]);
        forall n ensures n in Elements(a[1..]) <==> n in Elements(b[1..]) {
          assert a == [a[0]] + a[1..] && b == [b[0]] + b[1..];
          if n in a[1..] {
            var i :| 0 <= i < |a[1..]| && a[1..][i] == n;
            assert a[i + 1] == n;
            assert n in Elements(a);
          }
          if n in b[1..] {
            var j :| 0 <= j < |b[1..]| && b[1..][j] == n;
            assert b[j + 1] == n;
            assert n in Elements(b);
          }
        }
      }
      SortedUnique(a[1..], b[1..]);
      assert a == [a[0]] + a[1..] && b == [b[0]] + b[1..];
    }
  }

  /** `sorted(names)`: builds the sorted list by inserting the names one at a time. */
  method Sort(names: set<string>) returns (r: seq<string>)
    ensures r == SortedNames(names)
  {
    r := [];
    var rest := names;
    while rest != {}
      invariant StrictlySorted(r)
      invariant Elements(r) + rest == names
      invariant Elements(r) !! rest
      decreases |rest|
    {
      var x :| x in rest;
      r := Insert(r, x);
      rest := rest - {x};
    }
    SortedUnique(r, SortedNames(names));
  }
}
