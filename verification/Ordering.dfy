// Go's string order and sort.Slice by a name, used for service ports and volumes.
module Ordering {

  /** String comparison, character by character. */
  predicate Less(a: string, b: string)
  {
    if b == "" then false
    else if a == "" then true
    else a[0] < b[0] || (a[0] == b[0] && Less(a[1..], b[1..]))
  }

  lemma {:induction false} LessTrichotomy(a: string, b: string)
    ensures a == b ==> !Less(a, b)
    ensures a != b ==> Less(a, b) != Less(b, a)
  {
    if a != "" && b != "" {
      LessTrichotomy(a[1..], b[1..]);
      assert a == [a[0]] + a[1..] && b == [b[0]] + b[1..];
    }
  }

  /** The order is that of the first character in which two strings differ, and a prefix comes first. */
  lemma {:induction false} LessIsLexicographic(a: string, b: string, k: nat)
    requires k <= |a| && k <= |b| && a[..k] == b[..k]
    ensures k == |a| < |b| ==> Less(a, b)
    ensures k < |a| && k < |b| && a[k] < b[k] ==> Less(a, b)
  {
    if k > 0 {
      assert a[..k][0] == b[..k][0];
      assert a[1..][..k - 1] == a[..k][1..] == b[..k][1..] == b[1..][..k - 1];
      LessIsLexicographic(a[1..], b[1..], k - 1);
    }
  }

  lemma {:induction false} LessTransitive(a: string, b: string, c: string)
    requires Less(a, b) && Less(b, c)
    ensures Less(a, c)
  {
    if a != "" && a[0] == b[0] == c[0] { LessTransitive(a[1..], b[1..], c[1..]); }
  }

  /** Strictly in order of name, so without two elements of one name. */
  ghost predicate Ascending<T>(xs: seq<T>, name: T -> string)
  {
    forall i, j :: 0 <= i < j < |xs| ==> Less(name(xs[i]), name(xs[j]))
  }

  ghost predicate DistinctNames<T>(xs: seq<T>, name: T -> string)
  {
    forall i, j :: 0 <= i < j < |xs| ==> name(xs[i]) != name(xs[j])
  }

  function Insert<T>(x: T, xs: seq<T>, name: T -> string): (r: seq<T>)
    ensures multiset(r) == multiset(xs) + multiset{x} && |r| == |xs| + 1
  {
    if xs == [] || Less(name(x), name(xs[0])) then [x] + xs
    else
      assert xs == [xs[0]] + xs[1..];
      [xs[0]] + Insert(x, xs[1..], name)
  }

  /** What sort.Slice makes of a list, for names that are all different. */
  function SortByName<T>(xs: seq<T>, name: T -> string): (r: seq<T>)
    ensures multiset(r) == multiset(xs) && |r| == |xs|
  {
    if xs == [] then []
    else
      assert xs == [xs[0]] + xs[1..];
      Insert(xs[0], SortByName(xs[1..], name), name)
  }

  lemma MemberOf<T>(xs: seq<T>, ys: seq<T>, x: T)
    requires multiset(xs) == multiset(ys)
    ensures x in xs <==> x in ys
    ensures |xs| == |ys|
  {
    assert x in xs <==> x in multiset(xs);
    assert x in ys <==> x in multiset(ys);
    assert |xs| == |multiset(xs)| && |ys| == |multiset(ys)|;
  }

  lemma {:induction false} InsertAscends<T>(x: T, xs: seq<T>, name: T -> string)
    requires Ascending(xs, name) && forall y :: y in xs ==> name(y) != name(x)
    ensures Ascending(Insert(x, xs, name), name)
  {
    if xs != [] {
      LessTrichotomy(name(x), name(xs[0]));
      if Less(name(x), name(xs[0])) {
        forall j | 0 < j < |xs| ensures Less(name(x), name(xs[j])) {
          LessTransitive(name(x), name(xs[0]), name(xs[j]));
        }
      } else {
        var rest := Insert(x, xs[1..], name);
        InsertAscends(x, xs[1..], name);
        forall j | 0 <= j < |rest| ensures Less(name(xs[0]), name(rest[j])) {
          assert rest[j] in multiset(rest);
          assert rest[j] == x || rest[j] in xs[1..];
        }
      }
    }
  }

  lemma {:induction false} SortAscends<T>(xs: seq<T>, name: T -> string)
    requires DistinctNames(xs, name)
    ensures Ascending(SortByName(xs, name), name)
  {
    if xs != [] {
      SortAscends(xs[1..], name);
      forall y | y in SortByName(xs[1..], name) ensures name(y) != name(xs[0]) {
        MemberOf(SortByName(xs[1..], name), xs[1..], y);
        var j :| 0 <= j < |xs[1..]| && xs[1..][j] == y;
        assert xs[j + 1] == y;
      }
      InsertAscends(xs[0], SortByName(xs[1..], name), name);
    }
  }

  /** A list in strict order is determined by its elements. */
  lemma {:induction false} AscendingIsUnique<T>(xs: seq<T>, ys: seq<T>, name: T -> string)
    requires Ascending(xs, name) && Ascending(ys, name)
    requires forall x :: x in xs <==> x in ys
    ensures xs == ys
  {
    assert ys != [] ==> ys[0] in ys;
    if xs != [] {
      assert xs[0] in xs;
      FirstIsLeast(xs, ys, name);
      forall x ensures x in xs[1..] <==> x in ys[1..] {
        TailWithoutHead(xs, x, name);
        TailWithoutHead(ys, x, name);
      }
      AscendingIsUnique(xs[1..], ys[1..], name);
    }
  }

  lemma TailWithoutHead<T>(xs: seq<T>, x: T, name: T -> string)
    requires xs != [] && Ascending(xs, name)
    ensures x in xs[1..] <==> x in xs && x != xs[0]
  {
    LessTrichotomy(name(xs[0]), name(xs[0]));
    assert xs == [xs[0]] + xs[1..];
    if x in xs[1..] {
      var j :| 0 <= j < |xs[1..]| && xs[1..][j] == x;
      assert Less(name(xs[0]), name(xs[j + 1]));
    }
  }

  lemma FirstIsLeast<T>(xs: seq<T>, ys: seq<T>, name: T -> string)
    requires xs != [] && ys != [] && Ascending(xs, name) && Ascending(ys, name)
    requires forall x :: x in xs <==> x in ys
    ensures xs[0] == ys[0]
  {
    assert xs[0] in ys && ys[0] in xs;
    var i :| 0 <= i < |ys| && ys[i] == xs[0];
    var j :| 0 <= j < |xs| && xs[j] == ys[0];
    LessTrichotomy(name(xs[0]), name(ys[0]));
    assert i > 0 ==> Less(name(ys[0]), name(ys[i]));
    assert j > 0 ==> Less(name(xs[0]), name(xs[j]));
  }

  /**
   * sort.Slice promises a permutation in which nothing comes before a smaller element.
   * With distinct names that is one list only, so the sorting algorithm does not matter.
   */
  lemma AnySortAgrees<T>(xs: seq<T>, r: seq<T>, name: T -> string)
    requires DistinctNames(xs, name) && multiset(r) == multiset(xs)
    requires forall i, j :: 0 <= i < j < |r| ==> !Less(name(r[j]), name(r[i]))
    ensures r == SortByName(xs, name)
  {
    SortAscends(xs, name);
    PermutedNamesDistinct(xs, r, name);
    forall i, j | 0 <= i < j < |r| ensures Less(name(r[i]), name(r[j])) {
      LessTrichotomy(name(r[i]), name(r[j]));
    }
    forall x ensures x in r <==> x in SortByName(xs, name) { MemberOf(r, SortByName(xs, name), x); }
    AscendingIsUnique(r, SortByName(xs, name), name);
  }

  lemma {:induction false} OneOccurrence<T>(xs: seq<T>, name: T -> string, x: T)
    requires DistinctNames(xs, name)
    ensures multiset(xs)[x] <= 1
  {
    if xs != [] {
      assert xs == [xs[0]] + xs[1..];
      OneOccurrence(xs[1..], name, x);
      forall y | y in xs[1..] ensures y != xs[0] {
        var j :| 0 <= j < |xs[1..]| && xs[1..][j] == y;
        assert name(xs[0]) != name(xs[j + 1]);
      }
    }
  }

  lemma TwoOccurrences<T>(xs: seq<T>, i: nat, j: nat)
    requires i < j < |xs| && xs[i] == xs[j]
    ensures multiset(xs)[xs[i]] >= 2
  {
    assert xs == xs[..j] + [xs[j]] + xs[j + 1..];
    assert xs[..j][i] == xs[i];
    assert xs[i] in multiset(xs[..j]);
  }

  lemma PermutedNamesDistinct<T>(xs: seq<T>, r: seq<T>, name: T -> string)
    requires DistinctNames(xs, name) && multiset(r) == multiset(xs)
    ensures DistinctNames(r, name)
  {
    forall i, j | 0 <= i < j < |r| ensures name(r[i]) != name(r[j]) {
      MemberOf(r, xs, r[i]);
      MemberOf(r, xs, r[j]);
      var a :| 0 <= a < |xs| && xs[a] == r[i];
      var b :| 0 <= b < |xs| && xs[b] == r[j];
      OneOccurrence(xs, name, r[i]);
      if r[i] == r[j] {
        TwoOccurrences(r, i, j);
      } else {
        assert if a < b then name(xs[a]) != name(xs[b]) else name(xs[b]) != name(xs[a]);
      }
    }
  }
}
