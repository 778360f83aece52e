/** A strictly sorted list is determined by its elements. */
module SortedLists {

  ghost predicate SortedBy<T(!new)>(less: (T, T) -> bool, list: seq<T>) {
    forall i, j :: 0 <= i < j < |list| ==> less(list[i], list[j])
  }

  ghost predicate AsymmetricOn<T(!new)>(less: (T, T) -> bool, list: seq<T>) {
    forall x, y :: x in list && y in list && less(x, y) ==> !less(y, x)
  }

  lemma HeadIsLeast<T(!new)>(less: (T, T) -> bool, g: seq<T>, x: T)
    requires SortedBy(less, g) && x in g
    ensures g[0] == x || less(g[0], x)
  {
    var i :| 0 <= i < |g| && g[i] == x;
  }

  lemma HeadsAgree<T(!new)>(less: (T, T) -> bool, f: seq<T>, g: seq<T>)
    requires SortedBy(less, f) && SortedBy(less, g) && AsymmetricOn(less, f) && f != []
    requires forall x :: x in f <==> x in g
    ensures g != [] && f[0] == g[0]
  {
    assert f[0] in g;
    assert g[0] in g;
    HeadIsLeast(less, g, f[0]);
    HeadIsLeast(less, f, g[0]);
  }

  lemma TailMember<T(!new)>(less: (T, T) -> bool, f: seq<T>, g: seq<T>, x: T)
    requires SortedBy(less, f) && AsymmetricOn(less, f) && f != [] && g != [] && f[0] == g[0]
    requires x in f[1..] && x in g
    ensures x in g[1..]
  {
    var j :| 0 <= j < |f[1..]| && f[1..][j] == x;
    assert less(f[0], f[j + 1]) && f[j + 1] in f;
    var m :| 0 <= m < |g| && g[m] == x;
    assert m > 0 && g[1..][m - 1] == x;
  }

  lemma {:induction false} SortedUnique<T(!new)>(less: (T, T) -> bool, f: seq<T>, g: seq<T>)
    requires SortedBy(less, f) && SortedBy(less, g) && AsymmetricOn(less, f)
    requires forall x :: x in f <==> x in g
    ensures f == g
  {
    if f == [] {
      assert forall i :: 0 <= i < |g| ==> g[i] in g;
    } else {
      HeadsAgree(less, f, g);
      assert AsymmetricOn(less, g);
      forall x | x in f[1..] ensures x in g[1..] {
        TailMember(less, f, g, x);
      }
      forall x | x in g[1..] ensures x in f[1..] {
        TailMember(less, g, f, x);
      }
      SortedUnique(less, f[1..], g[1..]);
      assert f == [f[0]] + f[1..] && g == [g[0]] + g[1..];
    }
  }
}
