/** Python list operations the registry relies on, stated on sequences. */
module Lists {

  /** Index of the first occurrence of `x` in `s`: the position `list.index` finds. */
  function IndexOf<T(==)>(s: seq<T>, x: T): (i: nat)
    requires x in s
    ensures i < |s| && s[i] == x
    ensures x !in s[..i]
  {
    if s[0] == x then 0
    else
      var j := IndexOf(s[1..], x);
      assert s[..j + 1] == [s[0]] + s[1..][..j];
      j + 1
  }

  /** `list.remove(x)`: drop the first occurrence of `x`.
      Python raises ValueError when `x` is absent; callers test membership first. */
  function RemoveFirst<T(==)>(s: seq<T>, x: T): (r: seq<T>)
    requires x in s
    ensures |r| == |s| - 1
    ensures multiset(r) == multiset(s) - multiset{x}
  {
    if s[0] == x then
      assert s == [s[0]] + s[1..];
      s[1..]
    else
      assert s == [s[0]] + s[1..];
      [s[0]] + RemoveFirst(s[1..], x)
  }

  /** What `list.remove` keeps is exactly the elements before and after the first
      occurrence, in their original order. */
  lemma {:induction false} RemoveFirstKeepsOrder<T>(s: seq<T>, x: T)
    requires x in s
    ensures RemoveFirst(s, x) == s[..IndexOf(s, x)] + s[IndexOf(s, x) + 1..]
  {
    if s[0] == x {
      assert IndexOf(s, x) == 0 && s[..0] == [];
    } else {
      var t := s[1..];
      RemoveFirstKeepsOrder(t, x);
      var j := IndexOf(t, x);
      assert IndexOf(s, x) == j + 1;
      assert RemoveFirst(s, x) == [s[0]] + RemoveFirst(t, x);
      SplitAfterHead(s, j);
    }
  }

  /** `list.remove` empties the list exactly when `x` was its only element. */
  lemma RemoveFirstEmpty<T>(s: seq<T>, x: T)
    requires x in s
    ensures RemoveFirst(s, x) == [] <==> s == [x]
  {
    if |s| == 1 {
      assert s[0] == x;
    }
  }

  /** Cutting out position `j` of the tail is cutting out position `j + 1` of `s`. */
  lemma SplitAfterHead<T>(s: seq<T>, j: nat)
    requires j + 1 < |s|
    ensures [s[0]] + (s[1..][..j] + s[1..][j + 1..]) == s[..j + 1] + s[j + 2..]
  {
    assert s[..j + 1] == [s[0]] + s[1..][..j];
    assert s[j + 2..] == s[1..][j + 1..];
  }
}
