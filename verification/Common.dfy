/** Small definitions shared by the models of the individual programs. */
module Common {

  datatype Option<+T> = None | Some(value: T)

  /** The sum of the weights of the elements of a sequence. */
  function Sum<T>(s: seq<T>, w: T -> int): int {
    if s == [] then 0 else Sum(s[..|s| - 1], w) + w(s[|s| - 1])
  }

  /** Changing one element changes the sum by the difference of the two weights. */
  lemma {:induction false} SumUpdate<T>(s: seq<T>, i: nat, x: T, w: T -> int)
    requires i < |s|
    ensures Sum(s[i := x], w) == Sum(s, w) - w(s[i]) + w(x)
  {
    var n := |s| - 1;
    if i == n {
      assert s[i := x][..n] == s[..n];
    } else {
      assert s[i := x][..n] == s[..n][i := x];
      SumUpdate(s[..n], i, x, w);
    }
  }

  /** A sum of non-negative weights is at least every one of them. */
  lemma {:induction false} SumAtLeast<T>(s: seq<T>, i: nat, w: T -> int)
    requires i < |s|
    requires forall k :: 0 <= k < |s| ==> w(s[k]) >= 0
    ensures Sum(s, w) >= w(s[i])
  {
    var n := |s| - 1;
    if i < n {
      SumAtLeast(s[..n], i, w);
    } else {
      SumNonNegative(s[..n], w);
    }
  }

  lemma {:induction false} SumNonNegative<T>(s: seq<T>, w: T -> int)
    requires forall k :: 0 <= k < |s| ==> w(s[k]) >= 0
    ensures Sum(s, w) >= 0
  {
    if s != [] {
      SumNonNegative(s[..|s| - 1], w);
    }
  }

  lemma {:induction false} SumConstant<T>(s: seq<T>, w: T -> int, c: int)
    requires forall k :: 0 <= k < |s| ==> w(s[k]) == c
    ensures Sum(s, w) == |s| * c
  {
    if s != [] {
      SumConstant(s[..|s| - 1], w, c);
    }
  }

  lemma {:induction false} SumSame<T>(s: seq<T>, w: T -> int, w': T -> int)
    requires forall k :: 0 <= k < |s| ==> w(s[k]) == w'(s[k])
    ensures Sum(s, w) == Sum(s, w')
  {
    if s != [] {
      SumSame(s[..|s| - 1], w, w');
    }
  }

  lemma {:induction false} SumAtLeastTwo<T>(s: seq<T>, i: nat, j: nat, w: T -> int)
    requires i < j < |s|
    requires forall k :: 0 <= k < |s| ==> w(s[k]) >= 0
    ensures Sum(s, w) >= w(s[i]) + w(s[j])
  {
    var n := |s| - 1;
    if j < n {
      SumAtLeastTwo(s[..n], i, j, w);
    } else {
      SumAtLeast(s[..n], i, w);
    }
  }
}
