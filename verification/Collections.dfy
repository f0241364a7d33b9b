/** Facts about sequences and multisets that several models need. */
module Collections {

  function Min(a: int, b: int): int {
    if a < b then a else b
  }

  function Max(a: int, b: int): int {
    if a < b then b else a
  }

  /** The elements at the given positions. */
  function Picked<T>(s: seq<T>, at: seq<nat>): (p: seq<T>)
    requires forall j :: 0 <= j < |at| ==> at[j] < |s|
    ensures |p| == |at| && forall j :: 0 <= j < |at| ==> p[j] == s[at[j]]
  {
    seq(|at|, j requires 0 <= j < |at| => s[at[j]])
  }

  /** s with the first k of the values written over the given positions. */
  function Overwritten<T>(s: seq<T>, at: seq<nat>, values: seq<T>, k: nat): (r: seq<T>)
    requires k <= |at| && k <= |values|
    requires forall j :: 0 <= j < |at| ==> at[j] < |s|
    ensures |r| == |s|
  {
    if k == 0 then s else Overwritten(s, at, values, k - 1)[at[k - 1] := values[k - 1]]
  }

  /** With positions in order, each holds its value and the others are as before. */
  lemma {:induction false} OverwrittenAt<T>(s: seq<T>, at: seq<nat>, values: seq<T>, k: nat)
    requires k <= |at| && k <= |values|
    requires forall j :: 0 <= j < |at| ==> at[j] < |s|
    requires forall j, l :: 0 <= j < l < |at| ==> at[j] < at[l]
    ensures forall j :: 0 <= j < k ==> Overwritten(s, at, values, k)[at[j]] == values[j]
    ensures forall i :: 0 <= i < |s| && i !in at[..k] ==> Overwritten(s, at, values, k)[i] == s[i]
  {
    if k > 0 {
      OverwrittenAt(s, at, values, k - 1);
      assert at[..k] == at[..k - 1] + [at[k - 1]];
    }
  }

  lemma AddedToNone<T>(s: seq<T>, x: T)
    requires s == []
    ensures s + [x] == [x]
  {
  }

  lemma AddedLast<T>(s: seq<T>, x: T)
    ensures multiset(s + [x]) == multiset(s) + multiset{x}
  {
  }

  lemma AddedRight<T>(whole: seq<T>, s: seq<T>, a: seq<T>, b: seq<T>, x: T)
    requires multiset(s) == multiset(a) + multiset(b) && whole == s + [x]
    ensures multiset(whole) == multiset(a) + multiset(b + [x])
  {
    AddedLast(s, x);
    AddedLast(b, x);
    Shift(multiset(a), multiset(b), multiset{x});
  }

  lemma AddedLeft<T>(whole: seq<T>, s: seq<T>, a: seq<T>, b: seq<T>, x: T)
    requires multiset(s) == multiset(a) + multiset(b) && whole == s + [x]
    ensures multiset(whole) == multiset(a + [x]) + multiset(b)
  {
    AddedLast(s, x);
    AddedLast(a, x);
    Shift(multiset(a), multiset(b), multiset{x});
  }

  lemma Shift<T>(a: multiset<T>, b: multiset<T>, c: multiset<T>)
    ensures a + b + c == a + c + b == a + (b + c)
  {
  }

  lemma Regroup<T>(a: multiset<T>, x: multiset<T>, b: multiset<T>, y: multiset<T>)
    ensures (a + x) + (b + y) == (a + b) + (x + y)
  {
  }

  lemma SameRest<T>(m: multiset<T>, a: multiset<T>, b: multiset<T>, x: T)
    requires m == a + multiset{x} == b + multiset{x}
    ensures a == b
  {
    assert a == m - multiset{x} == b;
  }

  /** The numbers below n. */
  function Below(n: nat): (s: set<nat>)
    ensures |s| == n && forall i: nat :: i in s <==> i < n
  {
    if n == 0 then {} else Below(n - 1) + {n - 1}
  }
}
