/** Result types, string order and division facts shared by the modules of this project. */
module Basics {
  datatype Option<+T> = None | Some(value: T)

  /** A returned value, or the exception the source raises instead. */
  datatype Result<+T> = Ok(value: T) | Raised

  lemma Pick<T>(s: set<T>) returns (v: T)
    requires s != {}
    ensures v in s
  {
    v :| v in s;
  }

  /** Quotient and remainder are unique. */
  lemma DivMod(x: int, k: int, q: int, r: int)
    requires 0 < k && x == q * k + r && 0 <= r < k
    ensures x / k == q && x % k == r
  {
    MultipleApart(q - x / k, k);
    assert (q - x / k) * k == x % k - r;
  }

  lemma MultipleApart(d: int, k: int)
    requires 0 < k
    ensures d >= 1 ==> d * k >= k
    ensures d <= -1 ==> d * k <= -k
  {
  }

  // --- lists and the order of strings ---

  function Except(s: seq<string>, x: string): (kept: seq<string>)
    ensures forall y :: y in kept <==> y in s && y != x
  {
    if s == [] then []
    else
      assert s == [s[0]] + s[1..];
      var rest := Except(s[1..], x);
      if s[0] == x then rest else [s[0]] + rest
  }

  predicate LexLess(a: string, b: string) {
    b != [] && (a == [] || a[0] < b[0] || (a[0] == b[0] && LexLess(a[1..], b[1..])))
  }

  lemma {:induction false} LexIrreflexive(a: string)
    ensures !LexLess(a, a)
  {
    if a != [] {
      LexIrreflexive(a[1..]);
    }
  }

  lemma {:induction false} LexTotal(a: string, b: string)
    ensures a == b || LexLess(a, b) || LexLess(b, a)
  {
    if a != [] && b != [] && a[0] == b[0] {
      LexTotal(a[1..], b[1..]);
      assert a == [a[0]] + a[1..] && b == [b[0]] + b[1..];
    }
  }

  lemma {:induction false} LexTransitive(a: string, b: string, c: string)
    requires LexLess(a, b) && LexLess(b, c)
    ensures LexLess(a, c)
  {
    if a != [] && a[0] == b[0] && b[0] == c[0] {
      LexTransitive(a[1..], b[1..], c[1..]);
    }
  }

  predicate LexSorted(s: seq<string>) {
    forall i, j :: 0 <= i < j < |s| ==> s[i] == s[j] || LexLess(s[i], s[j])
  }

  /** Puts a string in its place; an equal one stays beside it. */
  function Insert(s: seq<string>, x: string): (t: seq<string>)
    requires LexSorted(s)
    ensures LexSorted(t) && multiset(t) == multiset(s) + multiset{x}
    ensures forall y :: y in t <==> y in s || y == x
  {
    if s == [] then [x]
    else
      var last, front := s[|s| - 1], s[..|s| - 1];
      assert s == front + [last];
      if last == x || LexLess(last, x) then
        BelowLast(s, x);
        InsertLast(s, x);
        s + [x]
      else
        LexTotal(last, x);
        var rest := Insert(front, x);
        InsertLast(rest, last);
        rest + [last]
  }

  lemma InsertLast(s: seq<string>, x: string)
    requires LexSorted(s) && forall y :: y in s ==> y == x || LexLess(y, x)
    ensures LexSorted(s + [x])
  {
  }

  lemma BelowLast(s: seq<string>, x: string)
    requires LexSorted(s) && s != [] && (s[|s| - 1] == x || LexLess(s[|s| - 1], x))
    ensures forall y :: y in s ==> y == x || LexLess(y, x)
  {
    forall y | y in s ensures y == x || LexLess(y, x) {
      var i :| 0 <= i < |s| && s[i] == y;
      if i < |s| - 1 && s[i] != s[|s| - 1] && s[|s| - 1] != x {
        LexTransitive(y, s[|s| - 1], x);
      }
    }
  }

  /** Python's `sorted`. */
  function Sort(s: seq<string>): (t: seq<string>)
    ensures LexSorted(t) && multiset(t) == multiset(s)
    ensures forall y :: y in t <==> y in s
  {
    if s == [] then []
    else
      assert s == s[..|s| - 1] + [s[|s| - 1]];
      Insert(Sort(s[..|s| - 1]), s[|s| - 1])
  }
}
