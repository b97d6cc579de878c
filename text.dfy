/**
 * The two string operations the booking core relies on: upper-casing
 * station names (String.prototype.toUpperCase) and the default ordering
 * of Array.prototype.sort, which compares strings code unit by code unit.
 */
module Text {

  /** Upper-case one character; only the ASCII letters a-z change. */
  function UpperChar(c: char): (u: char)
    ensures 'a' <= c <= 'z' ==> u as int == c as int - 32
    ensures !('a' <= c <= 'z') ==> u == c
  {
    if 'a' <= c <= 'z' then (c as int - 32) as char else c
  }

  function Upper(s: string): (r: string)
    ensures |r| == |s|
    ensures forall i :: 0 <= i < |s| ==> r[i] == UpperChar(s[i])
  {
    seq(|s|, i requires 0 <= i < |s| => UpperChar(s[i]))
  }

  /** Upper-casing never turns a non-empty field into an empty one, so a
      required-field check after upper-casing sees the same emptiness. */
  lemma UpperEmpty(s: string)
    ensures Upper(s) == [] <==> s == []
  {
    assert |Upper(s)| == |s|;
  }

  /** Upper-casing twice is upper-casing once. */
  lemma UpperIdempotent(s: string)
    ensures Upper(Upper(s)) == Upper(s)
  {
    forall i | 0 <= i < |s|
      ensures Upper(Upper(s))[i] == Upper(s)[i]
    {
      var c := s[i];
      assert Upper(s)[i] == UpperChar(c);
      assert !('a' <= UpperChar(c) <= 'z');
    }
  }

  /** Strict lexicographic order on code units: a proper prefix comes first. */
  predicate Below(a: string, b: string)
  {
    if |a| == 0 then |b| > 0
    else if |b| == 0 then false
    else if a[0] == b[0] then Below(a[1..], b[1..])
    else a[0] < b[0]
  }

  lemma {:induction false} BelowIrreflexive(a: string)
    ensures !Below(a, a)
  {
    if |a| > 0 {
      BelowIrreflexive(a[1..]);
    }
  }

  lemma {:induction false} BelowTotal(a: string, b: string)
    requires a != b
    ensures Below(a, b) != Below(b, a)
  {
    if |a| > 0 && |b| > 0 && a[0] == b[0] {
      assert a == [a[0]] + a[1..] && b == [b[0]] + b[1..];
      BelowTotal(a[1..], b[1..]);
    }
  }

  lemma {:induction false} BelowTransitive(a: string, b: string, c: string)
    requires Below(a, b) && Below(b, c)
    ensures Below(a, c)
  {
    if |a| > 0 && a[0] == b[0] && b[0] == c[0] {
      BelowTransitive(a[1..], b[1..], c[1..]);
    }
  }

  /** Each element strictly below the next one. */
  predicate Ascending(s: seq<string>)
  {
    forall i :: 0 < i < |s| ==> Below(s[i - 1], s[i])
  }

  /** In an ascending sequence every earlier element is below every later
      one, so in particular no element occurs twice. */
  lemma {:induction false} AscendingOrdered(s: seq<string>, i: nat, j: nat)
    requires Ascending(s) && i < j < |s|
    ensures Below(s[i], s[j]) && s[i] != s[j]
    decreases j - i
  {
    if i + 1 < j {
      AscendingOrdered(s, i + 1, j);
      BelowTransitive(s[i], s[i + 1], s[j]);
    }
    BelowIrreflexive(s[i]);
  }

  /** Add x to an ascending sequence unless it is already there. */
  function Insert(x: string, s: seq<string>): (r: seq<string>)
    requires Ascending(s)
    ensures Ascending(r)
    ensures forall y :: y in r <==> y == x || y in s
    ensures |s| > 0 && |r| > 0 ==> r[0] == x || r[0] == s[0]
  {
    if s == [] then [x]
    else if x == s[0] then s
    else if Below(x, s[0]) then [x] + s
    else
      BelowTotal(x, s[0]);
      [s[0]] + Insert(x, s[1..])
  }

  /** The distinct elements of xs in ascending order: the effect of
      collecting xs into a Set and sorting Array.from of it. */
  function SortDistinct(xs: seq<string>): (r: seq<string>)
    ensures Ascending(r)
    ensures forall y :: y in r <==> y in xs
  {
    if xs == [] then [] else Insert(xs[|xs| - 1], SortDistinct(xs[..|xs| - 1]))
  }
}
