// Comparing strings byte by byte, as the < and > of the source language do.
module ByteOrder {

  function StrCmp(a: string, b: string): (r: int)
    ensures -1 <= r <= 1
  {
    if a == [] && b == [] then 0
    else if a == [] then -1
    else if b == [] then 1
    else if a[0] < b[0] then -1
    else if a[0] > b[0] then 1
    else StrCmp(a[1..], b[1..])
  }

  lemma {:induction false} StrCmpZero(a: string, b: string)
    ensures StrCmp(a, b) == 0 <==> a == b
  {
    if a != [] && b != [] {
      StrCmpZero(a[1..], b[1..]);
      assert a == [a[0]] + a[1..] && b == [b[0]] + b[1..];
    }
  }

  lemma {:induction false} StrCmpOrder(a: string, b: string, c: string)
    ensures StrCmp(b, a) == -StrCmp(a, b)
    ensures StrCmp(a, b) <= 0 && StrCmp(b, c) <= 0 ==> StrCmp(a, c) <= 0 && (StrCmp(a, c) == 0 ==> StrCmp(a, b) == 0 && StrCmp(b, c) == 0)
  {
    if a != [] && b != [] && c != [] {
      StrCmpOrder(a[1..], b[1..], c[1..]);
    } else if a != [] && b != [] {
      StrCmpOrder(a[1..], b[1..], []);
    }
  }

  // a and b agree up to i, and there a ends first or has the smaller character.
  ghost predicate SmallerAt(a: string, b: string, i: nat) {
    && i <= |a| && i < |b| && a[..i] == b[..i]
    && (i < |a| ==> a[i] < b[i])
  }

  // The order is lexicographic.
  lemma {:induction false} StrCmpMeans(a: string, b: string)
    ensures StrCmp(a, b) < 0 <==> exists i :: SmallerAt(a, b, i)
    ensures StrCmp(a, b) > 0 <==> exists i :: SmallerAt(b, a, i)
  {
    if a == [] || b == [] {
      if b != [] { assert SmallerAt(a, b, 0); }
      if a != [] { assert SmallerAt(b, a, 0); }
    } else {
      StrCmpMeans(a[1..], b[1..]);
      SmallerStep(a, b);
      SmallerStep(b, a);
    }
  }

  lemma SmallerStep(a: string, b: string)
    requires a != [] && b != []
    ensures (exists i :: SmallerAt(a, b, i)) <==> a[0] < b[0] || (a[0] == b[0] && exists i :: SmallerAt(a[1..], b[1..], i))
  {
    if a[0] < b[0] { assert SmallerAt(a, b, 0); }
    if i: nat :| a[0] == b[0] && SmallerAt(a[1..], b[1..], i) {
      assert a[..i + 1] == [a[0]] + a[1..][..i] && b[..i + 1] == [b[0]] + b[1..][..i];
      assert SmallerAt(a, b, i + 1);
    }
    if i: nat :| SmallerAt(a, b, i) {
      if i > 0 {
        assert a[..i][0] == b[..i][0];
        assert a[1..][..i - 1] == a[..i][1..] && b[1..][..i - 1] == b[..i][1..];
        assert SmallerAt(a[1..], b[1..], i - 1);
      }
    }
  }
}
