// RPM version order, and the loop that keeps the highest fix per package.
module RpmVersion {
  import opened ByteOrder

  predicate IsDigit(c: char) { '0' <= c <= '9' }
  predicate IsAlpha(c: char) { 'a' <= c <= 'z' || 'A' <= c <= 'Z' }
  predicate IsAlnum(c: char) { IsDigit(c) || IsAlpha(c) }

  // By their ASCII codes: ten digits, and 26 letters twice, 32 apart.
  lemma Characters(c: char)
    ensures IsDigit(c) <==> 48 <= c as int < 58
    ensures IsAlpha(c) <==> 65 <= c as int < 65 + 26 || 65 + 32 <= c as int < 65 + 32 + 26
    ensures !IsAlnum(c) <==> !IsDigit(c) && !IsAlpha(c)
  {}

  predicate AllDigits(s: string) { forall c <- s :: IsDigit(c) }
  predicate AllAlpha(s: string) { forall c <- s :: IsAlpha(c) }

  // --------------------------------------------------------------------
  // Segments
  // --------------------------------------------------------------------

  function DigitRun(v: string): (n: nat)
    ensures n <= |v| && AllDigits(v[..n]) && (n < |v| ==> !IsDigit(v[n]))
  {
    if v == [] || !IsDigit(v[0]) then 0
    else
      var n := 1 + DigitRun(v[1..]);
      assert v[..n] == [v[0]] + v[1..][..n - 1];
      n
  }

  function AlphaRun(v: string): (n: nat)
    ensures n <= |v| && AllAlpha(v[..n]) && (n < |v| ==> !IsAlpha(v[n]))
  {
    if v == [] || !IsAlpha(v[0]) then 0
    else
      var n := 1 + AlphaRun(v[1..]);
      assert v[..n] == [v[0]] + v[1..][..n - 1];
      n
  }

  // Maximal runs of digits or of letters; everything else separates.
  function Segments(v: string): seq<string>
    decreases |v|
  {
    if v == [] then []
    else if !IsAlnum(v[0]) then Segments(v[1..])
    else
      var n := if IsDigit(v[0]) then DigitRun(v) else AlphaRun(v);
      if n == 0 then [] else [v[..n]] + Segments(v[n..])
  }

  lemma RunUnique(v: string, digits: bool, n: nat)
    requires n <= |v| && (if digits then AllDigits(v[..n]) && (n < |v| ==> !IsDigit(v[n])) else AllAlpha(v[..n]) && (n < |v| ==> !IsAlpha(v[n])))
    ensures n == if digits then DigitRun(v) else AlphaRun(v)
  {}

  lemma RunIsSegment(v: string, start: nat, i: nat)
    requires start <= i <= |v| && start < |v| && IsAlnum(v[start])
    requires if IsDigit(v[start]) then AllDigits(v[start..i]) && (i < |v| ==> !IsDigit(v[i])) else AllAlpha(v[start..i]) && (i < |v| ==> !IsAlpha(v[i]))
    ensures start < i && Segments(v[start..]) == [v[start..i]] + Segments(v[i..])
  {
    var w := v[start..];
    assert w[..i - start] == v[start..i] && w[i - start..] == v[i..];
    assert w[0] == v[start];
    RunUnique(w, IsDigit(v[start]), i - start);
  }

  lemma SkipSeparator(v: string, i: nat)
    requires i < |v| && !IsAlnum(v[i])
    ensures Segments(v[i..]) == Segments(v[i + 1..])
  {}

  method RpmSegments(v: string) returns (segs: seq<string>)
    ensures segs == Segments(v)
  {
    hide Segments;
    segs := [];
    var i := 0;
    assert v[0..] == v;
    while i < |v|
      invariant 0 <= i <= |v| && Segments(v) == segs + Segments(v[i..])
    {
      while i < |v| && !IsAlnum(v[i])
        invariant 0 <= i <= |v| && Segments(v) == segs + Segments(v[i..])
      {
        SkipSeparator(v, i);
        i := i + 1;
      }
      if i >= |v| {
        break;
      }
      var start := i;
      if IsDigit(v[i]) {
        while i < |v| && IsDigit(v[i])
          invariant start <= i <= |v| && AllDigits(v[start..i])
        {
          assert v[start..i + 1] == v[start..i] + [v[i]];
          i := i + 1;
        }
      } else {
        while i < |v| && IsAlpha(v[i])
          invariant start <= i <= |v| && AllAlpha(v[start..i])
        {
          assert v[start..i + 1] == v[start..i] + [v[i]];
          i := i + 1;
        }
      }
      RunIsSegment(v, start, i);
      segs := segs + [v[start..i]];
    }
    assert v[i..] == [];
    NoSegments();
  }

  lemma NoSegments()
    ensures Segments([]) == []
  {}

  predicate IsSegment(s: string) {
    s != [] && (AllDigits(s) || AllAlpha(s))
  }

  lemma {:induction false} SegmentsAre(v: string)
    ensures forall s <- Segments(v) :: IsSegment(s)
    decreases |v|
  {
    if v != [] {
      if !IsAlnum(v[0]) {
        SegmentsAre(v[1..]);
      } else {
        var n := if IsDigit(v[0]) then DigitRun(v) else AlphaRun(v);
        if n > 0 { SegmentsAre(v[n..]); }
      }
    }
  }

  function Joined(segs: seq<string>): string {
    if segs == [] then [] else segs[0] + Joined(segs[1..])
  }

  function OnlyAlnum(v: string): string {
    if v == [] then [] else (if IsAlnum(v[0]) then [v[0]] else []) + OnlyAlnum(v[1..])
  }

  // Splitting loses only separators.
  lemma {:induction false} SegmentsKeepAlnum(v: string)
    ensures Joined(Segments(v)) == OnlyAlnum(v)
    decreases |v|
  {
    if v != [] {
      if !IsAlnum(v[0]) {
        SegmentsKeepAlnum(v[1..]);
      } else {
        var n := if IsDigit(v[0]) then DigitRun(v) else AlphaRun(v);
        SegmentsKeepAlnum(v[n..]);
        AlnumPrefix(v, n);
      }
    }
  }

  lemma {:induction false} AlnumPrefix(v: string, n: nat)
    requires n <= |v| && forall c <- v[..n] :: IsAlnum(c)
    ensures OnlyAlnum(v) == v[..n] + OnlyAlnum(v[n..])
  {
    if n > 0 {
      assert v[..n] == [v[0]] + v[1..][..n - 1] && v[1..][n - 1..] == v[n..];
      assert v[0] in v[..n];
      AlnumPrefix(v[1..], n - 1);
    }
  }

  // A segment of v that starts at i and cannot be extended.
  ghost predicate RunAt(v: string, i: nat, s: string) {
    && IsSegment(s) && i + |s| <= |v| && v[i..i + |s|] == s
    && (i + |s| < |v| ==> if AllDigits(s) then !IsDigit(v[i + |s|]) else !IsAlpha(v[i + |s|]))
  }

  ghost predicate Covered(segs: seq<string>, at: seq<nat>, i: nat)
    requires |at| == |segs|
  {
    exists j :: 0 <= j < |at| && at[j] <= i < at[j] + |segs[j]|
  }

  // The segments are runs of v that cannot be extended, from left to right, and no
  // letter or digit is outside them.
  ghost predicate Splits(v: string, segs: seq<string>, at: seq<nat>) {
    && |at| == |segs|
    && (forall j | 0 <= j < |at| :: RunAt(v, at[j], segs[j]))
    && (forall j, k | 0 <= j < k < |at| :: at[j] + |segs[j]| <= at[k])
    && (forall i | 0 <= i < |v| && IsAlnum(v[i]) :: Covered(segs, at, i))
  }

  lemma {:induction false} SegmentsSplit(v: string) returns (at: seq<nat>)
    ensures Splits(v, Segments(v), at)
    decreases |v|
  {
    at := [];
    if v != [] {
      if !IsAlnum(v[0]) {
        var rest := SegmentsSplit(v[1..]);
        at := seq(|rest|, j requires 0 <= j < |rest| => rest[j] + 1);
        SplitsFurther(v, 1, Segments(v[1..]), rest, at);
      } else {
        var n := if IsDigit(v[0]) then DigitRun(v) else AlphaRun(v);
        var rest := SegmentsSplit(v[n..]);
        var later: seq<nat> := seq(|rest|, j requires 0 <= j < |rest| => rest[j] + n);
        SplitsFurther(v, n, Segments(v[n..]), rest, later);
        at := [0] + later;
        SplitsFirst(v, n, Segments(v[n..]), later, at);
      }
    }
  }

  // rest splits v[n..], and at is rest seen from the start of v.
  ghost predicate SplitsAfter(v: string, n: nat, segs: seq<string>, at: seq<nat>) {
    && |at| == |segs|
    && (forall j | 0 <= j < |at| :: at[j] >= n && RunAt(v, at[j], segs[j]))
    && (forall j, k | 0 <= j < k < |at| :: at[j] + |segs[j]| <= at[k])
    && (forall i | n <= i < |v| && IsAlnum(v[i]) :: Covered(segs, at, i))
  }

  lemma SplitsFurther(v: string, n: nat, segs: seq<string>, rest: seq<nat>, at: seq<nat>)
    requires n <= |v| && Splits(v[n..], segs, rest)
    requires |at| == |rest| && forall j | 0 <= j < |at| :: at[j] == rest[j] + n
    ensures SplitsAfter(v, n, segs, at)
  {
    forall j | 0 <= j < |at| ensures RunAt(v, at[j], segs[j]) {
      RunShift(v, n, rest[j], segs[j]);
    }
    hide RunAt;
    forall i | n <= i < |v| && IsAlnum(v[i]) ensures Covered(segs, at, i) {
      assert IsAlnum(v[n..][i - n]) && Covered(segs, rest, i - n);
      var j :| 0 <= j < |rest| && rest[j] <= i - n < rest[j] + |segs[j]|;
      assert at[j] <= i;
    }
  }

  lemma RunShift(v: string, n: nat, i: nat, s: string)
    requires n <= |v| && RunAt(v[n..], i, s)
    ensures RunAt(v, i + n, s)
  {
    assert v[i + n..i + n + |s|] == v[n..][i..i + |s|];
    if i + |s| < |v[n..]| { assert v[n..][i + |s|] == v[i + n + |s|]; }
  }

  lemma SplitsFirst(v: string, n: nat, segs: seq<string>, later: seq<nat>, at: seq<nat>)
    requires 0 < n <= |v| && SplitsAfter(v, n, segs, later) && at == [0] + later
    requires RunAt(v, 0, v[..n])
    ensures Splits(v, [v[..n]] + segs, at)
  {
    hide RunAt;
    var all := [v[..n]] + segs;
    forall i | 0 <= i < |v| && IsAlnum(v[i]) ensures Covered(all, at, i) {
      if i < n {
        assert at[0] <= i < at[0] + |all[0]|;
      } else {
        assert Covered(segs, later, i);
        var j :| 0 <= j < |later| && later[j] <= i < later[j] + |segs[j]|;
        assert at[j + 1] <= i < at[j + 1] + |all[j + 1]|;
      }
    }
  }

  // --------------------------------------------------------------------
  // Comparing segments
  // --------------------------------------------------------------------

  function TrimZeros(s: string): string {
    if s != [] && s[0] == '0' then TrimZeros(s[1..]) else s
  }

  // The integer a digit string spells.
  function DigitVal(c: char): nat
    requires IsDigit(c)
  {
    (c as int) - ('0' as int)
  }

  function Pow10(n: nat): (r: nat)
    ensures r > 0
  {
    if n == 0 then 1 else 10 * Pow10(n - 1)
  }

  function NumVal(s: string): nat
    requires AllDigits(s)
  {
    if s == [] then 0
    else
      assert AllDigits(s[1..]);
      DigitVal(s[0]) * Pow10(|s| - 1) + NumVal(s[1..])
  }

  lemma {:induction false} NumValBound(s: string)
    requires AllDigits(s)
    ensures NumVal(s) < Pow10(|s|)
  {
    if s != [] {
      assert AllDigits(s[1..]);
      NumValBound(s[1..]);
      DigitTimes(DigitVal(s[0]), Pow10(|s| - 1));
    }
  }

  lemma DigitTimes(d: nat, p: nat)
    requires d <= 9
    ensures d * p <= 9 * p && (d >= 1 ==> d * p >= p)
  {}

  lemma {:induction false} DigitStep(d: nat, e: nat, p: nat)
    requires d < e
    ensures d * p + p <= e * p
    decreases e
  {
    if d + 1 < e { DigitStep(d, e - 1, p); }
  }

  lemma {:induction false} TrimKeepsValue(s: string)
    requires AllDigits(s)
    ensures AllDigits(TrimZeros(s)) && NumVal(TrimZeros(s)) == NumVal(s)
    ensures TrimZeros(s) != [] ==> TrimZeros(s)[0] != '0'
  {
    if s != [] && s[0] == '0' {
      assert AllDigits(s[1..]);
      TrimKeepsValue(s[1..]);
    }
  }

  // Of two numbers without leading zeros, the longer is the larger.
  lemma LongerIsLarger(a: string, b: string)
    requires AllDigits(a) && AllDigits(b) && |a| < |b| && b[0] != '0'
    ensures NumVal(a) < NumVal(b)
  {
    assert AllDigits(b[1..]);
    NumValBound(a);
    PowGrows(|a|, |b| - 1);
    DigitTimes(DigitVal(b[0]), Pow10(|b| - 1));
  }

  lemma {:induction false} PowGrows(m: nat, n: nat)
    requires m <= n
    ensures Pow10(m) <= Pow10(n)
    decreases n - m
  {
    if m < n { PowGrows(m + 1, n); }
  }

  function Sign(x: int): int {
    if x < 0 then -1 else if x > 0 then 1 else 0
  }

  // At equal length, byte order is numeric order.
  lemma {:induction false} SameLengthOrder(a: string, b: string)
    requires AllDigits(a) && AllDigits(b) && |a| == |b|
    ensures StrCmp(a, b) == Sign(NumVal(a) - NumVal(b))
  {
    if a != [] {
      assert AllDigits(a[1..]) && AllDigits(b[1..]);
      var p := Pow10(|a| - 1);
      NumValBound(a[1..]);
      NumValBound(b[1..]);
      if a[0] < b[0] {
        DigitStep(DigitVal(a[0]), DigitVal(b[0]), p);
      } else if a[0] > b[0] {
        DigitStep(DigitVal(b[0]), DigitVal(a[0]), p);
      } else {
        SameLengthOrder(a[1..], b[1..]);
      }
    }
  }

  // How the source compares two digit segments.
  function DigitCmp(a: string, b: string): int {
    var x, y := TrimZeros(a), TrimZeros(b);
    if |x| < |y| then -1 else if |x| > |y| then 1 else StrCmp(x, y)
  }

  lemma DigitCmpIsNumeric(a: string, b: string)
    requires AllDigits(a) && AllDigits(b)
    ensures DigitCmp(a, b) == Sign(NumVal(a) - NumVal(b))
  {
    TrimKeepsValue(a);
    TrimKeepsValue(b);
    var x, y := TrimZeros(a), TrimZeros(b);
    if |x| < |y| {
      LongerIsLarger(x, y);
    } else if |x| > |y| {
      LongerIsLarger(y, x);
    } else {
      SameLengthOrder(x, y);
    }
  }

  // Equal value is the same digits after the leading zeros.
  lemma SameValueIff(a: string, b: string)
    requires AllDigits(a) && AllDigits(b)
    ensures NumVal(a) == NumVal(b) <==> TrimZeros(a) == TrimZeros(b)
  {
    DigitCmpIsNumeric(a, b);
    TrimKeepsValue(a);
    TrimKeepsValue(b);
    StrCmpZero(TrimZeros(a), TrimZeros(b));
  }

  // --------------------------------------------------------------------
  // The order: segments as keys, letters below numbers
  // --------------------------------------------------------------------

  datatype Key = Letters(s: string) | Number(n: nat)

  ghost function KeyOf(s: string): Key {
    if AllDigits(s) then Number(NumVal(s)) else Letters(s)
  }

  ghost function KeyCmp(a: Key, b: Key): (r: int)
    ensures -1 <= r <= 1
  {
    if a.Number? && b.Number? then Sign(a.n - b.n)
    else if a.Number? then 1
    else if b.Number? then -1
    else StrCmp(a.s, b.s)
  }

  ghost function KeysOf(segs: seq<string>): seq<Key> {
    seq(|segs|, i requires 0 <= i < |segs| => KeyOf(segs[i]))
  }

  // Lexicographic, a proper prefix first.
  ghost function KeysCmp(a: seq<Key>, b: seq<Key>): (r: int)
    ensures -1 <= r <= 1
  {
    if a == [] && b == [] then 0
    else if a == [] then -1
    else if b == [] then 1
    else if KeyCmp(a[0], b[0]) != 0 then KeyCmp(a[0], b[0])
    else KeysCmp(a[1..], b[1..])
  }

  ghost function VerKeys(v: string): seq<Key> {
    KeysOf(Segments(v))
  }

  lemma {:induction false} KeysCmpZero(a: seq<Key>, b: seq<Key>)
    ensures KeysCmp(a, b) == 0 <==> a == b
  {
    if a != [] && b != [] {
      KeysCmpZero(a[1..], b[1..]);
      KeyCmpZero(a[0], b[0]);
      assert a == [a[0]] + a[1..] && b == [b[0]] + b[1..];
    }
  }

  lemma KeyCmpZero(a: Key, b: Key)
    ensures KeyCmp(a, b) == 0 <==> a == b
  {
    if a.Letters? && b.Letters? { StrCmpZero(a.s, b.s); }
  }

  lemma KeyCmpOrder(a: Key, b: Key, c: Key)
    ensures KeyCmp(b, a) == -KeyCmp(a, b)
    ensures KeyCmp(a, b) <= 0 && KeyCmp(b, c) <= 0 ==> KeyCmp(a, c) <= 0 && (KeyCmp(a, c) == 0 ==> KeyCmp(a, b) == 0 && KeyCmp(b, c) == 0)
  {
    if a.Letters? && b.Letters? { StrCmpOrder(a.s, b.s, if c.Letters? then c.s else []); }
  }

  lemma {:induction false} KeysCmpOrder(a: seq<Key>, b: seq<Key>, c: seq<Key>)
    ensures KeysCmp(b, a) == -KeysCmp(a, b)
    ensures KeysCmp(a, b) <= 0 && KeysCmp(b, c) <= 0 ==> KeysCmp(a, c) <= 0
  {
    if a != [] && b != [] {
      KeyCmpZero(a[0], b[0]);
      if c != [] {
        KeyCmpOrder(a[0], b[0], c[0]);
        KeyCmpZero(b[0], c[0]);
        KeyCmpZero(a[0], c[0]);
        KeysCmpOrder(a[1..], b[1..], c[1..]);
      } else {
        KeyCmpOrder(a[0], b[0], b[0]);
        KeysCmpOrder(a[1..], b[1..], []);
      }
    }
  }

  // --------------------------------------------------------------------
  // The comparison the source runs
  // --------------------------------------------------------------------

  method RpmVerCmp(a: string, b: string) returns (r: int)
    ensures r == KeysCmp(VerKeys(a), VerKeys(b))
  {
    if a == b {
      KeysCmpZero(VerKeys(a), VerKeys(b));
      return 0;
    }
    var segA := RpmSegments(a);
    var segB := RpmSegments(b);
    SegmentsAre(a);
    SegmentsAre(b);
    ghost var ka, kb := KeysOf(segA), KeysOf(segB);
    var i := 0;
    while i < |segA| && i < |segB|
      invariant 0 <= i <= |segA| && i <= |segB|
      invariant KeysCmp(ka, kb) == KeysCmp(ka[i..], kb[i..])
    {
      assert ka[i..][1..] == ka[i + 1..] && kb[i..][1..] == kb[i + 1..];
      var sa, sb := segA[i], segB[i];
      assert IsSegment(sa) && IsSegment(sb);
      var aNum, bNum := AllDigits(sa), AllDigits(sb);
      if aNum && bNum {
        DigitCmpIsNumeric(sa, sb);
        sa, sb := TrimZeros(sa), TrimZeros(sb);
        if |sa| != |sb| {
          return if |sa| < |sb| then -1 else 1;
        }
      } else if aNum {
        return 1;
      } else if bNum {
        return -1;
      }
      var c := StrCmp(sa, sb);
      if c != 0 {
        return c;
      }
      i := i + 1;
    }
    assert i == |segA| ==> ka[i..] == [];
    assert i == |segB| ==> kb[i..] == [];
    return if |segA| < |segB| then -1 else if |segA| > |segB| then 1 else 0;
  }

  // epochOf: what scanning a decimal integer from the text before the first
  // colon yields, 0 if there is none.
  type EpochReader = string -> int

  function SplitEpoch(v: string, epochOf: EpochReader): (int, string) {
    var i := FirstColon(v);
    if i < |v| then (epochOf(v[..i]), v[i + 1..]) else (0, v)
  }

  function FirstColon(v: string): (i: nat)
    ensures i <= |v|
  {
    if v == [] || v[0] == ':' then 0 else 1 + FirstColon(v[1..])
  }

  // Epochs first, then versions.
  ghost function VersionCmp(a: string, b: string, epochOf: EpochReader): int {
    var (ae, av) := SplitEpoch(a, epochOf);
    var (be, bv) := SplitEpoch(b, epochOf);
    if ae != be then Sign(ae - be) else KeysCmp(VerKeys(av), VerKeys(bv))
  }

  method RpmVersionCompare(a: string, b: string, epochOf: EpochReader) returns (r: int)
    ensures r == VersionCmp(a, b, epochOf)
  {
    var (ae, av) := SplitEpoch(a, epochOf);
    var (be, bv) := SplitEpoch(b, epochOf);
    if ae != be {
      return if ae < be then -1 else 1;
    }
    r := RpmVerCmp(av, bv);
  }

  // The comparison is a total preorder.
  lemma VersionOrder(a: string, b: string, c: string, epochOf: EpochReader)
    ensures VersionCmp(a, a, epochOf) == 0
    ensures VersionCmp(b, a, epochOf) == -VersionCmp(a, b, epochOf)
    ensures VersionCmp(a, b, epochOf) <= 0 && VersionCmp(b, c, epochOf) <= 0 ==> VersionCmp(a, c, epochOf) <= 0
  {
    var av, bv, cv := SplitEpoch(a, epochOf).1, SplitEpoch(b, epochOf).1, SplitEpoch(c, epochOf).1;
    KeysCmpZero(VerKeys(av), VerKeys(av));
    KeysCmpOrder(VerKeys(av), VerKeys(bv), VerKeys(cv));
  }

  // Two segments the comparison cannot tell apart.
  ghost predicate SameSegment(s: string, t: string) {
    if AllDigits(s) && AllDigits(t) then TrimZeros(s) == TrimZeros(t) else s == t
  }

  // Versions compare equal exactly when their epochs agree and so do their
  // segments, leading zeros aside.
  lemma VersionEqualIff(a: string, b: string, epochOf: EpochReader)
    ensures VersionCmp(a, b, epochOf) == 0 <==>
              var (ae, av) := SplitEpoch(a, epochOf);
              var (be, bv) := SplitEpoch(b, epochOf);
              ae == be && |Segments(av)| == |Segments(bv)|
              && forall i | 0 <= i < |Segments(av)| :: SameSegment(Segments(av)[i], Segments(bv)[i])
  {
    var sa, sb := Segments(SplitEpoch(a, epochOf).1), Segments(SplitEpoch(b, epochOf).1);
    KeysCmpZero(KeysOf(sa), KeysOf(sb));
    if |sa| == |sb| {
      forall i | 0 <= i < |sa| ensures KeyOf(sa[i]) == KeyOf(sb[i]) <==> SameSegment(sa[i], sb[i]) {
        if AllDigits(sa[i]) && AllDigits(sb[i]) { SameValueIff(sa[i], sb[i]); }
      }
      if KeysOf(sa) == KeysOf(sb) {
        forall i | 0 <= i < |sa| ensures KeyOf(sa[i]) == KeyOf(sb[i]) {
          assert KeysOf(sa)[i] == KeysOf(sb)[i];
        }
      }
    }
  }

  // The same number, or the same letters.
  ghost predicate SameValue(s: string, t: string) {
    if AllDigits(s) && AllDigits(t) then NumVal(s) == NumVal(t) else s == t
  }

  // The first segments that are not the same.
  ghost predicate DifferAt(sa: seq<string>, sb: seq<string>, i: nat) {
    && i < |sa| && i < |sb| && !SameValue(sa[i], sb[i])
    && forall j | 0 <= j < i :: SameValue(sa[j], sb[j])
  }

  ghost predicate Below(s: string, t: string) {
    if AllDigits(s) && AllDigits(t) then NumVal(s) < NumVal(t)
    else if AllDigits(s) || AllDigits(t) then AllDigits(t)
    else StrCmp(s, t) < 0
  }

  lemma {:induction false} KeysCmpMeans(sa: seq<string>, sb: seq<string>)
    ensures forall i: nat | DifferAt(sa, sb, i) :: KeysCmp(KeysOf(sa), KeysOf(sb)) == if Below(sa[i], sb[i]) then -1 else 1
    ensures (forall i: nat :: !DifferAt(sa, sb, i)) ==>
              KeysCmp(KeysOf(sa), KeysOf(sb)) == if |sa| < |sb| then -1 else if |sa| > |sb| then 1 else 0
  {
    if sa != [] && sb != [] {
      KeysCmpMeans(sa[1..], sb[1..]);
      assert KeysOf(sa)[1..] == KeysOf(sa[1..]) && KeysOf(sb)[1..] == KeysOf(sb[1..]);
      KeyCmpMeans(sa[0], sb[0]);
      hide SameValue, Below, KeyOf, KeyCmp;
      if SameValue(sa[0], sb[0]) {
        forall i: nat ensures DifferAt(sa[1..], sb[1..], i) <==> DifferAt(sa, sb, i + 1) {
          DifferFurther(sa, sb, i);
        }
        assert !DifferAt(sa, sb, 0);
        forall i: nat | DifferAt(sa, sb, i) ensures i > 0 && DifferAt(sa[1..], sb[1..], i - 1) {
          assert i == (i - 1) + 1;
        }
      } else {
        assert DifferAt(sa, sb, 0);
        forall i: nat | DifferAt(sa, sb, i) ensures i == 0 {}
      }
    }
  }

  lemma DifferFurther(sa: seq<string>, sb: seq<string>, i: nat)
    requires sa != [] && sb != [] && SameValue(sa[0], sb[0])
    ensures DifferAt(sa[1..], sb[1..], i) <==> DifferAt(sa, sb, i + 1)
  {
    if DifferAt(sa, sb, i + 1) {
      forall j | 0 <= j < i ensures SameValue(sa[1..][j], sb[1..][j]) { assert SameValue(sa[j + 1], sb[j + 1]); }
    }
    if DifferAt(sa[1..], sb[1..], i) {
      forall j | 0 < j < i + 1 ensures SameValue(sa[j], sb[j]) { assert SameValue(sa[1..][j - 1], sb[1..][j - 1]); }
    }
  }

  lemma KeyCmpMeans(s: string, t: string)
    ensures KeyCmp(KeyOf(s), KeyOf(t)) == if SameValue(s, t) then 0 else if Below(s, t) then -1 else 1
  {
    StrCmpZero(s, t);
  }

  // The text before the first colon is read as the epoch; without one it is 0.
  lemma EpochIsBeforeTheColon(head: string, tail: string, epochOf: EpochReader)
    requires ':' !in head
    ensures SplitEpoch(head, epochOf) == (0, head)
    ensures SplitEpoch(head + ":" + tail, epochOf) == (epochOf(head), tail)
  {
    ColonAt(head, []);
    ColonAt(head, ":" + tail);
    assert head + [] == head && head + (":" + tail) == head + ":" + tail;
    assert (head + ":" + tail)[|head| + 1..] == tail;
  }

  lemma {:induction false} ColonAt(head: string, tail: string)
    requires ':' !in head && (tail == [] || tail[0] == ':')
    ensures FirstColon(head + tail) == |head|
  {
    if head != [] {
      assert (head + tail)[1..] == head[1..] + tail;
      assert head[0] in head;
      ColonAt(head[1..], tail);
    } else {
      assert head + tail == tail;
    }
  }

  // The order in terms of the segments: the higher epoch wins; then the first pair of
  // segments that are not the same decides, a number against a number by its value,
  // a number against letters in favour of the number, letters lexicographically; then
  // the version with more segments wins.
  lemma VersionCmpMeans(a: string, b: string, epochOf: EpochReader)
    ensures var (ae, av) := SplitEpoch(a, epochOf);
            var (be, bv) := SplitEpoch(b, epochOf);
            var (sa, sb) := (Segments(av), Segments(bv));
            && (ae != be ==> VersionCmp(a, b, epochOf) == if ae < be then -1 else 1)
            && (ae == be ==>
                  && (forall i: nat | DifferAt(sa, sb, i) :: VersionCmp(a, b, epochOf) == if Below(sa[i], sb[i]) then -1 else 1)
                  && ((forall i: nat :: !DifferAt(sa, sb, i)) ==>
                        VersionCmp(a, b, epochOf) == if |sa| < |sb| then -1 else if |sa| > |sb| then 1 else 0))
  {
    KeysCmpMeans(Segments(SplitEpoch(a, epochOf).1), Segments(SplitEpoch(b, epochOf).1));
  }

  // --------------------------------------------------------------------
  // The highest fix per package and release
  // --------------------------------------------------------------------

  datatype FixKey = FixKey(name: string, release: string)

  datatype Fix = Fix(key: FixKey, version: string)

  // best holds, for every key seen, one of its versions that none exceeds.
  ghost predicate Highest(seen: seq<Fix>, best: map<FixKey, string>, epochOf: EpochReader) {
    && (forall f <- seen :: f.key in best && VersionCmp(f.version, best[f.key], epochOf) <= 0)
    && (forall k <- best :: Fix(k, best[k]) in seen)
  }

  method HighestFixes(fixes: seq<Fix>, epochOf: EpochReader) returns (best: map<FixKey, string>)
    ensures Highest(fixes, best, epochOf)
  {
    best := map[];
    for i := 0 to |fixes|
      invariant Highest(fixes[..i], best, epochOf)
    {
      var f := fixes[i];
      assert fixes[..i + 1] == fixes[..i] + [f];
      if f.key in best {
        var c := RpmVersionCompare(f.version, best[f.key], epochOf);
        if c <= 0 {
          continue;
        }
        RaiseBest(fixes[..i], best, f, epochOf);
      } else {
        VersionOrder(f.version, f.version, f.version, epochOf);
      }
      best := best[f.key := f.version];
    }
    assert fixes[..|fixes|] == fixes;
  }

  lemma RaiseBest(seen: seq<Fix>, best: map<FixKey, string>, f: Fix, epochOf: EpochReader)
    requires Highest(seen, best, epochOf) && f.key in best && VersionCmp(f.version, best[f.key], epochOf) > 0
    ensures Highest(seen + [f], best[f.key := f.version], epochOf)
  {
    VersionOrder(f.version, best[f.key], f.version, epochOf);
    forall g <- seen | g.key == f.key ensures VersionCmp(g.version, f.version, epochOf) <= 0 {
      VersionOrder(g.version, best[f.key], f.version, epochOf);
    }
  }
}
