// SQL LIKE, matched by scanning the subject once and remembering one wildcard.
module Like {

  // LIKE without ESCAPE, section 8.5 of ISO/IEC 9075-2: '%' stands for any run
  // of characters, '_' for exactly one, anything else for itself.
  function Matches(s: string, p: string): bool
    decreases |s| + |p|
  {
    if p == [] then s == []
    else if p[0] == '%' then Matches(s, p[1..]) || (s != [] && Matches(s[1..], p))
    else s != [] && (p[0] == '_' || p[0] == s[0]) && Matches(s[1..], p[1..])
  }

  // The scan from a given point.  star is the pattern index of the latest '%'
  // and resume how much of the subject it had consumed, both -1 before any.
  ghost predicate State(s: string, p: string, si: int, pi: int, star: int, resume: int) {
    && 0 <= si <= |s| && 0 <= pi <= |p|
    && -1 <= star < pi
    && (star == -1 ==> resume == -1)
    && (star >= 0 ==> p[star] == '%' && 0 <= resume <= si)
  }

  function OnlyPercents(p: string): bool {
    p == [] || (p[0] == '%' && OnlyPercents(p[1..]))
  }

  function Scan(s: string, p: string, si: int, pi: int, star: int, resume: int): bool
    requires State(s, p, si, pi, star, resume)
    decreases |s| - resume, |p| - pi
  {
    if si == |s| then OnlyPercents(p[pi..])
    else if pi < |p| && (p[pi] == '_' || p[pi] == s[si]) then Scan(s, p, si + 1, pi + 1, star, resume)
    else if pi < |p| && p[pi] == '%' then Scan(s, p, si, pi + 1, pi, si)
    else if star >= 0 then Scan(s, p, resume + 1, star + 1, star, resume + 1)
    else false
  }

  method MatchLikePattern(s: string, p: string) returns (matched: bool, ghost turns: nat)
    ensures matched == Scan(s, p, 0, 0, -1, -1)
    ensures '%' !in s ==> matched == Matches(s, p)
    ensures turns < (|s| + 2) * (|p| + 1)
  {
    hide Budget;
    BudgetStep(|s| + 2, |p| + 1);
    var si, pi := 0, 0;
    var lastStar, resumeAt := -1, -1;
    turns := 0;
    while si < |s|
      invariant State(s, p, si, pi, lastStar, resumeAt)
      invariant Scan(s, p, si, pi, lastStar, resumeAt) == Scan(s, p, 0, 0, -1, -1)
      invariant turns + Budget(|s| - resumeAt, |p| + 1) + |p| - pi <= Budget(|s| + 1, |p| + 1) + |p|
      decreases |s| - resumeAt, |p| - pi
    {
      hide Matches, OnlyPercents;
      if pi < |p| && (p[pi] == '_' || p[pi] == s[si]) {
        si := si + 1;
        pi := pi + 1;
      } else if pi < |p| && p[pi] == '%' {
        BudgetGrows(|s| - si, |s| - resumeAt, |p| + 1);
        lastStar := pi;
        resumeAt := si;
        pi := pi + 1;
      } else if lastStar >= 0 {
        BudgetStep(|s| - resumeAt, |p| + 1);
        resumeAt := resumeAt + 1;
        si := resumeAt;
        pi := lastStar + 1;
      } else {
        BudgetLeft(|s| - resumeAt, |p| + 1);
        if '%' !in s { ScanIsLike(s, p); }
        return false, turns;
      }
      turns := turns + 1;
    }
    BudgetLeft(|s| - resumeAt, |p| + 1);
    while pi < |p| && p[pi] == '%'
      invariant 0 <= pi <= |p|
      invariant OnlyPercents(p[pi..]) == Scan(s, p, 0, 0, -1, -1)
    {
      pi := pi + 1;
    }
    matched := pi == |p|;
    if '%' !in s { ScanIsLike(s, p); }
  }

  ghost function Budget(starts: int, width: int): int {
    starts * width
  }

  lemma BudgetGrows(a: int, b: int, w: nat)
    requires a <= b
    ensures Budget(a, w) <= Budget(b, w)
  {}

  lemma BudgetLeft(a: nat, w: nat)
    ensures Budget(a, w) >= 0
  {}

  lemma BudgetStep(a: int, w: int)
    ensures Budget(a, w) == Budget(a - 1, w) + w && Budget(a, w) == a * w
  {}

  // --------------------------------------------------------------------
  // Facts about LIKE
  // --------------------------------------------------------------------

  // The subject from i on matches the pattern from j on.
  ghost predicate At(s: string, i: int, p: string, j: int) {
    0 <= i <= |s| && 0 <= j <= |p| && Matches(s[i..], p[j..])
  }

  // Some start after i does.
  ghost predicate Later(s: string, i: int, p: string, j: int) {
    exists r :: i < r && At(s, r, p, j)
  }

  // LIKE, one character at a time, in terms of positions.
  lemma AtUnfold(s: string, i: nat, p: string, j: nat)
    requires i <= |s| && j < |p|
    ensures p[j] == '%' ==> (At(s, i, p, j) <==> At(s, i, p, j + 1) || (i < |s| && At(s, i + 1, p, j)))
    ensures p[j] != '%' ==> (At(s, i, p, j) <==> i < |s| && (p[j] == '_' || p[j] == s[i]) && At(s, i + 1, p, j + 1))
  {}

  lemma {:induction false} PercentSkips(s: string, i: nat, p: string, j: nat)
    requires i <= |s| && j < |p| && p[j] == '%'
    ensures At(s, i, p, j) <==> At(s, i, p, j + 1) || Later(s, i, p, j + 1)
    decreases |s| - i
  {
    AtUnfold(s, i, p, j);
    if i < |s| {
      PercentSkips(s, i + 1, p, j);
      LaterUnfold(s, i, p, j + 1);
    }
  }

  lemma LaterUnfold(s: string, i: int, p: string, j: int)
    ensures Later(s, i, p, j) <==> At(s, i + 1, p, j) || Later(s, i + 1, p, j)
  {}

  // What a '%' matches late it also matches early.
  lemma {:induction false} PercentEarlier(s: string, a: nat, b: nat, p: string, j: nat)
    requires a <= b && j < |p| && p[j] == '%' && At(s, b, p, j)
    ensures At(s, a, p, j)
    decreases b - a
  {
    if a < b {
      PercentEarlier(s, a + 1, b, p, j);
      AtUnfold(s, a, p, j);
    }
  }

  lemma {:induction false} EmptySubject(p: string)
    ensures Matches([], p) == OnlyPercents(p)
  {
    if p != [] && p[0] == '%' {
      EmptySubject(p[1..]);
    }
  }

  // A match of a pattern whose first n characters hold no '%' uses up at least
  // n characters of subject.
  lemma {:induction false} LiteralEats(s: string, i: nat, p: string, j: nat, n: nat)
    requires j + n <= |p| && forall k | j <= k < j + n :: p[k] != '%'
    requires At(s, i, p, j)
    ensures At(s, i + n, p, j + n)
    decreases n
  {
    if n > 0 {
      AtUnfold(s, i, p, j);
      LiteralEats(s, i + 1, p, j + 1, n - 1);
    }
  }

  // --------------------------------------------------------------------
  // The scan decides LIKE
  // --------------------------------------------------------------------

  // Since the remembered '%' the scan has only matched character by character.
  ghost predicate Aligned(s: string, p: string, si: int, pi: int, star: int, resume: int) {
    && State(s, p, si, pi, star, resume)
    && (star >= 0 ==> si - resume == pi - star - 1 && forall k | star < k < pi :: p[k] != '%')
  }

  // Some later start for the remembered '%' matches what follows it.
  ghost predicate LaterStart(s: string, p: string, star: int, resume: int) {
    star >= 0 && Later(s, resume, p, star + 1)
  }

  lemma {:induction false} ScanDecides(s: string, p: string, si: int, pi: int, star: int, resume: int)
    requires '%' !in s && Aligned(s, p, si, pi, star, resume)
    ensures Scan(s, p, si, pi, star, resume) <==> At(s, si, p, pi) || LaterStart(s, p, star, resume)
    decreases |s| - resume, |p| - pi
  {
    hide Matches, Later;
    if si == |s| {
      EmptySubject(p[pi..]);
      assert s[si..] == [];
      NoLaterStartAtEnd(s, p, si, pi, star, resume);
    } else {
      if pi == |p| { NothingLeft(s, si, p); } else { AtUnfold(s, si, p, pi); }
      if pi < |p| && (p[pi] == '_' || p[pi] == s[si]) {
        assert s[si] in s;
        ScanDecides(s, p, si + 1, pi + 1, star, resume);
      } else if pi < |p| && p[pi] == '%' {
        ScanDecides(s, p, si, pi + 1, pi, si);
        NewPercent(s, p, si, pi, star, resume);
      } else if star >= 0 {
        ScanDecides(s, p, resume + 1, star + 1, star, resume + 1);
        LaterUnfold(s, resume, p, star + 1);
      }
    }
  }

  lemma NothingLeft(s: string, si: nat, p: string)
    requires si < |s|
    ensures !At(s, si, p, |p|)
  {}

  lemma NoLaterStartAtEnd(s: string, p: string, si: int, pi: int, star: int, resume: int)
    requires Aligned(s, p, si, pi, star, resume) && si == |s|
    ensures !LaterStart(s, p, star, resume)
  {
    if LaterStart(s, p, star, resume) {
      var r :| resume < r && At(s, r, p, star + 1);
      LiteralEats(s, r, p, star + 1, pi - star - 1);
    }
  }

  // A newly met '%' takes over everything the older one could still do.
  lemma NewPercent(s: string, p: string, si: int, pi: int, star: int, resume: int)
    requires Aligned(s, p, si, pi, star, resume) && si < |s| && pi < |p| && p[pi] == '%'
    ensures At(s, si, p, pi) || LaterStart(s, p, star, resume) <==> At(s, si, p, pi + 1) || LaterStart(s, p, pi, si)
  {
    hide Matches;
    PercentSkips(s, si, p, pi);
    if LaterStart(s, p, star, resume) {
      var r :| resume < r && At(s, r, p, star + 1);
      LiteralEats(s, r, p, star + 1, pi - star - 1);
      PercentEarlier(s, si, r + (pi - star - 1), p, pi);
    }
  }

  lemma ScanIsLike(s: string, p: string)
    requires '%' !in s
    ensures Scan(s, p, 0, 0, -1, -1) == Matches(s, p)
  {
    ScanDecides(s, p, 0, 0, -1, -1);
    assert s[0..] == s && p[0..] == p;
  }

  // --------------------------------------------------------------------
  // Exactly when
  // --------------------------------------------------------------------

  function Underscores(n: nat): string {
    seq(n, _ => '_')
  }

  // Every position of s but k as '_', k itself as '%', and one '_' too many.
  function Trap(s: string, k: nat): string
    requires k < |s|
  {
    Underscores(k) + "%" + Underscores(|s| - k)
  }

  lemma {:induction false} UnderscoresMatch(s: string, i: nat, tail: string)
    requires i <= |s|
    ensures Matches(s, Underscores(i) + tail) == Matches(s[i..], tail)
    decreases i
  {
    if i == 0 {
      assert Underscores(0) + tail == tail && s[0..] == s;
    } else {
      var p := Underscores(i) + tail;
      assert p[1..] == Underscores(i - 1) + tail;
      UnderscoresMatch(s[1..], i - 1, tail);
      assert s[1..][i - 1..] == s[i..];
    }
  }

  lemma TrapMatches(s: string, k: nat)
    requires k < |s|
    ensures Matches(s, Trap(s, k))
  {
    var rest := Underscores(|s| - k);
    assert Trap(s, k) == Underscores(k) + ("%" + rest);
    UnderscoresMatch(s, k, "%" + rest);
    assert ("%" + rest)[1..] == rest;
    assert rest == rest + [];
    UnderscoresMatch(s[k..], |s| - k, []);
    assert s[k..][|s| - k..] == [];
  }

  lemma {:induction false} TrapFoolsScan(s: string, k: nat, i: nat)
    requires k < |s| && s[k] == '%' && i <= |s|
    ensures !Scan(s, Trap(s, k), i, i, -1, -1)
    decreases |s| - i
  {
    var p := Trap(s, k);
    if i < |s| {
      assert p[i] == if i == k then '%' else '_';
      TrapFoolsScan(s, k, i + 1);
    } else {
      assert p[i..][0] == p[i] == '_';
    }
  }

  // The scan agrees with LIKE on every pattern exactly for the subjects that
  // hold no '%': a '%' in the subject can use up a pattern '%' as a literal.
  lemma AgreesIff(s: string)
    ensures (forall p :: Scan(s, p, 0, 0, -1, -1) == Matches(s, p)) <==> '%' !in s
  {
    if '%' in s {
      var k :| 0 <= k < |s| && s[k] == '%';
      TrapMatches(s, k);
      TrapFoolsScan(s, k, 0);
      assert Scan(s, Trap(s, k), 0, 0, -1, -1) != Matches(s, Trap(s, k));
    } else {
      forall p ensures Scan(s, p, 0, 0, -1, -1) == Matches(s, p) {
        ScanIsLike(s, p);
      }
    }
  }
}
