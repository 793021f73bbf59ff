// The WHERE grammar: a recursive-descent parser over tokens, and the token
// rendering it inverts.
module Parser {
  import opened Expressions
  import opened Options

  datatype Kind =
    | EOF | IDENT | NUMBER | STRING | COMMA | DOT | LPAREN | RPAREN
    | EQUALS | NOT_EQUALS | LESS | LESS_EQ | GREATER | GREATER_EQ
    | AND | OR | NOT | LIKE | IN | IS | NULL
    | OTHER_KEYWORD | OTHER

  // number: what ParseFloat makes of the text of a number token.
  datatype Token = Token(kind: Kind, text: string, number: Option<real>)

  const MAX_EXPR_DEPTH := 200
  const MAX_LIKE_PATTERN_BYTES := 1024

  function IsKeyword(k: Kind): bool {
    k.AND? || k.OR? || k.NOT? || k.LIKE? || k.IN? || k.IS? || k.NULL? || k.OTHER_KEYWORD?
  }

  function IsName(k: Kind): bool {
    k.IDENT? || IsKeyword(k)
  }

  // Everything but these can stand where a name has to.
  lemma NamesAre(k: Kind)
    ensures !IsName(k) <==>
              k in {EOF, NUMBER, STRING, COMMA, DOT, LPAREN, RPAREN, EQUALS, NOT_EQUALS, LESS, LESS_EQ, GREATER, GREATER_EQ, OTHER}
  {}

  function LowerChar(c: char): char {
    if 'A' <= c <= 'Z' then c - 'A' + 'a' else c
  }

  function Lower(s: string): string {
    if s == [] then [] else [LowerChar(s[0])] + Lower(s[1..])
  }

  // Capitals become the small letters 32 places on, and nothing else changes.
  lemma {:induction false} LowerMeans(s: string)
    ensures |Lower(s)| == |s|
    ensures forall i | 0 <= i < |s| :: !('A' <= Lower(s)[i] <= 'Z')
    ensures forall i | 0 <= i < |s| :: Lower(s)[i] == s[i] || ('A' <= s[i] <= 'Z' && Lower(s)[i] as int == s[i] as int + 32)
  {
    if s != [] { LowerMeans(s[1..]); }
  }

  // --------------------------------------------------------------------
  // The grammar as functions of the tokens left
  // --------------------------------------------------------------------

  datatype Parsed<T> = Ok(value: T, rest: seq<Token>) | Fail

  function CurKind(ts: seq<Token>): Kind {
    if ts == [] then EOF else ts[0].kind
  }

  function FieldTail(acc: string, ts: seq<Token>): (r: Parsed<string>)
    ensures r.Ok? ==> |r.rest| <= |ts|
    decreases |ts|
  {
    if !CurKind(ts).DOT? then Ok(acc, ts)
    else if !IsName(CurKind(ts[1..])) then Fail
    else FieldTail(acc + "." + Lower(ts[1].text), ts[2..])
  }

  function DottedField(ts: seq<Token>): (r: Parsed<string>)
    ensures r.Ok? ==> |r.rest| < |ts|
  {
    if !IsName(CurKind(ts)) then Fail else FieldTail(Lower(ts[0].text), ts[1..])
  }

  function InTail(acc: seq<string>, ts: seq<Token>): (r: Parsed<seq<string>>)
    ensures r.Ok? ==> |r.rest| < |ts|
    decreases |ts|
  {
    if !CurKind(ts).STRING? then Fail
    else if CurKind(ts[1..]).COMMA? then InTail(acc + [ts[0].text], ts[2..])
    else if CurKind(ts[1..]).RPAREN? then Ok(acc + [ts[0].text], ts[2..])
    else Fail
  }

  // From the IN keyword on.
  function InExpr(field: string, negated: bool, ts: seq<Token>): (r: Parsed<Expr>)
    requires CurKind(ts).IN?
    ensures r.Ok? ==> |r.rest| < |ts|
  {
    if !CurKind(ts[1..]).LPAREN? then Fail
    else
      match InTail([], ts[2..])
      case Fail => Fail
      case Ok(values, rest) => Ok(In(field, values, negated), rest)
  }

  // From the LIKE keyword on.
  function LikeExpr(field: string, negated: bool, ts: seq<Token>): (r: Parsed<Expr>)
    requires CurKind(ts).LIKE?
    ensures r.Ok? ==> |r.rest| < |ts|
  {
    if !CurKind(ts[1..]).STRING? || |ts[1].text| > MAX_LIKE_PATTERN_BYTES then Fail
    else Ok(LikeCond(field, ts[1].text, negated), ts[2..])
  }

  function CompareOp(k: Kind): Option<string> {
    match k
    case EQUALS => Some("=")
    case NOT_EQUALS => Some("!=")
    case LESS => Some("<")
    case LESS_EQ => Some("<=")
    case GREATER => Some(">")
    case GREATER_EQ => Some(">=")
    case _ => None
  }

  // The dots of an unquoted value: a trailing one is swallowed.
  function BareTail(acc: string, ts: seq<Token>): (r: Parsed<Value>)
    ensures r.Ok? && |r.rest| <= |ts|
    decreases |ts|
  {
    if !CurKind(ts).DOT? then Ok(Str(acc), ts)
    else if !IsName(CurKind(ts[1..])) then Ok(Str(acc), ts[1..])
    else BareTail(acc + "." + ts[1].text, ts[2..])
  }

  function ValueAt(ts: seq<Token>): (r: Parsed<Value>)
    ensures r.Ok? ==> |r.rest| < |ts|
  {
    match CurKind(ts)
    case NUMBER => if ts[0].number.None? then Fail else Ok(Num(ts[0].number.value), ts[1..])
    case STRING => Ok(Str(ts[0].text), ts[1..])
    case IDENT => BareTail(ts[0].text, ts[1..])
    case _ => Fail
  }

  function ConditionRest(field: string, ts: seq<Token>): (r: Parsed<Expr>)
    ensures r.Ok? ==> |r.rest| < |ts|
  {
    var k := CurKind(ts);
    if k.IS? then
      var negated := CurKind(ts[1..]).NOT?;
      var after := if negated then ts[2..] else ts[1..];
      if CurKind(after).NULL? then Ok(IsNull(field, negated), after[1..]) else Fail
    else if k.NOT? then
      if CurKind(ts[1..]).IN? then InExpr(field, true, ts[1..])
      else if CurKind(ts[1..]).LIKE? then LikeExpr(field, true, ts[1..])
      else Fail
    else if k.IN? then InExpr(field, false, ts)
    else if k.LIKE? then LikeExpr(field, false, ts)
    else if CompareOp(k).None? then Fail
    else
      match ValueAt(ts[1..])
      case Fail => Fail
      case Ok(v, rest) => Ok(Compare(field, CompareOp(k).value, v), rest)
  }

  function Condition(ts: seq<Token>): (r: Parsed<Expr>)
    ensures r.Ok? ==> |r.rest| < |ts|
  {
    match DottedField(ts)
    case Fail => Fail
    case Ok(field, rest) => ConditionRest(field, rest)
  }

  // depth is the parser's depth before the call.
  function Unary(ts: seq<Token>, depth: nat): (r: Parsed<Expr>)
    ensures r.Ok? ==> |r.rest| < |ts|
    decreases |ts|, 0
  {
    if depth + 1 > MAX_EXPR_DEPTH then Fail
    else if CurKind(ts).NOT? then
      match Unary(ts[1..], depth + 1)
      case Fail => Fail
      case Ok(e, rest) => Ok(Not(e), rest)
    else if CurKind(ts).LPAREN? then
      match Expression(ts[1..], depth + 1)
      case Fail => Fail
      case Ok(e, rest) => if CurKind(rest).RPAREN? then Ok(e, rest[1..]) else Fail
    else Condition(ts)
  }

  function AndTail(left: Expr, ts: seq<Token>, depth: nat): (r: Parsed<Expr>)
    ensures r.Ok? ==> |r.rest| <= |ts|
    decreases |ts|, 1
  {
    if !CurKind(ts).AND? then Ok(left, ts)
    else
      match Unary(ts[1..], depth)
      case Fail => Fail
      case Ok(right, rest) => AndTail(And(left, right), rest, depth)
  }

  function AndExpr(ts: seq<Token>, depth: nat): (r: Parsed<Expr>)
    ensures r.Ok? ==> |r.rest| < |ts|
    decreases |ts|, 1
  {
    match Unary(ts, depth)
    case Fail => Fail
    case Ok(left, rest) => AndTail(left, rest, depth)
  }

  function OrTail(left: Expr, ts: seq<Token>, depth: nat): (r: Parsed<Expr>)
    ensures r.Ok? ==> |r.rest| <= |ts|
    decreases |ts|, 2
  {
    if !CurKind(ts).OR? then Ok(left, ts)
    else
      match AndExpr(ts[1..], depth)
      case Fail => Fail
      case Ok(right, rest) => OrTail(Or(left, right), rest, depth)
  }

  function OrExpr(ts: seq<Token>, depth: nat): (r: Parsed<Expr>)
    ensures r.Ok? ==> |r.rest| < |ts|
    decreases |ts|, 2
  {
    match AndExpr(ts, depth)
    case Fail => Fail
    case Ok(left, rest) => OrTail(left, rest, depth)
  }

  function Expression(ts: seq<Token>, depth: nat): (r: Parsed<Expr>)
    ensures r.Ok? ==> |r.rest| < |ts|
    decreases |ts|, 3
  {
    if depth + 1 > MAX_EXPR_DEPTH then Fail else OrExpr(ts, depth + 1)
  }

  // --------------------------------------------------------------------
  // The grammar once more, as phrases: what they spell and what they mean
  // --------------------------------------------------------------------

  // Names and dots in turn.  A name may be any keyword's token: the grammar
  // takes a keyword for a field name where a field has to stand.
  predicate IsField(ts: seq<Token>)
    decreases |ts|
  {
    ts != [] && IsName(ts[0].kind) && (|ts| == 1 || (|ts| > 2 && ts[1].kind.DOT? && IsField(ts[2..])))
  }

  function FieldText(ts: seq<Token>): string
    requires IsField(ts)
    decreases |ts|
  {
    Lower(ts[0].text) + if |ts| == 1 then "" else "." + FieldText(ts[2..])
  }

  predicate SpellsOp(k: Kind, op: string) {
    || (k.EQUALS? && op == "=") || (k.NOT_EQUALS? && op == "!=")
    || (k.LESS? && op == "<") || (k.LESS_EQ? && op == "<=")
    || (k.GREATER? && op == ">") || (k.GREATER_EQ? && op == ">=")
  }

  // Dots and names in turn, perhaps ending with a dot.
  predicate IsDots(ts: seq<Token>)
    decreases |ts|
  {
    ts == [] || (ts[0].kind.DOT? && (|ts| == 1 || (IsName(ts[1].kind) && IsDots(ts[2..]))))
  }

  function DotsText(ts: seq<Token>): string
    decreases |ts|
  {
    if |ts| <= 1 then "" else "." + ts[1].text + DotsText(ts[2..])
  }

  // A number, a quoted text, or a bare one: an identifier with names after dots,
  // where a last dot is allowed and dropped.
  predicate IsValue(ts: seq<Token>, v: Value) {
    ts != [] && match ts[0].kind
      case NUMBER => |ts| == 1 && v.Num? && ts[0].number == Some(v.n)
      case STRING => |ts| == 1 && v == Str(ts[0].text)
      case IDENT => IsDots(ts[1..]) && v == Str(ts[0].text + DotsText(ts[1..]))
      case _ => false
  }

  predicate IsList(ts: seq<Token>, values: seq<string>)
    decreases |values|
  {
    && values != [] && |ts| >= 2 && ts[0].kind.STRING? && ts[0].text == values[0]
    && if |values| == 1 then |ts| == 2 && ts[1].kind.RPAREN? else ts[1].kind.COMMA? && IsList(ts[2..], values[1..])
  }

  // What follows the field of a condition.
  predicate IsTail(ts: seq<Token>, e: Expr)
    requires e.IsLeaf()
  {
    match e
    case Compare(_, op, v) => ts != [] && SpellsOp(ts[0].kind, op) && IsValue(ts[1..], v)
    case LikeCond(_, pattern, negated) =>
      Negation(ts, negated) &&
      var at := AfterNegation(ts, negated);
      |at| == 2 && at[0].kind.LIKE? && at[1].kind.STRING? && at[1].text == pattern && |pattern| <= MAX_LIKE_PATTERN_BYTES
    case In(_, values, negated) =>
      Negation(ts, negated) &&
      var at := AfterNegation(ts, negated);
      |at| >= 2 && at[0].kind.IN? && at[1].kind.LPAREN? && IsList(at[2..], values)
    case IsNull(_, negated) =>
      ts != [] && ts[0].kind.IS? && Negation(ts[1..], negated) &&
      var at := AfterNegation(ts[1..], negated);
      |at| == 1 && at[0].kind.NULL?
  }

  predicate Negation(ts: seq<Token>, negated: bool) {
    negated ==> ts != [] && ts[0].kind.NOT?
  }

  function AfterNegation(ts: seq<Token>, negated: bool): seq<Token>
    requires Negation(ts, negated)
  {
    if negated then ts[1..] else ts
  }

  // The first k tokens name the field, the others are the rest of the condition.
  predicate IsConditionAt(ts: seq<Token>, e: Expr, k: nat) {
    e.IsLeaf() && k <= |ts| && IsField(ts[..k]) && FieldText(ts[..k]) == e.field && IsTail(ts[k..], e)
  }

  ghost predicate IsCondition(ts: seq<Token>, e: Expr) {
    exists k: nat :: IsConditionAt(ts, e, k)
  }

  // A bare value reads on while dots and names follow, so one that ends with its
  // last name has no dot after it, and one that ends with a dot no name.
  predicate StopsBefore(ts: seq<Token>, e: Expr, next: Kind) {
    e.Compare? && ts != [] ==>
      var last := ts[|ts| - 1].kind;
      (last.DOT? ==> !IsName(next)) && (IsName(last) ==> !next.DOT?)
  }

  datatype Phrase =
    | Cond(tokens: seq<Token>, tree: Expr)
    | NotOf(no: Token, inner: Phrase)
    | Paren(open: Token, inner: Phrase, close: Token)
    | AndOf(left: Phrase, and: Token, right: Phrase)
    | OrOf(left: Phrase, or: Token, right: Phrase)

  function Spell(p: Phrase): seq<Token> {
    match p
    case Cond(ts, _) => ts
    case NotOf(no, x) => [no] + Spell(x)
    case Paren(open, x, close) => [open] + Spell(x) + [close]
    case AndOf(l, and, r) => Spell(l) + [and] + Spell(r)
    case OrOf(l, or, r) => Spell(l) + [or] + Spell(r)
  }

  function Tree(p: Phrase): Expr {
    match p
    case Cond(_, e) => e
    case NotOf(_, x) => Not(Tree(x))
    case Paren(_, x, _) => Tree(x)
    case AndOf(l, _, r) => And(Tree(l), Tree(r))
    case OrOf(l, _, r) => Or(Tree(l), Tree(r))
  }

  function Max(a: nat, b: nat): nat {
    if a >= b then a else b
  }

  // How deep parsing the phrase goes: one level per NOT, two per pair of
  // parentheses, one for a condition itself.
  function Cost(p: Phrase): nat {
    match p
    case Cond(_, _) => 1
    case NotOf(_, x) => 1 + Cost(x)
    case Paren(_, x, _) => 2 + Cost(x)
    case AndOf(l, _, r) => Max(Cost(l), Cost(r))
    case OrOf(l, _, r) => Max(Cost(l), Cost(r))
  }

  // The phrase ends where a token of this kind follows.
  predicate Lets(p: Phrase, next: Kind) {
    match p
    case Cond(ts, e) => StopsBefore(ts, e, next)
    case NotOf(_, x) => Lets(x, next)
    case Paren(_, _, _) => true
    case AndOf(_, _, r) => Lets(r, next)
    case OrOf(_, _, r) => Lets(r, next)
  }

  // NOT binds tightest, then AND, then OR; both group to the left.  A field may be
  // named by any keyword, but where a condition starts NOT is always the operator.
  ghost predicate IsUnary(p: Phrase)
    decreases p, 0
  {
    match p
    case Cond(ts, e) => IsCondition(ts, e) && ts != [] && !ts[0].kind.NOT?
    case NotOf(no, x) => no.kind.NOT? && IsUnary(x)
    case Paren(open, x, close) => open.kind.LPAREN? && IsOr(x) && close.kind.RPAREN?
    case _ => false
  }

  ghost predicate IsAnd(p: Phrase)
    decreases p, 1
  {
    if p.AndOf? then IsAnd(p.left) && p.and.kind.AND? && IsUnary(p.right) && Lets(p.left, AND) else IsUnary(p)
  }

  ghost predicate IsOr(p: Phrase)
    decreases p, 2
  {
    if p.OrOf? then IsOr(p.left) && p.or.kind.OR? && IsAnd(p.right) && Lets(p.left, OR) else IsAnd(p)
  }

  // --------------------------------------------------------------------
  // Conditions: every one is read, and nothing else
  // --------------------------------------------------------------------

  lemma {:induction false} LowerConcat(a: string, b: string)
    ensures Lower(a + b) == Lower(a) + Lower(b)
  {
    if a == [] {
      assert a + b == b;
    } else {
      assert (a + b)[1..] == a[1..] + b;
      LowerConcat(a[1..], b);
    }
  }

  // Any spelling of a field reads as its lower-cased text, and reading stops
  // where the spelling stops.
  lemma {:induction false} FieldReads(acc: string, ts: seq<Token>, rest: seq<Token>)
    requires IsField(ts) && !CurKind(rest).DOT?
    ensures FieldTail(acc + Lower(ts[0].text), ts[1..] + rest) == Ok(acc + FieldText(ts), rest)
    decreases |ts|
  {
    if |ts| == 1 {
      assert ts[1..] + rest == rest && acc + Lower(ts[0].text) + "" == acc + Lower(ts[0].text);
      assert FieldText(ts) == Lower(ts[0].text);
    } else {
      var more := ts[2..];
      var after := ts[1..] + rest;
      assert after[1] == more[0] && after[2..] == more[1..] + rest;
      assert CurKind(after[1..]) == more[0].kind;
      FieldReads(acc + Lower(ts[0].text) + ".", more, rest);
      assert acc + Lower(ts[0].text) + "." + FieldText(more) == acc + FieldText(ts);
    }
  }

  lemma SpellingReadsBack(ts: seq<Token>, rest: seq<Token>)
    requires IsField(ts) && !CurKind(rest).DOT?
    ensures DottedField(ts + rest) == Ok(FieldText(ts), rest)
  {
    FieldReads("", ts, rest);
    assert (ts + rest)[1..] == ts[1..] + rest;
    assert "" + Lower(ts[0].text) == Lower(ts[0].text) && "" + FieldText(ts) == FieldText(ts);
  }

  lemma FieldGrows(acc: string, head: Token, dot: Token, more: seq<Token>)
    requires IsName(head.kind) && dot.kind.DOT? && IsField(more)
    ensures IsField([head, dot] + more)
    ensures acc + Lower(head.text) + "." + FieldText(more) == acc + FieldText([head, dot] + more)
  {
    var field := [head, dot] + more;
    assert field[2..] == more;
    assert acc + Lower(head.text) + "." + FieldText(more) == acc + (Lower(head.text) + ("." + FieldText(more)));
  }

  lemma {:induction false} FieldTailDerives(acc: string, head: Token, ts: seq<Token>) returns (n: nat)
    requires IsName(head.kind) && FieldTail(acc + Lower(head.text), ts).Ok?
    ensures n <= |ts| && IsField([head] + ts[..n]) && !CurKind(ts[n..]).DOT?
    ensures FieldTail(acc + Lower(head.text), ts) == Ok(acc + FieldText([head] + ts[..n]), ts[n..])
    decreases |ts|
  {
    if !CurKind(ts).DOT? {
      n := 0;
      assert [head] + ts[..0] == [head] && FieldText([head]) == Lower(head.text) + "" == Lower(head.text);
    } else {
      var acc' := acc + Lower(head.text) + ".";
      var m := FieldTailDerives(acc', ts[1], ts[2..]);
      n := m + 2;
      var more := [ts[1]] + ts[2..][..m];
      assert [head] + ts[..n] == [head, ts[0]] + more;
      assert ts[2..][m..] == ts[n..];
      FieldGrows(acc, head, ts[0], more);
    }
  }

  lemma {:induction false} DotsRead(acc: string, ts: seq<Token>, rest: seq<Token>)
    requires IsDots(ts) && if |ts| % 2 == 1 then !IsName(CurKind(rest)) else !CurKind(rest).DOT?
    ensures BareTail(acc, ts + rest) == Ok(Str(acc + DotsText(ts)), rest)
    decreases |ts|
  {
    hide BareTail, DotsText, CurKind, IsName;
    if |ts| <= 1 {
      LastDot(acc, ts, rest);
    } else {
      DotsStep(acc, ts, rest);
      TextStep(acc, ts);
      assert IsDots(ts[2..]);
      hide IsDots;
      assert |ts| % 2 == (|ts| - 2) % 2;
      DotsRead(acc + "." + ts[1].text, ts[2..], rest);
    }
  }

  lemma LastDot(acc: string, ts: seq<Token>, rest: seq<Token>)
    requires |ts| <= 1 && IsDots(ts) && if ts == [] then !CurKind(rest).DOT? else !IsName(CurKind(rest))
    ensures BareTail(acc, ts + rest) == Ok(Str(acc + DotsText(ts)), rest)
  {
    assert acc + "" == acc;
    if ts == [] {
      assert ts + rest == rest;
    } else {
      assert (ts + rest)[1..] == rest;
    }
  }

  lemma DotsStep(acc: string, ts: seq<Token>, rest: seq<Token>)
    requires |ts| > 1 && IsDots(ts)
    ensures BareTail(acc, ts + rest) == BareTail(acc + "." + ts[1].text, ts[2..] + rest)
  {
    assert (ts + rest)[1..][0] == ts[1] && (ts + rest)[2..] == ts[2..] + rest;
  }

  lemma TextStep(acc: string, ts: seq<Token>)
    requires |ts| > 1
    ensures acc + "." + ts[1].text + DotsText(ts[2..]) == acc + DotsText(ts)
  {
    TextsJoin(acc, ".", ts[1].text, DotsText(ts[2..]));
  }

  lemma TextsJoin(a: string, b: string, c: string, d: string)
    ensures a + b + c + d == a + (b + c + d)
  {}

  lemma DotsDerive(acc: string, ts: seq<Token>) returns (n: nat)
    ensures n <= |ts| && IsDots(ts[..n]) && (if n % 2 == 1 then !IsName(CurKind(ts[n..])) else !CurKind(ts[n..]).DOT?)
    ensures BareTail(acc, ts) == Ok(Str(acc + DotsText(ts[..n])), ts[n..])
  {
    hide IsDots, BareTail, DotsText, CurKind, IsName;
    n := DotsSpan(ts);
    assert ts[..n] + ts[n..] == ts && |ts[..n]| == n;
    DotsRead(acc, ts[..n], ts[n..]);
  }

  // How far dots and names go on in turn.
  lemma {:induction false} DotsSpan(ts: seq<Token>) returns (n: nat)
    ensures n <= |ts| && IsDots(ts[..n]) && (if n % 2 == 1 then !IsName(CurKind(ts[n..])) else !CurKind(ts[n..]).DOT?)
    decreases |ts|
  {
    if !CurKind(ts).DOT? {
      n := 0;
      assert ts[0..] == ts;
    } else if !IsName(CurKind(ts[1..])) {
      n := 1;
    } else {
      var m := DotsSpan(ts[2..]);
      n := m + 2;
      assert ts[..n][2..] == ts[2..][..m] && ts[2..][m..] == ts[n..];
    }
  }

  lemma {:induction false} DotsAlternate(ts: seq<Token>)
    requires IsDots(ts)
    ensures forall i | 0 <= i < |ts| :: if i % 2 == 0 then ts[i].kind.DOT? else IsName(ts[i].kind)
    decreases |ts|
  {
    if |ts| >= 2 {
      DotsAlternate(ts[2..]);
      forall i | 2 <= i < |ts| ensures if i % 2 == 0 then ts[i].kind.DOT? else IsName(ts[i].kind) {
        assert ts[i] == ts[2..][i - 2];
      }
    }
  }

  // Whether a bare value may end where next follows.
  predicate ValueStops(ts: seq<Token>, next: Kind)
    requires ts != []
  {
    var last := ts[|ts| - 1].kind;
    (last.DOT? ==> !IsName(next)) && (IsName(last) ==> !next.DOT?)
  }

  lemma BareStops(ts: seq<Token>, next: Kind)
    requires ts != [] && IsName(ts[0].kind) && IsDots(ts[1..])
    ensures ValueStops(ts, next) <==> if |ts[1..]| % 2 == 1 then !IsName(next) else !next.DOT?
  {
    DotsAlternate(ts[1..]);
    if |ts| > 1 { assert ts[|ts| - 1] == ts[1..][|ts| - 2]; }
  }

  lemma ValueReads(ts: seq<Token>, v: Value, rest: seq<Token>)
    requires IsValue(ts, v) && ValueStops(ts, CurKind(rest))
    ensures ValueAt(ts + rest) == Ok(v, rest)
  {
    assert (ts + rest)[1..] == ts[1..] + rest;
    if ts[0].kind.IDENT? {
      BareStops(ts, CurKind(rest));
      DotsRead(ts[0].text, ts[1..], rest);
    } else {
      assert ts[1..] + rest == rest;
    }
  }

  lemma ValueDerives(ts: seq<Token>) returns (n: nat)
    requires ValueAt(ts).Ok?
    ensures 0 < n <= |ts| && IsValue(ts[..n], ValueAt(ts).value) && ValueAt(ts).rest == ts[n..] && ValueStops(ts[..n], CurKind(ts[n..]))
  {
    n := 1;
    if ts[0].kind.IDENT? {
      var m := DotsDerive(ts[0].text, ts[1..]);
      n := m + 1;
      assert ts[..n][1..] == ts[1..][..m] && ts[1..][m..] == ts[n..];
      BareStops(ts[..n], CurKind(ts[n..]));
    }
  }

  lemma {:induction false} ListReads(acc: seq<string>, ts: seq<Token>, values: seq<string>, rest: seq<Token>)
    requires IsList(ts, values)
    ensures InTail(acc, ts + rest) == Ok(acc + values, rest)
    decreases |values|
  {
    assert (ts + rest)[1..][0] == ts[1] && (ts + rest)[2..] == ts[2..] + rest;
    if |values| == 1 {
      assert values == [values[0]] && ts[2..] + rest == rest;
    } else {
      ListReads(acc + [values[0]], ts[2..], values[1..], rest);
      assert acc + [values[0]] + values[1..] == acc + values;
    }
  }

  lemma {:induction false} ListDerives(acc: seq<string>, ts: seq<Token>) returns (n: nat, values: seq<string>)
    requires InTail(acc, ts).Ok?
    ensures n <= |ts| && IsList(ts[..n], values) && InTail(acc, ts) == Ok(acc + values, ts[n..])
    decreases |ts|
  {
    if CurKind(ts[1..]).COMMA? {
      var m, more := ListDerives(acc + [ts[0].text], ts[2..]);
      n, values := m + 2, [ts[0].text] + more;
      assert ts[..n][2..] == ts[2..][..m] && ts[2..][m..] == ts[n..] && values[1..] == more;
      assert acc + [ts[0].text] + more == acc + values;
    } else {
      n, values := 2, [ts[0].text];
    }
  }

  lemma ValueSpelled(ts: seq<Token>, v: Value)
    requires IsValue(ts, v)
    ensures ts != []
  {}

  lemma TailStarts(ts: seq<Token>, e: Expr)
    requires e.IsLeaf() && IsTail(ts, e)
    ensures ts != [] && !ts[0].kind.DOT?
  {}

  lemma OpReads(k: Kind, op: string)
    ensures SpellsOp(k, op) <==> CompareOp(k) == Some(op)
  {}

  lemma CompareReads(e: Expr, ts: seq<Token>, rest: seq<Token>)
    requires e.Compare? && IsTail(ts, e) && StopsBefore(ts, e, CurKind(rest))
    ensures ConditionRest(e.field, ts + rest) == Ok(e, rest)
  {
    hide IsValue, ValueAt;
    OpReads(ts[0].kind, e.op);
    ValueSpelled(ts[1..], e.value);
    assert ts[1..][|ts| - 2] == ts[|ts| - 1];
    assert (ts + rest)[1..] == ts[1..] + rest;
    ValueReads(ts[1..], e.value, rest);
  }

  lemma LikeReads(e: Expr, ts: seq<Token>, rest: seq<Token>)
    requires e.LikeCond? && IsTail(ts, e)
    ensures ConditionRest(e.field, ts + rest) == Ok(e, rest)
  {
    assert (ts + rest)[1..] == ts[1..] + rest && (ts + rest)[2..] == ts[2..] + rest;
    var at := AfterNegation(ts, e.negated);
    assert at[2..] + rest == rest;
    assert (at + rest)[1..] == at[1..] + rest && (at + rest)[2..] == at[2..] + rest;
    assert LikeExpr(e.field, e.negated, at + rest) == Ok(e, rest);
  }

  lemma InReads(e: Expr, ts: seq<Token>, rest: seq<Token>)
    requires e.In? && IsTail(ts, e)
    ensures ConditionRest(e.field, ts + rest) == Ok(e, rest)
  {
    hide IsList, InTail;
    var at := AfterNegation(ts, e.negated);
    assert (ts + rest)[1..] == ts[1..] + rest;
    assert (at + rest)[1..] == at[1..] + rest && (at + rest)[2..] == at[2..] + rest;
    ListReads([], at[2..], e.values, rest);
    assert [] + e.values == e.values;
    assert InExpr(e.field, e.negated, at + rest) == Ok(e, rest);
  }

  lemma IsNullReads(e: Expr, ts: seq<Token>, rest: seq<Token>)
    requires e.IsNull? && IsTail(ts, e)
    ensures ConditionRest(e.field, ts + rest) == Ok(e, rest)
  {
    assert (ts + rest)[1..] == ts[1..] + rest && (ts + rest)[2..] == ts[2..] + rest;
    var at := AfterNegation(ts[1..], e.negated);
    assert (at + rest)[1..] == rest;
  }

  lemma ConditionReads(ts: seq<Token>, e: Expr, rest: seq<Token>)
    requires IsCondition(ts, e) && StopsBefore(ts, e, CurKind(rest))
    ensures Condition(ts + rest) == Ok(e, rest)
  {
    hide ConditionRest, IsField, FieldText, IsTail;
    var k: nat :| IsConditionAt(ts, e, k);
    var tail := ts[k..];
    assert ts == ts[..k] + tail && ts + rest == ts[..k] + (tail + rest);
    TailStarts(tail, e);
    assert (tail + rest)[0] == tail[0] && tail[|tail| - 1] == ts[|ts| - 1];
    SpellingReadsBack(ts[..k], tail + rest);
    match e
    case Compare(_, _, _) => CompareReads(e, tail, rest);
    case LikeCond(_, _, _) => LikeReads(e, tail, rest);
    case In(_, _, _) => InReads(e, tail, rest);
    case IsNull(_, _) => IsNullReads(e, tail, rest);
  }

  // The tokens of a tail, up to n, are those of the value read.
  ghost predicate TailUpTo(field: string, ts: seq<Token>, n: nat) {
    var r := ConditionRest(field, ts);
    && r.Ok? && 0 < n <= |ts| && r.rest == ts[n..] && r.value.IsLeaf() && r.value.field == field
    && IsTail(ts[..n], r.value) && StopsBefore(ts[..n], r.value, CurKind(ts[n..]))
  }

  lemma CompareDerives(field: string, ts: seq<Token>) returns (n: nat)
    requires ConditionRest(field, ts).Ok? && CompareOp(CurKind(ts)).Some?
    ensures TailUpTo(field, ts, n)
  {
    hide IsValue, ValueAt;
    OpReads(CurKind(ts), CompareOp(CurKind(ts)).value);
    var m := ValueDerives(ts[1..]);
    n := m + 1;
    assert ts[..n][1..] == ts[1..][..m] && ts[1..][m..] == ts[n..];
    assert ts[..n][n - 1] == ts[1..][..m][m - 1];
  }

  lemma LikeDerives(field: string, ts: seq<Token>, negated: bool) returns (n: nat)
    requires ConditionRest(field, ts).Ok? && negated == CurKind(ts).NOT?
    requires CurKind(if negated then ts[1..] else ts).LIKE?
    ensures TailUpTo(field, ts, n)
  {
    n := if negated then 3 else 2;
    assert AfterNegation(ts[..n], negated) == if negated then ts[1..3] else ts[..2];
  }

  lemma InDerives(field: string, ts: seq<Token>, negated: bool) returns (n: nat)
    requires ConditionRest(field, ts).Ok? && negated == CurKind(ts).NOT?
    requires CurKind(if negated then ts[1..] else ts).IN?
    ensures TailUpTo(field, ts, n)
  {
    hide IsList, InTail;
    var skip := if negated then 1 else 0;
    var at := ts[skip..];
    assert ConditionRest(field, ts) == InExpr(field, negated, at);
    var m, values := ListDerives([], at[2..]);
    n := skip + 2 + m;
    assert [] + values == values && at[2..][m..] == ts[n..];
    assert AfterNegation(ts[..n], negated)[2..] == at[2..][..m];
  }

  lemma IsNullDerives(field: string, ts: seq<Token>) returns (n: nat)
    requires ConditionRest(field, ts).Ok? && CurKind(ts).IS?
    ensures TailUpTo(field, ts, n)
  {
    var negated := CurKind(ts[1..]).NOT?;
    n := if negated then 3 else 2;
    assert AfterNegation(ts[..n][1..], negated) == [ts[n - 1]];
  }

  lemma TailDerives(field: string, ts: seq<Token>) returns (n: nat)
    requires ConditionRest(field, ts).Ok?
    ensures TailUpTo(field, ts, n)
  {
    hide TailUpTo, InExpr, LikeExpr, ValueAt;
    var negated := CurKind(ts).NOT?;
    var k := CurKind(if negated then ts[1..] else ts);
    if CurKind(ts).IS? {
      n := IsNullDerives(field, ts);
    } else if CompareOp(CurKind(ts)).Some? {
      n := CompareDerives(field, ts);
    } else if k.LIKE? {
      n := LikeDerives(field, ts, negated);
    } else {
      n := InDerives(field, ts, negated);
    }
  }

  lemma NothingBefore(s: string)
    ensures "" + s == s
  {}

  lemma FieldDerives(ts: seq<Token>) returns (k: nat)
    requires DottedField(ts).Ok?
    ensures 0 < k <= |ts| && IsField(ts[..k]) && DottedField(ts) == Ok(FieldText(ts[..k]), ts[k..])
  {
    hide FieldTail, FieldText, IsField, Lower;
    NothingBefore(Lower(ts[0].text));
    var j := FieldTailDerives("", ts[0], ts[1..]);
    k := j + 1;
    assert [ts[0]] + ts[1..][..j] == ts[..k];
    assert ts[1..][j..] == ts[k..];
    NothingBefore(FieldText(ts[..k]));
  }

  lemma ConditionDerives(ts: seq<Token>) returns (n: nat)
    requires Condition(ts).Ok?
    ensures 0 < n <= |ts| && Condition(ts).rest == ts[n..]
    ensures IsCondition(ts[..n], Condition(ts).value) && StopsBefore(ts[..n], Condition(ts).value, CurKind(ts[n..]))
  {
    hide ConditionRest, IsField, FieldText, IsTail, DottedField;
    var k := FieldDerives(ts);
    var m := TailDerives(FieldText(ts[..k]), ts[k..]);
    n := k + m;
    assert ts[..n][..k] == ts[..k] && ts[..n][k..] == ts[k..][..m] && ts[k..][m..] == ts[n..];
    assert ts[..n][n - 1] == ts[k..][..m][m - 1];
    assert IsConditionAt(ts[..n], Condition(ts).value, k);
  }

  // --------------------------------------------------------------------
  // Every phrase is read as its tree
  // --------------------------------------------------------------------

  lemma ConditionStarts(ts: seq<Token>, e: Expr)
    requires IsCondition(ts, e)
    ensures ts != [] && IsName(ts[0].kind) && ts[0] == ts[..1][0]
  {
    var k: nat :| IsConditionAt(ts, e, k);
    assert ts[..k][0] == ts[0];
  }

  // A closing parenthesis ends whatever comes before it.
  lemma {:induction false} LetsClose(p: Phrase)
    ensures Lets(p, RPAREN)
  {
    match p
    case Cond(_, _) =>
    case NotOf(_, x) => LetsClose(x);
    case Paren(_, _, _) =>
    case AndOf(_, _, r) => LetsClose(r);
    case OrOf(_, _, r) => LetsClose(r);
  }

  lemma {:induction false} UnaryReads(p: Phrase, rest: seq<Token>, depth: nat)
    requires IsUnary(p) && Lets(p, CurKind(rest))
    ensures Unary(Spell(p) + rest, depth) == if depth + Cost(p) <= MAX_EXPR_DEPTH then Ok(Tree(p), rest) else Fail
    decreases p, 0
  {
    var ts := Spell(p) + rest;
    match p
    case Cond(tokens, e) =>
      ConditionStarts(tokens, e);
      ConditionReads(tokens, e, rest);
    case NotOf(no, x) =>
      assert ts[1..] == Spell(x) + rest;
      UnaryReads(x, rest, depth + 1);
    case Paren(open, x, close) =>
      assert ts[1..] == Spell(x) + ([close] + rest) && ([close] + rest)[1..] == rest;
      LetsClose(x);
      OrReads(x, [close] + rest, depth + 2);
  }

  lemma {:induction false} AndReads(p: Phrase, rest: seq<Token>, depth: nat)
    requires IsAnd(p) && Lets(p, CurKind(rest))
    ensures AndExpr(Spell(p) + rest, depth) == if depth + Cost(p) <= MAX_EXPR_DEPTH then AndTail(Tree(p), rest, depth) else Fail
    decreases p, 1
  {
    if p.AndOf? {
      var tail := [p.and] + (Spell(p.right) + rest);
      AndSpelt(p, rest);
      AndReads(p.left, tail, depth);
      UnaryReads(p.right, rest, depth);
      hide Lets, IsUnary, Spell;
    } else {
      UnaryReads(p, rest, depth);
      hide Lets, IsUnary, Spell;
    }
  }

  lemma AndSpelt(p: Phrase, rest: seq<Token>)
    requires p.AndOf?
    ensures var tail := [p.and] + (Spell(p.right) + rest);
            Spell(p) + rest == Spell(p.left) + tail && tail[1..] == Spell(p.right) + rest && CurKind(tail) == p.and.kind
  {}

  lemma {:induction false} OrReads(p: Phrase, rest: seq<Token>, depth: nat)
    requires IsOr(p) && Lets(p, CurKind(rest)) && !CurKind(rest).AND?
    ensures OrExpr(Spell(p) + rest, depth) == if depth + Cost(p) <= MAX_EXPR_DEPTH then OrTail(Tree(p), rest, depth) else Fail
    decreases p, 2
  {
    if p.OrOf? {
      var tail := [p.or] + (Spell(p.right) + rest);
      assert Spell(p) + rest == Spell(p.left) + tail;
      assert tail[1..] == Spell(p.right) + rest;
      OrReads(p.left, tail, depth);
      AndReads(p.right, rest, depth);
    } else {
      AndReads(p, rest, depth);
    }
  }

  // Every phrase of the grammar that the depth limit admits is read as its tree,
  // and no deeper one is.
  lemma PhraseReads(p: Phrase, rest: seq<Token>, depth: nat)
    requires IsOr(p) && Lets(p, CurKind(rest)) && !CurKind(rest).AND? && !CurKind(rest).OR?
    ensures Expression(Spell(p) + rest, depth) == if depth + 1 + Cost(p) <= MAX_EXPR_DEPTH then Ok(Tree(p), rest) else Fail
  {
    OrReads(p, rest, depth + 1);
    CostPositive(p);
  }

  lemma {:induction false} CostPositive(p: Phrase)
    ensures Cost(p) >= 1
  {
    match p
    case AndOf(l, _, _) => CostPositive(l);
    case OrOf(l, _, _) => CostPositive(l);
    case _ =>
  }

  // --------------------------------------------------------------------
  // Whatever is read is a phrase
  // --------------------------------------------------------------------

  // p spells what was consumed of ts, means e, and ends where the rest begins.
  ghost predicate Derived(p: Phrase, ts: seq<Token>, e: Expr, rest: seq<Token>) {
    Spell(p) + rest == ts && Tree(p) == e && Lets(p, CurKind(rest))
  }

  lemma {:induction false} UnaryDerives(ts: seq<Token>, depth: nat) returns (p: Phrase)
    requires Unary(ts, depth).Ok?
    ensures IsUnary(p) && Derived(p, ts, Unary(ts, depth).value, Unary(ts, depth).rest) && depth + Cost(p) <= MAX_EXPR_DEPTH
    decreases |ts|, 0
  {
    if CurKind(ts).NOT? {
      var x := UnaryDerives(ts[1..], depth + 1);
      p := NotOf(ts[0], x);
      assert Spell(p) + Unary(ts, depth).rest == [ts[0]] + ts[1..];
    } else if CurKind(ts).LPAREN? {
      var x := ExpressionDerives(ts[1..], depth + 1);
      var rest := Expression(ts[1..], depth + 1).rest;
      p := Paren(ts[0], x, rest[0]);
      assert rest == [rest[0]] + rest[1..];
      assert Spell(p) + rest[1..] == [ts[0]] + (Spell(x) + rest);
    } else {
      var n := ConditionDerives(ts);
      p := Cond(ts[..n], Condition(ts).value);
    }
  }

  lemma {:induction false} AndTailDerives(left: Phrase, ts: seq<Token>, depth: nat) returns (p: Phrase)
    requires IsAnd(left) && Lets(left, CurKind(ts)) && depth + Cost(left) <= MAX_EXPR_DEPTH
    requires AndTail(Tree(left), ts, depth).Ok?
    ensures var r := AndTail(Tree(left), ts, depth);
            IsAnd(p) && Derived(p, Spell(left) + ts, r.value, r.rest) && !CurKind(r.rest).AND? && depth + Cost(p) <= MAX_EXPR_DEPTH
    decreases |ts|, 1
  {
    p := left;
    if CurKind(ts).AND? {
      var right := UnaryDerives(ts[1..], depth);
      var rest := Unary(ts[1..], depth).rest;
      var both := AndOf(left, ts[0], right);
      Joined(Spell(left), ts, Spell(right), rest);
      p := AndTailDerives(both, rest, depth);
    }
  }

  lemma Joined(left: seq<Token>, ts: seq<Token>, right: seq<Token>, rest: seq<Token>)
    requires ts != [] && right + rest == ts[1..]
    ensures left + [ts[0]] + right + rest == left + ts
  {
    assert ts == [ts[0]] + ts[1..];
  }

  lemma {:induction false} AndDerives(ts: seq<Token>, depth: nat) returns (p: Phrase)
    requires AndExpr(ts, depth).Ok?
    ensures var r := AndExpr(ts, depth);
            IsAnd(p) && Derived(p, ts, r.value, r.rest) && !CurKind(r.rest).AND? && depth + Cost(p) <= MAX_EXPR_DEPTH
    decreases |ts|, 1
  {
    var left := UnaryDerives(ts, depth);
    p := AndTailDerives(left, Unary(ts, depth).rest, depth);
  }

  lemma {:induction false} OrTailDerives(left: Phrase, ts: seq<Token>, depth: nat) returns (p: Phrase)
    requires IsOr(left) && Lets(left, CurKind(ts)) && !CurKind(ts).AND? && depth + Cost(left) <= MAX_EXPR_DEPTH
    requires OrTail(Tree(left), ts, depth).Ok?
    ensures var r := OrTail(Tree(left), ts, depth);
            && IsOr(p) && Derived(p, Spell(left) + ts, r.value, r.rest)
            && !CurKind(r.rest).AND? && !CurKind(r.rest).OR? && depth + Cost(p) <= MAX_EXPR_DEPTH
    decreases |ts|, 2
  {
    p := left;
    if CurKind(ts).OR? {
      var right := AndDerives(ts[1..], depth);
      var rest := AndExpr(ts[1..], depth).rest;
      var both := OrOf(left, ts[0], right);
      Joined(Spell(left), ts, Spell(right), rest);
      p := OrTailDerives(both, rest, depth);
    }
  }

  lemma {:induction false} ExpressionDerives(ts: seq<Token>, depth: nat) returns (p: Phrase)
    requires Expression(ts, depth).Ok?
    ensures var r := Expression(ts, depth);
            && IsOr(p) && Derived(p, ts, r.value, r.rest)
            && !CurKind(r.rest).AND? && !CurKind(r.rest).OR? && depth + 1 + Cost(p) <= MAX_EXPR_DEPTH
    decreases |ts|, 3
  {
    var left := AndDerives(ts, depth + 1);
    p := OrTailDerives(left, AndExpr(ts, depth + 1).rest, depth + 1);
  }

  // The phrases by which e can be read off ts up to rest.
  ghost predicate Reading(p: Phrase, ts: seq<Token>, depth: nat, e: Expr, rest: seq<Token>) {
    && IsOr(p) && Derived(p, ts, e, rest)
    && !CurKind(rest).AND? && !CurKind(rest).OR? && depth + 1 + Cost(p) <= MAX_EXPR_DEPTH
  }

  // The parser is the grammar: it reads e off the tokens and leaves rest exactly when
  // some phrase within the depth limit spells what was read and means e.
  lemma ParserIsGrammar(ts: seq<Token>, depth: nat, e: Expr, rest: seq<Token>)
    ensures Expression(ts, depth) == Ok(e, rest) <==> exists p :: Reading(p, ts, depth, e, rest)
  {
    hide IsOr, Expression;
    if Expression(ts, depth) == Ok(e, rest) {
      var p := ExpressionDerives(ts, depth);
      assert Reading(p, ts, depth, e, rest);
    }
    if p :| Reading(p, ts, depth, e, rest) {
      PhraseReads(p, rest, depth);
    }
  }

  // --------------------------------------------------------------------
  // Rendering a tree, with parentheses only where the grammar needs them
  // --------------------------------------------------------------------

  function Tok(k: Kind): Token {
    Token(k, "", None)
  }

  function Name(text: string): Token {
    Token(IDENT, text, None)
  }

  function Quoted(text: string): Token {
    Token(STRING, text, None)
  }

  // The dots of a field name become tokens of their own.
  function FieldTokens(part: string, f: string): seq<Token>
    decreases |f|
  {
    if f == [] then [Name(part)]
    else if f[0] == '.' then [Name(part), Tok(DOT)] + FieldTokens("", f[1..])
    else FieldTokens(part + [f[0]], f[1..])
  }

  function InTokens(values: seq<string>): seq<Token>
    requires values != []
  {
    if |values| == 1 then [Quoted(values[0]), Tok(RPAREN)]
    else [Quoted(values[0]), Tok(COMMA)] + InTokens(values[1..])
  }

  predicate IsOp(op: string) {
    op == "=" || op == "!=" || op == "<" || op == "<=" || op == ">" || op == ">="
  }

  function OpToken(op: string): Token
    requires IsOp(op)
  {
    Tok(if op == "=" then EQUALS else if op == "!=" then NOT_EQUALS else if op == "<" then LESS
        else if op == "<=" then LESS_EQ else if op == ">" then GREATER else GREATER_EQ)
  }

  function ValueToken(v: Value): Token {
    match v
    case Num(n) => Token(NUMBER, "", Some(n))
    case Str(s) => Quoted(s)
  }

  // The expressions the grammar can produce: lower-case fields, real operators,
  // non-empty IN lists and bounded patterns.
  predicate Canonical(e: Expr) {
    match e
    case And(l, r) => Canonical(l) && Canonical(r)
    case Or(l, r) => Canonical(l) && Canonical(r)
    case Not(x) => Canonical(x)
    case Compare(f, op, _) => Lower(f) == f && IsOp(op)
    case LikeCond(f, pattern, _) => Lower(f) == f && |pattern| <= MAX_LIKE_PATTERN_BYTES
    case In(f, values, _) => Lower(f) == f && values != []
    case IsNull(f, _) => Lower(f) == f
  }

  function NotTokens(negated: bool): seq<Token> {
    if negated then [Tok(NOT)] else []
  }

  // What follows the field name of a leaf.
  function LeafTail(e: Expr): seq<Token>
    requires e.IsLeaf() && Canonical(e)
  {
    match e
    case Compare(_, op, v) => [OpToken(op), ValueToken(v)]
    case LikeCond(_, pattern, negated) => NotTokens(negated) + [Tok(LIKE), Quoted(pattern)]
    case In(_, values, negated) => NotTokens(negated) + [Tok(IN), Tok(LPAREN)] + InTokens(values)
    case IsNull(_, negated) => [Tok(IS)] + NotTokens(negated) + [Tok(NULL)]
  }

  function LeafTokens(e: Expr): seq<Token>
    requires e.IsLeaf() && Canonical(e)
  {
    FieldTokens("", e.field) + LeafTail(e)
  }

  function UnaryPhrase(e: Expr): Phrase
    requires Canonical(e)
    decreases e, if e.And? then 3 else if e.Or? then 2 else 0
  {
    match e
    case Not(x) => NotOf(Tok(NOT), UnaryPhrase(x))
    case And(_, _) => Paren(Tok(LPAREN), OrPhrase(e), Tok(RPAREN))
    case Or(_, _) => Paren(Tok(LPAREN), OrPhrase(e), Tok(RPAREN))
    case _ => Cond(LeafTokens(e), e)
  }

  function AndPhrase(e: Expr): Phrase
    requires Canonical(e)
    decreases e, if e.Or? then 3 else 1
  {
    if e.And? then AndOf(AndPhrase(e.left), Tok(AND), UnaryPhrase(e.right)) else UnaryPhrase(e)
  }

  function OrPhrase(e: Expr): Phrase
    requires Canonical(e)
    decreases e, if e.Or? then 1 else 2
  {
    if e.Or? then OrOf(OrPhrase(e.left), Tok(OR), AndPhrase(e.right)) else AndPhrase(e)
  }

  function Render(e: Expr): seq<Token>
    requires Canonical(e)
  {
    Spell(OrPhrase(e))
  }

  // How deep parsing the rendering goes.
  function RenderCost(e: Expr): nat
    requires Canonical(e)
  {
    Cost(OrPhrase(e))
  }

  lemma {:induction false} FieldStarts(part: string, f: string)
    ensures FieldTokens(part, f) != [] && FieldTokens(part, f)[0].kind.IDENT?
    decreases |f|
  {
    if f != [] && f[0] != '.' {
      FieldStarts(part + [f[0]], f[1..]);
    }
  }

  lemma {:induction false} CanonicalSpelling(part: string, f: string)
    ensures IsField(FieldTokens(part, f)) && FieldText(FieldTokens(part, f)) == Lower(part + f)
    decreases |f|
  {
    var ts := FieldTokens(part, f);
    if f == [] {
      assert part + f == part && Lower(part) + "" == Lower(part);
    } else if f[0] == '.' {
      CanonicalSpelling("", f[1..]);
      assert ts[2..] == FieldTokens("", f[1..]) && "" + f[1..] == f[1..];
      LowerConcat(part, f);
    } else {
      CanonicalSpelling(part + [f[0]], f[1..]);
      assert part + [f[0]] + f[1..] == part + f;
    }
  }

  lemma {:induction false} InTokensList(values: seq<string>)
    requires values != []
    ensures IsList(InTokens(values), values)
    decreases |values|
  {
    if |values| > 1 {
      assert InTokens(values)[2..] == InTokens(values[1..]);
      InTokensList(values[1..]);
    }
  }

  lemma LeafTailIsTail(e: Expr)
    requires e.IsLeaf() && Canonical(e)
    ensures IsTail(LeafTail(e), e) && forall next :: StopsBefore(LeafTail(e), e, next)
    ensures LeafTail(e) != []
  {
    if e.In? {
      InTailIsTail(e);
    } else {
      hide IsList, InTokens;
      OtherTailIsTail(e);
    }
  }

  lemma InTailIsTail(e: Expr)
    requires e.In? && Canonical(e)
    ensures IsTail(LeafTail(e), e) && LeafTail(e) != []
  {
    hide IsValue;
    InTokensList(e.values);
    var at := AfterNegation(LeafTail(e), e.negated);
    assert at == [Tok(IN), Tok(LPAREN)] + InTokens(e.values);
    assert at[2..] == InTokens(e.values);
  }

  lemma OtherTailIsTail(e: Expr)
    requires e.IsLeaf() && !e.In? && Canonical(e)
    ensures IsTail(LeafTail(e), e) && forall next :: StopsBefore(LeafTail(e), e, next)
    ensures LeafTail(e) != []
  {
    var ts := LeafTail(e);
    match e
    case Compare(_, op, v) => assert ts[1..] == [ValueToken(v)];
    case LikeCond(_, pattern, negated) => assert AfterNegation(ts, negated) == [Tok(LIKE), Quoted(pattern)];
    case IsNull(_, negated) =>
      assert ts[1..] == NotTokens(negated) + [Tok(NULL)];
      assert AfterNegation(ts[1..], negated) == [Tok(NULL)];
  }

  lemma LeafIsCondition(e: Expr)
    requires e.IsLeaf() && Canonical(e)
    ensures IsCondition(LeafTokens(e), e) && !LeafTokens(e)[0].kind.NOT? && forall next :: StopsBefore(LeafTokens(e), e, next)
  {
    hide IsTail, LeafTail, IsField, FieldText;
    CanonicalSpelling("", e.field);
    LeafTailIsTail(e);
    assert "" + e.field == e.field;
    var ts, k := LeafTokens(e), |FieldTokens("", e.field)|;
    assert ts[..k] == FieldTokens("", e.field) && ts[k..] == LeafTail(e);
    FieldStarts("", e.field);
    assert ts[0] == FieldTokens("", e.field)[0];
    forall next ensures StopsBefore(ts, e, next) {
      assert ts[|ts| - 1] == LeafTail(e)[|LeafTail(e)| - 1];
      assert StopsBefore(LeafTail(e), e, next);
    }
    assert IsConditionAt(ts, e, k);
  }

  // The rendering is a phrase of the grammar and means e.
  lemma {:induction false} UnaryRenders(e: Expr)
    requires Canonical(e)
    ensures IsUnary(UnaryPhrase(e)) && Tree(UnaryPhrase(e)) == e && forall next :: Lets(UnaryPhrase(e), next)
    decreases e, if e.And? then 3 else if e.Or? then 2 else 0
  {
    match e
    case Not(x) => UnaryRenders(x);
    case And(_, _) => OrRenders(e);
    case Or(_, _) => OrRenders(e);
    case _ => LeafIsCondition(e);
  }

  lemma {:induction false} AndRenders(e: Expr)
    requires Canonical(e)
    ensures IsAnd(AndPhrase(e)) && Tree(AndPhrase(e)) == e && forall next :: Lets(AndPhrase(e), next)
    decreases e, if e.Or? then 3 else 1
  {
    if e.And? {
      AndRenders(e.left);
      UnaryRenders(e.right);
    } else {
      UnaryRenders(e);
      UnaryIsNoChain(e);
    }
  }

  lemma UnaryIsNoChain(e: Expr)
    requires Canonical(e)
    ensures !UnaryPhrase(e).AndOf? && !UnaryPhrase(e).OrOf?
  {}

  lemma {:induction false} OrRenders(e: Expr)
    requires Canonical(e)
    ensures IsOr(OrPhrase(e)) && Tree(OrPhrase(e)) == e && forall next :: Lets(OrPhrase(e), next)
    decreases e, if e.Or? then 1 else 2
  {
    if e.Or? {
      OrRenders(e.left);
      AndRenders(e.right);
    } else {
      AndRenders(e);
      UnaryIsNoChain(e);
    }
  }

  // Parsing inverts the rendering for every expression the depth limit admits,
  // consuming exactly its tokens, and rejects every other one.
  lemma ParseInvertsRendering(e: Expr, rest: seq<Token>, depth: nat)
    requires Canonical(e) && !CurKind(rest).AND? && !CurKind(rest).OR?
    ensures Expression(Render(e) + rest, depth) ==
              if depth + 1 + RenderCost(e) <= MAX_EXPR_DEPTH then Ok(e, rest) else Fail
  {
    OrRenders(e);
    PhraseReads(OrPhrase(e), rest, depth);
  }

  // --------------------------------------------------------------------
  // What parsing produces
  // --------------------------------------------------------------------

  lemma {:induction false} LowerTwice(s: string)
    ensures Lower(Lower(s)) == Lower(s)
  {
    if s != [] { LowerTwice(s[1..]); }
  }

  lemma {:induction false} FieldTextLower(ts: seq<Token>)
    requires IsField(ts)
    ensures Lower(FieldText(ts)) == FieldText(ts)
    decreases |ts|
  {
    LowerTwice(ts[0].text);
    if |ts| > 1 {
      FieldTextLower(ts[2..]);
      LowerConcat(".", FieldText(ts[2..]));
      assert Lower(".") == ".";
      LowerConcat(Lower(ts[0].text), "." + FieldText(ts[2..]));
    } else {
      assert FieldText(ts) == Lower(ts[0].text) + "" == Lower(ts[0].text);
    }
  }

  lemma ConditionCanonical(ts: seq<Token>, e: Expr)
    requires IsCondition(ts, e)
    ensures e.IsLeaf() && Canonical(e)
  {
    var k: nat :| IsConditionAt(ts, e, k);
    FieldTextLower(ts[..k]);
  }

  lemma PhraseOrder(e: Expr)
    requires Canonical(e)
    ensures Cost(OrPhrase(e)) <= Cost(AndPhrase(e)) <= Cost(UnaryPhrase(e)) <= Cost(OrPhrase(e)) + 2
  {}

  // No phrase for a tree is shallower than its rendering.
  lemma {:induction false} UnaryShallowest(p: Phrase)
    requires IsUnary(p)
    ensures Canonical(Tree(p)) && Cost(UnaryPhrase(Tree(p))) <= Cost(p)
    decreases p, 0
  {
    match p
    case Cond(ts, e) => ConditionCanonical(ts, e);
    case NotOf(_, x) => UnaryShallowest(x);
    case Paren(_, x, _) => OrShallowest(x); PhraseOrder(Tree(x));
  }

  lemma {:induction false} AndShallowest(p: Phrase)
    requires IsAnd(p)
    ensures Canonical(Tree(p)) && Cost(AndPhrase(Tree(p))) <= Cost(p)
    decreases p, 1
  {
    if p.AndOf? {
      AndShallowest(p.left);
      UnaryShallowest(p.right);
    } else {
      UnaryShallowest(p);
      PhraseOrder(Tree(p));
    }
  }

  lemma {:induction false} OrShallowest(p: Phrase)
    requires IsOr(p)
    ensures Canonical(Tree(p)) && Cost(OrPhrase(Tree(p))) <= Cost(p)
    decreases p, 2
  {
    if p.OrOf? {
      OrShallowest(p.left);
      AndShallowest(p.right);
    } else {
      AndShallowest(p);
      PhraseOrder(Tree(p));
    }
  }

  lemma ExpressionSound(ts: seq<Token>, depth: nat)
    ensures var r := Expression(ts, depth);
            r.Ok? ==> Canonical(r.value) && depth + 1 + RenderCost(r.value) <= MAX_EXPR_DEPTH
  {
    if Expression(ts, depth).Ok? {
      var p := ExpressionDerives(ts, depth);
      OrShallowest(p);
    }
  }

  // Rendering whatever was parsed and parsing that again gives the same tree:
  // dropping redundant parentheses never changes what a WHERE means.
  lemma RenderingNormalises(ts: seq<Token>, depth: nat, rest: seq<Token>)
    requires Expression(ts, depth).Ok?
    requires !CurKind(rest).AND? && !CurKind(rest).OR?
    ensures Canonical(Expression(ts, depth).value)
    ensures Expression(Render(Expression(ts, depth).value) + rest, depth) == Ok(Expression(ts, depth).value, rest)
  {
    ExpressionSound(ts, depth);
    ParseInvertsRendering(Expression(ts, depth).value, rest, depth);
  }
}
