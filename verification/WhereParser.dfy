// The parser the server runs: a position and a nesting depth that its methods
// advance over a fixed token list.  Each method is tied to the function of
// module Parser that reads the same part of the grammar.
module WhereParser {
  import opened Expressions
  import opened Parser
  import opened Options

  class WhereParser {
    const tokens: seq<Token>
    var pos: nat
    var depth: nat

    constructor (tokens: seq<Token>)
      ensures this.tokens == tokens && Valid() && Rest() == tokens && depth == 0
    {
      this.tokens, pos, depth := tokens, 0, 0;
    }

    ghost predicate Valid()
      reads this
    {
      pos <= |tokens|
    }

    ghost function Rest(): seq<Token>
      reads this
      requires Valid()
    {
      tokens[pos..]
    }

    // The call read exactly what the grammar says: on success the value, the
    // tokens after it and the same depth as before; on failure nothing.
    twostate predicate Reads<T>(new p: Parsed<T>, new r: Option<T>)
      reads this
    {
      && Valid() && depth >= old(depth)
      && (p.Ok? ==> r == Some(p.value) && Rest() == p.rest && depth == old(depth))
      && (p.Fail? ==> r == None)
    }

    method Cur() returns (t: Token)
      requires Valid()
      ensures t.kind == CurKind(Rest()) && (Rest() != [] ==> t == Rest()[0])
    {
      t := if pos < |tokens| then tokens[pos] else Token(EOF, "", None);
    }

    method Advance()
      requires Valid()
      modifies this`pos
      ensures Valid() && Rest() == if old(Rest()) == [] then [] else old(Rest())[1..]
    {
      if pos < |tokens| {
        pos := pos + 1;
      }
    }

    method Enter() returns (ok: bool)
      modifies this`depth
      ensures depth == old(depth) + 1 && (ok <==> depth <= MAX_EXPR_DEPTH)
    {
      depth := depth + 1;
      ok := depth <= MAX_EXPR_DEPTH;
    }

    method Leave()
      requires depth > 0
      modifies this`depth
      ensures depth == old(depth) - 1
    {
      depth := depth - 1;
    }

    method ParseDottedField() returns (r: Option<string>)
      requires Valid()
      modifies this`pos
      ensures Reads(DottedField(old(Rest())), r)
    {
      var t := Cur();
      if !IsName(t.kind) {
        return None;
      }
      Advance();
      var result := Lower(t.text);
      var dot := Cur();
      while dot.kind.DOT?
        invariant Valid() && dot.kind == CurKind(Rest())
        invariant DottedField(old(Rest())) == FieldTail(result, Rest())
        decreases |Rest()|
      {
        ghost var ts := Rest();
        Advance();
        var part := Cur();
        if !IsName(part.kind) {
          return None;
        }
        Advance();
        assert Rest() == ts[2..];
        result := result + "." + Lower(part.text);
        dot := Cur();
      }
      return Some(result);
    }

    method ParseInExpr(field: string, negated: bool) returns (r: Option<Expr>)
      requires Valid() && CurKind(Rest()).IN?
      modifies this`pos
      ensures Reads(InExpr(field, negated, old(Rest())), r)
    {
      ghost var start := Rest();
      Advance();
      var t := Cur();
      if !t.kind.LPAREN? {
        return None;
      }
      Advance();
      assert Rest() == start[2..];
      var values: seq<string> := [];
      while true
        invariant Valid()
        invariant InTail([], start[2..]) == InTail(values, Rest())
        decreases |Rest()|
      {
        ghost var ts := Rest();
        t := Cur();
        if !t.kind.STRING? {
          return None;
        }
        Advance();
        values := values + [t.text];
        var after := Cur();
        if !after.kind.COMMA? {
          if !after.kind.RPAREN? {
            return None;
          }
          Advance();
          assert Rest() == ts[2..];
          return Some(In(field, values, negated));
        }
        Advance();
        assert Rest() == ts[2..];
      }
    }

    method ParseLikeExpr(field: string, negated: bool) returns (r: Option<Expr>)
      requires Valid() && CurKind(Rest()).LIKE?
      modifies this`pos
      ensures Reads(LikeExpr(field, negated, old(Rest())), r)
    {
      ghost var start := Rest();
      Advance();
      var t := Cur();
      if !t.kind.STRING? || |t.text| > MAX_LIKE_PATTERN_BYTES {
        return None;
      }
      Advance();
      assert Rest() == start[2..];
      return Some(LikeCond(field, t.text, negated));
    }

    method ParseValue() returns (r: Option<Value>)
      requires Valid()
      modifies this`pos
      ensures Reads(ValueAt(old(Rest())), r)
    {
      var t := Cur();
      if t.kind.NUMBER? {
        if t.number.None? {
          return None;
        }
        Advance();
        return Some(Num(t.number.value));
      }
      if t.kind.STRING? {
        Advance();
        return Some(Str(t.text));
      }
      if !t.kind.IDENT? {
        return None;
      }
      Advance();
      var s := t.text;
      var dot := Cur();
      while dot.kind.DOT?
        invariant Valid() && dot.kind == CurKind(Rest())
        invariant ValueAt(old(Rest())) == BareTail(s, Rest())
        decreases |Rest()|
      {
        ghost var ts := Rest();
        Advance();
        var next := Cur();
        if !IsName(next.kind) {
          break;
        }
        Advance();
        assert Rest() == ts[2..];
        s := s + "." + next.text;
        dot := Cur();
      }
      return Some(Str(s));
    }

    method ParseCondition() returns (r: Option<Expr>)
      requires Valid()
      modifies this`pos
      ensures Reads(Condition(old(Rest())), r)
    {
      var field := ParseDottedField();
      if field.None? {
        return None;
      }
      r := ParseConditionRest(field.value);
    }

    method ParseConditionRest(field: string) returns (r: Option<Expr>)
      requires Valid()
      modifies this`pos
      ensures Reads(ConditionRest(field, old(Rest())), r)
    {
      ghost var start := Rest();
      var t := Cur();
      if t.kind.IS? {
        Advance();
        var negated := false;
        t := Cur();
        if t.kind.NOT? {
          Advance();
          assert Rest() == start[2..];
          negated := true;
          t := Cur();
        }
        if !t.kind.NULL? {
          return None;
        }
        Advance();
        return Some(IsNull(field, negated));
      }
      if t.kind.NOT? {
        Advance();
        t := Cur();
        if t.kind.IN? {
          r := ParseInExpr(field, true);
        } else if t.kind.LIKE? {
          r := ParseLikeExpr(field, true);
        } else {
          r := None;
        }
        return;
      }
      if t.kind.IN? {
        r := ParseInExpr(field, false);
        return;
      }
      if t.kind.LIKE? {
        r := ParseLikeExpr(field, false);
        return;
      }
      if CompareOp(t.kind).None? {
        return None;
      }
      Advance();
      var v := ParseValue();
      if v.None? {
        return None;
      }
      return Some(Compare(field, CompareOp(t.kind).value, v.value));
    }

    method ParseUnaryExpr() returns (r: Option<Expr>)
      requires Valid()
      modifies this`pos, this`depth
      ensures Reads(Unary(old(Rest()), old(depth)), r)
      decreases |tokens| - pos, 0
    {
      hide Condition;
      var ok := Enter();
      if !ok {
        return None;
      }
      var t := Cur();
      if t.kind.NOT? {
        Advance();
        var inner := ParseUnaryExpr();
        r := if inner.None? then None else Some(Not(inner.value));
      } else if t.kind.LPAREN? {
        Advance();
        r := ParseExpr();
        if r.Some? {
          t := Cur();
          if t.kind.RPAREN? {
            Advance();
          } else {
            r := None;
          }
        }
      } else {
        r := ParseCondition();
      }
      Leave();
    }

    method ParseAndExpr() returns (r: Option<Expr>)
      requires Valid()
      modifies this`pos, this`depth
      ensures Reads(AndExpr(old(Rest()), old(depth)), r)
      decreases |tokens| - pos, 1
    {
      hide Unary;
      r := ParseUnaryExpr();
      if r.None? {
        return;
      }
      var left := r.value;
      var t := Cur();
      while t.kind.AND?
        invariant Valid() && t.kind == CurKind(Rest()) && depth == old(depth)
        invariant |Rest()| < |old(Rest())|
        invariant AndExpr(old(Rest()), old(depth)) == AndTail(left, Rest(), depth)
        decreases |tokens| - pos
      {
        Advance();
        var right := ParseUnaryExpr();
        if right.None? {
          return None;
        }
        left := And(left, right.value);
        t := Cur();
      }
      return Some(left);
    }

    method ParseExpr() returns (r: Option<Expr>)
      requires Valid()
      modifies this`pos, this`depth
      ensures Reads(Expression(old(Rest()), old(depth)), r)
      decreases |tokens| - pos, 2
    {
      hide AndExpr;
      var ok := Enter();
      if !ok {
        return None;
      }
      r := ParseAndExpr();
      if r.None? {
        Leave();
        return;
      }
      var left := r.value;
      var t := Cur();
      while t.kind.OR?
        invariant Valid() && t.kind == CurKind(Rest()) && depth == old(depth) + 1
        invariant |Rest()| < |old(Rest())|
        invariant OrExpr(old(Rest()), depth) == OrTail(left, Rest(), depth)
        decreases |tokens| - pos
      {
        Advance();
        var right := ParseAndExpr();
        if right.None? {
          Leave();
          return None;
        }
        left := Or(left, right.value);
        t := Cur();
      }
      Leave();
      return Some(left);
    }
  }

  // The server's parser on canonical tokens: every tree within the depth limit
  // comes back, with the parser on the token after it and at its old depth.
  method ParseRendered(e: Expr, rest: seq<Token>) returns (r: Option<Expr>, left: seq<Token>)
    requires Canonical(e) && !CurKind(rest).AND? && !CurKind(rest).OR?
    ensures r == if 1 + RenderCost(e) <= MAX_EXPR_DEPTH then Some(e) else None
    ensures r.Some? ==> left == rest
  {
    var p := new WhereParser(Render(e) + rest);
    ParseInvertsRendering(e, rest, 0);
    r := p.ParseExpr();
    left := p.tokens[p.pos..];
  }
}
