// What becomes of a condition on its way to an agent: the server writes it down as
// a text, the agent reads the text back and judges values by what it read.
module Conditions {
  import opened Expressions
  import opened Filtering
  import opened Options
  import opened Pushdown

  // number: what ParseFloat makes of a text; numeric: a value as a number; text: a
  // value as printed; like: the pattern matcher, case folding included.
  datatype Reader = Reader(
    number: string -> Option<real>, numeric: Json -> Option<real>, text: Json -> string, like: (string, string) -> bool)

  datatype Condition =
    | OneOf(field: string, values: seq<string>)
    | Numeric(field: string, op: string, n: real)
    | Textual(field: string, op: string, s: string)

  function FirstComma(s: string): (i: nat)
    ensures i <= |s| && ',' !in s[..i] && (i < |s| ==> s[i] == ',')
  {
    if s == [] || s[0] == ',' then 0
    else
      var i := 1 + FirstComma(s[1..]);
      assert s[..i] == [s[0]] + s[1..][..i - 1];
      i
  }

  function SplitCommas(s: string): (parts: seq<string>)
    decreases |s|
  {
    var i := FirstComma(s);
    if i == |s| then [s] else [s[..i]] + SplitCommas(s[i + 1..])
  }

  // A value that reads as a number is one, whatever the operator; only IN is a list.
  function Decode(f: Filter, reader: Reader): Condition {
    if f.operator == "IN" then OneOf(f.field, SplitCommas(f.value))
    else
      match reader.number(f.value)
      case Some(n) => Numeric(f.field, f.operator, n)
      case None => Textual(f.field, f.operator, f.value)
  }

  method ProtoFiltersToConditions(filters: seq<Filter>, reader: Reader) returns (conds: seq<Condition>)
    ensures |conds| == |filters| && forall i | 0 <= i < |filters| :: conds[i] == Decode(filters[i], reader)
  {
    conds := [];
    for i := 0 to |filters|
      invariant |conds| == i && forall j | 0 <= j < i :: conds[j] == Decode(filters[j], reader)
    {
      var f := filters[i];
      if f.operator == "IN" {
        conds := conds + [OneOf(f.field, SplitCommas(f.value))];
      } else {
        var num := reader.number(f.value);
        conds := conds + [if num.Some? then Numeric(f.field, f.operator, num.value) else Textual(f.field, f.operator, f.value)];
      }
    }
  }

  function CompareNumbers(actual: real, op: string, expected: real): bool {
    if op == "=" then actual == expected
    else if op == "!=" then actual != expected
    else if op == ">" then actual > expected
    else if op == "<" then actual < expected
    else if op == ">=" then actual >= expected
    else if op == "<=" then actual <= expected
    else false
  }

  function EvalCondition(c: Condition, actual: Json, reader: Reader): bool {
    match c
    case OneOf(_, values) => reader.text(actual) in values
    case Textual(_, op, s) =>
      if op == "=" then reader.text(actual) == s
      else if op == "!=" then reader.text(actual) != s
      else op == "LIKE" && reader.like(reader.text(actual), s)
    case Numeric(_, op, n) =>
      var num := reader.numeric(actual);
      num.Some? && CompareNumbers(num.value, op, n)
  }

  // How an agent with this reader judges a filter on a value.
  function JudgeOf(reader: Reader): Judge {
    (f, v) => EvalCondition(Decode(f, reader), v, reader)
  }

  // What a condition says of a value, before it is written down.
  ghost predicate Says(e: Expr, v: Json, reader: Reader)
    requires e.IsLeaf() && LeafFilter(e, _ => "").Some?
  {
    match e
    case Compare(_, op, Str(s)) => (op == "=" && reader.text(v) == s) || (op == "!=" && reader.text(v) != s)
    case Compare(_, op, Num(n)) =>
      exists a :: reader.numeric(v) == Some(a) &&
        ((op in ["=", "<=", ">="] && a == n) || (op in ["<", "<=", "!="] && a < n) || (op in [">", ">=", "!="] && a > n))
    case LikeCond(_, pattern, _) => reader.like(reader.text(v), pattern)
    case In(_, values, _) => exists x <- values :: reader.text(v) == x
  }

  // --------------------------------------------------------------------
  // Lists
  // --------------------------------------------------------------------

  lemma {:induction false} CommaAt(a: string, rest: string)
    requires ',' !in a && (rest == "" || rest[0] == ',')
    ensures FirstComma(a + rest) == |a|
  {
    if a == "" {
      assert a + rest == rest;
    } else {
      assert (a + rest)[1..] == a[1..] + rest;
      assert a[0] in a;
      CommaAt(a[1..], rest);
    }
  }

  lemma SplitAt(a: string, rest: string)
    requires ',' !in a
    ensures SplitCommas(a) == [a] && SplitCommas(a + "," + rest) == [a] + SplitCommas(rest)
  {
    CommaAt(a, "");
    CommaAt(a, "," + rest);
    assert a + "" == a && a + ("," + rest) == a + "," + rest;
    assert (a + "," + rest)[|a| + 1..] == rest && (a + "," + rest)[..|a|] == a;
  }

  lemma {:induction false} PartsHaveNoComma(s: string)
    ensures SplitCommas(s) != [] && forall p <- SplitCommas(s) :: ',' !in p
    decreases |s|
  {
    var i := FirstComma(s);
    hide FirstComma;
    if i == |s| {
      assert s[..i] == s;
    } else {
      PartsHaveNoComma(s[i + 1..]);
      var more := SplitCommas(s[i + 1..]);
      assert SplitCommas(s) == [s[..i]] + more;
    }
  }

  lemma {:induction false} JoinSplits(values: seq<string>)
    requires values != [] && forall v <- values :: ',' !in v
    ensures SplitCommas(Join(values)) == values
  {
    assert values[0] in values;
    if |values| == 1 {
      SplitAt(values[0], "");
    } else {
      JoinSplits(values[1..]);
      SplitAt(values[0], Join(values[1..]));
      assert values == [values[0]] + values[1..];
    }
  }

  // An agent gets the list it was meant to get, or one with the same members,
  // exactly when there is a value in it and none contains a comma.
  lemma ListArrivesIff(values: seq<string>)
    ensures SplitCommas(Join(values)) == values <==> values != [] && forall v <- values :: ',' !in v
    ensures (forall t :: t in SplitCommas(Join(values)) <==> t in values) <==> values != [] && forall v <- values :: ',' !in v
  {
    var parts := SplitCommas(Join(values));
    PartsHaveNoComma(Join(values));
    if values != [] && forall v <- values :: ',' !in v {
      JoinSplits(values);
    }
    if forall t :: t in parts <==> t in values {
      assert parts[0] in parts && parts[0] in values;
    }
  }

  // --------------------------------------------------------------------
  // When the agent judges as the condition says
  // --------------------------------------------------------------------

  // Whether judging the filter agrees with the condition on every value.
  ghost predicate Exact(e: Expr, show: Printer, reader: Reader)
    requires e.IsLeaf() && LeafFilter(e, show).Some?
  {
    forall v :: JudgeOf(reader)(LeafFilter(e, show).value, v) <==> Says(e, v, reader)
  }

  // Some value prints as this text.
  ghost predicate Prints(reader: Reader, t: string) {
    exists v :: reader.text(v) == t
  }

  // The number can be spelled in two ways, as 1 and 1.0.
  ghost predicate TwoSpellings(reader: Reader, n: real) {
    exists v, w :: SpellsTwice(reader, n, v, w)
  }

  ghost predicate SpellsTwice(reader: Reader, n: real, v: Json, w: Json) {
    reader.numeric(v) == Some(n) && reader.numeric(w) == Some(n) && reader.text(v) != reader.text(w)
  }

  // A LIKE pattern is judged as it should be exactly when it does not read as a
  // number; one that does never matches, not even itself.
  lemma LikeExactIff(f: string, pattern: string, show: Printer, reader: Reader)
    requires Prints(reader, pattern) && reader.like(pattern, pattern)
    ensures Exact(LikeCond(f, pattern, false), show, reader) <==> reader.number(pattern).None?
  {
    var e := LikeCond(f, pattern, false);
    LikeJudged(f, pattern, show, reader);
    if Exact(e, show, reader) {
      var v :| reader.text(v) == pattern;
      assert JudgeOf(reader)(LeafFilter(e, show).value, v) <==> Says(e, v, reader);
    }
  }

  lemma LikeJudged(f: string, pattern: string, show: Printer, reader: Reader)
    ensures forall v :: JudgeOf(reader)(LeafFilter(LikeCond(f, pattern, false), show).value, v) <==>
              reader.number(pattern).None? && reader.like(reader.text(v), pattern)
  {
    var filter := Filter(f, "LIKE", pattern);
    assert LeafFilter(LikeCond(f, pattern, false), show) == Some(filter);
    assert |"LIKE"| == 4 && |"IN"| == 2 && |"="| == 1 && |"!="| == 2 && |"<="| == 2 && |">="| == 2 && |"<"| == 1 && |">"| == 1;
    assert Decode(filter, reader) == if reader.number(pattern).None? then Textual(f, "LIKE", pattern) else Numeric(f, "LIKE", reader.number(pattern).value);
    forall v ensures JudgeOf(reader)(filter, v) <==> reader.number(pattern).None? && reader.like(reader.text(v), pattern) {
      assert JudgeOf(reader)(filter, v) == EvalCondition(Decode(filter, reader), v, reader);
    }
  }

  // A quoted text is compared as a text exactly when it does not read as a number.
  lemma TextExactIff(f: string, op: string, s: string, show: Printer, reader: Reader)
    requires (op == "=" || op == "!=") && show(Str(s)) == s && forall n :: TwoSpellings(reader, n)
    ensures Exact(Compare(f, op, Str(s)), show, reader) <==> reader.number(s).None?
  {
    var e := Compare(f, op, Str(s));
    TextJudged(f, op, s, show, reader);
    if reader.number(s).Some? {
      var n := reader.number(s).value;
      assert TwoSpellings(reader, n);
      var v, w :| SpellsTwice(reader, n, v, w);
      var other := if reader.text(v) != s then v else w;
      assert JudgeOf(reader)(LeafFilter(e, show).value, other) != Says(e, other, reader);
    }
  }

  lemma TextJudged(f: string, op: string, s: string, show: Printer, reader: Reader)
    requires (op == "=" || op == "!=") && show(Str(s)) == s
    ensures forall v :: JudgeOf(reader)(LeafFilter(Compare(f, op, Str(s)), show).value, v) <==>
              if reader.number(s).None? then (reader.text(v) == s) == (op == "=")
              else reader.numeric(v).Some? && (reader.numeric(v) == reader.number(s)) == (op == "=")
    ensures forall v :: Says(Compare(f, op, Str(s)), v, reader) <==> (reader.text(v) == s) == (op == "=")
  {
    assert |"="| == 1 && |"!="| == 2 && |"IN"| == 2 && "!="[0] != "IN"[0];
    var filter := Filter(f, op, s);
    assert LeafFilter(Compare(f, op, Str(s)), show) == Some(filter);
    forall v ensures JudgeOf(reader)(filter, v) <==>
      if reader.number(s).None? then (reader.text(v) == s) == (op == "=")
      else reader.numeric(v).Some? && (reader.numeric(v) == reader.number(s)) == (op == "=")
    {
      assert JudgeOf(reader)(filter, v) == EvalCondition(Decode(filter, reader), v, reader);
    }
  }

  lemma NumberExact(f: string, op: string, n: real, show: Printer, reader: Reader)
    requires op in ["=", "!=", "<", "<=", ">", ">="] && reader.number(show(Num(n))) == Some(n)
    ensures Exact(Compare(f, op, Num(n)), show, reader)
  {
    var e, filter := Compare(f, op, Num(n)), Filter(f, op, show(Num(n)));
    assert LeafFilter(e, show) == Some(filter);
    NotIn(op);
    assert Decode(filter, reader) == Numeric(f, op, n);
    forall v ensures JudgeOf(reader)(filter, v) <==> Says(e, v, reader) {
      assert JudgeOf(reader)(filter, v) == EvalCondition(Numeric(f, op, n), v, reader);
      if reader.numeric(v).Some? { ComparesAs(reader.numeric(v).value, op, n); }
      hide CompareNumbers;
    }
  }

  lemma NotIn(op: string)
    requires op in ["=", "!=", "<", "<=", ">", ">="]
    ensures op != "IN"
  {
    assert |"IN"| == 2 && "IN"[1] == 'N';
    assert |op| == 1 || op[1] == '=';
  }

  lemma ComparesAs(a: real, op: string, n: real)
    requires op in ["=", "!=", "<", "<=", ">", ">="]
    ensures CompareNumbers(a, op, n) <==>
              (op in ["=", "<=", ">="] && a == n) || (op in ["<", "<=", "!="] && a < n) || (op in [">", ">=", "!="] && a > n)
  {
    assert |"="| == |"<"| == |">"| == 1 && |"!="| == |"<="| == |">="| == 2;
    assert "="[0] == '=' && "<"[0] == '<' && ">"[0] == '>' && "!="[0] == '!' && "<="[0] == '<' && ">="[0] == '>';
  }

  lemma InExactIff(f: string, values: seq<string>, show: Printer, reader: Reader)
    requires forall t :: Prints(reader, t)
    ensures Exact(In(f, values, false), show, reader) <==> values != [] && forall v <- values :: ',' !in v
  {
    var e := In(f, values, false);
    var filter := LeafFilter(e, show).value;
    var parts := SplitCommas(Join(values));
    ListArrivesIff(values);
    forall v ensures JudgeOf(reader)(filter, v) <==> reader.text(v) in parts {}
    forall v ensures Says(e, v, reader) <==> reader.text(v) in values {}
    if Exact(e, show, reader) {
      forall t ensures t in parts <==> t in values {
        assert Prints(reader, t);
        var v :| reader.text(v) == t;
        assert JudgeOf(reader)(filter, v) <==> Says(e, v, reader);
      }
    }
  }

  // What one can see before the call: the text is no number in disguise, the list
  // has values and no commas, the number is printed so that it reads back.
  predicate Plainly(e: Expr, show: Printer, reader: Reader) {
    match e
    case Compare(_, op, Str(s)) => (op == "=" || op == "!=") && show(Str(s)) == s && reader.number(s).None?
    case Compare(_, op, Num(n)) => op in ["=", "!=", "<", "<=", ">", ">="] && reader.number(show(Num(n))) == Some(n)
    case LikeCond(_, pattern, negated) => !negated && reader.number(pattern).None?
    case In(_, values, negated) => !negated && values != [] && forall v <- values :: ',' !in v
    case _ => false
  }

  lemma PlainlyExact(e: Expr, show: Printer, reader: Reader)
    requires Plainly(e, show, reader)
    ensures e.IsLeaf() && LeafFilter(e, show).Some? && Exact(e, show, reader)
  {
    match e
    case Compare(f, op, Str(s)) => TextJudged(f, op, s, show, reader);
    case Compare(f, op, Num(n)) => NumberExact(f, op, n, show, reader);
    case LikeCond(f, pattern, _) => LikeJudged(f, pattern, show, reader);
    case In(f, values, _) =>
      JoinSplits(values);
      forall v ensures JudgeOf(reader)(LeafFilter(e, show).value, v) <==> Says(e, v, reader) {}
  }

  // On a row such a condition holds exactly when its field is there and the
  // condition says so of its value.
  lemma PlainlyOnRow(e: Expr, row: Row, show: Printer, reader: Reader)
    requires Plainly(e, show, reader)
    ensures e.IsLeaf() && LeafFilter(e, show).Some?
    ensures LeafOnRow(e, row, JudgeOf(reader), show) <==>
              IsDotted(e.field) && ModuleOf(e.field) in row && RestOf(e.field) in row[ModuleOf(e.field)]
              && Says(e, row[ModuleOf(e.field)][RestOf(e.field)], reader)
  {
    PlainlyExact(e, show, reader);
  }

  // Two versions that are different texts but the same number are taken for one: a
  // query for '1.10' is answered for 1.1.
  lemma VersionTakenForNumber(show: Printer, reader: Reader, installed: Json)
    requires show(Str("1.10")) == "1.10" && reader.number("1.10") == Some(1.1)
    requires reader.text(installed) == "1.1" && reader.numeric(installed) == Some(1.1)
    ensures var e := Compare("packages.version", "=", Str("1.10"));
            JudgeOf(reader)(LeafFilter(e, show).value, installed) && !Says(e, installed, reader)
  {}
}
