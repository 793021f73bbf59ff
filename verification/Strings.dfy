// Quoted strings in a query: a quote inside one is written twice.
module Strings {

  datatype Scanned = Ok(text: string, rest: string) | Unterminated

  // Reads up to the closing quote; s starts just after the opening one.
  function Unquote(s: string, quote: char): (r: Scanned)
    decreases |s|
  {
    if s == [] then Unterminated
    else if s[0] == quote then
      if |s| > 1 && s[1] == quote then Prepend(quote, Unquote(s[2..], quote)) else Ok([], s[1..])
    else Prepend(s[0], Unquote(s[1..], quote))
  }

  function Prepend(c: char, r: Scanned): Scanned {
    if r.Ok? then Ok([c] + r.text, r.rest) else r
  }

  function Doubled(text: string, quote: char): string {
    if text == [] then []
    else (if text[0] == quote then [quote, quote] else [text[0]]) + Doubled(text[1..], quote)
  }

  // pos is at the opening quote.
  method ScanString(input: string, start: nat) returns (r: Scanned)
    requires start < |input|
    ensures r == Unquote(input[start + 1..], input[start])
  {
    var quote := input[start];
    var pos := start + 1;
    var b: string := [];
    while pos < |input|
      invariant start < pos <= |input|
      invariant Unquote(input[start + 1..], quote) == PrependAll(b, Unquote(input[pos..], quote))
    {
      var ch := input[pos];
      PrependSnoc(b, ch, Unquote(input[pos + 1..], quote));
      assert input[pos..][1..] == input[pos + 1..];
      if ch == quote {
        if pos + 1 < |input| && input[pos + 1] == quote {
          assert input[pos..][2..] == input[pos + 2..];
          PrependSnoc(b, ch, Unquote(input[pos + 2..], quote));
          b := b + [ch];
          pos := pos + 2;
          continue;
        }
        return Ok(b, input[pos + 1..]);
      }
      b := b + [ch];
      pos := pos + 1;
    }
    return Unterminated;
  }

  ghost function PrependAll(b: string, r: Scanned): Scanned {
    if r.Ok? then Ok(b + r.text, r.rest) else r
  }

  lemma PrependSnoc(b: string, c: char, r: Scanned)
    ensures PrependAll(b, Prepend(c, r)) == PrependAll(b + [c], r)
  {}

  // Scanning succeeds with this text and rest exactly when the input is the
  // text with its quotes doubled, the closing quote, and a rest that does not
  // go on with another one.
  lemma {:induction false} ScanIff(s: string, quote: char, text: string, rest: string)
    ensures Unquote(s, quote) == Ok(text, rest) <==>
              s == Doubled(text, quote) + [quote] + rest && (rest == [] || rest[0] != quote)
    decreases |s|
  {
    if s != [] {
      if s[0] == quote {
        if |s| > 1 && s[1] == quote {
          if text != [] {
            ScanIff(s[2..], quote, text[1..], rest);
            assert text == [text[0]] + text[1..];
          }
          DoubledQuote(s, quote, text, rest);
        } else {
          DoubledEnd(s, quote, text, rest);
        }
      } else {
        if text != [] {
          ScanIff(s[1..], quote, text[1..], rest);
          assert text == [text[0]] + text[1..];
        }
        DoubledPlain(s, quote, text, rest);
      }
    }
  }

  lemma DoubledQuote(s: string, quote: char, text: string, rest: string)
    requires |s| > 1 && s[0] == quote && s[1] == quote
    ensures s == Doubled(text, quote) + [quote] + rest && (rest == [] || rest[0] != quote) <==>
              text != [] && text[0] == quote && s[2..] == Doubled(text[1..], quote) + [quote] + rest && (rest == [] || rest[0] != quote)
  {}

  lemma DoubledEnd(s: string, quote: char, text: string, rest: string)
    requires |s| > 0 && s[0] == quote && (|s| == 1 || s[1] != quote)
    ensures s == Doubled(text, quote) + [quote] + rest && (rest == [] || rest[0] != quote) <==> text == [] && rest == s[1..]
  {}

  lemma DoubledPlain(s: string, quote: char, text: string, rest: string)
    requires |s| > 0 && s[0] != quote
    ensures s == Doubled(text, quote) + [quote] + rest && (rest == [] || rest[0] != quote) <==>
              text != [] && text[0] == s[0] && s[1..] == Doubled(text[1..], quote) + [quote] + rest && (rest == [] || rest[0] != quote)
  {
    hide Doubled;
    DoubledHead(quote, text, rest);
    if text != [] && text[0] != quote {
      PlainStep(s, text[0], Doubled(text[1..], quote), [quote] + rest);
      assert Doubled(text[1..], quote) + [quote] + rest == Doubled(text[1..], quote) + ([quote] + rest);
    }
  }

  lemma DoubledHead(quote: char, text: string, rest: string)
    ensures text == [] || text[0] == quote ==> (Doubled(text, quote) + [quote] + rest)[0] == quote
    ensures text != [] && text[0] != quote ==>
              Doubled(text, quote) + [quote] + rest == [text[0]] + Doubled(text[1..], quote) + ([quote] + rest)
  {}

  lemma PlainStep(s: string, c: char, d: string, rest: string)
    requires s != []
    ensures s == ([c] + d) + rest <==> s[0] == c && s[1..] == d + rest
  {}
}
