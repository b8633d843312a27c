/** The template tokenizer of template.go.

    A template text is cut into an ordered sequence of parts: literal text and
    units that a pluggable argument parser builds from the body of each
    `${...}` placeholder.  `Tokenize` is the reference definition, written as
    a grammar over the rest of the text with the pending literal carried
    along; `ParseTemplate` is the source's two-cursor state machine, proved to
    compute the same thing.
 */
module Template {
  import opened Wrappers

  /** An element of `interpolateParts`: a `literalInterpolateApply` or a unit
      returned by the argument parser. */
  datatype Part<+U> = Literal(text: string) | Unit(unit: U)

  /** The four `parseState*` constants. */
  datatype ParseState = Init | DollarSign | BraceStarted | BackSlash

  /** The literal part for `s`, or nothing when `s` is empty. */
  function LitIf<U>(s: string): seq<Part<U>> {
    if s == [] then [] else [Literal(s)]
  }

  /** Puts `ps` in front of the parts of a successful result; keeps an error. */
  function Prepend<U>(ps: seq<Part<U>>, r: Result<seq<Part<U>>>): Result<seq<Part<U>>> {
    match r
    case Ok(qs) => Ok(ps + qs)
    case Err(e) => Err(e)
  }

  /** Tokenizes `t`, the rest of the template from index `pos`, outside any
      placeholder, with `pending` the literal text gathered so far.  A `$`
      swallows the character after it unless that character opens `${`; a
      backslash ends the literal and drops everything after it. */
  function Lex<U>(t: string, pos: nat, pending: string, parser: string -> Result<U>): Result<seq<Part<U>>>
    decreases |t|
  {
    if t == [] then Ok(LitIf(pending))
    else if t[0] == '\\' then Ok([Literal(pending + "\\")])
    else if t[0] == '$' then
      if |t| == 1 then Ok([Literal(pending + "$")])
      else if t[1] == '{' then Prepend(LitIf(pending), LexBody(t[2..], pos + 2, "", parser))
      else Lex(t[2..], pos + 2, pending + t[..2], parser)
    else Lex(t[1..], pos + 1, pending + [t[0]], parser)
  }

  /** Tokenizes `t`, the rest of the template from index `pos`, inside an
      open `${` whose body so far is `body`.  At the end of the text the body
      is kept as a plain literal. */
  function LexBody<U>(t: string, pos: nat, body: string, parser: string -> Result<U>): Result<seq<Part<U>>>
    decreases |t|
  {
    if t == [] then Ok(LitIf(body))
    else if t[0] == '}' then
      if body == [] then Err(EmptyInterpolateArgument(pos))
      else match parser(body)
        case Err(e) => Err(InterpolateArgumentParseFailed(pos, e))
        case Ok(u) => Prepend([Unit(u)], Lex(t[1..], pos + 1, "", parser))
    else LexBody(t[1..], pos + 1, body + [t[0]], parser)
  }

  /** The parts of a whole template text, or the error that stops parsing. */
  function Tokenize<U>(text: string, parser: string -> Result<U>): Result<seq<Part<U>>> {
    Lex(text, 0, "", parser)
  }

  /** `s` holds neither `$` nor a backslash. */
  predicate Plain(s: string) {
    forall i :: 0 <= i < |s| ==> s[i] != '$' && s[i] != '\\'
  }

  /** `s` holds no closing brace. */
  predicate NoCloseBrace(s: string) {
    forall i :: 0 <= i < |s| ==> s[i] != '}'
  }

  /** `s` holds no backslash and no `$` directly followed by `{`. */
  predicate Inert(s: string) {
    (forall i :: 0 <= i < |s| ==> s[i] != '\\') &&
    (forall i :: 0 <= i < |s| - 1 && s[i] == '$' ==> s[i + 1] != '{')
  }

  /** `s` is a non-empty contiguous slice of `text`. */
  ghost predicate LiteralFrom(text: string, s: string) {
    exists a, b :: 0 <= a < b <= |text| && s == text[a..b]
  }

  /** `u` is what `parser` built from a body lying strictly between a `${`
      and the first `}` after it in `text`. */
  ghost predicate UnitFrom<U>(text: string, parser: string -> Result<U>, u: U) {
    exists a, b :: 2 <= a < b < |text| && text[a - 2] == '$' && text[a - 1] == '{' && text[b] == '}' &&
      NoCloseBrace(text[a..b]) && parser(text[a..b]) == Ok(u)
  }

  /** Every part of `parts` comes out of `text` in one of the two ways above. */
  ghost predicate PartsOf<U>(text: string, parser: string -> Result<U>, parts: seq<Part<U>>) {
    forall k :: 0 <= k < |parts| ==>
      match parts[k]
      case Literal(s) => LiteralFrom(text, s)
      case Unit(u) => UnitFrom(text, parser, u)
  }

  /** The machine in `state` after reading `text[..idx]`, with cursors
      `partStart` and `partFinish` and the parts emitted so far, will end
      with the result `Tokenize` gives for the whole text. */
  ghost predicate Agrees<U>(text: string, parser: string -> Result<U>, parts: seq<Part<U>>,
                            state: ParseState, partStart: nat, partFinish: nat, idx: nat)
  {
    && partStart <= partFinish <= idx <= |text|
    && match state
       case Init =>
         && partStart == partFinish
         && Prepend(parts, Lex(text[idx..], idx, text[partStart..idx], parser)) == Tokenize(text, parser)
       case DollarSign =>
         && 1 <= idx && partFinish == idx - 1 && text[idx - 1] == '$'
         && Prepend(parts, Lex(text[idx - 1..], idx - 1, text[partStart..idx - 1], parser)) == Tokenize(text, parser)
       case BraceStarted =>
         && 2 <= partStart == partFinish
         && text[partStart - 2] == '$' && text[partStart - 1] == '{' && NoCloseBrace(text[partStart..idx])
         && Prepend(parts, LexBody(text[idx..], idx, text[partStart..idx], parser)) == Tokenize(text, parser)
       case BackSlash =>
         && partStart == partFinish
         && Tokenize(text, parser) == Ok(parts + LitIf(text[partStart..idx]))
  }

  /** `templateBase.parseTemplate`.  The Go method collects the parts in a
      local slice and returns only the error: it never stores the parts in
      `tpl.interpolateParts`.  This model returns the local parts alongside
      the outcome so that callers can see what was computed; see
      `TextMap.NewTextMapInterpolationAsWritten` for what the Go caller gets. */
  method ParseTemplate<U>(text: string, parser: string -> Result<U>) returns (r: Result<seq<Part<U>>>)
    ensures r == Tokenize(text, parser)
    ensures r.Ok? ==> PartsOf(text, parser, r.value)
  {
    var parts: seq<Part<U>> := [];
    var state := Init;
    var partStart, partFinish := 0, 0;
    var idx := 0;
    TokenizePartsOf(text, parser);
    StartAgrees(text, parser);
    while idx < |text|
      invariant Agrees(text, parser, parts, state, partStart, partFinish, idx)
    {
      var ch := text[idx];
      match state {
        case Init =>
          if ch == '$' {
            if partStart != idx {
              partFinish := idx;
            }
            StepInit(text, parser, parts, partStart, idx);
            state := DollarSign;
          } else if ch == '\\' {
            StepInit(text, parser, parts, partStart, idx);
            state := BackSlash;
          } else {
            StepInit(text, parser, parts, partStart, idx);
          }
        case DollarSign =>
          StepDollarSign(text, parser, parts, partStart, idx);
          if ch == '{' {
            if partStart != partFinish {
              parts := parts + [Literal(text[partStart..partFinish])];
            }
            partStart := idx + 1;
            partFinish := partStart;
            state := BraceStarted;
          } else {
            partFinish := partStart;
            state := Init;
          }
        case BraceStarted =>
          StepBraceStarted(text, parser, parts, partStart, idx);
          if ch == '}' {
            partFinish := idx;
            if partStart == partFinish {
              return Err(EmptyInterpolateArgument(idx));
            }
            var argText := text[partStart..partFinish];
            var parsed := parser(argText);
            if parsed.Err? {
              return Err(InterpolateArgumentParseFailed(idx, parsed.error));
            } else {
              parts := parts + [Unit(parsed.value)];
            }
            partStart := idx + 1;
            partFinish := partStart;
            state := Init;
          }
        case BackSlash =>
          StepBackSlash(text, parser, parts, partStart, idx);
          partFinish := idx;
          if partStart != partFinish {
            parts := parts + [Literal(text[partStart..partFinish])];
          }
          partStart := idx + 1;
          partFinish := partStart;
      }
      idx := idx + 1;
    }
    Finish(text, parser, parts, state, partStart, partFinish);
    if partStart < |text| {
      parts := parts + [Literal(text[partStart..])];
    }
    return Ok(parts);
  }

  lemma StartAgrees<U>(text: string, parser: string -> Result<U>)
    ensures Agrees(text, parser, [], Init, 0, 0, 0)
  {
    assert text[0..] == text && text[0..0] == "";
    PrependNil(Tokenize(text, parser));
  }

  /** One character read in state Init. */
  lemma StepInit<U>(text: string, parser: string -> Result<U>, parts: seq<Part<U>>, partStart: nat, idx: nat)
    requires idx < |text| && Agrees(text, parser, parts, Init, partStart, partStart, idx)
    ensures text[idx] == '$' ==> Agrees(text, parser, parts, DollarSign, partStart, idx, idx + 1)
    ensures text[idx] == '\\' ==> Agrees(text, parser, parts, BackSlash, partStart, partStart, idx + 1)
    ensures text[idx] != '$' && text[idx] != '\\' ==> Agrees(text, parser, parts, Init, partStart, partStart, idx + 1)
  {
    assert text[idx..][0] == text[idx] && text[idx..][1..] == text[idx + 1..];
    assert text[partStart..idx] + [text[idx]] == text[partStart..idx + 1];
    if text[idx] == '\\' {
      assert text[partStart..idx] + "\\" == text[partStart..idx + 1];
      assert LitIf<U>(text[partStart..idx + 1]) == [Literal(text[partStart..idx + 1])];
    }
  }

  /** One character read in state DollarSign: `{` flushes the literal before
      `$` and opens a body; anything else returns to Init keeping `$` and the
      character in the literal. */
  lemma StepDollarSign<U>(text: string, parser: string -> Result<U>, parts: seq<Part<U>>, partStart: nat, idx: nat)
    requires 1 <= idx < |text| && Agrees(text, parser, parts, DollarSign, partStart, idx - 1, idx)
    ensures text[idx] == '{' && partStart != idx - 1 ==>
      Agrees(text, parser, parts + [Literal(text[partStart..idx - 1])], BraceStarted, idx + 1, idx + 1, idx + 1)
    ensures text[idx] == '{' && partStart == idx - 1 ==>
      Agrees(text, parser, parts, BraceStarted, idx + 1, idx + 1, idx + 1)
    ensures text[idx] != '{' ==> Agrees(text, parser, parts, Init, partStart, partStart, idx + 1)
  {
    var t := text[idx - 1..];
    assert t[0] == '$' && t[1] == text[idx] && t[2..] == text[idx + 1..];
    if text[idx] == '{' {
      var pending := text[partStart..idx - 1];
      PrependAppend(parts, LitIf(pending), LexBody(text[idx + 1..], idx + 1, "", parser));
      assert text[idx + 1..idx + 1] == "";
      if partStart == idx - 1 {
        assert parts + LitIf(pending) == parts;
      }
    } else {
      assert text[partStart..idx - 1] + t[..2] == text[partStart..idx + 1];
    }
  }

  /** One character read in state BraceStarted: `}` closes the body with an
      error or a unit; anything else extends the body. */
  lemma StepBraceStarted<U>(text: string, parser: string -> Result<U>, parts: seq<Part<U>>, partStart: nat, idx: nat)
    requires idx < |text| && Agrees(text, parser, parts, BraceStarted, partStart, partStart, idx)
    ensures text[idx] == '}' && partStart == idx ==> Tokenize(text, parser) == Err(EmptyInterpolateArgument(idx))
    ensures text[idx] == '}' && partStart < idx && parser(text[partStart..idx]).Err? ==>
      Tokenize(text, parser) == Err(InterpolateArgumentParseFailed(idx, parser(text[partStart..idx]).error))
    ensures text[idx] == '}' && partStart < idx && parser(text[partStart..idx]).Ok? ==>
      && 2 <= partStart < idx && text[partStart - 2] == '$' && text[partStart - 1] == '{'
      && NoCloseBrace(text[partStart..idx])
      && Agrees(text, parser, parts + [Unit(parser(text[partStart..idx]).value)], Init, idx + 1, idx + 1, idx + 1)
    ensures text[idx] != '}' ==> Agrees(text, parser, parts, BraceStarted, partStart, partStart, idx + 1)
  {
    assert text[idx..][0] == text[idx] && text[idx..][1..] == text[idx + 1..];
    if text[idx] == '}' {
      if partStart < idx {
        match parser(text[partStart..idx])
        case Ok(u) =>
          PrependAppend(parts, [Unit(u)], Lex(text[idx + 1..], idx + 1, "", parser));
          assert text[idx + 1..idx + 1] == "";
        case Err(_) =>
      }
    } else {
      assert text[partStart..idx] + [text[idx]] == text[partStart..idx + 1];
      NoCloseBraceSnoc(text[partStart..idx], text[idx]);
    }
  }

  /** One character read in state BackSlash, which the machine never leaves. */
  lemma StepBackSlash<U>(text: string, parser: string -> Result<U>, parts: seq<Part<U>>, partStart: nat, idx: nat)
    requires idx < |text| && Agrees(text, parser, parts, BackSlash, partStart, partStart, idx)
    ensures partStart != idx ==>
      Agrees(text, parser, parts + [Literal(text[partStart..idx])], BackSlash, idx + 1, idx + 1, idx + 1)
    ensures partStart == idx ==> Agrees(text, parser, parts, BackSlash, idx + 1, idx + 1, idx + 1)
  {
    assert LitIf<U>(text[idx + 1..idx + 1]) == [];
    if partStart != idx {
      assert parts + [Literal(text[partStart..idx])] + [] == parts + [Literal(text[partStart..idx])];
    } else {
      assert parts + LitIf(text[partStart..idx]) == parts;
      assert parts + [] == parts;
    }
  }

  /** At the end of the text whatever follows `partStart` is the last literal. */
  lemma Finish<U>(text: string, parser: string -> Result<U>, parts: seq<Part<U>>,
                  state: ParseState, partStart: nat, partFinish: nat)
    requires Agrees(text, parser, parts, state, partStart, partFinish, |text|)
    ensures partStart < |text| ==> Tokenize(text, parser) == Ok(parts + [Literal(text[partStart..])])
    ensures partStart >= |text| ==> Tokenize(text, parser) == Ok(parts)
  {
    var idx := |text|;
    var last := text[partStart..];
    assert text[idx..] == [] && text[partStart..idx] == last;
    match state {
      case Init =>
        assert Lex(text[idx..], idx, last, parser) == Ok(LitIf(last));
      case DollarSign =>
        var t := text[idx - 1..];
        assert t == "$" && text[partStart..idx - 1] + "$" == last;
        assert Lex(t, idx - 1, text[partStart..idx - 1], parser) == Ok(LitIf(last));
      case BraceStarted =>
        assert LexBody(text[idx..], idx, last, parser) == Ok(LitIf(last));
      case BackSlash =>
    }
    assert Tokenize(text, parser) == Ok(parts + LitIf(last));
    if partStart >= |text| {
      assert parts + LitIf(last) == parts;
    }
  }

  lemma NoCloseBraceSnoc(s: string, c: char)
    requires NoCloseBrace(s) && c != '}'
    ensures NoCloseBrace(s + [c])
  {
    forall i | 0 <= i < |s + [c]| ensures (s + [c])[i] != '}' {
      if i < |s| { assert (s + [c])[i] == s[i]; }
    }
  }

  lemma PartsOfConcat<U>(text: string, parser: string -> Result<U>, a: seq<Part<U>>, b: seq<Part<U>>)
    requires PartsOf(text, parser, a) && PartsOf(text, parser, b)
    ensures PartsOf(text, parser, a + b)
  {
    forall k | 0 <= k < |a + b|
      ensures match (a + b)[k]
              case Literal(s) => LiteralFrom(text, s)
              case Unit(u) => UnitFrom(text, parser, u)
    {
      if k < |a| { assert (a + b)[k] == a[k]; } else { assert (a + b)[k] == b[k - |a|]; }
    }
  }

  lemma LiteralSlice<U>(text: string, parser: string -> Result<U>, a: nat, b: nat)
    requires a <= b <= |text|
    ensures PartsOf(text, parser, LitIf<U>(text[a..b]))
  {
    if a < b {
      assert LiteralFrom(text, text[a..b]);
    }
  }

  /** Parts produced outside a placeholder, with the pending literal
      starting at `start`, come out of `text`. */
  lemma {:induction false} LexPartsOf<U>(text: string, parser: string -> Result<U>, start: nat, idx: nat)
    requires start <= idx <= |text|
    ensures Lex(text[idx..], idx, text[start..idx], parser).Ok? ==>
              PartsOf(text, parser, Lex(text[idx..], idx, text[start..idx], parser).value)
    decreases |text| - idx, 1
  {
    var t := text[idx..];
    if t == [] {
      LiteralSlice(text, parser, start, idx);
    } else {
      assert t[0] == text[idx] && t[1..] == text[idx + 1..];
      assert text[start..idx] + [text[idx]] == text[start..idx + 1];
      if t[0] == '\\' {
        assert text[start..idx] + "\\" == text[start..idx + 1];
        LiteralSlice(text, parser, start, idx + 1);
      } else if t[0] == '$' {
        if |t| == 1 {
          assert text[start..idx] + "$" == text[start..idx + 1];
          LiteralSlice(text, parser, start, idx + 1);
        } else {
          assert t[1] == text[idx + 1] && t[2..] == text[idx + 2..];
          assert text[start..idx] + t[..2] == text[start..idx + 2];
          if t[1] == '{' {
            assert text[idx + 2..idx + 2] == "";
            LiteralSlice(text, parser, start, idx);
            LexBodyPartsOf(text, parser, idx + 2, idx + 2);
            var r := LexBody(text[idx + 2..], idx + 2, "", parser);
            if r.Ok? {
              PartsOfConcat(text, parser, LitIf(text[start..idx]), r.value);
            }
          } else {
            LexPartsOf(text, parser, start, idx + 2);
          }
        }
      } else {
        LexPartsOf(text, parser, start, idx + 1);
      }
    }
  }

  /** Parts produced inside a placeholder whose body starts at `start`
      come out of `text`. */
  lemma {:induction false} LexBodyPartsOf<U>(text: string, parser: string -> Result<U>, start: nat, idx: nat)
    requires 2 <= start <= idx <= |text| && text[start - 2] == '$' && text[start - 1] == '{'
    requires NoCloseBrace(text[start..idx])
    ensures LexBody(text[idx..], idx, text[start..idx], parser).Ok? ==>
              PartsOf(text, parser, LexBody(text[idx..], idx, text[start..idx], parser).value)
    decreases |text| - idx, 0
  {
    var t := text[idx..];
    if t == [] {
      LiteralSlice(text, parser, start, idx);
    } else {
      assert t[0] == text[idx] && t[1..] == text[idx + 1..];
      if t[0] == '}' {
        if start < idx && parser(text[start..idx]).Ok? {
          var u := parser(text[start..idx]).value;
          assert UnitFrom(text, parser, u);
          assert PartsOf(text, parser, [Unit(u)]);
          assert text[idx + 1..idx + 1] == "";
          LexPartsOf(text, parser, idx + 1, idx + 1);
          var r := Lex(text[idx + 1..], idx + 1, "", parser);
          if r.Ok? {
            PartsOfConcat(text, parser, [Unit(u)], r.value);
          }
        }
      } else {
        assert text[start..idx] + [text[idx]] == text[start..idx + 1];
        NoCloseBraceSnoc(text[start..idx], text[idx]);
        LexBodyPartsOf(text, parser, start, idx + 1);
      }
    }
  }

  /** Every literal part is a non-empty contiguous slice of the template,
      and every unit was built by the parser from the slice strictly between
      a `${` and the first `}` after it. */
  lemma TokenizePartsOf<U>(text: string, parser: string -> Result<U>)
    ensures Tokenize(text, parser).Ok? ==> PartsOf(text, parser, Tokenize(text, parser).value)
  {
    assert text[0..] == text && text[0..0] == "";
    LexPartsOf(text, parser, 0, 0);
  }

  lemma PrependNil<U>(r: Result<seq<Part<U>>>)
    ensures Prepend([], r) == r
  {
    match r
    case Ok(qs) => assert [] + qs == qs;
    case Err(_) =>
  }

  lemma PrependAppend<U>(a: seq<Part<U>>, b: seq<Part<U>>, r: Result<seq<Part<U>>>)
    ensures Prepend(a + b, r) == Prepend(a, Prepend(b, r))
  {
    match r
    case Ok(qs) => assert (a + b) + qs == a + (b + qs);
    case Err(_) =>
  }

  /** Text without special characters is copied into the pending literal. */
  lemma {:induction false} LexPlainPrefix<U>(a: string, rest: string, pos: nat, pending: string, parser: string -> Result<U>)
    requires Plain(a)
    ensures Lex(a + rest, pos, pending, parser) == Lex(rest, pos + |a|, pending + a, parser)
    decreases |a|
  {
    if a == [] {
      assert a + rest == rest && pending + a == pending;
    } else {
      assert (a + rest)[0] == a[0] && (a + rest)[1..] == a[1..] + rest;
      assert pending + [a[0]] + a[1..] == pending + a;
      LexPlainPrefix(a[1..], rest, pos + 1, pending + [a[0]], parser);
    }
  }

  /** A `$` not followed by `{` goes back to scanning plain text: the `$` and
      the character after it, whatever that is, join the pending literal, so
      `$$` and `$\` are literal text. */
  lemma DollarStaysLiteral<U>(a: string, c: char, rest: string, pos: nat, pending: string, parser: string -> Result<U>)
    requires Plain(a) && c != '{'
    ensures Lex(a + ['$', c] + rest, pos, pending, parser) == Lex(rest, pos + |a| + 2, pending + a + ['$', c], parser)
  {
    var t := ['$', c] + rest;
    assert a + ['$', c] + rest == a + t;
    LexPlainPrefix(a, t, pos, pending, parser);
    assert t[2..] == rest && t[..2] == ['$', c];
  }

  /** Inside a placeholder, text without `}` is copied into the body. */
  lemma {:induction false} LexBodyPrefix<U>(b: string, rest: string, pos: nat, body: string, parser: string -> Result<U>)
    requires NoCloseBrace(b)
    ensures LexBody(b + rest, pos, body, parser) == LexBody(rest, pos + |b|, body + b, parser)
    decreases |b|
  {
    if b == [] {
      assert b + rest == rest && body + b == body;
    } else {
      assert (b + rest)[0] == b[0] && (b + rest)[1..] == b[1..] + rest;
      assert body + [b[0]] + b[1..] == body + b;
      LexBodyPrefix(b[1..], rest, pos + 1, body + [b[0]], parser);
    }
  }

  /** Text with no backslash and no `${` is one literal, or nothing when
      empty: bare braces are literal and a `$` not followed by `{` stays in
      the literal together with the character after it. */
  lemma {:induction false} InertLex<U>(t: string, pos: nat, pending: string, parser: string -> Result<U>)
    requires Inert(t)
    ensures Lex(t, pos, pending, parser) == Ok(LitIf(pending + t))
    decreases |t|
  {
    if t == [] {
      assert pending + t == pending;
    } else if t[0] == '$' {
      if |t| > 1 {
        assert Inert(t[2..]) by {
          forall i | 0 <= i < |t[2..]| - 1 && t[2..][i] == '$' ensures t[2..][i + 1] != '{' {
            assert t[2..][i] == t[i + 2] && t[2..][i + 1] == t[i + 3];
          }
        }
        assert pending + t[..2] + t[2..] == pending + t;
        InertLex(t[2..], pos + 2, pending + t[..2], parser);
      } else {
        assert t == "$";
      }
    } else {
      assert Inert(t[1..]) by {
        forall i | 0 <= i < |t[1..]| - 1 && t[1..][i] == '$' ensures t[1..][i + 1] != '{' {
          assert t[1..][i] == t[i + 1] && t[1..][i + 1] == t[i + 2];
        }
      }
      assert pending + [t[0]] + t[1..] == pending + t;
      InertLex(t[1..], pos + 1, pending + [t[0]], parser);
    }
  }

  /** A whole template without backslash and without `${` parses to exactly
      one literal equal to the text, or to no part when the text is empty. */
  lemma InertTemplate<U>(text: string, parser: string -> Result<U>)
    requires Inert(text)
    ensures Tokenize(text, parser) == Ok(if text == [] then [] else [Literal(text)])
  {
    InertLex(text, 0, "", parser);
    assert "" + text == text;
  }

  /** A placeholder after plain text: the text before it becomes a literal
      (if any), its body is handed to the parser unchanged, and either the
      unit is emitted and scanning resumes after `}`, or parsing stops with
      the parser's error and the position of `}`. */
  lemma Placeholder<U>(a: string, b: string, rest: string, pos: nat, pending: string, parser: string -> Result<U>)
    requires Plain(a) && b != [] && NoCloseBrace(b)
    ensures Lex(a + "${" + b + "}" + rest, pos, pending, parser) ==
      match parser(b)
      case Ok(u) => Prepend(LitIf(pending + a) + [Unit(u)], Lex(rest, pos + |a| + |b| + 3, "", parser))
      case Err(e) => Err(InterpolateArgumentParseFailed(pos + |a| + 2 + |b|, e))
  {
    var t := "${" + b + "}" + rest;
    assert a + "${" + b + "}" + rest == a + t;
    LexPlainPrefix(a, t, pos, pending, parser);
    assert t[0] == '$' && t[1] == '{' && t[2..] == b + ("}" + rest);
    LexBodyPrefix(b, "}" + rest, pos + |a| + 2, "", parser);
    assert "" + b == b;
    var s := "}" + rest;
    assert s[0] == '}' && s[1..] == rest;
    match parser(b)
    case Ok(u) =>
      PrependAppend(LitIf(pending + a), [Unit(u)], Lex(rest, pos + |a| + |b| + 3, "", parser));
    case Err(e) =>
  }

  /** A whole template `${x}`, with `x` non-empty and free of `}`, yields the
      one unit the parser builds from exactly `x`, or the parser's error at
      the index of `}`. */
  lemma SinglePlaceholder<U>(x: string, parser: string -> Result<U>)
    requires x != [] && NoCloseBrace(x)
    ensures Tokenize("${" + x + "}", parser) ==
      match parser(x)
      case Ok(u) => Ok([Unit(u)])
      case Err(e) => Err(InterpolateArgumentParseFailed(|x| + 2, e))
  {
    assert "" + "${" + x + "}" + "" == "${" + x + "}";
    Placeholder("", x, "", 0, "", parser);
    assert Lex("", |x| + 3, "", parser) == Ok([]);
    assert LitIf<U>("" + "") == [];
    match parser(x)
    case Ok(u) => assert [] + [Unit(u)] + [] == [Unit(u)];
    case Err(_) =>
  }

  /** `${}` after plain text stops parsing with `EmptyInterpolateArgument` at
      the index of `}`, whatever follows. */
  lemma EmptyPlaceholder<U>(a: string, rest: string, pos: nat, pending: string, parser: string -> Result<U>)
    requires Plain(a)
    ensures Lex(a + "${}" + rest, pos, pending, parser) == Err(EmptyInterpolateArgument(pos + |a| + 2))
  {
    var t := "${}" + rest;
    assert a + "${}" + rest == a + t;
    LexPlainPrefix(a, t, pos, pending, parser);
    assert t[0] == '$' && t[1] == '{' && t[2..] == "}" + rest;
  }

  /** A backslash is a sink: the text up to and including it becomes one
      literal and every later character is dropped, placeholders included. */
  lemma BackslashSink<U>(a: string, rest: string, pos: nat, pending: string, parser: string -> Result<U>)
    requires Plain(a)
    ensures Lex(a + "\\" + rest, pos, pending, parser) == Ok([Literal(pending + a + "\\")])
  {
    var t := "\\" + rest;
    assert a + "\\" + rest == a + t;
    LexPlainPrefix(a, t, pos, pending, parser);
  }

  /** Input that ends inside `${` raises no error: the text before `${` and
      the unfinished body become two literals, not merged, and `${` is lost. */
  lemma Unterminated<U>(a: string, b: string, pos: nat, pending: string, parser: string -> Result<U>)
    requires Plain(a) && NoCloseBrace(b)
    ensures Lex(a + "${" + b, pos, pending, parser) == Ok(LitIf(pending + a) + LitIf(b))
  {
    var t := "${" + b;
    assert a + "${" + b == a + t;
    LexPlainPrefix(a, t, pos, pending, parser);
    assert t[0] == '$' && t[1] == '{' && t[2..] == b + "";
    LexBodyPrefix(b, "", pos + |a| + 2, "", parser);
    assert "" + b == b;
  }

  /** With a parser that never fails, the only way parsing can fail is an
      empty placeholder. */
  lemma {:induction false} NeverFailingParserLex<U>(t: string, pos: nat, pending: string, parser: string -> Result<U>)
    requires forall s :: parser(s).Ok?
    ensures Lex(t, pos, pending, parser).Err? ==> Lex(t, pos, pending, parser).error.EmptyInterpolateArgument?
    decreases |t|, 1
  {
    if t == [] || t[0] == '\\' {
    } else if t[0] == '$' {
      if |t| > 1 {
        if t[1] == '{' {
          NeverFailingParserLexBody(t[2..], pos + 2, "", parser);
        } else {
          NeverFailingParserLex(t[2..], pos + 2, pending + t[..2], parser);
        }
      }
    } else {
      NeverFailingParserLex(t[1..], pos + 1, pending + [t[0]], parser);
    }
  }

  lemma {:induction false} NeverFailingParserLexBody<U>(t: string, pos: nat, body: string, parser: string -> Result<U>)
    requires forall s :: parser(s).Ok?
    ensures LexBody(t, pos, body, parser).Err? ==> LexBody(t, pos, body, parser).error.EmptyInterpolateArgument?
    decreases |t|, 0
  {
    if t == [] {
    } else if t[0] == '}' {
      if body != [] {
        assert parser(body).Ok?;
        NeverFailingParserLex(t[1..], pos + 1, "", parser);
      }
    } else {
      NeverFailingParserLexBody(t[1..], pos + 1, body + [t[0]], parser);
    }
  }
}
