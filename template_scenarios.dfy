/** The parse scenarios of template_test.go, with its identity mock parser,
    and what the tokenizer does with backslash escapes.  Each scenario takes
    its template text as a parameter fixed by `requires` (or builds it from
    pieces) rather than writing the literal inside the calls, because the
    verifier unfolds the tokenizer over a long string literal at great
    cost. */
module TemplateScenarios {
  import opened Wrappers
  import opened Template

  /** `mockInterpolateApplyCallableN`: remembers the body it was built from. */
  datatype MockCallable = MockCallable(arg: string)

  /** `mockInterpolateArgParserN`: accepts every body. */
  function MockParser(arg: string): Result<MockCallable> {
    Ok(MockCallable(arg))
  }

  /** Test case N0: `${ABCdEf}` is one unit built from `ABCdEf`. */
  lemma CaseN0(text: string)
    requires text == "${ABCdEf}"
    ensures Tokenize(text, MockParser) == Ok([Unit(MockCallable("ABCdEf"))])
  {
    assert "${" + "ABCdEf" + "}" == text;
    SinglePlaceholder("ABCdEf", MockParser);
  }

  /** Test case N1: `${ABCdEf}123` is a unit then the literal `123`. */
  lemma CaseN1(text: string)
    requires text == "${ABCdEf}123"
    ensures Tokenize(text, MockParser) == Ok([Unit(MockCallable("ABCdEf")), Literal("123")])
  {
    var body, rest := "ABCdEf", "123";
    assert text == "" + "${" + body + "}" + rest;
    assert Plain("") && NoCloseBrace(body) && Inert(rest);
    Placeholder("", body, rest, 0, "", MockParser);
    InertLex(rest, 9, "", MockParser);
    assert "" + rest == rest && |rest| == 3;
    assert LitIf<MockCallable>("" + "") == [] && LitIf<MockCallable>("" + rest) == [Literal(rest)];
    assert [] + [Unit(MockCallable(body))] + [Literal(rest)] == [Unit(MockCallable("ABCdEf")), Literal("123")];
  }

  /** Test case N2: `Abc${dEf}123` is literal `Abc`, unit `dEf`, literal `123`. */
  lemma CaseN2(text: string)
    requires text == "Abc${dEf}123"
    ensures Tokenize(text, MockParser) == Ok([Literal("Abc"), Unit(MockCallable("dEf")), Literal("123")])
  {
    var lit, body, rest := "Abc", "dEf", "123";
    assert text == lit + "${" + body + "}" + rest;
    assert Plain(lit) && NoCloseBrace(body) && Inert(rest);
    Placeholder(lit, body, rest, 0, "", MockParser);
    InertLex(rest, 9, "", MockParser);
    assert "" + rest == rest && |rest| == 3 && "" + lit == lit && |lit| == 3;
    assert LitIf<MockCallable>("" + lit) == [Literal(lit)] && LitIf<MockCallable>("" + rest) == [Literal(rest)];
    assert [Literal(lit)] + [Unit(MockCallable(body))] + [Literal(rest)] ==
           [Literal("Abc"), Unit(MockCallable("dEf")), Literal("123")];
  }

  /** Braces without `$` are literal, but a backslash keeps itself and drops
      the rest of the text: `{dEf}123{Ghi}GK\$ABC` is the single literal
      `{dEf}123{Ghi}GK\`. */
  lemma EscapedDollarDropsRest(text: string)
    requires text == "{dEf}123{Ghi}GK\\$ABC"
    ensures Tokenize(text, MockParser) == Ok([Literal("{dEf}123{Ghi}GK\\")])
  {
    var lit, tail := "{dEf}123{Ghi}GK", "$ABC";
    assert text == lit + "\\" + tail;
    assert Plain(lit);
    BackslashSink(lit, tail, 0, "", MockParser);
    assert "" + lit + "\\" == "{dEf}123{Ghi}GK\\";
  }

  /** A placeholder before a backslash is parsed; an escaped `${...}` after
      it is dropped together with everything else after the backslash. */
  lemma EscapedPlaceholderDropped(text: string)
    requires text == "123${Ghi}GK\\${defghi}"
    ensures Tokenize(text, MockParser) == Ok([Literal("123"), Unit(MockCallable("Ghi")), Literal("GK\\")])
  {
    var lit1, body, lit2, tail := "123", "Ghi", "GK", "${defghi}";
    var rest := lit2 + "\\" + tail;
    assert text == lit1 + "${" + body + "}" + rest;
    assert Plain(lit1) && NoCloseBrace(body) && Plain(lit2);
    assert "" + lit2 + "\\" == "GK\\";
    assert "" + lit1 == lit1 && |lit1| == 3;
    assert LitIf<MockCallable>("" + lit1) == [Literal(lit1)];
    assert [Literal(lit1)] + [Unit(MockCallable(body))] + [Literal("GK\\")] ==
           [Literal("123"), Unit(MockCallable("Ghi")), Literal("GK\\")];
    Placeholder(lit1, body, rest, 0, "", MockParser);
    BackslashSink(lit2, tail, 9, "", MockParser);
  }
}
