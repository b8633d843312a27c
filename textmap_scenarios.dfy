/** The scenarios of textmap_test.go: one template and a slice of templates
    rendered against the same text map, and what the package as written
    renders for them.  Template texts are fixed by `requires` or built from
    pieces rather than written as literals inside the calls, because the
    verifier unfolds the tokenizer over a long string literal at great
    cost. */
module TextMapScenarios {
  import opened Wrappers
  import opened Template
  import opened Render
  import opened TextMap

  /** The text map of both tests; its keys are upper-case. */
  const TestMap: map<string, string> := map["DEF" := "-www-", "JK" := "[JP-Skrt]"]

  /** Plain text, a placeholder, then whatever `rest` tokenizes to: the
      text becomes a literal and the body an upper-cased key. */
  lemma KeyThen(lit: string, key: string, rest: string, pos: nat, tail: seq<Part<Key>>)
    requires Plain(lit) && key != [] && NoCloseBrace(key)
    requires Lex(rest, pos + |lit| + |key| + 3, "", ArgumentParser) == Ok(tail)
    ensures Lex(lit + "${" + key + "}" + rest, pos, "", ArgumentParser) ==
            Ok(LitIf(lit) + [Unit(ToUpper(key))] + tail)
  {
    Placeholder(lit, key, rest, pos, "", ArgumentParser);
    assert "" + lit == lit;
  }

  /** The tail `Ghi${JK}L` of the first template, read from index 9. */
  lemma ParseGhiJKL(rest: string)
    requires rest == "Ghi${JK}L"
    ensures Lex(rest, 9, "", ArgumentParser) == Ok([Literal("Ghi"), Unit("JK"), Literal("L")])
  {
    var lit, key, tail := rest[..3], rest[5..7], rest[8..];
    assert rest == lit + "${" + key + "}" + tail by {
      assert rest == rest[..3] + rest[3..5] + rest[5..7] + rest[7..8] + rest[8..];
      assert rest[3..5] == "${" && rest[7..8] == "}";
    }
    assert lit == "Ghi" && key == "JK" && tail == "L";
    assert Plain(lit) && NoCloseBrace(key) && Inert(tail);
    var up := ToUpper(key);
    assert up == "JK" by {
      assert up[0] == 'J' && up[1] == 'K';
    }
    InertLex(tail, 17, "", ArgumentParser);
    assert "" + tail == tail && LitIf<Key>(tail) == [Literal(tail)];
    KeyThen(lit, key, tail, 9, [Literal(tail)]);
    assert LitIf<Key>(lit) == [Literal(lit)];
    assert [Literal(lit)] + [Unit(up)] + [Literal(tail)] == [Literal("Ghi"), Unit("JK"), Literal("L")];
  }

  /** `Abc${dEf}Ghi${JK}L` parses into two literals around each key, the
      keys upper-cased. */
  lemma ParseD1(a: string, k1: string, b: string, k2: string, c: string)
    requires a == "Abc" && k1 == "dEf" && b == "Ghi" && k2 == "JK" && c == "L"
    ensures Tokenize(a + "${" + k1 + "}" + b + "${" + k2 + "}" + c, ArgumentParser) ==
            Ok([Literal("Abc"), Unit("DEF"), Literal("Ghi"), Unit("JK"), Literal("L")])
  {
    var rest := b + "${" + k2 + "}" + c;
    assert a + "${" + k1 + "}" + b + "${" + k2 + "}" + c == a + "${" + k1 + "}" + rest;
    var tail := [Literal("Ghi"), Unit("JK"), Literal("L")];
    ParseGhiJKL(rest);
    assert Plain(a) && NoCloseBrace(k1);
    KeyThen(a, k1, rest, 0, tail);
    assert ToUpper(k1) == "DEF" by {
      var up := ToUpper(k1);
      assert up[0] == 'D' && up[1] == 'E' && up[2] == 'F';
    }
    assert LitIf<Key>(a) + [Unit("DEF")] + tail ==
           [Literal("Abc"), Unit("DEF"), Literal("Ghi"), Unit("JK"), Literal("L")];
  }

  /** `Mno${dEf}` parses into a literal and the key `DEF`. */
  lemma ParseMno(text: string)
    requires text == "Mno${dEf}"
    ensures Tokenize(text, ArgumentParser) == Ok([Literal("Mno"), Unit("DEF")])
  {
    var lit, key := "Mno", "dEf";
    assert text == lit + "${" + key + "}" + "";
    assert Plain(lit) && NoCloseBrace(key);
    var up := ArgumentParser(key).value;
    assert up == "DEF" by {
      assert up[0] == 'D' && up[1] == 'E' && up[2] == 'F';
    }
    assert "" + lit == lit && |lit| == 3;
    assert LitIf<Key>(lit) == [Literal(lit)];
    assert LitIf<Key>("" + lit) + [Unit(up)] == [Literal(lit), Unit(up)];
    assert [Literal(lit), Unit(up)] + [] == [Literal("Mno"), Unit("DEF")];
    Placeholder(lit, key, "", 0, "", ArgumentParser);
    assert Lex("", 9, "", ArgumentParser) == Ok([]);
  }

  /** `${JK}` parses into the single key `JK`. */
  lemma ParseJK(text: string)
    requires text == "${JK}"
    ensures Tokenize(text, ArgumentParser) == Ok([Unit("JK")])
  {
    var key := "JK";
    assert text == "${" + key + "}";
    var up := ArgumentParser(key).value;
    assert up == "JK" by {
      assert up[0] == 'J' && up[1] == 'K';
    }
    SinglePlaceholder(key, ArgumentParser);
  }

  /** `WWW` is a single literal. */
  lemma ParseWWW(text: string)
    requires text == "WWW"
    ensures Tokenize(text, ArgumentParser) == Ok([Literal("WWW")])
  {
    assert Inert(text);
    InertTemplate(text, ArgumentParser);
  }

  /** Rendering the parts of `Ghi${JK}L` against the test map. */
  lemma RenderGhiJKL(parts: seq<Part<Key>>)
    requires parts == [Literal("Ghi"), Unit("JK"), Literal("L")]
    ensures RenderParts(parts, TextMapData(TestMap), KeyApply, true) == Ok("Ghi[JP-Skrt]L")
  {
    var d := TextMapData(TestMap);
    assert "JK" in TestMap && TestMap["JK"] == "[JP-Skrt]";
    assert parts[2..][1..] == parts[3..] == [];
    assert "L" + "" == "L";
    assert RenderParts(parts[2..], d, KeyApply, true) == Ok("L");
    assert parts[1..][1..] == parts[2..];
    assert RenderParts(parts[1..], d, KeyApply, true) == Ok("[JP-Skrt]" + "L");
    assert "Ghi" + ("[JP-Skrt]" + "L") == "Ghi[JP-Skrt]L";
  }

  /** Rendering `Abc${dEf}Ghi${JK}L`'s parts against the test map, raising
      errors, substitutes both keys. */
  lemma RenderD1(parts: seq<Part<Key>>)
    requires parts == [Literal("Abc"), Unit("DEF"), Literal("Ghi"), Unit("JK"), Literal("L")]
    ensures RenderParts(parts, TextMapData(TestMap), KeyApply, true) == Ok("Abc-www-Ghi[JP-Skrt]L")
  {
    var d := TextMapData(TestMap);
    assert "DEF" in TestMap && TestMap["DEF"] == "-www-";
    RenderGhiJKL(parts[2..]);
    assert parts[1..][1..] == parts[2..];
    assert RenderParts(parts[1..], d, KeyApply, true) == Ok("-www-" + "Ghi[JP-Skrt]L");
    assert "Abc" + ("-www-" + "Ghi[JP-Skrt]L") == "Abc-www-Ghi[JP-Skrt]L";
  }

  /** Rendering `Mno${dEf}`'s parts against the test map. */
  lemma RenderMno(parts: seq<Part<Key>>)
    requires parts == [Literal("Mno"), Unit("DEF")]
    ensures RenderParts(parts, TextMapData(TestMap), KeyApply, true) == Ok("Mno-www-")
  {
    var d := TextMapData(TestMap);
    assert "DEF" in TestMap && TestMap["DEF"] == "-www-";
    assert parts[1..][1..] == parts[2..] == [];
    assert "-www-" + "" == "-www-";
    assert RenderParts(parts[1..], d, KeyApply, true) == Ok("-www-");
    assert "Mno" + "-www-" == "Mno-www-";
  }

  /** Rendering `${JK}`'s parts against the test map. */
  lemma RenderJK(parts: seq<Part<Key>>)
    requires parts == [Unit("JK")]
    ensures RenderParts(parts, TextMapData(TestMap), KeyApply, true) == Ok("[JP-Skrt]")
  {
    assert "JK" in TestMap && TestMap["JK"] == "[JP-Skrt]";
    assert parts[1..] == [];
    assert "[JP-Skrt]" + "" == "[JP-Skrt]";
  }

  /** Rendering `WWW`'s parts against the test map. */
  lemma RenderWWW(parts: seq<Part<Key>>)
    requires parts == [Literal("WWW")]
    ensures RenderParts(parts, TextMapData(TestMap), KeyApply, true) == Ok("WWW")
  {
    assert parts[1..] == [];
    assert "WWW" + "" == "WWW";
  }

  /** `TestTextMapInterpolationD1`, with the parts kept by the template:
      `Abc${dEf}Ghi${JK}L` renders to `Abc-www-Ghi[JP-Skrt]L`. */
  method TextMapInterpolationD1() returns (r: Result<string>)
    ensures r == Ok("Abc-www-Ghi[JP-Skrt]L")
  {
    var a, k1, b, k2, c := "Abc", "dEf", "Ghi", "JK", "L";
    var text := a + "${" + k1 + "}" + b + "${" + k2 + "}" + c;
    ParseD1(a, k1, b, k2, c);
    var inst := NewTextMapInterpolation(text);
    assert inst.Ok?;
    RenderD1(inst.value.interpolateParts);
    r := inst.value.Apply(TestMap, true);
  }

  /** `TestTextMapInterpolationD1` against the package as written: the
      template parses, but it was given no parts, so it renders the empty
      text instead of `Abc-www-Ghi[JP-Skrt]L`. */
  method TextMapInterpolationD1AsWritten() returns (r: Result<string>)
    ensures r == Ok("")
    ensures r != Ok("Abc-www-Ghi[JP-Skrt]L")
  {
    var a, k1, b, k2, c := "Abc", "dEf", "Ghi", "JK", "L";
    var text := a + "${" + k1 + "}" + b + "${" + k2 + "}" + c;
    ParseD1(a, k1, b, k2, c);
    var inst := NewTextMapInterpolationAsWritten(text);
    assert inst.Ok?;
    r := inst.value.Apply(TestMap, true);
  }

  /** The parse half of `TestTextMapInterpolationSliceD1`: the texts
      `Abc${dEf}Ghi${JK}L`, `Mno${dEf}`, `${JK}` and `WWW` compile, in order,
      into templates that each render to the expected text. */
  method ParseSliceD1() returns (tpls: seq<TextMapInterpolation>)
    ensures |tpls| == 4
    ensures RenderParts(tpls[0].interpolateParts, TextMapData(TestMap), KeyApply, true) == Ok("Abc-www-Ghi[JP-Skrt]L")
    ensures RenderParts(tpls[1].interpolateParts, TextMapData(TestMap), KeyApply, true) == Ok("Mno-www-")
    ensures RenderParts(tpls[2].interpolateParts, TextMapData(TestMap), KeyApply, true) == Ok("[JP-Skrt]")
    ensures RenderParts(tpls[3].interpolateParts, TextMapData(TestMap), KeyApply, true) == Ok("WWW")
  {
    var a, k1, b, k2, c := "Abc", "dEf", "Ghi", "JK", "L";
    var texts := [a + "${" + k1 + "}" + b + "${" + k2 + "}" + c, "Mno${dEf}", "${JK}", "WWW"];
    ParseD1(a, k1, b, k2, c);
    ParseMno(texts[1]);
    ParseJK(texts[2]);
    ParseWWW(texts[3]);
    assert forall i :: 0 <= i < |texts| ==> Tokenize(texts[i], ArgumentParser).Ok? by {
      forall i | 0 <= i < |texts| ensures Tokenize(texts[i], ArgumentParser).Ok? {
        assert i == 0 || i == 1 || i == 2 || i == 3;
      }
    }
    var inst := NewTextMapInterpolationSlice(texts);
    tpls := inst.value;
    RenderD1(tpls[0].interpolateParts);
    RenderMno(tpls[1].interpolateParts);
    RenderJK(tpls[2].interpolateParts);
    RenderWWW(tpls[3].interpolateParts);
  }

  /** `TestTextMapInterpolationSliceD1`, with the parts kept by each template:
      the slice renders to the four expected texts. */
  method TextMapInterpolationSliceD1() returns (r: Result<seq<string>>)
    ensures r == Ok(["Abc-www-Ghi[JP-Skrt]L", "Mno-www-", "[JP-Skrt]", "WWW"])
  {
    var tpls := ParseSliceD1();
    r := ApplySlice(tpls, TestMap, true);
    assert r.Ok? by {
      forall i | 0 <= i < |tpls|
        ensures RenderParts(tpls[i].interpolateParts, TextMapData(TestMap), KeyApply, true).Ok?
      {
        assert i == 0 || i == 1 || i == 2 || i == 3;
      }
    }
    var out := r.value;
    assert out == [out[0], out[1], out[2], out[3]];
  }

  /** `TestTextMapInterpolationSliceD1` with the code as written: every
      template holds no parts, so the slice renders four empty texts instead
      of the expected ones. */
  method TextMapInterpolationSliceD1AsWritten() returns (r: Result<seq<string>>)
    ensures r == Ok(["", "", "", ""])
    ensures r != Ok(["Abc-www-Ghi[JP-Skrt]L", "Mno-www-", "[JP-Skrt]", "WWW"])
  {
    var a, k1, b, k2, c := "Abc", "dEf", "Ghi", "JK", "L";
    var texts := [a + "${" + k1 + "}" + b + "${" + k2 + "}" + c, "Mno${dEf}", "${JK}", "WWW"];
    ParseD1(a, k1, b, k2, c);
    ParseMno(texts[1]);
    ParseJK(texts[2]);
    ParseWWW(texts[3]);
    assert forall i :: 0 <= i < |texts| ==> Tokenize(texts[i], ArgumentParser).Ok? by {
      forall i | 0 <= i < |texts| ensures Tokenize(texts[i], ArgumentParser).Ok? {
        assert i == 0 || i == 1 || i == 2 || i == 3;
      }
    }
    var inst := NewTextMapInterpolationSliceAsWritten(texts);
    var tpls := inst.value;
    r := ApplySlice(tpls, TestMap, true);
    assert r.Ok? by {
      forall i | 0 <= i < |tpls|
        ensures RenderParts(tpls[i].interpolateParts, TextMapData(TestMap), KeyApply, true).Ok?
      {
        assert tpls[i].interpolateParts == [];
      }
    }
    var out := r.value;
    assert out == [out[0], out[1], out[2], out[3]];
  }
}
