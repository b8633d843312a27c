/** The text-map specialisation of textmap.go: placeholders name keys of a
    `map[string]string`, upper-cased at parse time. */
module TextMap {
  import opened Wrappers
  import opened Template
  import opened Render

  /** The data handed to `apply`: Go passes an `interface{}` that is either a
      `map[string]string` or some other dynamic value. */
  datatype Data = TextMapData(entries: map<string, string>) | OtherData

  /** `textMapInterpolationKey`: the upper-cased placeholder body. */
  type Key = string

  /** ASCII upper-casing of one character; other characters are kept. */
  function UpperChar(c: char): char {
    if 'a' <= c <= 'z' then (c as int - 32) as char else c
  }

  predicate IsLowerAscii(c: char) {
    'a' <= c <= 'z'
  }

  /** `strings.ToUpper`, restricted to ASCII letters. */
  function ToUpper(s: string): (r: string)
    ensures |r| == |s|
    ensures forall i :: 0 <= i < |s| ==> r[i] == UpperChar(s[i])
    decreases |s|
  {
    if s == [] then [] else [UpperChar(s[0])] + ToUpper(s[1..])
  }

  /** `textMapInterpolationKey.apply`.  On failure the key itself is the
      partial value. */
  function KeyApply(k: Key, data: Data): (r: (string, Option<Error>))
    ensures data.TextMapData? && k in data.entries ==> r == (data.entries[k], None)
    ensures data.TextMapData? && k !in data.entries ==> r == (k, Some(TextMapInterpolateKeyNotFound(k)))
    ensures data.OtherData? ==> r == (k, Some(CannotConvertDataIntoTextMap))
  {
    match data
    case TextMapData(m) => if k in m then (m[k], None) else (k, Some(TextMapInterpolateKeyNotFound(k)))
    case OtherData => (k, Some(CannotConvertDataIntoTextMap))
  }

  /** `apply` succeeds exactly on a text map holding the key; whenever it
      fails, the partial value it reports is the key. */
  lemma KeyApplyFailsExactlyOnMissingKey(k: Key, data: Data)
    ensures KeyApply(k, data).1.None? <==> data.TextMapData? && k in data.entries
    ensures KeyApply(k, data).1.Some? ==> KeyApply(k, data).0 == k
  {
  }

  /** `textMapInterploateArgumentParser`: never fails and wraps the
      upper-cased body as the key. */
  function ArgumentParser(arg: string): (r: Result<Key>)
    ensures r.Ok? && |r.value| == |arg|
    ensures forall i :: 0 <= i < |arg| ==> r.value[i] == UpperChar(arg[i])
    ensures forall i :: 0 <= i < |arg| ==> !IsLowerAscii(r.value[i])
  {
    Ok(ToUpper(arg))
  }

  /** Parsing a key again gives the same key: keys are already upper case. */
  lemma {:induction false} KeyParseIdempotent(arg: string)
    ensures ArgumentParser(ArgumentParser(arg).value) == ArgumentParser(arg)
  {
    var key := ArgumentParser(arg).value;
    assert ToUpper(key) == key by {
      forall i | 0 <= i < |key| ensures ToUpper(key)[i] == key[i] {
        assert !IsLowerAscii(key[i]);
      }
    }
  }

  /** A text-map entry whose key holds a lower-case letter can never be
      reached by any placeholder. */
  lemma LowerCaseKeyUnreachable(arg: string, k: string)
    requires exists i :: 0 <= i < |k| && IsLowerAscii(k[i])
    ensures ArgumentParser(arg).value != k
  {
    var key := ArgumentParser(arg).value;
    var i :| 0 <= i < |k| && IsLowerAscii(k[i]);
    if i < |key| {
      assert !IsLowerAscii(key[i]) && key[i] != k[i];
    }
  }

  /** Text-map templates fail to parse only on an empty placeholder `${}`. */
  lemma TextMapParseFailsOnlyOnEmptyArgument(templateText: string)
    ensures Tokenize(templateText, ArgumentParser).Err? ==>
              Tokenize(templateText, ArgumentParser).error.EmptyInterpolateArgument?
  {
    NeverFailingParserLex(templateText, 0, "", ArgumentParser);
  }

  /** `TextMapInterpolation`, whose embedded `templateBase` holds the parts. */
  class TextMapInterpolation {
    var interpolateParts: seq<Part<Key>>

    constructor ()
      ensures interpolateParts == []
    {
      interpolateParts := [];
    }

    /** `TextMapInterpolation.Apply`: renders the parts with the text map as
        data (`applyContent` is assumed, see `Render.RenderParts`). */
    method Apply(textMap: map<string, string>, raiseError: bool) returns (r: Result<string>)
      ensures r == RenderParts(interpolateParts, TextMapData(textMap), KeyApply, raiseError)
      ensures !raiseError ==> r.Ok?
      ensures RenderParts(interpolateParts, TextMapData(textMap), KeyApply, true).Ok? ==>
                r == RenderParts(interpolateParts, TextMapData(textMap), KeyApply, true)
    {
      RenderWithoutRaiseSucceeds(interpolateParts, TextMapData(textMap), KeyApply);
      if RenderParts(interpolateParts, TextMapData(textMap), KeyApply, true).Ok? {
        RenderPoliciesAgree(interpolateParts, TextMapData(textMap), KeyApply);
      }
      r := RenderParts(interpolateParts, TextMapData(textMap), KeyApply, raiseError);
    }
  }

  /** `NewTextMapInterpolation` as written: `parseTemplate` drops the parts
      it computed, so a template that parses has no parts at all. */
  method NewTextMapInterpolationAsWritten(templateText: string) returns (r: Result<TextMapInterpolation>)
    ensures r.Ok? <==> Tokenize(templateText, ArgumentParser).Ok?
    ensures r.Err? ==> r.error == Tokenize(templateText, ArgumentParser).error
    ensures r.Ok? ==> r.value.interpolateParts == []
  {
    var tpl := new TextMapInterpolation();
    var parsed := ParseTemplate(templateText, ArgumentParser);
    if parsed.Err? {
      return Err(parsed.error);
    }
    return Ok(tpl);
  }

  /** `NewTextMapInterpolation` with the parts stored in the new template:
      all or nothing, the parse error passed on unchanged. */
  method NewTextMapInterpolation(templateText: string) returns (r: Result<TextMapInterpolation>)
    ensures r.Ok? <==> Tokenize(templateText, ArgumentParser).Ok?
    ensures r.Err? ==> r.error == Tokenize(templateText, ArgumentParser).error
    ensures r.Err? ==> r.error.EmptyInterpolateArgument?
    ensures r.Ok? ==> r.value.interpolateParts == Tokenize(templateText, ArgumentParser).value
  {
    TextMapParseFailsOnlyOnEmptyArgument(templateText);
    var tpl := new TextMapInterpolation();
    var parsed := ParseTemplate(templateText, ArgumentParser);
    if parsed.Err? {
      return Err(parsed.error);
    }
    tpl.interpolateParts := parsed.value;
    return Ok(tpl);
  }

  /** `k` is the first template of `templateTexts` that fails to parse, and
      it fails with `e`. */
  ghost predicate FirstParseFailure(templateTexts: seq<string>, k: int, e: Error) {
    && 0 <= k < |templateTexts|
    && Tokenize(templateTexts[k], ArgumentParser) == Err(e)
    && forall j :: 0 <= j < k ==> Tokenize(templateTexts[j], ArgumentParser).Ok?
  }

  /** `NewTextMapInterpolationSlice`: compiles every text in order and stops
      at the first that fails. */
  method NewTextMapInterpolationSlice(templateTexts: seq<string>) returns (r: Result<seq<TextMapInterpolation>>)
    ensures r.Ok? <==> forall i :: 0 <= i < |templateTexts| ==> Tokenize(templateTexts[i], ArgumentParser).Ok?
    ensures r.Ok? ==> |r.value| == |templateTexts|
    ensures r.Ok? ==> forall i :: 0 <= i < |templateTexts| ==>
              r.value[i].interpolateParts == Tokenize(templateTexts[i], ArgumentParser).value
    ensures r.Err? ==> exists k :: FirstParseFailure(templateTexts, k, r.error)
  {
    var result: seq<TextMapInterpolation> := [];
    var i := 0;
    while i < |templateTexts|
      invariant 0 <= i <= |templateTexts| && |result| == i
      invariant forall j :: 0 <= j < i ==>
                  && Tokenize(templateTexts[j], ArgumentParser).Ok?
                  && result[j].interpolateParts == Tokenize(templateTexts[j], ArgumentParser).value
    {
      var t := NewTextMapInterpolation(templateTexts[i]);
      if t.Err? {
        assert FirstParseFailure(templateTexts, i, t.error);
        return Err(t.error);
      }
      result := result + [t.value];
      i := i + 1;
    }
    return Ok(result);
  }

  /** `NewTextMapInterpolationSlice` as written: it composes the as-written
      constructor, so every template it returns holds no parts. */
  method NewTextMapInterpolationSliceAsWritten(templateTexts: seq<string>) returns (r: Result<seq<TextMapInterpolation>>)
    ensures r.Ok? <==> forall i :: 0 <= i < |templateTexts| ==> Tokenize(templateTexts[i], ArgumentParser).Ok?
    ensures r.Ok? ==> |r.value| == |templateTexts|
    ensures r.Ok? ==> forall i :: 0 <= i < |templateTexts| ==> r.value[i].interpolateParts == []
    ensures r.Err? ==> exists k :: FirstParseFailure(templateTexts, k, r.error)
  {
    var result: seq<TextMapInterpolation> := [];
    var i := 0;
    while i < |templateTexts|
      invariant 0 <= i <= |templateTexts| && |result| == i
      invariant forall j :: 0 <= j < i ==>
                  Tokenize(templateTexts[j], ArgumentParser).Ok? && result[j].interpolateParts == []
    {
      var t := NewTextMapInterpolationAsWritten(templateTexts[i]);
      if t.Err? {
        assert FirstParseFailure(templateTexts, i, t.error);
        return Err(t.error);
      }
      result := result + [t.value];
      i := i + 1;
    }
    return Ok(result);
  }

  /** `tpls[k]` is the first template whose rendering fails, and it fails
      with `e`. */
  ghost predicate FirstRenderFailure(tpls: seq<TextMapInterpolation>, textMap: map<string, string>,
                                     raiseError: bool, k: int, e: Error)
    reads set t | t in tpls
  {
    && 0 <= k < |tpls|
    && RenderParts(tpls[k].interpolateParts, TextMapData(textMap), KeyApply, raiseError) == Err(e)
    && forall j :: 0 <= j < k ==> RenderParts(tpls[j].interpolateParts, TextMapData(textMap), KeyApply, raiseError).Ok?
  }

  /** `TextMapInterpolationSlice.Apply`: renders every template in order and
      stops at the first error. */
  method ApplySlice(tpls: seq<TextMapInterpolation>, textMap: map<string, string>, raiseError: bool)
    returns (r: Result<seq<string>>)
    ensures r.Ok? <==> forall i :: 0 <= i < |tpls| ==>
              RenderParts(tpls[i].interpolateParts, TextMapData(textMap), KeyApply, raiseError).Ok?
    ensures r.Ok? ==> |r.value| == |tpls|
    ensures r.Ok? ==> forall i :: 0 <= i < |tpls| ==>
              RenderParts(tpls[i].interpolateParts, TextMapData(textMap), KeyApply, raiseError) == Ok(r.value[i])
    ensures r.Err? ==> exists k :: FirstRenderFailure(tpls, textMap, raiseError, k, r.error)
    ensures !raiseError ==> r.Ok?
  {
    var result: seq<string> := [];
    var i := 0;
    while i < |tpls|
      invariant 0 <= i <= |tpls| && |result| == i
      invariant forall j :: 0 <= j < i ==>
                  RenderParts(tpls[j].interpolateParts, TextMapData(textMap), KeyApply, raiseError) == Ok(result[j])
    {
      var s := tpls[i].Apply(textMap, raiseError);
      if s.Err? {
        assert FirstRenderFailure(tpls, textMap, raiseError, i, s.error);
        return Err(s.error);
      }
      result := result + [s.value];
      i := i + 1;
    }
    return Ok(result);
  }
}
