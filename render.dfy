/** Rendering of a parts sequence against data.

    The Go method `applyContent` that `TextMapInterpolation.Apply` delegates
    to is not part of this model; `RenderParts` is the behaviour assumed for
    it: the parts' `apply` results joined in order; with `raiseError` the
    first failing part's error is the result; without it a failing part is
    rendered as `${` + its partial value + `}`.
 */
module Render {
  import opened Wrappers
  import opened Template

  /** `apply` of one part: a `literalInterpolateApply` yields its text for
      any data and never fails; a unit defers to the resolver's `apply`. */
  function ApplyPart<U, D>(p: Part<U>, data: D, apply: (U, D) -> (string, Option<Error>)): (r: (string, Option<Error>))
    ensures p.Literal? ==> r == (p.text, None)
    ensures p.Unit? ==> r == apply(p.unit, data)
  {
    match p
    case Literal(s) => (s, None)
    case Unit(u) => apply(u, data)
  }

  /** `Ok(x)` and `Ok(y)` give `Ok(x + y)`; otherwise the first error. */
  function Join(r1: Result<string>, r2: Result<string>): Result<string> {
    match r1
    case Err(e) => Err(e)
    case Ok(x) => match r2 case Err(e) => Err(e) case Ok(y) => Ok(x + y)
  }

  /** The text of one part in the output, when rendering goes on past it. */
  function Piece(a: (string, Option<Error>)): string {
    if a.1.Some? then "${" + a.0 + "}" else a.0
  }

  function RenderParts<U, D>(parts: seq<Part<U>>, data: D, apply: (U, D) -> (string, Option<Error>),
                             raiseError: bool): Result<string>
    decreases |parts|
  {
    if parts == [] then Ok("")
    else
      var a := ApplyPart(parts[0], data, apply);
      if a.1.Some? && raiseError then Err(a.1.value)
      else Join(Ok(Piece(a)), RenderParts(parts[1..], data, apply, raiseError))
  }

  /** Rendering a concatenation renders the two halves and joins them. */
  lemma {:induction false} RenderAppend<U, D>(p: seq<Part<U>>, q: seq<Part<U>>, data: D,
                                              apply: (U, D) -> (string, Option<Error>), raiseError: bool)
    ensures RenderParts(p + q, data, apply, raiseError) ==
            Join(RenderParts(p, data, apply, raiseError), RenderParts(q, data, apply, raiseError))
    decreases |p|
  {
    if p == [] {
      assert p + q == q;
      match RenderParts(q, data, apply, raiseError)
      case Ok(y) => assert "" + y == y;
      case Err(_) =>
    } else {
      assert (p + q)[0] == p[0] && (p + q)[1..] == p[1..] + q;
      RenderAppend(p[1..], q, data, apply, raiseError);
      match RenderParts(p[1..], data, apply, raiseError)
      case Err(_) =>
      case Ok(x) =>
        match RenderParts(q, data, apply, raiseError)
        case Err(_) =>
        case Ok(y) =>
          var a := ApplyPart(p[0], data, apply);
          assert Piece(a) + (x + y) == (Piece(a) + x) + y;
    }
  }

  /** Without `raiseError` rendering never fails. */
  lemma {:induction false} RenderWithoutRaiseSucceeds<U, D>(parts: seq<Part<U>>, data: D,
                                                           apply: (U, D) -> (string, Option<Error>))
    ensures RenderParts(parts, data, apply, false).Ok?
    decreases |parts|
  {
    if parts != [] {
      RenderWithoutRaiseSucceeds(parts[1..], data, apply);
    }
  }

  /** With `raiseError`, rendering fails exactly when some part fails, and
      then with the error of the first part that fails. */
  lemma {:induction false} RenderRaiseFirstError<U, D>(parts: seq<Part<U>>, data: D,
                                                      apply: (U, D) -> (string, Option<Error>))
    ensures RenderParts(parts, data, apply, true).Ok? <==>
            forall k :: 0 <= k < |parts| ==> ApplyPart(parts[k], data, apply).1.None?
    ensures RenderParts(parts, data, apply, true).Err? ==>
            exists k :: 0 <= k < |parts| && ApplyPart(parts[k], data, apply).1 == Some(RenderParts(parts, data, apply, true).error) &&
              forall j :: 0 <= j < k ==> ApplyPart(parts[j], data, apply).1.None?
    decreases |parts|
  {
    if parts != [] {
      RenderRaiseFirstError(parts[1..], data, apply);
      var r := RenderParts(parts, data, apply, true);
      if ApplyPart(parts[0], data, apply).1.None? {
        assert forall k :: 1 <= k < |parts| ==> parts[k] == parts[1..][k - 1];
        if r.Err? {
          var k' :| 0 <= k' < |parts[1..]| && ApplyPart(parts[1..][k'], data, apply).1 == Some(r.error) &&
            forall j :: 0 <= j < k' ==> ApplyPart(parts[1..][j], data, apply).1.None?;
          assert forall j :: 0 <= j < k' + 1 ==> ApplyPart(parts[j], data, apply).1.None? by {
            forall j | 0 <= j < k' + 1 ensures ApplyPart(parts[j], data, apply).1.None? {
              if j > 0 { assert parts[j] == parts[1..][j - 1]; }
            }
          }
          assert ApplyPart(parts[k' + 1], data, apply).1 == Some(r.error);
        }
      }
    }
  }

  /** When nothing fails, the two error policies render the same text. */
  lemma {:induction false} RenderPoliciesAgree<U, D>(parts: seq<Part<U>>, data: D,
                                                    apply: (U, D) -> (string, Option<Error>))
    requires RenderParts(parts, data, apply, true).Ok?
    ensures RenderParts(parts, data, apply, false) == RenderParts(parts, data, apply, true)
    decreases |parts|
  {
    if parts != [] {
      RenderPoliciesAgree(parts[1..], data, apply);
    }
  }
}
