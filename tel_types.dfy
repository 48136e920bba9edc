/**
 * Type tags of a TEL property key (`NextcloudWebDAVClient._extract_tel_types`):
 * the values of a TYPE parameter (section 5.6 of RFC 6350), split on commas,
 * and flag-style parameters such as `;HOME`, all lower-cased.
 */
module TelTypeTags {
  import opened Text
  import opened Lists

  /** The tag of one piece of a TYPE value: trimmed and lower-cased, or none when that leaves nothing. */
  function PieceTag(piece: string): (r: seq<string>)
    ensures |r| <= 1
  {
    var t := Lower(Trim(piece));
    if t != [] then [t] else []
  }

  /** The tags of one TYPE value already split on `,`, piece by piece. */
  function TypeValueTags(pieces: seq<string>): seq<string>
  {
    FlatMap(pieces, PieceTag)
  }

  /** The parameter name is TYPE, ignoring case and surrounding whitespace. */
  predicate IsTypeName(name: string)
  {
    Upper(Trim(name)) == "TYPE"
  }

  /** The tags one raw `;`-separated parameter contributes. */
  function ParamTags(raw: string): seq<string>
  {
    var p := Trim(raw);
    if p == [] then []
    else if '=' in p then
      if IsTypeName(Before(p, '=')) then TypeValueTags(Split(After(p, '='), ',')) else []
    else [Lower(p)]
  }

  /** The tags of a list of parameters, parameter by parameter. */
  function ParamsTags(params: seq<string>): seq<string>
  {
    FlatMap(params, ParamTags)
  }

  /** The parameters of a key: the `;`-pieces after the property name, before the first `:`. */
  function Parameters(key: string): seq<string>
  {
    Split(Before(key, ':'), ';')[1..]
  }

  /** What `_extract_tel_types(key)` returns. */
  function TelTypes(key: string): seq<string>
  {
    if key == [] then []
    else
      var tokens := Split(Before(key, ':'), ';');
      if |tokens| <= 1 then [] else ParamsTags(tokens[1..])
  }

  /** The inner loop of `_extract_tel_types`: the tags of one TYPE value, appended to `types`. */
  method AppendTypeValueTags(types: seq<string>, pieces: seq<string>) returns (r: seq<string>)
    ensures r == types + TypeValueTags(pieces)
  {
    r := types;
    var j := 0;
    while j < |pieces|
      invariant 0 <= j <= |pieces|
      invariant r == types + FlatMap(pieces[..j], PieceTag)
    {
      AppendPieceStep(types, pieces, j);
      ghost var before := r;
      var t := Lower(Trim(pieces[j]));
      if t != [] {
        r := r + [t];
      }
      assert r == before + PieceTag(pieces[j]);
      j := j + 1;
    }
    FlatMapPrefixAll(pieces, PieceTag);
  }

  lemma AppendPieceStep(types: seq<string>, pieces: seq<string>, j: nat)
    requires j < |pieces|
    ensures types + FlatMap(pieces[..j + 1], PieceTag)
         == (types + FlatMap(pieces[..j], PieceTag)) + PieceTag(pieces[j])
  {
    FlatMapStep(pieces, j, PieceTag);
    ConcatAssoc(types, FlatMap(pieces[..j], PieceTag), PieceTag(pieces[j]));
  }

  /** The body of the loop of `_extract_tel_types`: the tags of one parameter, appended to `types`. */
  method AppendParamTags(types: seq<string>, raw: string) returns (r: seq<string>)
    ensures r == types + ParamTags(raw)
  {
    r := types;
    var p := Trim(raw);
    if p != [] {
      if '=' in p {
        var paramName, paramValue := Before(p, '='), After(p, '=');
        if IsTypeName(paramName) {
          r := AppendTypeValueTags(r, Split(paramValue, ','));
        }
      } else {
        r := r + [Lower(p)];
      }
    }
  }

  /** The loop of `_extract_tel_types`, collecting tags parameter by parameter. */
  method ExtractTelTypes(key: string) returns (types: seq<string>)
    ensures types == TelTypes(key)
  {
    if key == [] {
      return [];
    }
    var paramsPart := Before(key, ':');
    var tokens := Split(paramsPart, ';');
    if |tokens| <= 1 {
      return [];
    }
    var params := tokens[1..];
    TelTypesOfParameters(key);
    types := [];
    var i := 0;
    while i < |params|
      invariant 0 <= i <= |params|
      invariant types == FlatMap(params[..i], ParamTags)
    {
      FlatMapStep(params, i, ParamTags);
      types := AppendParamTags(types, params[i]);
      i := i + 1;
    }
    FlatMapPrefixAll(params, ParamTags);
  }

  /** With parameters, the tags of a key are those of its parameters, flat-mapped. */
  lemma TelTypesOfParameters(key: string)
    requires key != [] && |Split(Before(key, ':'), ';')| > 1
    ensures TelTypes(key) == FlatMap(Split(Before(key, ':'), ';')[1..], ParamTags)
  {
  }

  /** Tags appear in parameter order: the tags of two runs of parameters are concatenated. */
  lemma ParamsTagsConcat(a: seq<string>, b: seq<string>)
    ensures ParamsTags(a + b) == ParamsTags(a) + ParamsTags(b)
  {
    FlatMapConcat(a, b, ParamTags);
  }

  /** A `NAME=VALUE` parameter whose name is not TYPE contributes nothing: dropping it leaves the tags unchanged. */
  lemma OtherParametersIgnored(a: seq<string>, p: string, b: seq<string>)
    requires '=' in Trim(p) && !IsTypeName(Before(Trim(p), '='))
    ensures ParamsTags(a + [p] + b) == ParamsTags(a + b)
  {
    ParamsTagsConcat(a + [p], b);
    ParamsTagsConcat(a, [p]);
    ParamsTagsConcat(a, b);
    FlatMapSingle(p, ParamTags);
  }

  /** A flag-style parameter (no `=`) is one tag: itself, trimmed and lower-cased. */
  lemma FlagParameterTag(raw: string)
    requires Trim(raw) != [] && '=' !in Trim(raw)
    ensures ParamTags(raw) == [Lower(Trim(raw))]
  {
  }

  /**
   * A TYPE parameter is split at its first `=` only: a value without commas is one tag,
   * however many `=` it holds (`TYPE=HOME=WORK` gives `home=work`).
   */
  lemma TypeParameterFirstEquals(name: string, value: string)
    requires IsTypeName(name) && '=' !in name && ',' !in value && Trim(value) != []
    requires Trim(name + "=" + value) == name + "=" + value
    ensures ParamTags(name + "=" + value) == [Lower(Trim(value))]
  {
    var p := name + "=" + value;
    assert p == name + ['='] + value;
    BeforeAfterAt(name, '=', value);
    assert Split(value, ',') == [value];
    FlatMapSingle(value, PieceTag);
    assert |Lower(Trim(value))| == |Trim(value)|;
  }

  /** Blank parameters contribute nothing. */
  lemma {:induction false} BlankParametersNoTags(params: seq<string>)
    requires forall i :: 0 <= i < |params| ==> IsBlank(params[i])
    ensures ParamsTags(params) == []
    decreases |params|
  {
    if params != [] {
      BlankParametersNoTags(params[..|params| - 1]);
    }
  }

  /**
   * No tags at all for an empty key, for a key without `;` before its first `:`,
   * and for a key whose parameters are all blank.
   */
  lemma NoTags(key: string)
    requires || key == []
             || ';' !in Before(key, ':')
             || (forall i :: 0 <= i < |Parameters(key)| ==> IsBlank(Parameters(key)[i]))
    ensures TelTypes(key) == []
  {
    if key != [] && ';' in Before(key, ':') {
      BlankParametersNoTags(Parameters(key));
    }
  }

  /** A finished tag: non-empty, lower-case and without surrounding whitespace. */
  predicate IsTag(t: string)
  {
    t != [] && IsLowerCase(t) && !IsSpace(t[0]) && !IsSpace(t[|t| - 1])
  }

  /** Lower-casing a trimmed, non-empty string gives a finished tag. */
  lemma LowerTrimIsTag(s: string)
    requires Trim(s) != []
    ensures IsTag(Lower(Trim(s)))
  {
    var t := Trim(s);
    assert !IsSpace(t[0]) && !IsSpace(t[|t| - 1]);
    LowerKeepsEnds(t);
  }

  /** Lower-casing leaves no capital and keeps a non-space at either end. */
  lemma LowerKeepsEnds(t: string)
    requires t != [] && !IsSpace(t[0]) && !IsSpace(t[|t| - 1])
    ensures IsTag(Lower(t))
  {
    assert Lower(t)[0] == LowerChar(t[0]);
    assert Lower(t)[|t| - 1] == LowerChar(t[|t| - 1]);
  }

  lemma PieceTagIsTag(piece: string)
    ensures forall i :: 0 <= i < |PieceTag(piece)| ==> IsTag(PieceTag(piece)[i])
  {
    if Lower(Trim(piece)) != [] {
      LowerTrimIsTag(piece);
    }
  }

  lemma TypeValueTagsAreTags(pieces: seq<string>)
    ensures forall i :: 0 <= i < |TypeValueTags(pieces)| ==> IsTag(TypeValueTags(pieces)[i])
  {
    forall k | 0 <= k < |pieces|
      ensures forall i :: 0 <= i < |PieceTag(pieces[k])| ==> IsTag(PieceTag(pieces[k])[i])
    {
      PieceTagIsTag(pieces[k]);
    }
    FlatMapAll(pieces, PieceTag, IsTag);
  }

  lemma ParamTagsAreTags(raw: string)
    ensures forall i :: 0 <= i < |ParamTags(raw)| ==> IsTag(ParamTags(raw)[i])
  {
    var p := Trim(raw);
    if p != [] {
      if '=' in p {
        TypeValueTagsAreTags(Split(After(p, '='), ','));
      } else {
        TrimIdempotent(raw);
        LowerTrimIsTag(p);
      }
    }
  }

  lemma ParamsTagsAreTags(params: seq<string>)
    ensures forall i :: 0 <= i < |ParamsTags(params)| ==> IsTag(ParamsTags(params)[i])
  {
    forall i | 0 <= i < |params|
      ensures forall j :: 0 <= j < |ParamTags(params[i])| ==> IsTag(ParamTags(params[i])[j])
    {
      ParamTagsAreTags(params[i]);
    }
    FlatMapAll(params, ParamTags, IsTag);
  }

  /** Every extracted tag is non-empty, lower-case and trimmed. */
  lemma TelTypesAreTags(key: string)
    ensures forall i :: 0 <= i < |TelTypes(key)| ==> IsTag(TelTypes(key)[i])
  {
    if key != [] && |Split(Before(key, ':'), ';')| > 1 {
      ParamsTagsAreTags(Split(Before(key, ':'), ';')[1..]);
    }
  }
}
