// `_parse_vcard` of the root script: `splitlines`, an unfolder that glues a continuation
// on with all of its leading whitespace dropped, and a scan that matches FN and TEL by the
// prefix of the upper-cased line. Unlike the current converter it keeps TEL lines with a
// blank value or a longer property name, keeps empty type pieces, ignores flag parameters,
// and fails on a TEL line without a colon.
module LegacyParser {
  import opened Wrappers
  import opened Text
  import opened Lists
  import VCard

  // ---------------------------------------------------------------------------
  // str.splitlines
  // ---------------------------------------------------------------------------

  /** The line boundaries of `str.splitlines`. */
  predicate IsLineBreak(c: char)
  {
    || c == '\n' || c == '\r' || c == '\U{0B}' || c == '\U{0C}'
    || ('\U{1C}' <= c <= '\U{1E}')
    || c == '\U{85}' || c == '\U{2028}' || c == '\U{2029}'
  }

  predicate NoLineBreak(s: string)
  {
    forall k :: 0 <= k < |s| ==> !IsLineBreak(s[k])
  }

  /** The position of the first line boundary, or `|s|` when there is none. */
  function LineEnd(s: string): (r: nat)
    ensures r <= |s|
    ensures NoLineBreak(s[..r])
    ensures r < |s| ==> IsLineBreak(s[r])
  {
    if s == [] || IsLineBreak(s[0]) then 0
    else
      var r := 1 + LineEnd(s[1..]);
      assert s[..r] == [s[0]] + s[1..][..r - 1];
      r
  }

  /**
   * `s.splitlines()`: the lines without their boundaries. `\r\n` is a single boundary and a
   * boundary at the very end opens no further line.
   */
  function SplitLines(s: string): (r: seq<string>)
    ensures forall k :: 0 <= k < |r| ==> NoLineBreak(r[k])
    decreases |s|
  {
    if s == [] then []
    else
      var i := LineEnd(s);
      if i == |s| then
        assert s[..i] == s;
        [s]
      else
        var width := if s[i] == '\r' && i + 1 < |s| && s[i + 1] == '\n' then 2 else 1;
        [s[..i]] + SplitLines(s[i + width..])
  }

  /** Each line followed by `\n`. */
  function JoinLines(lines: seq<string>): string
  {
    if lines == [] then [] else lines[0] + "\n" + JoinLines(lines[1..])
  }

  lemma LineEndOf(x: string, c: char, y: string)
    requires NoLineBreak(x) && IsLineBreak(c)
    ensures LineEnd(x + [c] + y) == |x|
    decreases |x|
  {
    if x != [] {
      assert (x + [c] + y)[1..] == x[1..] + [c] + y;
      LineEndOf(x[1..], c, y);
    }
  }

  /** Lines written one per `\n` are split back into the same lines. */
  lemma {:induction false} SplitJoinLines(lines: seq<string>)
    requires forall k :: 0 <= k < |lines| ==> NoLineBreak(lines[k])
    ensures SplitLines(JoinLines(lines)) == lines
  {
    if lines != [] {
      var s := JoinLines(lines);
      var rest := JoinLines(lines[1..]);
      assert s == lines[0] + ['\n'] + rest;
      LineEndOf(lines[0], '\n', rest);
      assert s[..|lines[0]|] == lines[0];
      assert s[|lines[0]| + 1..] == rest;
      SplitJoinLines(lines[1..]);
    }
  }

  /** `\r\n` ends a line the way `\n` does. */
  lemma SplitLinesCrLf(x: string, y: string)
    requires NoLineBreak(x)
    ensures SplitLines(x + "\r\n" + y) == [x] + SplitLines(y)
    ensures SplitLines(x + "\n" + y) == [x] + SplitLines(y)
  {
    var s := x + "\r\n" + y;
    assert s == x + ['\r'] + ("\n" + y);
    LineEndOf(x, '\r', "\n" + y);
    assert s[..|x|] == x && s[|x| + 2..] == y;
    var t := x + "\n" + y;
    assert t == x + ['\n'] + y;
    LineEndOf(x, '\n', y);
    assert t[..|x|] == x && t[|x| + 1..] == y;
  }

  // ---------------------------------------------------------------------------
  // Unfolding
  // ---------------------------------------------------------------------------

  /** The characters that mark a continuation line. */
  predicate IsFoldChar(c: char)
  {
    c == ' ' || c == '\t'
  }

  /** `line.startswith((" ", "\t"))` tests the first character. */
  lemma FoldPrefix(line: string)
    requires line != []
    ensures StartsWith(line, " ") || StartsWith(line, "\t") <==> IsFoldChar(line[0])
  {
    assert StartsWith(line, " ") <==> line[..1] == [' '];
    assert StartsWith(line, "\t") <==> line[..1] == ['\t'];
    assert line[..1] == [line[0]];
  }

  /**
   * One round of the unfolding loop: an empty line is skipped, a line starting with a fold
   * character is joined, left-stripped, to the last logical line, and any other line (or a
   * continuation with nothing before it) starts a new logical line.
   */
  function UnfoldOnto(out: seq<string>, line: string): seq<string>
  {
    if line == [] then out
    else if IsFoldChar(line[0]) && out != [] then out[|out| - 1 := out[|out| - 1] + TrimStart(line)]
    else out + [line]
  }

  /** One more physical line is one step of the unfolding loop. */
  lemma UnfoldStep(lines: seq<string>, line: string)
    ensures Unfold(lines + [line]) == UnfoldOnto(Unfold(lines), line)
  {
    assert (lines + [line])[..|lines|] == lines;
  }

  /**
   * The logical lines of the physical `lines`: empty lines are skipped; a line starting with
   * a space or tab, once some line is kept, is appended to the last one with all leading
   * whitespace dropped; any other line is kept as it is. No kept line is empty, and only the
   * first can start with a space or tab.
   */
  function Unfold(lines: seq<string>): (r: seq<string>)
    ensures |r| <= |lines|
    ensures forall k :: 0 <= k < |r| ==> r[k] != [] && (k > 0 ==> !IsFoldChar(r[k][0]))
  {
    if lines == [] then []
    else UnfoldOnto(Unfold(lines[..|lines| - 1]), lines[|lines| - 1])
  }

  /** The logical lines of a vCard text. */
  function LogicalLines(vcard: string): seq<string>
  {
    Unfold(SplitLines(vcard))
  }

  /** The nested `unfold_lines` of `_parse_vcard`, which tests the fold with `startswith`. */
  method UnfoldLines(vcard: string) returns (out: seq<string>)
    ensures out == LogicalLines(vcard)
  {
    var lines := SplitLines(vcard);
    out := [];
    for i := 0 to |lines|
      invariant out == Unfold(lines[..i])
    {
      var line := lines[i];
      assert lines[..i + 1] == lines[..i] + [line];
      UnfoldStep(lines[..i], line);
      if line == [] {
        continue;
      }
      FoldPrefix(line);
      if (StartsWith(line, " ") || StartsWith(line, "\t")) && out != [] {
        out := out[|out| - 1 := out[|out| - 1] + TrimStart(line)];
      } else {
        out := out + [line];
      }
    }
    assert lines[..|lines|] == lines;
  }

  /** `_unfold_vcard_lines`, the method twin of `unfold_lines`, which tests the first character. */
  method UnfoldVCardLines(vcard: string) returns (out: seq<string>)
    ensures out == LogicalLines(vcard)
  {
    var lines := SplitLines(vcard);
    out := [];
    var i := 0;
    while i < |lines|
      invariant 0 <= i <= |lines|
      invariant out == Unfold(lines[..i])
    {
      var line := lines[i];
      assert lines[..i + 1] == lines[..i] + [line];
      UnfoldStep(lines[..i], line);
      i := i + 1;
      if line != [] {
        if (line[0] == ' ' || line[0] == '\t') && out != [] {
          out := out[|out| - 1 := out[|out| - 1] + TrimStart(line)];
        } else {
          out := out + [line];
        }
      }
    }
    assert lines[..i] == lines;
  }

  /** Lines that are already unfolded come out unchanged. */
  lemma {:induction false} UnfoldUnfolded(lines: seq<string>)
    requires forall k :: 0 <= k < |lines| ==> lines[k] != [] && (k > 0 ==> !IsFoldChar(lines[k][0]))
    ensures Unfold(lines) == lines
  {
    if lines != [] {
      var init := lines[..|lines| - 1];
      assert forall k :: 0 <= k < |init| ==> init[k] == lines[k];
      UnfoldUnfolded(init);
    }
  }

  /** Unfolding twice is unfolding once. */
  lemma UnfoldIdempotent(lines: seq<string>)
    ensures Unfold(Unfold(lines)) == Unfold(lines)
  {
    UnfoldUnfolded(Unfold(lines));
  }

  /**
   * A line folded before a non-blank character is joined back whole: the fold character goes,
   * nothing is inserted in its place.
   */
  lemma UnfoldFolded(lines: seq<string>, head: string, fold: char, tail: string)
    requires head != [] && !IsFoldChar(head[0]) && IsFoldChar(fold)
    requires tail == [] || !IsSpace(tail[0])
    ensures Unfold(lines + [head, [fold] + tail]) == Unfold(lines) + [head + tail]
  {
    var all := lines + [head, [fold] + tail];
    assert all[..|all| - 1] == lines + [head];
    assert (lines + [head])[..|lines|] == lines;
    assert TrimStart([fold] + tail) == tail by {
      assert ([fold] + tail)[1..] == tail;
    }
  }

  // ---------------------------------------------------------------------------
  // One logical line
  // ---------------------------------------------------------------------------

  /** What `IndexError` reports: the TEL line that has no colon. */
  datatype ParseError = IndexError(line: string)

  /** How the scan treats a logical line. */
  datatype LineKind =
    | FullNameLine(value: string)
    | TelLine(entry: VCard.TelEntry)
    | TelWithoutColon
    | OtherLine

  /** `parts[1].strip().split(":", 1)[-1]`: the trimmed value, past its first colon if it has one. */
  function Number(value: string): (r: string)
    ensures EndsWith(Trim(value), r)
    ensures ':' in Trim(value) <==> |r| < |Trim(value)|
  {
    var v := Trim(value);
    if ':' in v then
      var r := After(v, ':');
      assert v[|v| - |r|..] == r;
      r
    else v
  }

  /** A `tel:` style value yields what follows the scheme. */
  lemma NumberAfterScheme(scheme: string, number: string)
    requires ':' !in scheme
    requires Trim(scheme + ":" + number) == scheme + ":" + number
    ensures Number(scheme + ":" + number) == number
  {
    assert scheme + ":" + number == scheme + [':'] + number;
    BeforeAfterAt(scheme, ':', number);
  }

  /**
   * The tags of one parameter: a parameter with `=` gives the pieces of what follows its
   * first `=`, split on `,`, each trimmed and lower-cased, empty pieces included; a parameter
   * without `=` gives none.
   */
  function ParamTags(param: string): (r: seq<string>)
    ensures '=' !in param ==> r == []
    ensures '=' in param ==> |r| == |Split(After(param, '='), ',')|
  {
    if '=' in param then
      var pieces := Split(After(param, '='), ',');
      seq(|pieces|, i requires 0 <= i < |pieces| => Lower(Trim(pieces[i])))
    else []
  }

  /** The type list of the comprehension over `parts[0].split(";")[1:]`. */
  function TelTags(key: string): seq<string>
  {
    FlatMap(Split(key, ';')[1..], ParamTags)
  }

  /** A parameter written `NAME=` gives one empty tag, which is kept. */
  lemma ParamTagsEmptyValue(name: string)
    requires '=' !in name
    ensures ParamTags(name + "=") == [""]
  {
    var p := name + "=";
    assert p == name + ['='] + [];
    BeforeAfterAt(name, '=', []);
    assert Split([], ',') == [[]];
    assert Lower(Trim([])) == [];
    assert ParamTags(p) == [Lower(Trim([]))];
  }

  /**
   * Only the first `=` separates name and value: a value without commas is one tag however
   * many `=` it holds (`TYPE=home=work` gives `home=work`).
   */
  lemma ParamTagsFirstEquals(name: string, value: string)
    requires '=' !in name && ',' !in value
    ensures ParamTags(name + "=" + value) == [Lower(Trim(value))]
  {
    assert name + "=" + value == name + ['='] + value;
    BeforeAfterAt(name, '=', value);
  }

  lemma {:induction false} SplitSnoc(key: string, sep: char, last: string)
    requires sep !in last
    ensures Split(key + [sep] + last, sep) == Split(key, sep) + [last]
    decreases |key|
  {
    var s := key + [sep] + last;
    if sep in key {
      var kb, ka := Before(key, sep), After(key, sep);
      assert s == kb + [sep] + (ka + [sep] + last);
      BeforeAfterAt(kb, sep, ka + [sep] + last);
      SplitSnoc(ka, sep, last);
    } else {
      BeforeAfterAt(key, sep, last);
    }
  }

  /** Tags appear in parameter order: one more parameter appends its tags. */
  lemma TelTagsSnoc(key: string, param: string)
    requires ';' !in param
    ensures TelTags(key + ";" + param) == TelTags(key) + ParamTags(param)
  {
    var pieces := Split(key, ';');
    assert key + ";" + param == key + [';'] + param;
    SplitSnoc(key, ';', param);
    var all := Split(key + ";" + param, ';');
    assert all == pieces + [param];
    assert all[1..] == pieces[1..] + [param];
    FlatMapConcat(pieces[1..], [param], ParamTags);
    FlatMapSingle(param, ParamTags);
  }

  /** A key without `=` (only flag parameters) has no tags. */
  lemma TelTagsWithoutEquals(key: string)
    requires '=' !in key
    ensures TelTags(key) == []
  {
    var pieces := Split(key, ';');
    SplitPiecesLack(key, ';', '=');
    assert forall i :: 0 <= i < |pieces| - 1 ==> pieces[1..][i] == pieces[i + 1];
    FlatMapEmpty(pieces[1..]);
  }

  lemma {:induction false} FlatMapEmpty(params: seq<string>)
    requires forall i :: 0 <= i < |params| ==> '=' !in params[i]
    ensures FlatMap(params, ParamTags) == []
  {
    if params != [] {
      FlatMapEmpty(params[..|params| - 1]);
    }
  }

  /** A character missing from a string is missing from every piece of its split. */
  lemma {:induction false} SplitPiecesLack(s: string, sep: char, c: char)
    requires c !in s
    ensures forall i :: 0 <= i < |Split(s, sep)| ==> c !in Split(s, sep)[i]
    decreases |s|
  {
    if sep in s {
      var b, a := Before(s, sep), After(s, sep);
      assert s == b + [sep] + a;
      SplitPiecesLack(a, sep, c);
      assert Split(s, sep) == [b] + Split(a, sep);
    }
  }

  /** `line.upper().startswith("FN:")` implies a colon in the line itself. */
  lemma FullNamePrefixHasColon(line: string)
    requires StartsWith(Upper(line), "FN:")
    ensures ':' in line
  {
    assert Upper(line)[2] == ':';
    assert UpperChar(line[2]) == ':';
  }

  /**
   * The branch the loop of `_parse_vcard` takes for a line: an FN line records the trimmed
   * text after the first colon; any line whose upper-cased form starts with TEL is a
   * telephone line, which needs a colon.
   */
  function KindOf(line: string): LineKind
  {
    var upper := Upper(line);
    if StartsWith(upper, "FN:") then
      FullNamePrefixHasColon(line);
      FullNameLine(Trim(After(line, ':')))
    else if StartsWith(upper, "TEL") then
      if ':' in line then TelLine(VCard.TelEntry(Number(After(line, ':')), TelTags(Before(line, ':'))))
      else TelWithoutColon
    else OtherLine
  }

  /** A line the scan fails on: it starts with TEL, in any case, and has no colon. */
  predicate TelMissingColon(line: string)
  {
    StartsWith(Upper(line), "TEL") && ':' !in line
  }

  lemma KindOfFails(line: string)
    ensures KindOf(line).TelWithoutColon? <==> TelMissingColon(line)
  {
    if StartsWith(Upper(line), "FN:") {
      FullNamePrefixHasColon(line);
    }
  }

  /**
   * Every line starting with TEL and holding a colon yields an entry, whatever follows TEL in
   * the name (`TELINVALID`) and even when its value is blank.
   */
  lemma KindOfTel(line: string)
    requires StartsWith(Upper(line), "TEL") && ':' in line
    ensures KindOf(line) == TelLine(VCard.TelEntry(Number(After(line, ':')), TelTags(Before(line, ':'))))
  {
    assert Upper(line)[0] == 'T';
  }

  // ---------------------------------------------------------------------------
  // The scan
  // ---------------------------------------------------------------------------

  /** The variables of the loop: `fn` and `tels`. */
  datatype Scan = Scan(fullName: Option<string>, tels: seq<VCard.TelEntry>)

  function ScanLine(st: Scan, line: string): Result<Scan, ParseError>
  {
    match KindOf(line)
    case FullNameLine(value) => Success(st.(fullName := Some(value)))
    case TelLine(entry) => Success(st.(tels := st.tels + [entry]))
    case TelWithoutColon => Failure(IndexError(line))
    case OtherLine => Success(st)
  }

  /** The loop over `lines`, stopped by the first error. */
  function ScanLines(lines: seq<string>): Result<Scan, ParseError>
  {
    if lines == [] then Success(Scan(None, []))
    else match ScanLines(lines[..|lines| - 1])
      case Failure(e) => Failure(e)
      case Success(st) => ScanLine(st, lines[|lines| - 1])
  }

  /** `fn or "Unknown"`: never empty. */
  function NameOf(fullName: Option<string>): (r: string)
    ensures r != []
    ensures fullName.Some? && fullName.value != [] ==> r == fullName.value
    ensures fullName.None? || fullName.value == [] ==> r == "Unknown"
  {
    if fullName.Some? && fullName.value != [] then fullName.value else "Unknown"
  }

  /** What the root script's `_parse_vcard(vcard)` returns, or the error it raises. */
  function Parsed(vcard: string): Result<VCard.Contact, ParseError>
  {
    match ScanLines(LogicalLines(vcard))
    case Failure(e) => Failure(e)
    case Success(st) => Success(VCard.Contact(NameOf(st.fullName), st.tels))
  }

  /** Once the scan has failed, later lines do not change the error. */
  lemma {:induction false} ScanLinesFailureStays(lines: seq<string>, n: nat)
    requires n <= |lines| && ScanLines(lines[..n]).Failure?
    ensures ScanLines(lines) == ScanLines(lines[..n])
    decreases |lines| - n
  {
    if n < |lines| {
      var init := lines[..|lines| - 1];
      assert init[..n] == lines[..n];
      ScanLinesFailureStays(init, n);
    } else {
      assert lines[..n] == lines;
    }
  }

  /** What one line does, case by case, as the loop of `_parse_vcard` tests them. */
  lemma ScanLineCases(st: Scan, line: string)
    ensures StartsWith(Upper(line), "FN:") ==>
              ':' in line && ScanLine(st, line) == Success(st.(fullName := Some(Trim(After(line, ':')))))
    ensures !StartsWith(Upper(line), "FN:") && StartsWith(Upper(line), "TEL") && ':' !in line ==>
              ScanLine(st, line) == Failure(IndexError(line))
    ensures !StartsWith(Upper(line), "FN:") && StartsWith(Upper(line), "TEL") && ':' in line ==>
              ScanLine(st, line) == Success(st.(tels := st.tels + [VCard.TelEntry(Number(After(line, ':')), TelTags(Before(line, ':')))]))
    ensures !StartsWith(Upper(line), "FN:") && !StartsWith(Upper(line), "TEL") ==> ScanLine(st, line) == Success(st)
  {
    var upper := Upper(line);
    if StartsWith(upper, "FN:") {
      FullNamePrefixHasColon(line);
      assert KindOf(line) == FullNameLine(Trim(After(line, ':')));
    } else if StartsWith(upper, "TEL") {
      if ':' in line {
        assert KindOf(line) == TelLine(VCard.TelEntry(Number(After(line, ':')), TelTags(Before(line, ':'))));
      } else {
        assert KindOf(line) == TelWithoutColon;
      }
    } else {
      assert KindOf(line) == OtherLine;
    }
  }

  /** The loop of the root script's `_parse_vcard`. */
  method ParseVCard(vcard: string) returns (r: Result<VCard.Contact, ParseError>)
    ensures r == Parsed(vcard)
  {
    var lines := UnfoldLines(vcard);
    var fn: Option<string> := None;
    var tels: seq<VCard.TelEntry> := [];
    for i := 0 to |lines|
      invariant ScanLines(lines[..i]) == Success(Scan(fn, tels))
    {
      var line := lines[i];
      assert lines[..i + 1][..i] == lines[..i];
      assert ScanLines(lines[..i + 1]) == ScanLine(Scan(fn, tels), line);
      ScanLineCases(Scan(fn, tels), line);
      var upper := Upper(line);
      if StartsWith(upper, "FN:") {
        fn := Some(Trim(After(line, ':')));
      } else if StartsWith(upper, "TEL") {
        if ':' !in line {
          ScanLinesFailureStays(lines, i + 1);
          return Failure(IndexError(line));
        }
        var number := Number(After(line, ':'));
        var types := TelTags(Before(line, ':'));
        tels := tels + [VCard.TelEntry(number, types)];
      }
    }
    assert lines[..|lines|] == lines;
    r := Success(VCard.Contact(NameOf(fn), tels));
  }

  // ---------------------------------------------------------------------------
  // What the scan computes
  // ---------------------------------------------------------------------------

  /** The name an FN line records, and nothing for any other line. */
  function FullNameField(line: string): Option<string>
  {
    match KindOf(line)
    case FullNameLine(value) => Some(value)
    case _ => None
  }

  /** The entry a TEL line with a colon contributes, and nothing for any other line. */
  function TelsOf(line: string): (r: seq<VCard.TelEntry>)
    ensures |r| <= 1
  {
    match KindOf(line)
    case TelLine(entry) => [entry]
    case _ => []
  }

  /** What one line does to each part of the scan, when it does not fail. */
  lemma ScanLineParts(st: Scan, line: string)
    ensures ScanLine(st, line).Failure? <==> TelMissingColon(line)
    ensures ScanLine(st, line).Success? ==>
              ScanLine(st, line).value.fullName == (if FullNameField(line).Some? then FullNameField(line) else st.fullName)
              && ScanLine(st, line).value.tels == st.tels + TelsOf(line)
  {
    KindOfFails(line);
  }

  /** The scan of one more line fails when the scan so far failed or the line starts with TEL and has no colon. */
  lemma ScanLinesSnocFails(lines: seq<string>)
    requires lines != []
    ensures ScanLines(lines).Failure? <==>
              ScanLines(lines[..|lines| - 1]).Failure? || TelMissingColon(lines[|lines| - 1])
  {
    var init := lines[..|lines| - 1];
    if ScanLines(init).Success? {
      ScanLineParts(ScanLines(init).value, lines[|lines| - 1]);
    }
  }

  /** The scan fails exactly when some line starts with TEL and has no colon. */
  lemma {:induction false} ScanLinesFails(lines: seq<string>)
    ensures ScanLines(lines).Failure? <==> Any(lines, TelMissingColon)
    decreases |lines|
  {
    if lines != [] {
      ScanLinesFails(lines[..|lines| - 1]);
      ScanLinesSnocFails(lines);
      AnySnoc(lines, TelMissingColon);
    }
  }

  /**
   * A scan that does not fail leaves in `fn` the value of the last FN line and in `tels` the
   * entry of every TEL line, in order.
   */
  lemma {:induction false} ScanLinesValue(lines: seq<string>)
    requires ScanLines(lines).Success?
    ensures ScanLines(lines).value.fullName == LastSome(lines, FullNameField)
    ensures ScanLines(lines).value.tels == FlatMap(lines, TelsOf)
    decreases |lines|
  {
    if lines != [] {
      var init := lines[..|lines| - 1];
      ScanLinesValue(init);
      ScanLineParts(ScanLines(init).value, lines[|lines| - 1]);
    }
  }

  /**
   * The parsed name is never empty: "Unknown" when no FN line has a non-blank value, else the
   * trimmed value of the last FN line.
   */
  lemma ParsedName(vcard: string)
    ensures Parsed(vcard).Success? ==> Parsed(vcard).value.name != []
    ensures Parsed(vcard).Success? ==>
              var last := LastSome(LogicalLines(vcard), FullNameField);
              Parsed(vcard).value.name == if last.Some? && last.value != [] then last.value else "Unknown"
  {
    if Parsed(vcard).Success? {
      ScanLinesValue(LogicalLines(vcard));
    }
  }

  /** The numbers are the entries of the TEL lines, in order; parsing fails only on a TEL line without colon. */
  lemma ParsedNumbers(vcard: string)
    ensures Parsed(vcard).Failure? <==> Any(LogicalLines(vcard), TelMissingColon)
    ensures Parsed(vcard).Success? ==> Parsed(vcard).value.numbers == FlatMap(LogicalLines(vcard), TelsOf)
  {
    ScanLinesFails(LogicalLines(vcard));
    if Parsed(vcard).Success? {
      ScanLinesValue(LogicalLines(vcard));
    }
  }
}
