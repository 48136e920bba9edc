/**
 * Line unfolding of the newer converter (`NextcloudWebDAVClient._unfold_lines` and the
 * line splitting that precedes it in `_parse_vcard`): CR/LF normalisation, the
 * property-start pattern `^[A-Za-z0-9\-]+(?:;.*)?:`, and the joining of continuation
 * lines, a variant of the folding of section 3.2 of RFC 6350.
 */
module Folding {
  import opened Text
  import opened Lists

  // ---------------------------------------------------------------------------
  // Physical lines
  // ---------------------------------------------------------------------------

  /** `s.replace("\r\n", "\n")`. */
  function ReplaceCrLf(s: string): (r: string)
    ensures |r| <= |s|
    decreases |s|
  {
    if s == [] then []
    else if |s| >= 2 && s[0] == '\r' && s[1] == '\n' then "\n" + ReplaceCrLf(s[2..])
    else [s[0]] + ReplaceCrLf(s[1..])
  }

  /** `s.replace("\r", "\n")`. */
  function ReplaceCr(s: string): string
  {
    seq(|s|, i requires 0 <= i < |s| => if s[i] == '\r' then '\n' else s[i])
  }

  /** The line-ending normalisation of `_parse_vcard`: CRLF first, then a lone CR, become LF. */
  function NormalizeNewlines(s: string): (r: string)
    ensures '\r' !in r
  {
    var t := ReplaceCr(ReplaceCrLf(s));
    assert forall i :: 0 <= i < |t| ==> t[i] != '\r';
    t
  }

  /** The physical lines `_parse_vcard` hands to the unfolder. */
  function PhysicalLines(vcard: string): (r: seq<string>)
    ensures |r| >= 1
    ensures forall i :: 0 <= i < |r| ==> '\n' !in r[i] && '\r' !in r[i]
  {
    var n := NormalizeNewlines(vcard);
    var r := Split(n, '\n');
    JoinSplit(n, '\n');
    SplitPiecesLackSeparator(n, '\n');
    forall i | 0 <= i < |r| ensures '\r' !in r[i] {
      JoinedPieceIn(r, '\n', i);
    }
    r
  }

  /** Every piece of a join occurs in it, so a character absent from the join is absent from the piece. */
  lemma {:induction false} JoinedPieceIn(parts: seq<string>, sep: char, i: nat)
    requires i < |parts|
    ensures forall c :: c in parts[i] ==> c in Join(parts, sep)
    decreases |parts|
  {
    if |parts| > 1 && i > 0 {
      JoinedPieceIn(parts[1..], sep, i - 1);
    }
  }

  /** `replace("\r\n", "\n")` works piecewise unless the cut separates a CR from its LF. */
  lemma {:induction false} ReplaceCrLfConcat(x: string, y: string)
    requires !(x != [] && x[|x| - 1] == '\r' && y != [] && y[0] == '\n')
    ensures ReplaceCrLf(x + y) == ReplaceCrLf(x) + ReplaceCrLf(y)
    decreases |x|
  {
    if x == [] {
      assert x + y == y;
    } else if |x| >= 2 && x[0] == '\r' && x[1] == '\n' {
      assert (x + y)[2..] == x[2..] + y;
      assert ReplaceCrLf(x + y) == "\n" + ReplaceCrLf(x[2..] + y);
      ReplaceCrLfConcat(x[2..], y);
      ConcatAssoc("\n", ReplaceCrLf(x[2..]), ReplaceCrLf(y));
    } else {
      assert (x + y)[1..] == x[1..] + y;
      assert ReplaceCrLf(x + y) == [x[0]] + ReplaceCrLf(x[1..] + y);
      ReplaceCrLfConcat(x[1..], y);
      ConcatAssoc([x[0]], ReplaceCrLf(x[1..]), ReplaceCrLf(y));
    }
  }

  lemma ReplaceCrConcat(x: string, y: string)
    ensures ReplaceCr(x + y) == ReplaceCr(x) + ReplaceCr(y)
  {
  }

  /** Normalisation works piecewise unless the cut separates a CR from its LF. */
  lemma NormalizeNewlinesConcat(x: string, y: string)
    requires !(x != [] && x[|x| - 1] == '\r' && y != [] && y[0] == '\n')
    ensures NormalizeNewlines(x + y) == NormalizeNewlines(x) + NormalizeNewlines(y)
  {
    ReplaceCrLfConcat(x, y);
    ReplaceCrConcat(ReplaceCrLf(x), ReplaceCrLf(y));
  }

  /**
   * CRLF and a lone CR end a line exactly as LF does: the three spellings of one line
   * break give the same physical lines.
   */
  lemma LineEndingsEquivalent(a: string, b: string)
    requires a == [] || a[|a| - 1] != '\r'
    requires b == [] || b[0] != '\n'
    ensures PhysicalLines(a + "\r\n" + b) == PhysicalLines(a + "\n" + b)
    ensures PhysicalLines(a + "\r" + b) == PhysicalLines(a + "\n" + b)
  {
    NormalizeNewlinesConcat(a, "\r\n");
    NormalizeNewlinesConcat(a + "\r\n", b);
    NormalizeNewlinesConcat(a, "\n");
    NormalizeNewlinesConcat(a + "\n", b);
    NormalizeNewlinesConcat(a, "\r");
    NormalizeNewlinesConcat(a + "\r", b);
    assert ReplaceCrLf("\r\n") == "\n" + ReplaceCrLf([]);
    assert ReplaceCrLf("\n") == "\n" + ReplaceCrLf([]);
    assert ReplaceCrLf("\r") == "\r" + ReplaceCrLf([]);
    assert NormalizeNewlines("\r\n") == "\n" == NormalizeNewlines("\r") == NormalizeNewlines("\n");
  }

  // ---------------------------------------------------------------------------
  // The property-start pattern
  // ---------------------------------------------------------------------------

  /** The class `[A-Za-z0-9\-]`. */
  predicate IsNameChar(c: char)
  {
    ('A' <= c <= 'Z') || ('a' <= c <= 'z') || ('0' <= c <= '9') || c == '-'
  }

  /** The length of the longest prefix of `s` made of name characters. */
  function NameRun(s: string): (n: nat)
    ensures n <= |s|
    ensures forall i :: 0 <= i < n ==> IsNameChar(s[i])
    ensures n < |s| ==> !IsNameChar(s[n])
  {
    if s == [] || !IsNameChar(s[0]) then 0 else 1 + NameRun(s[1..])
  }

  /**
   * `prop_pattern.match(s)`: the longest run of name characters is non-empty and is
   * followed by `:`, or by `;` with a `:` later on the same line (`.` stops at LF).
   */
  predicate LooksLikePropertyStart(s: string)
  {
    var n := NameRun(s);
    0 < n < |s| && (s[n] == ':' || (s[n] == ';' && ':' in Before(s[n + 1..], '\n')))
  }

  /**
   * The regex read literally: the `+` may take any number `k` of name characters, and the
   * rest of the pattern must match right after them.
   */
  predicate PatternMatchesWithRun(s: string, k: nat)
  {
    && 0 < k < |s|
    && (forall i :: 0 <= i < k ==> IsNameChar(s[i]))
    && (s[k] == ':' || (s[k] == ';' && ':' in Before(s[k + 1..], '\n')))
  }

  /** A run of `k` name characters at the start means the longest run is at least `k` long. */
  lemma {:induction false} NameRunCovers(s: string, k: nat)
    requires k <= |s| && forall i :: 0 <= i < k ==> IsNameChar(s[i])
    ensures NameRun(s) >= k
    decreases k
  {
    if k > 0 {
      NameRunCovers(s[1..], k - 1);
    }
  }

  /**
   * Backtracking cannot help the regex: the pattern matches with some run length exactly
   * when it matches with the longest one, which is what `LooksLikePropertyStart` checks.
   */
  lemma PropertyStartIsPatternMatch(s: string)
    ensures LooksLikePropertyStart(s) <==> exists k: nat :: PatternMatchesWithRun(s, k)
  {
    if LooksLikePropertyStart(s) {
      assert PatternMatchesWithRun(s, NameRun(s));
    }
    if exists k: nat :: PatternMatchesWithRun(s, k) {
      var k: nat :| PatternMatchesWithRun(s, k);
      NameRunCovers(s, k);
      assert !IsNameChar(s[k]);
      assert NameRun(s) == k;
    }
  }

  // ---------------------------------------------------------------------------
  // Unfolding
  // ---------------------------------------------------------------------------

  /** A fold character: space or tab. */
  predicate IsFoldChar(c: char)
  {
    c == ' ' || c == '\t'
  }

  /** The property name of a logical line: the key before `:`, then before `;`, upper-cased and stripped. */
  function PropertyName(line: string): string
  {
    Trim(Upper(Before(Before(line, ':'), ';')))
  }

  /**
   * A continuation `cont` joined onto the previous logical line `prev`: directly for TEL,
   * otherwise with one space unless `prev` ends or `cont` starts with a space.
   */
  function Extend(prev: string, cont: string): string
  {
    if PropertyName(prev) == "TEL" then prev + cont
    else if !EndsWith(prev, " ") && !StartsWith(cont, " ") then prev + " " + cont
    else prev + cont
  }

  /** One iteration of the loop of `_unfold_lines`: the logical lines after reading `ln`. */
  function UnfoldStep(acc: seq<string>, ln: string): seq<string>
  {
    if ln == [] then acc
    else if IsFoldChar(ln[0]) && acc != [] then
      var cont := ln[1..];
      if LooksLikePropertyStart(cont) then acc + [cont]
      else acc[..|acc| - 1] + [Extend(acc[|acc| - 1], cont)]
    else acc + [ln]
  }

  /** What `_unfold_lines(lines, prop_pattern)` returns: the logical lines. */
  function Unfold(lines: seq<string>): (r: seq<string>)
    ensures |r| <= |lines|
    ensures forall i :: 0 <= i < |r| ==> r[i] != []
  {
    if lines == [] then []
    else UnfoldStep(Unfold(lines[..|lines| - 1]), lines[|lines| - 1])
  }

  /** The loop of `_unfold_lines`, appending to and extending the accumulator. */
  method UnfoldLines(lines: seq<string>) returns (unfolded: seq<string>)
    ensures unfolded == Unfold(lines)
  {
    unfolded := [];
    var i := 0;
    while i < |lines|
      invariant 0 <= i <= |lines|
      invariant unfolded == Unfold(lines[..i])
    {
      var ln := lines[i];
      UnfoldPrefix(lines, i);
      if ln == [] {
        i := i + 1;
        continue;
      }
      if (ln[0] == ' ' || ln[0] == '\t') && unfolded != [] {
        var cont := ln[1..];
        if LooksLikePropertyStart(cont) {
          unfolded := unfolded + [cont];
          i := i + 1;
          continue;
        }
        var joined := JoinContinuation(unfolded[|unfolded| - 1], cont);
        unfolded := unfolded[..|unfolded| - 1] + [joined];
      } else {
        unfolded := unfolded + [ln];
      }
      i := i + 1;
    }
    assert lines[..i] == lines;
  }

  /** The join of a continuation onto the last logical line, as the loop body writes it. */
  method JoinContinuation(prev: string, cont: string) returns (joined: string)
    ensures joined == Extend(prev, cont)
  {
    var prevKey := Before(prev, ':');
    var prevProp := Trim(Upper(Before(prevKey, ';')));
    if prevProp == "TEL" {
      joined := prev + cont;
    } else if !EndsWith(prev, " ") && !StartsWith(cont, " ") {
      joined := prev + " " + cont;
    } else {
      joined := prev + cont;
    }
  }

  /** Reading one more physical line is one `UnfoldStep`. */
  lemma UnfoldSnoc(lines: seq<string>, ln: string)
    ensures Unfold(lines + [ln]) == UnfoldStep(Unfold(lines), ln)
  {
    assert (lines + [ln])[..|lines|] == lines;
  }

  /** The logical lines of one more line of a sequence. */
  lemma UnfoldPrefix(lines: seq<string>, i: nat)
    requires i < |lines|
    ensures Unfold(lines[..i + 1]) == UnfoldStep(Unfold(lines[..i]), lines[i])
  {
    assert lines[..i + 1] == lines[..i] + [lines[i]];
    UnfoldSnoc(lines[..i], lines[i]);
  }

  /** Empty physical lines are skipped. */
  lemma UnfoldSkipsEmpty(lines: seq<string>)
    ensures Unfold(lines + [[]]) == Unfold(lines)
  {
    UnfoldSnoc(lines, []);
  }

  /**
   * A line that does not start with a fold character, or any line while nothing has been
   * read yet, becomes a new logical line verbatim — a leading continuation keeps its
   * fold character.
   */
  lemma UnfoldNewLine(lines: seq<string>, ln: string)
    requires ln != [] && (!IsFoldChar(ln[0]) || Unfold(lines) == [])
    ensures Unfold(lines + [ln]) == Unfold(lines) + [ln]
  {
    UnfoldSnoc(lines, ln);
  }

  /** A continuation whose remainder looks like a property start is a new logical line without its fold character. */
  lemma UnfoldContinuationAsNewLine(lines: seq<string>, ln: string)
    requires ln != [] && IsFoldChar(ln[0]) && Unfold(lines) != []
    requires LooksLikePropertyStart(ln[1..])
    ensures Unfold(lines + [ln]) == Unfold(lines) + [ln[1..]]
  {
    UnfoldSnoc(lines, ln);
  }

  /**
   * Any other continuation loses exactly its one fold character and is joined onto the last
   * logical line: with nothing between for TEL, else with a space unless one side has one.
   */
  lemma UnfoldContinuationJoined(lines: seq<string>, ln: string)
    requires ln != [] && IsFoldChar(ln[0]) && Unfold(lines) != []
    requires !LooksLikePropertyStart(ln[1..])
    ensures var acc := Unfold(lines);
            var prev := acc[|acc| - 1];
            var cont := ln[1..];
            && |Unfold(lines + [ln])| == |acc|
            && Unfold(lines + [ln])[..|acc| - 1] == acc[..|acc| - 1]
            && Unfold(lines + [ln])[|acc| - 1] ==
                 if PropertyName(prev) == "TEL" then prev + cont
                 else if prev[|prev| - 1] != ' ' && (cont == [] || cont[0] != ' ') then prev + " " + cont
                 else prev + cont
  {
    UnfoldSnoc(lines, ln);
    var acc := Unfold(lines);
    var prev, cont := acc[|acc| - 1], ln[1..];
    assert Unfold(lines + [ln]) == acc[..|acc| - 1] + [Extend(prev, cont)];
    assert EndsWith(prev, " ") <==> prev[|prev| - 1] == ' ';
  }

  /** The number of non-empty lines. */
  function NonEmptyCount(lines: seq<string>): nat
  {
    if lines == [] then 0
    else NonEmptyCount(lines[..|lines| - 1]) + (if lines[|lines| - 1] != [] then 1 else 0)
  }

  /** The non-empty lines, in order. */
  function NonEmptyLines(lines: seq<string>): (r: seq<string>)
    ensures |r| == NonEmptyCount(lines)
  {
    if lines == [] then []
    else NonEmptyLines(lines[..|lines| - 1]) + (if lines[|lines| - 1] != [] then [lines[|lines| - 1]] else [])
  }

  /** There are never more logical lines than non-empty physical lines. */
  lemma {:induction false} UnfoldLength(lines: seq<string>)
    ensures |Unfold(lines)| <= NonEmptyCount(lines)
    decreases |lines|
  {
    if lines != [] {
      UnfoldLength(lines[..|lines| - 1]);
    }
  }

  /** Without continuation lines, unfolding only drops the empty lines. */
  lemma {:induction false} UnfoldWithoutFolds(lines: seq<string>)
    requires forall i :: 0 <= i < |lines| ==> lines[i] == [] || !IsFoldChar(lines[i][0])
    ensures Unfold(lines) == NonEmptyLines(lines)
    decreases |lines|
  {
    if lines != [] {
      UnfoldWithoutFolds(lines[..|lines| - 1]);
    }
  }

  /** Each chunk with one space in front, the way a folding writer emits continuations. */
  function Continuations(chunks: seq<string>): (r: seq<string>)
    ensures |r| == |chunks|
    ensures forall i :: 0 <= i < |r| ==> r[i] == " " + chunks[i]
  {
    seq(|chunks|, i requires 0 <= i < |chunks| => " " + chunks[i])
  }

  /** The chunks concatenated. */
  function Concat(chunks: seq<string>): string
  {
    if chunks == [] then [] else Concat(chunks[..|chunks| - 1]) + chunks[|chunks| - 1]
  }

  /** Appending text after the first `:` leaves the property name unchanged. */
  lemma PropertyNameAfterColon(prev: string, more: string)
    requires ':' in prev
    ensures PropertyName(prev + more) == PropertyName(prev)
  {
    var k := |Before(prev, ':')|;
    assert (prev + more)[k] == ':';
    assert (prev + more)[..k] == prev[..k];
    assert ':' in prev + more;
    assert Before(prev + more, ':') == Before(prev, ':');
  }

  lemma ContinuationsSnoc(chunks: seq<string>)
    requires chunks != []
    ensures Continuations(chunks) == Continuations(chunks[..|chunks| - 1]) + [" " + chunks[|chunks| - 1]]
  {
  }

  lemma ConcatSnoc(prev: string, chunks: seq<string>)
    requires chunks != []
    ensures prev + Concat(chunks) == (prev + Concat(chunks[..|chunks| - 1])) + chunks[|chunks| - 1]
  {
    var init, c := Concat(chunks[..|chunks| - 1]), chunks[|chunks| - 1];
    assert Concat(chunks) == init + c;
    ConcatAssoc(prev, init, c);
  }

  /** One space-prefixed chunk that does not look like a property start extends a TEL line directly. */
  lemma UnfoldTelChunk(lines: seq<string>, done: seq<string>, prev: string, c: string)
    requires Unfold(lines) == done + [prev]
    requires PropertyName(prev) == "TEL"
    requires !LooksLikePropertyStart(c)
    ensures Unfold(lines + [" " + c]) == done + [prev + c]
  {
    UnfoldSnoc(lines, " " + c);
    assert (" " + c)[1..] == c;
    assert (done + [prev])[..|done|] == done;
  }

  /**
   * Round trip for telephone lines: when the last logical line is a TEL property line
   * (one with a `:`), continuations made of space-prefixed chunks, none of which looks
   * like a property start, unfold back onto it verbatim, with no spurious whitespace.
   */
  lemma {:induction false} UnfoldTelRoundTrip(lines: seq<string>, done: seq<string>, prev: string, chunks: seq<string>)
    requires Unfold(lines) == done + [prev]
    requires PropertyName(prev) == "TEL" && ':' in prev
    requires forall i :: 0 <= i < |chunks| ==> !LooksLikePropertyStart(chunks[i])
    ensures Unfold(lines + Continuations(chunks)) == done + [prev + Concat(chunks)]
    decreases |chunks|
  {
    if chunks == [] {
      assert lines + Continuations(chunks) == lines;
      assert prev + Concat(chunks) == prev;
    } else {
      var init := chunks[..|chunks| - 1];
      var c := chunks[|chunks| - 1];
      UnfoldTelRoundTrip(lines, done, prev, init);
      var folded := lines + Continuations(init);
      ContinuationsSnoc(chunks);
      PropertyNameAfterColon(prev, Concat(init));
      UnfoldTelChunk(folded, done, prev + Concat(init), c);
      ConcatSnoc(prev, chunks);
      ConcatAssoc(lines, Continuations(init), [" " + c]);
    }
  }
}
