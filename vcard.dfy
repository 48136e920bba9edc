/**
 * The vCard property extractor of the newer converter (`NextcloudWebDAVClient._parse_vcard`):
 * it scans the logical lines for FN (section 6.2.1 of RFC 6350), N (section 6.2.2, whose
 * fourth component is the honorific prefix) and TEL (section 6.4.1), and returns the
 * display name and the telephone numbers with their type tags.
 */
module VCard {
  import opened Wrappers
  import opened Text
  import opened Lists
  import opened TelTypeTags
  import opened Folding

  /** One telephone number as `_parse_vcard` reports it: the trimmed value and its type tags. */
  datatype TelEntry = TelEntry(number: string, types: seq<string>)

  /** The pair `(name, numbers)` that `_parse_vcard` returns. */
  datatype Contact = Contact(name: string, numbers: seq<TelEntry>)

  /** A logical line, split at its first `:` and dispatched on its property name. */
  datatype Property =
    | FullName(value: string)
    | StructuredName(value: string)
    | Telephone(key: string, value: string)
    | Ignored

  /** How the scanning loop reads one logical line; lines without `:` and other properties are ignored. */
  function PropertyOf(line: string): Property
  {
    if ':' !in line then Ignored
    else
      var key, value := Before(line, ':'), After(line, ':');
      var prop := PropertyName(line);
      if prop == "FN" then FullName(value)
      else if prop == "N" then StructuredName(value)
      else if prop == "TEL" then Telephone(key, value)
      else Ignored
  }

  /** `value.strip() or "Unknown"`: the name an FN line records. */
  function FullNameValue(value: string): (r: string)
    ensures r != []
    ensures r == "Unknown" || r == Trim(value)
  {
    if Trim(value) == [] then "Unknown" else Trim(value)
  }

  /** The honorific prefix of an N value: the fourth `;`-component, trimmed, if there is a non-blank one. */
  function HonorificPrefix(value: string): (r: Option<string>)
    ensures r.Some? ==> r.value != []
  {
    var parts := Split(value, ';');
    if |parts| >= 4 && Trim(parts[3]) != [] then Some(Trim(parts[3])) else None
  }

  /** The local variables of the scanning loop: `fn_value`, `prefix` and `numbers`. */
  datatype ScanState = ScanState(fullName: Option<string>, prefix: Option<string>, numbers: seq<TelEntry>)

  /** The state before the first line. */
  function InitialState(): ScanState
  {
    ScanState(None, None, [])
  }

  /** One iteration of the scanning loop. */
  function ScanLine(st: ScanState, line: string): ScanState
  {
    match PropertyOf(line)
    case FullName(value) => st.(fullName := Some(FullNameValue(value)))
    case StructuredName(value) =>
      if HonorificPrefix(value).Some? then st.(prefix := HonorificPrefix(value)) else st
    case Telephone(key, value) =>
      if Trim(value) == [] then st
      else st.(numbers := st.numbers + [TelEntry(Trim(value), TelTypes(key))])
    case Ignored => st
  }

  /** The state after scanning `lines` from `st`. */
  function ScanFrom(st: ScanState, lines: seq<string>): ScanState
  {
    if lines == [] then st else ScanLine(ScanFrom(st, lines[..|lines| - 1]), lines[|lines| - 1])
  }

  /** The state after scanning all of `lines`. */
  function Scan(lines: seq<string>): ScanState
  {
    ScanFrom(InitialState(), lines)
  }

  /** The name after the loop: the FN value, decorated with the prefix, or "Unknown" when no FN was seen. */
  function ContactName(st: ScanState): (name: string)
    ensures name != []
    ensures st.fullName.None? ==> name == "Unknown"
    ensures (st.fullName.Some? && st.fullName.value != [] && st.prefix.Some? && st.prefix.value != [])
              ==> name == st.prefix.value + " " + st.fullName.value
    ensures (st.fullName.Some? && st.fullName.value != [] && (st.prefix.None? || st.prefix.value == []))
              ==> name == st.fullName.value
  {
    if st.fullName.Some? && st.fullName.value != [] then
      if st.prefix.Some? && st.prefix.value != [] then st.prefix.value + " " + st.fullName.value
      else st.fullName.value
    else "Unknown"
  }

  /** The logical lines of a vCard text. */
  function LogicalLines(vcard: string): seq<string>
  {
    Unfold(PhysicalLines(vcard))
  }

  /** What `_parse_vcard(vcard)` returns. */
  function ParsedContact(vcard: string): Contact
  {
    var st := Scan(LogicalLines(vcard));
    Contact(ContactName(st), st.numbers)
  }

  /** The loop of `_parse_vcard`, after normalising line endings and unfolding. */
  method ParseVCard(vcard: string) returns (name: string, numbers: seq<TelEntry>)
    ensures Contact(name, numbers) == ParsedContact(vcard)
  {
    var lines := PhysicalLines(vcard);
    var unfolded := UnfoldLines(lines);
    name := "Unknown";
    numbers := [];
    var prefix: Option<string> := None;
    var fnValue: Option<string> := None;
    var i := 0;
    while i < |unfolded|
      invariant 0 <= i <= |unfolded|
      invariant ScanState(fnValue, prefix, numbers) == Scan(unfolded[..i])
    {
      var line := unfolded[i];
      ScanAt(unfolded, i);
      ScanLineCases(Scan(unfolded[..i]), line);
      i := i + 1;
      if ':' !in line {
        continue;
      }
      var key, value := Before(line, ':'), After(line, ':');
      var prop := Trim(Upper(Before(key, ';')));
      if prop == "FN" {
        fnValue := Some(if Trim(value) == [] then "Unknown" else Trim(value));
        continue;
      }
      if prop == "N" {
        var parts := Split(value, ';');
        if |parts| >= 4 && Trim(parts[3]) != [] {
          prefix := Some(Trim(parts[3]));
        }
        continue;
      }
      if prop == "TEL" {
        var val := Trim(value);
        if val == [] {
          continue;
        }
        var types := ExtractTelTypes(key);
        numbers := numbers + [TelEntry(val, types)];
      }
    }
    assert unfolded[..i] == unfolded;
    if fnValue.Some? && fnValue.value != [] {
      name := fnValue.value;
      if prefix.Some? && prefix.value != [] {
        name := prefix.value + " " + name;
      }
    }
  }

  // ---------------------------------------------------------------------------
  // What the scan computes, line by line
  // ---------------------------------------------------------------------------

  /** The name an FN line records, and nothing for any other line. */
  function FullNameField(line: string): Option<string>
  {
    match PropertyOf(line)
    case FullName(value) => Some(FullNameValue(value))
    case _ => None
  }

  /** The prefix an N line with a non-blank fourth component records, and nothing for any other line. */
  function PrefixField(line: string): Option<string>
  {
    match PropertyOf(line)
    case StructuredName(value) => HonorificPrefix(value)
    case _ => None
  }

  /** The entries one line contributes to `numbers`: one for a TEL line with a non-blank value, else none. */
  function TelEntriesOf(line: string): (r: seq<TelEntry>)
    ensures |r| <= 1
  {
    match PropertyOf(line)
    case Telephone(key, value) => if Trim(value) == [] then [] else [TelEntry(Trim(value), TelTypes(key))]
    case _ => []
  }

  /** What one line does to each part of the state. */
  lemma ScanLineParts(st: ScanState, line: string)
    ensures ScanLine(st, line).fullName == if FullNameField(line).Some? then FullNameField(line) else st.fullName
    ensures ScanLine(st, line).prefix == if PrefixField(line).Some? then PrefixField(line) else st.prefix
    ensures ScanLine(st, line).numbers == st.numbers + TelEntriesOf(line)
  {
    var p := PropertyOf(line);
    if p.Telephone? {
      assert TelEntriesOf(line) == if Trim(p.value) == [] then [] else [TelEntry(Trim(p.value), TelTypes(p.key))];
    } else {
      assert TelEntriesOf(line) == [];
    }
  }

  /** What one line does, case by case, as the loop of `_parse_vcard` tests them. */
  lemma ScanLineCases(st: ScanState, line: string)
    ensures ':' !in line ==> ScanLine(st, line) == st
    ensures ':' in line && PropertyName(line) == "FN" ==>
              ScanLine(st, line) == st.(fullName := Some(FullNameValue(After(line, ':'))))
    ensures ':' in line && PropertyName(line) == "N" ==>
              ScanLine(st, line) == if HonorificPrefix(After(line, ':')).Some? then st.(prefix := HonorificPrefix(After(line, ':'))) else st
    ensures ':' in line && PropertyName(line) == "TEL" ==>
              ScanLine(st, line) == if Trim(After(line, ':')) == [] then st
                                    else st.(numbers := st.numbers + [TelEntry(Trim(After(line, ':')), TelTypes(Before(line, ':')))])
    ensures (':' in line && PropertyName(line) != "FN" && PropertyName(line) != "N" && PropertyName(line) != "TEL")
              ==> ScanLine(st, line) == st
  {
    if ':' in line {
      var prop, value := PropertyName(line), After(line, ':');
      if prop == "FN" {
        assert PropertyOf(line) == FullName(value);
      } else if prop == "N" {
        assert PropertyOf(line) == StructuredName(value);
      } else if prop == "TEL" {
        assert PropertyOf(line) == Telephone(Before(line, ':'), value);
      } else {
        assert PropertyOf(line) == Ignored;
      }
    }
  }

  /** Scanning one more line is one `ScanLine`. */
  lemma ScanSnoc(lines: seq<string>)
    requires lines != []
    ensures Scan(lines) == ScanLine(Scan(lines[..|lines| - 1]), lines[|lines| - 1])
  {
  }

  /** Scanning one more line of a sequence. */
  lemma ScanAt(lines: seq<string>, i: nat)
    requires i < |lines|
    ensures Scan(lines[..i + 1]) == ScanLine(Scan(lines[..i]), lines[i])
  {
    assert lines[..i + 1][..i] == lines[..i];
    ScanSnoc(lines[..i + 1]);
  }

  /** The recorded name is the one of the last FN line, as a variable overwritten on each FN line. */
  lemma {:induction false} ScanFullName(lines: seq<string>)
    ensures Scan(lines).fullName == LastSome(lines, FullNameField)
    decreases |lines|
  {
    if lines != [] {
      ScanFullName(lines[..|lines| - 1]);
      ScanSnoc(lines);
      ScanLineParts(Scan(lines[..|lines| - 1]), lines[|lines| - 1]);
    }
  }

  /** The recorded prefix is the one of the last N line with a non-blank prefix; blank ones leave it alone. */
  lemma {:induction false} ScanPrefix(lines: seq<string>)
    ensures Scan(lines).prefix == LastSome(lines, PrefixField)
    decreases |lines|
  {
    if lines != [] {
      ScanPrefix(lines[..|lines| - 1]);
      ScanSnoc(lines);
      ScanLineParts(Scan(lines[..|lines| - 1]), lines[|lines| - 1]);
    }
  }

  /** `numbers` lists the entries of the TEL lines, line by line, in order. */
  lemma {:induction false} ScanNumbers(lines: seq<string>)
    ensures Scan(lines).numbers == FlatMap(lines, TelEntriesOf)
    decreases |lines|
  {
    if lines != [] {
      ScanNumbers(lines[..|lines| - 1]);
      ScanSnoc(lines);
      ScanLineParts(Scan(lines[..|lines| - 1]), lines[|lines| - 1]);
    }
  }

  /** A well-formed telephone entry: a non-empty trimmed number and finished tags. */
  predicate IsTelEntry(e: TelEntry)
  {
    && e.number != [] && !IsSpace(e.number[0]) && !IsSpace(e.number[|e.number| - 1])
    && forall k :: 0 <= k < |e.types| ==> IsTag(e.types[k])
  }

  /** The entry a TEL line with a non-blank value records is well formed. */
  lemma TelEntryWellFormed(key: string, value: string)
    requires Trim(value) != []
    ensures IsTelEntry(TelEntry(Trim(value), TelTypes(key)))
  {
    TelTypesAreTags(key);
  }

  lemma TelEntriesOfWellFormed(line: string)
    ensures forall k :: 0 <= k < |TelEntriesOf(line)| ==> IsTelEntry(TelEntriesOf(line)[k])
  {
    match PropertyOf(line)
    case Telephone(key, value) =>
      if Trim(value) != [] {
        TelEntryWellFormed(key, value);
      }
    case _ =>
  }

  // ---------------------------------------------------------------------------
  // Properties of the parsed contact
  // ---------------------------------------------------------------------------

  /** Without an FN line the name is "Unknown", whatever N lines say. */
  lemma ParsedNameWithoutFullName(vcard: string)
    requires forall i :: 0 <= i < |LogicalLines(vcard)| ==> FullNameField(LogicalLines(vcard)[i]).None?
    ensures ParsedContact(vcard).name == "Unknown"
  {
    ScanFullName(LogicalLines(vcard));
    LastSomeNone(LogicalLines(vcard), FullNameField);
  }

  /** Without an N line carrying a non-blank prefix, the name is the one of the last FN line. */
  lemma ParsedNameWithoutPrefix(vcard: string, i: nat)
    requires i < |LogicalLines(vcard)| && FullNameField(LogicalLines(vcard)[i]).Some?
    requires forall j :: i < j < |LogicalLines(vcard)| ==> FullNameField(LogicalLines(vcard)[j]).None?
    requires forall k :: 0 <= k < |LogicalLines(vcard)| ==> PrefixField(LogicalLines(vcard)[k]).None?
    ensures ParsedContact(vcard).name == FullNameField(LogicalLines(vcard)[i]).value
  {
    var lines := LogicalLines(vcard);
    ScanFullName(lines);
    LastSomeAt(lines, FullNameField, i);
    ScanPrefix(lines);
    LastSomeNone(lines, PrefixField);
    FullNameFieldNonEmpty(lines[i]);
  }

  /**
   * With an FN line, the name is the prefix of the last N line that has a non-blank one,
   * a space, and the name of the last FN line; a later N line with a blank prefix does
   * not clear it, and a blank FN gives "Dr. Unknown" style names.
   */
  lemma ParsedNameWithPrefix(vcard: string, i: nat, k: nat)
    requires i < |LogicalLines(vcard)| && FullNameField(LogicalLines(vcard)[i]).Some?
    requires forall j :: i < j < |LogicalLines(vcard)| ==> FullNameField(LogicalLines(vcard)[j]).None?
    requires k < |LogicalLines(vcard)| && PrefixField(LogicalLines(vcard)[k]).Some?
    requires forall j :: k < j < |LogicalLines(vcard)| ==> PrefixField(LogicalLines(vcard)[j]).None?
    ensures ParsedContact(vcard).name ==
              PrefixField(LogicalLines(vcard)[k]).value + " " + FullNameField(LogicalLines(vcard)[i]).value
  {
    var lines := LogicalLines(vcard);
    ScanFullName(lines);
    LastSomeAt(lines, FullNameField, i);
    ScanPrefix(lines);
    LastSomeAt(lines, PrefixField, k);
    FullNameFieldNonEmpty(lines[i]);
  }

  /** A recorded name is never empty, and a blank FN value records "Unknown". */
  lemma FullNameFieldNonEmpty(line: string)
    ensures FullNameField(line).Some? ==> FullNameField(line).value != []
    ensures FullNameField(line).Some? && IsBlank(After(line, ':')) ==> FullNameField(line).value == "Unknown"
  {
    match PropertyOf(line)
    case FullName(value) =>
      assert value == After(line, ':');
      assert IsBlank(value) ==> Trim(value) == [];
    case _ =>
  }

  /** The numbers are the trimmed, non-blank values of the TEL lines, in order, each a well-formed entry. */
  lemma ParsedNumbers(vcard: string)
    ensures ParsedContact(vcard).numbers == FlatMap(LogicalLines(vcard), TelEntriesOf)
    ensures forall k :: 0 <= k < |ParsedContact(vcard).numbers| ==> IsTelEntry(ParsedContact(vcard).numbers[k])
  {
    var lines := LogicalLines(vcard);
    ScanNumbers(lines);
    forall i | 0 <= i < |lines|
      ensures forall k :: 0 <= k < |TelEntriesOf(lines[i])| ==> IsTelEntry(TelEntriesOf(lines[i])[k])
    {
      TelEntriesOfWellFormed(lines[i]);
    }
    FlatMapAll(lines, TelEntriesOf, IsTelEntry);
  }

  /** `\r\n` and `\r` end a line exactly as `\n` does. */
  lemma ParsedLineEndings(a: string, b: string)
    requires a == [] || a[|a| - 1] != '\r'
    requires b == [] || b[0] != '\n'
    ensures ParsedContact(a + "\r\n" + b) == ParsedContact(a + "\n" + b)
    ensures ParsedContact(a + "\r" + b) == ParsedContact(a + "\n" + b)
  {
    LineEndingsEquivalent(a, b);
  }
}
