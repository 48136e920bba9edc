# nextcloud-contacts-to-gequdio, modelled in Dafny

The converter turns the vCards of a Nextcloud address book into the XML phone directory that
GEQUDIO desk phones load. The model covers the pipeline between "a list of vCard texts" and
"the XML document", in both copies of the program:

- **Current converter** (`nextcloud_contacts_to_gequdio/nextcloud_to_gequdio.py`):
  - `Folding` models line-ending normalisation and `_unfold_lines`, with its property-start pattern written as a predicate.
  - `TelTypeTags` models `_extract_tel_types`, which reads the TYPE parameter (section 5.6 of RFC 6350) and flag parameters.
  - `VCard` models `_parse_vcard`, which scans FN, N and TEL (sections 6.2.1, 6.2.2 and 6.4.1 of RFC 6350).
  - `Gequdio` models `create_gequdio_contact_xml`: sort, bucket, normalise, build the tree and wrap the document.
- **Root script** (`nextcloud_contacts_to_gequdio.py`):
  - `LegacyParser` models `splitlines`, both unfolding loops and `_parse_vcard`.
  - `LegacyBuilder` models its `create_gequdio_contact_xml`.
- **Shared by both**:
  - `DirectoryEntries` models the contact and number loops of both `create_gequdio_contact_xml`. A `Policy` holds what differs between the two: the office keywords, and the text written for a number (normalised in the current converter, as parsed in the root script).
  - `DirectoryTree` models the ElementTree directory: bucket choice, placeholder creation, append-on-occupied placement and serialisation.
  - `Ordering` models Python's stable `sorted` over code-point string order.
  - `Text`, `Lists` and `Wrappers` hold the string primitives and sequence helpers.

Each loop of the source is a `method` proved equal to a specification function:
`ensures out == Unfold(lines)`, `ensures types == TelTypes(key)`, `ensures xml == GequdioXml(vcards)`.
The properties the program promises are lemmas about those functions.

Four behaviours of the code that a reader may not expect:

- A continuation line with nothing before it is kept verbatim, fold character included. It is not dropped (`Folding.UnfoldNewLine`).
- Once an entry has a number, the Telephone, Mobile and Other placeholders stay in the tree. If still empty they are written as `<Mobile />` and so on (`DirectoryTree.EntryShape`).
- A number whose bucket already holds a number is not dropped. It goes into a new element appended at the end of the entry (`DirectoryTree.EntryTexts`, `DirectoryTree.EntryOverflow`).
- The N prefix decorates the name only when an FN line was seen. Without one the name stays "Unknown" (`VCard.ParsedNameWithoutFullName`).

## Model

| member | source | states |
|---|---|---|
| Text.LeadingSpaces | nextcloud_contacts_to_gequdio/nextcloud_to_gequdio.py:146 | the length of the leading whitespace: every character in it is whitespace, the next one is not |
| Text.TrailingSpaces | nextcloud_contacts_to_gequdio/nextcloud_to_gequdio.py:146 | the length of the trailing whitespace: every character in it is whitespace, the one before is not |
| Text.Trim | nextcloud_contacts_to_gequdio/nextcloud_to_gequdio.py:146 | `strip()` is the input between its leading and its trailing whitespace; it is empty exactly when the input is all whitespace, and otherwise neither end is whitespace |
| Text.TrimStart | nextcloud_contacts_to_gequdio.py:137 | `lstrip()` is the input after its leading whitespace: empty exactly when the input is blank, else starting with a non-space and ending where the input ends |
| Text.TrimEnd | nextcloud_contacts_to_gequdio/nextcloud_to_gequdio.py:146 | the right half of `strip()`: the input before its trailing whitespace, empty exactly when the input is blank, else ending with a non-space and starting where the input starts |
| Text.TrimIdempotent | nextcloud_contacts_to_gequdio/nextcloud_to_gequdio.py:146 | stripping twice is stripping once |
| Text.Before | nextcloud_contacts_to_gequdio/nextcloud_to_gequdio.py:236 | `split(c, 1)[0]` is a prefix without `c`; it is shorter than the input exactly when `c` occurs, and then `c` follows it |
| Text.After | nextcloud_contacts_to_gequdio/nextcloud_to_gequdio.py:236 | `split(c, 1)[1]`: the part before, `c` and the part after rebuild the input |
| Text.Split | nextcloud_contacts_to_gequdio/nextcloud_to_gequdio.py:245 | `split(sep)` gives at least one piece, and exactly one when `sep` does not occur |
| Text.SplitPiecesLackSeparator | nextcloud_contacts_to_gequdio/nextcloud_to_gequdio.py:138 | no piece of a split contains the separator |
| Text.JoinSplit | nextcloud_contacts_to_gequdio/nextcloud_to_gequdio.py:138 | joining the pieces with the separator gives the string back |
| Folding.ReplaceCrLf | nextcloud_contacts_to_gequdio/nextcloud_to_gequdio.py:222 | `replace("\r\n", "\n")` never lengthens the text |
| Folding.NormalizeNewlines | nextcloud_contacts_to_gequdio/nextcloud_to_gequdio.py:222 | after both replacements no CR is left |
| Folding.PhysicalLines | nextcloud_contacts_to_gequdio/nextcloud_to_gequdio.py:222 | at least one physical line, none containing CR or LF |
| Folding.ReplaceCrLfConcat | nextcloud_contacts_to_gequdio/nextcloud_to_gequdio.py:222 | CRLF replacement works piecewise unless the cut splits a CR from its LF |
| Folding.ReplaceCrConcat | nextcloud_contacts_to_gequdio/nextcloud_to_gequdio.py:222 | CR replacement works piecewise |
| Folding.NormalizeNewlinesConcat | nextcloud_contacts_to_gequdio/nextcloud_to_gequdio.py:222 | normalisation works piecewise unless the cut splits a CRLF |
| Folding.LineEndingsEquivalent | nextcloud_contacts_to_gequdio/nextcloud_to_gequdio.py:222 | CRLF, a lone CR and LF give the same physical lines |
| Folding.NameRun | nextcloud_contacts_to_gequdio/nextcloud_to_gequdio.py:223 | the longest leading run of `[A-Za-z0-9-]`: every character in it is a name character, the next one is not |
| Folding.NameRunCovers | nextcloud_contacts_to_gequdio/nextcloud_to_gequdio.py:223 | any leading run of name characters is covered by the longest one |
| Folding.PropertyStartIsPatternMatch | nextcloud_contacts_to_gequdio/nextcloud_to_gequdio.py:223 | the predicate holds exactly when the regex matches with some run length, so backtracking never helps the regex |
| Folding.Unfold | nextcloud_contacts_to_gequdio/nextcloud_to_gequdio.py:181-208 | no more logical lines than physical lines, and none of them empty |
| Folding.UnfoldLines | nextcloud_contacts_to_gequdio/nextcloud_to_gequdio.py:181-208 | the loop of `_unfold_lines` returns `Unfold(lines)` |
| Folding.JoinContinuation | nextcloud_contacts_to_gequdio/nextcloud_to_gequdio.py:194-204 | the join of a continuation onto the last line is `Extend(prev, cont)`: directly after TEL, else with one space unless a side has one |
| Folding.UnfoldPrefix | nextcloud_contacts_to_gequdio/nextcloud_to_gequdio.py:183-206 | the first `i + 1` lines unfold to one loop step after the first `i` |
| Folding.UnfoldSnoc | nextcloud_contacts_to_gequdio/nextcloud_to_gequdio.py:183-206 | reading one more physical line is one loop step |
| Folding.UnfoldSkipsEmpty | nextcloud_contacts_to_gequdio/nextcloud_to_gequdio.py:184-185 | an empty physical line changes nothing |
| Folding.UnfoldNewLine | nextcloud_contacts_to_gequdio/nextcloud_to_gequdio.py:205-206 | a line without a fold character, or any line while nothing is kept, is appended verbatim |
| Folding.UnfoldContinuationAsNewLine | nextcloud_contacts_to_gequdio/nextcloud_to_gequdio.py:188-192 | a continuation whose remainder looks like a property start becomes a new line without its fold character |
| Folding.UnfoldContinuationJoined | nextcloud_contacts_to_gequdio/nextcloud_to_gequdio.py:194-204 | any other continuation loses exactly one fold character and is joined to the last line: directly after TEL, else with one space unless a side already has one |
| Folding.NonEmptyLines | nextcloud_contacts_to_gequdio/nextcloud_to_gequdio.py:184-185 | the non-empty lines, as many as there are non-empty lines |
| Folding.UnfoldLength | nextcloud_contacts_to_gequdio/nextcloud_to_gequdio.py:183-206 | never more logical lines than non-empty physical lines |
| Folding.UnfoldWithoutFolds | nextcloud_contacts_to_gequdio/nextcloud_to_gequdio.py:183-206 | without continuation lines, unfolding only drops the empty lines |
| Folding.PropertyNameAfterColon | nextcloud_contacts_to_gequdio/nextcloud_to_gequdio.py:195-196 | text appended after the first `:` leaves the property name unchanged |
| Folding.UnfoldTelChunk | nextcloud_contacts_to_gequdio/nextcloud_to_gequdio.py:198-199 | one space-prefixed chunk extends a TEL line with nothing in between |
| Folding.UnfoldTelRoundTrip | nextcloud_contacts_to_gequdio/nextcloud_to_gequdio.py:187-199 | a TEL line folded into space-prefixed chunks unfolds back verbatim, with no spurious whitespace |
| TelTypeTags.PieceTag | nextcloud_contacts_to_gequdio/nextcloud_to_gequdio.py:156-159 | one piece of a TYPE value gives at most one tag |
| TelTypeTags.AppendTypeValueTags | nextcloud_contacts_to_gequdio/nextcloud_to_gequdio.py:155-159 | the inner loop appends exactly the tags of the TYPE value |
| TelTypeTags.AppendParamTags | nextcloud_contacts_to_gequdio/nextcloud_to_gequdio.py:146-162 | one iteration appends exactly the tags of one parameter |
| TelTypeTags.ExtractTelTypes | nextcloud_contacts_to_gequdio/nextcloud_to_gequdio.py:131-164 | the loop returns `TelTypes(key)` |
| TelTypeTags.TelTypesOfParameters | nextcloud_contacts_to_gequdio/nextcloud_to_gequdio.py:135-142 | with parameters, the tags are those of the `;`-pieces after the name, before the first `:` |
| TelTypeTags.ParamsTagsConcat | nextcloud_contacts_to_gequdio/nextcloud_to_gequdio.py:145-162 | tags appear in parameter order |
| TelTypeTags.OtherParametersIgnored | nextcloud_contacts_to_gequdio/nextcloud_to_gequdio.py:151-154 | a `NAME=VALUE` parameter whose name is not TYPE contributes nothing |
| TelTypeTags.FlagParameterTag | nextcloud_contacts_to_gequdio/nextcloud_to_gequdio.py:160-162 | a flag parameter is one tag: itself, trimmed and lower-cased |
| TelTypeTags.TypeParameterFirstEquals | nextcloud_contacts_to_gequdio/nextcloud_to_gequdio.py:151-159 | a TYPE value is cut at the first `=` only: `TYPE=HOME=WORK` gives `home=work` |
| TelTypeTags.BlankParametersNoTags | nextcloud_contacts_to_gequdio/nextcloud_to_gequdio.py:146-149 | blank parameters contribute nothing |
| TelTypeTags.NoTags | nextcloud_contacts_to_gequdio/nextcloud_to_gequdio.py:131-149 | no tags for an empty key, for a key without `;` before its `:`, or for only blank parameters |
| TelTypeTags.LowerTrimIsTag | nextcloud_contacts_to_gequdio/nextcloud_to_gequdio.py:156 | lower-casing a non-empty stripped piece gives a finished tag |
| TelTypeTags.TelTypesAreTags | nextcloud_contacts_to_gequdio/nextcloud_to_gequdio.py:155-162 | every tag is non-empty, lower-case and stripped |
| VCard.FullNameValue | nextcloud_contacts_to_gequdio/nextcloud_to_gequdio.py:240 | the FN value is never empty: the stripped value, or "Unknown" |
| VCard.HonorificPrefix | nextcloud_contacts_to_gequdio/nextcloud_to_gequdio.py:245-248 | a recorded prefix is never empty |
| VCard.ContactName | nextcloud_contacts_to_gequdio/nextcloud_to_gequdio.py:261-265 | the name is never empty: "Unknown" without FN, else the FN value, with prefix and a space in front when one was recorded |
| VCard.ParseVCard | nextcloud_contacts_to_gequdio/nextcloud_to_gequdio.py:222-267 | the loop returns `ParsedContact(vcard)` |
| VCard.TelEntriesOf | nextcloud_contacts_to_gequdio/nextcloud_to_gequdio.py:252-259 | a line contributes at most one number |
| VCard.ScanLineParts | nextcloud_contacts_to_gequdio/nextcloud_to_gequdio.py:232-259 | what one line does to the name, the prefix and the numbers |
| VCard.ScanLineCases | nextcloud_contacts_to_gequdio/nextcloud_to_gequdio.py:233-259 | one line, case by case as the loop tests them: no colon, FN, N, TEL and anything else |
| VCard.ScanFullName | nextcloud_contacts_to_gequdio/nextcloud_to_gequdio.py:239-240 | the last FN line wins |
| VCard.ScanPrefix | nextcloud_contacts_to_gequdio/nextcloud_to_gequdio.py:244-248 | the last N line with a non-blank prefix wins; a blank one does not clear it |
| VCard.ScanNumbers | nextcloud_contacts_to_gequdio/nextcloud_to_gequdio.py:252-259 | numbers are the TEL contributions of the lines, in order |
| VCard.TelEntryWellFormed | nextcloud_contacts_to_gequdio/nextcloud_to_gequdio.py:253-259 | a TEL line with a non-blank value gives a stripped, non-empty number with finished tags |
| VCard.TelEntriesOfWellFormed | nextcloud_contacts_to_gequdio/nextcloud_to_gequdio.py:252-259 | every recorded number is well formed |
| VCard.ParsedNameWithoutFullName | nextcloud_contacts_to_gequdio/nextcloud_to_gequdio.py:227-265 | without an FN line the name is "Unknown", whatever N says |
| VCard.ParsedNameWithoutPrefix | nextcloud_contacts_to_gequdio/nextcloud_to_gequdio.py:239-262 | without a prefix the name is the value of the last FN line |
| VCard.ParsedNameWithPrefix | nextcloud_contacts_to_gequdio/nextcloud_to_gequdio.py:244-265 | with FN and a prefix the name is the last prefix, a space and the last FN value (so "Dr. Unknown" for a blank FN) |
| VCard.FullNameFieldNonEmpty | nextcloud_contacts_to_gequdio/nextcloud_to_gequdio.py:240 | an FN line records a non-empty name, and "Unknown" for a blank value |
| VCard.ParsedNumbers | nextcloud_contacts_to_gequdio/nextcloud_to_gequdio.py:252-259 | the numbers are the stripped non-blank TEL values in order, each well formed; other properties and `TELINVALID` give none |
| VCard.ParsedLineEndings | nextcloud_contacts_to_gequdio/nextcloud_to_gequdio.py:222 | `\r\n` and `\r` parse exactly as `\n` |
| Ordering.LessEqReflexive | nextcloud_contacts_to_gequdio/nextcloud_to_gequdio.py:332 | string order is reflexive |
| Ordering.LessEqTotal | nextcloud_contacts_to_gequdio/nextcloud_to_gequdio.py:332 | any two strings are comparable |
| Ordering.LessEqAntisymmetric | nextcloud_contacts_to_gequdio/nextcloud_to_gequdio.py:332 | strings below each other are equal |
| Ordering.LessEqTransitive | nextcloud_contacts_to_gequdio/nextcloud_to_gequdio.py:332 | string order is transitive |
| Ordering.PrecedesTransitive | nextcloud_contacts_to_gequdio/nextcloud_to_gequdio.py:332 | "key below, ties by input position" is transitive |
| Ordering.PrecedesAsymmetric | nextcloud_contacts_to_gequdio/nextcloud_to_gequdio.py:332 | and asymmetric |
| Ordering.ChainedInOrder | nextcloud_contacts_to_gequdio/nextcloud_to_gequdio.py:332 | sorted neighbours make a sorted sequence |
| Ordering.InOrderChained | nextcloud_contacts_to_gequdio/nextcloud_to_gequdio.py:332 | and conversely |
| Ordering.Insert | nextcloud_contacts_to_gequdio/nextcloud_to_gequdio.py:332 | inserting a position adds exactly that position |
| Ordering.SortedPrefix | nextcloud_contacts_to_gequdio/nextcloud_to_gequdio.py:332 | sorting the first `n` positions yields a permutation of them |
| Ordering.SortedOrder | nextcloud_contacts_to_gequdio/nextcloud_to_gequdio.py:332 | the sorted order is a permutation of all positions |
| Ordering.SortedOrderIsStableSort | nextcloud_contacts_to_gequdio/nextcloud_to_gequdio.py:332 | keys never decrease along the order, and equal keys keep input order |
| Ordering.ChainedUnique | nextcloud_contacts_to_gequdio/nextcloud_to_gequdio.py:332 | two sorted permutations of the same positions are equal |
| Ordering.SortedOrderUnique | nextcloud_contacts_to_gequdio/nextcloud_to_gequdio.py:332 | any stable sort of the keys gives this same order |
| Ordering.Keys | nextcloud_contacts_to_gequdio/nextcloud_to_gequdio.py:332 | the key of every element, position by position |
| Ordering.SortBy | nextcloud_contacts_to_gequdio/nextcloud_to_gequdio.py:332 | `sorted(xs, key=key)` lists each element at the position the sorted order gives |
| Ordering.SortByIsSorted | nextcloud_contacts_to_gequdio/nextcloud_to_gequdio.py:332 | sorted values have non-decreasing keys, ties in input order |
| DirectoryTree.MeetsIffHasTag | nextcloud_contacts_to_gequdio/nextcloud_to_gequdio.py:351 | the set intersection is non-empty exactly when some tag, stripped and lower-cased, is a keyword |
| DirectoryTree.ClassifyWithTags | nextcloud_contacts_to_gequdio/nextcloud_to_gequdio.py:343-354 | Telephone iff an office keyword; Mobile iff none of those but cell/mobile; Other iff neither |
| DirectoryTree.Find | nextcloud_contacts_to_gequdio/nextcloud_to_gequdio.py:361 | `find(tag)` is the first child with the tag, or None exactly when there is none |
| DirectoryTree.FindAt | nextcloud_contacts_to_gequdio/nextcloud_to_gequdio.py:361 | the first child with the tag is what `find` returns |
| DirectoryTree.PlaceNumber | nextcloud_contacts_to_gequdio/nextcloud_to_gequdio.py:356-369 | the placeholder loop and the placement give `Place(children, p)` |
| DirectoryTree.FindSlot | nextcloud_contacts_to_gequdio/nextcloud_to_gequdio.py:361 | in a shaped entry, `find` of a bucket is its fixed slot |
| DirectoryTree.ShapedPlaceholders | nextcloud_contacts_to_gequdio/nextcloud_to_gequdio.py:357-359 | a shaped entry gets no new placeholders |
| DirectoryTree.PlaceFirst | nextcloud_contacts_to_gequdio/nextcloud_to_gequdio.py:357-369 | the first number gives Name, Telephone, Mobile, Other with the number in its slot |
| DirectoryTree.PlaceFirstShaped | nextcloud_contacts_to_gequdio/nextcloud_to_gequdio.py:357-363 | after the first number the entry is shaped |
| DirectoryTree.PlaceShaped | nextcloud_contacts_to_gequdio/nextcloud_to_gequdio.py:356-369 | placing a number keeps the entry shaped |
| DirectoryTree.FillShaped | nextcloud_contacts_to_gequdio/nextcloud_to_gequdio.py:342-369 | an entry with at least one number is shaped |
| DirectoryTree.EntryShape | nextcloud_contacts_to_gequdio/nextcloud_to_gequdio.py:336-359 | Name comes first; with no numbers it is alone, else Telephone, Mobile and Other follow in that order |
| DirectoryTree.TextsNone | nextcloud_contacts_to_gequdio/nextcloud_to_gequdio.py:362 | no occupied element of a tag, no texts |
| DirectoryTree.TextsUpdateOther | nextcloud_contacts_to_gequdio/nextcloud_to_gequdio.py:369 | setting the text of one element leaves other tags' texts alone |
| DirectoryTree.TextsSole | nextcloud_contacts_to_gequdio/nextcloud_to_gequdio.py:362 | a tag held by one element has that element's text, if any |
| DirectoryTree.PlaceTexts | nextcloud_contacts_to_gequdio/nextcloud_to_gequdio.py:361-369 | placing a number adds its text, if non-empty, to its own bucket only |
| DirectoryTree.PlaceFirstTexts | nextcloud_contacts_to_gequdio/nextcloud_to_gequdio.py:356-369 | the same for the first number |
| DirectoryTree.EntryTexts | nextcloud_contacts_to_gequdio/nextcloud_to_gequdio.py:342-369 | each bucket's texts are exactly its non-empty numbers in order: none lost, none doubled |
| DirectoryTree.TextsSome | nextcloud_contacts_to_gequdio/nextcloud_to_gequdio.py:362 | an occupied element of a tag gives that tag some text |
| DirectoryTree.SoleSlot | nextcloud_contacts_to_gequdio/nextcloud_to_gequdio.py:361-363 | in a shaped entry an empty slot is the only element of its tag |
| DirectoryTree.SlotOccupied | nextcloud_contacts_to_gequdio/nextcloud_to_gequdio.py:361-362 | in a shaped entry a bucket's slot holds text exactly when some element of that tag does |
| DirectoryTree.PlaceOverflow | nextcloud_contacts_to_gequdio/nextcloud_to_gequdio.py:361-369 | in a shaped entry a number whose bucket already has text is a new element appended at the end; otherwise it fills the slot |
| DirectoryTree.OverflowSnoc | nextcloud_contacts_to_gequdio/nextcloud_to_gequdio.py:361-369 | placing grows the entry by one element exactly when the bucket was occupied, and changes nothing after the slots but appending that element |
| DirectoryTree.EntryOverflow | nextcloud_contacts_to_gequdio/nextcloud_to_gequdio.py:342-369 | with numbers, the entry has four elements and then exactly `Overflow(ps)`: one element per number that found its bucket occupied, with its bucket's tag and its text, in order |
| DirectoryTree.EscapeChar | nextcloud_contacts_to_gequdio/nextcloud_to_gequdio.py:371 | `&`, `<` and `>` become entities |
| DirectoryTree.Escape | nextcloud_contacts_to_gequdio/nextcloud_to_gequdio.py:371 | escaped text holds no `<` or `>` |
| DirectoryTree.UnescapeEntity | nextcloud_contacts_to_gequdio/nextcloud_to_gequdio.py:371 | an entity reads back as its character |
| DirectoryTree.UnescapeChar | nextcloud_contacts_to_gequdio/nextcloud_to_gequdio.py:371 | every escaped character reads back |
| DirectoryTree.UnescapeEscape | nextcloud_contacts_to_gequdio/nextcloud_to_gequdio.py:371 | unescaping the escaped text gives the text back |
| DirectoryTree.DocumentWraps | nextcloud_contacts_to_gequdio/nextcloud_to_gequdio.py:371-376 | the document is the declaration and a newline, the serialised root, and a final newline |
| DirectoryTree.EmptyDocument | nextcloud_contacts_to_gequdio/nextcloud_to_gequdio.py:371-376 | no entries give `<GEQUDIODirectory />` |
| DirectoryEntries.Placements | nextcloud_contacts_to_gequdio/nextcloud_to_gequdio.py:342-367 | one placement per number, in order: the number's bucket under the policy's keywords and the text the policy writes |
| DirectoryEntries.EntriesOf | nextcloud_contacts_to_gequdio/nextcloud_to_gequdio.py:332-336 | one DirectoryEntry per contact, in the given order |
| DirectoryEntries.BuildEntries | nextcloud_contacts_to_gequdio/nextcloud_to_gequdio.py:332-336 | the contact loop returns `EntriesOf(policy, sorted)`; the root script's loop (nextcloud_contacts_to_gequdio.py:298-302) is the same loop under its own policy |
| DirectoryEntries.BuildEntry | nextcloud_contacts_to_gequdio/nextcloud_to_gequdio.py:335-369 | the number loop returns `EntryOf(policy, contact)`, in both converters (nextcloud_contacts_to_gequdio.py:301-329) |
| DirectoryEntries.PlacementsSnoc | nextcloud_contacts_to_gequdio/nextcloud_to_gequdio.py:342-369 | one more number is one more `Place` |
| DirectoryEntries.EntryOfShape | nextcloud_contacts_to_gequdio/nextcloud_to_gequdio.py:336-369 | an entry starts with Name and is alone without numbers; with numbers, Telephone, Mobile and Other follow, and after them exactly one element per number whose bucket already held text, in vCard order |
| DirectoryEntries.PlacedNumbersIn | nextcloud_contacts_to_gequdio/nextcloud_to_gequdio.py:342-369 | the placed texts of a bucket are its non-empty numbers as the policy writes them |
| DirectoryEntries.EntryNumbers | nextcloud_contacts_to_gequdio/nextcloud_to_gequdio.py:356-369 | each bucket holds exactly its numbers as written (normalised here, unchanged at nextcloud_contacts_to_gequdio.py:322-329), non-empty, in vCard order |
| Gequdio.KeepDialChars | nextcloud_contacts_to_gequdio/nextcloud_to_gequdio.py:367 | only `[0-9*]` is kept, never lengthening |
| Gequdio.NormalizeNumber | nextcloud_contacts_to_gequdio/nextcloud_to_gequdio.py:366-367 | a normalised number holds only digits and `*` |
| Gequdio.KeepDialCharsConcat | nextcloud_contacts_to_gequdio/nextcloud_to_gequdio.py:367 | filtering works piecewise |
| Gequdio.KeepDialCharsOfDial | nextcloud_contacts_to_gequdio/nextcloud_to_gequdio.py:367 | a dialable string is kept whole |
| Gequdio.KeepDialCharsDrops | nextcloud_contacts_to_gequdio/nextcloud_to_gequdio.py:367 | each character stays exactly when it is dialable, in place |
| Gequdio.NormalizeLeadingPlus | nextcloud_contacts_to_gequdio/nextcloud_to_gequdio.py:366 | a leading `+` becomes `00` |
| Gequdio.NormalizeIdempotent | nextcloud_contacts_to_gequdio/nextcloud_to_gequdio.py:366-367 | normalising twice is normalising once |
| Gequdio.Contacts | nextcloud_contacts_to_gequdio/nextcloud_to_gequdio.py:332-333 | one contact per vCard |
| Gequdio.ContactsAt | nextcloud_contacts_to_gequdio/nextcloud_to_gequdio.py:333 | the i-th contact is the parse of the i-th vCard |
| Gequdio.Entries | nextcloud_contacts_to_gequdio/nextcloud_to_gequdio.py:332-336 | one entry per vCard |
| Gequdio.CreateGequdioContactXml | nextcloud_contacts_to_gequdio/nextcloud_to_gequdio.py:329-376 | the method returns `GequdioXml(vcards)` |
| Gequdio.ParseAll | nextcloud_contacts_to_gequdio/nextcloud_to_gequdio.py:332-333 | the parse loop returns `Contacts(vcards)` |
| Gequdio.NameKeys | nextcloud_contacts_to_gequdio/nextcloud_to_gequdio.py:332 | one sort key per vCard |
| Gequdio.NameKeysReparse | nextcloud_contacts_to_gequdio/nextcloud_to_gequdio.py:332-333 | the key is the lower-cased name from re-parsing that vCard, so parsing once gives the same sort |
| Gequdio.EntriesOrder | nextcloud_contacts_to_gequdio/nextcloud_to_gequdio.py:332-336 | one entry per vCard, a permutation, lower-cased names non-decreasing, ties in input order |
| Gequdio.EmptyDirectory | nextcloud_contacts_to_gequdio/nextcloud_to_gequdio.py:329-376 | no vCards give the declaration and `<GEQUDIODirectory />` |
| LegacyParser.LineEnd | nextcloud_contacts_to_gequdio.py:129 | the first line boundary, with no boundary before it |
| LegacyParser.SplitLines | nextcloud_contacts_to_gequdio.py:129 | `splitlines()` gives lines without any boundary character |
| LegacyParser.SplitJoinLines | nextcloud_contacts_to_gequdio.py:129 | lines written one per `\n` split back into the same lines |
| LegacyParser.SplitLinesCrLf | nextcloud_contacts_to_gequdio.py:129 | `\r\n` ends a line as `\n` does |
| LegacyParser.FoldPrefix | nextcloud_contacts_to_gequdio.py:136 | `startswith((" ", "\t"))` holds exactly when the first character is a space or tab |
| LegacyParser.UnfoldStep | nextcloud_contacts_to_gequdio.py:132-139 | one more physical line is one round of the loop: skipped if empty, joined left-stripped if a continuation after a kept line, else appended |
| LegacyParser.Unfold | nextcloud_contacts_to_gequdio.py:132-141 | no more lines than input, none empty, only the first starting with space or tab |
| LegacyParser.UnfoldLines | nextcloud_contacts_to_gequdio.py:119-141 | the nested `unfold_lines` returns `LogicalLines(vcard)` |
| LegacyParser.UnfoldVCardLines | nextcloud_contacts_to_gequdio.py:199-221 | `_unfold_vcard_lines` returns the same `LogicalLines(vcard)` |
| LegacyParser.UnfoldUnfolded | nextcloud_contacts_to_gequdio.py:132-139 | already unfolded lines come out unchanged |
| LegacyParser.UnfoldIdempotent | nextcloud_contacts_to_gequdio.py:132-139 | unfolding twice is unfolding once |
| LegacyParser.UnfoldFolded | nextcloud_contacts_to_gequdio.py:136-137 | a line folded before a non-blank character joins back whole, with nothing inserted |
| LegacyParser.Number | nextcloud_contacts_to_gequdio.py:150 | the number is a suffix of the stripped value, shorter exactly when that has a `:` |
| LegacyParser.NumberAfterScheme | nextcloud_contacts_to_gequdio.py:150 | a `tel:` style value yields what follows the scheme |
| LegacyParser.ParamTags | nextcloud_contacts_to_gequdio.py:151-156 | a parameter without `=` gives no tags; one with `=` gives one tag per comma piece, empty ones included |
| LegacyParser.ParamTagsEmptyValue | nextcloud_contacts_to_gequdio.py:151-156 | `NAME=` gives one empty tag |
| LegacyParser.ParamTagsFirstEquals | nextcloud_contacts_to_gequdio.py:154-155 | only the first `=` separates, so `TYPE=home=work` gives `home=work` |
| LegacyParser.TelTagsSnoc | nextcloud_contacts_to_gequdio.py:151-156 | tags appear in parameter order |
| LegacyParser.TelTagsWithoutEquals | nextcloud_contacts_to_gequdio.py:151-156 | a key of flag parameters only has no tags |
| LegacyParser.FullNamePrefixHasColon | nextcloud_contacts_to_gequdio.py:146-147 | a line matching `FN:` has a colon |
| LegacyParser.KindOfFails | nextcloud_contacts_to_gequdio.py:148-150 | a line raises exactly when it starts with TEL and lacks `:` |
| LegacyParser.KindOfTel | nextcloud_contacts_to_gequdio.py:148-157 | every TEL-prefixed line with a colon yields an entry, `TELINVALID` and blank values included |
| LegacyParser.NameOf | nextcloud_contacts_to_gequdio.py:159 | `fn or "Unknown"` is never empty |
| LegacyParser.ScanLinesFailureStays | nextcloud_contacts_to_gequdio.py:149-150 | after the first error, later lines change nothing |
| LegacyParser.ScanLineCases | nextcloud_contacts_to_gequdio.py:145-157 | one line, case by case as the loop tests them |
| LegacyParser.ParseVCard | nextcloud_contacts_to_gequdio.py:143-159 | the loop returns `Parsed(vcard)`, including the IndexError |
| LegacyParser.TelsOf | nextcloud_contacts_to_gequdio.py:148-157 | a line gives at most one entry |
| LegacyParser.ScanLineParts | nextcloud_contacts_to_gequdio.py:145-157 | a line fails exactly when TEL lacks `:`; otherwise its effect on `fn` and `tels` |
| LegacyParser.ScanLinesSnocFails | nextcloud_contacts_to_gequdio.py:149-150 | one more line fails when the scan had failed or the line fails |
| LegacyParser.ScanLinesFails | nextcloud_contacts_to_gequdio.py:145-157 | the scan fails exactly when some line starts with TEL and has no `:` |
| LegacyParser.ScanLinesValue | nextcloud_contacts_to_gequdio.py:145-157 | `fn` is the last FN value and `tels` the TEL entries in order |
| LegacyParser.ParsedName | nextcloud_contacts_to_gequdio.py:143-159 | the name is never empty: the last FN value if non-empty, else "Unknown" |
| LegacyParser.ParsedNumbers | nextcloud_contacts_to_gequdio.py:145-157 | parsing fails exactly on a TEL line without colon; else the numbers are the TEL entries in order |
| LegacyBuilder.HomeIsTelephone | nextcloud_contacts_to_gequdio.py:309-319 | a `home` tag makes the number a Telephone |
| LegacyBuilder.ClassifyAgainstCurrent | nextcloud_contacts_to_gequdio.py:313 | the two converters bucket alike unless a tag is `home`, where this one says Telephone |
| LegacyBuilder.Contacts | nextcloud_contacts_to_gequdio.py:298-299 | when parsing succeeds, one contact per vCard |
| LegacyBuilder.CreateGequdioContactXml | nextcloud_contacts_to_gequdio.py:295-336 | the method returns `GequdioXml(vcards)`, the error included |
| LegacyBuilder.ContactsFailureStays | nextcloud_contacts_to_gequdio.py:298 | the first vCard that fails decides the error |
| LegacyBuilder.ParseAll | nextcloud_contacts_to_gequdio.py:298 | the key loop returns `Contacts(vcards)` |
| LegacyBuilder.ContactsFail | nextcloud_contacts_to_gequdio.py:298 | the run fails exactly when some vCard fails to parse |
| LegacyBuilder.ContactsAt | nextcloud_contacts_to_gequdio.py:298-299 | the i-th contact is the parse of the i-th vCard |
| LegacyBuilder.EntriesOrder | nextcloud_contacts_to_gequdio.py:298-302 | one entry per vCard, a permutation, names non-decreasing, ties in input order |
| LegacyBuilder.EmptyDirectory | nextcloud_contacts_to_gequdio.py:295-336 | no vCards give the declaration and `<GEQUDIODirectory />` |

## Left out

- Transport is not modelled: HTTP/CardDAV (`download_all_contacts`, `_propfind`, `list_contacts`, `get_contact`), sessions and authentication. These are network I/O and library XML parsing; the model starts from the list of vCard texts.
- `load_settings` and `_get_user_agent` are not modelled. They are configuration files and version strings, not the conversion.
- The `print` progress line and the optional `write_text` to `write_path` are not modelled. They are I/O; the model returns the document string.
- `__main__` blocks are not modelled.
- Text.Lower: only ASCII letters change case. Python's `lower()` and `upper()` map all of Unicode, including mappings that change the length.
- ElementTree's serialiser is reduced to what these trees need: start and end tags, `<X />` for missing or empty text, and escaping of `&`, `<` and `>`. Byte-level encoding details of the library are not modelled.
- The element tree is a value: each entry is a `seq<Element>` and `el.text = number` is a sequence update. Aliasing through the `el` reference is not modelled, because nothing else holds that reference.
- The regular expressions are not run by a regex engine. `^\+`, `[^0-9*]+` and the property-start pattern are hand-written functions; Folding.PropertyStartIsPatternMatch relates the last one to the regex's backtracking reading.
- Ordering.SortBy: Python's `sorted` is Timsort. The model uses a stable insertion sort on positions, and Ordering.SortedOrderUnique shows that every stable sort of the same keys gives the same order.
- Gequdio.ParseAll and LegacyBuilder.ParseAll parse each vCard once, where the source parses it a second time inside the sort key. Gequdio.NameKeysReparse states that the two parses agree.
- DirectoryTree.Document carries no contract of its own. The document's shape is stated by DirectoryTree.DocumentWraps.
