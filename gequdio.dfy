// `create_gequdio_contact_xml` of the current converter: the parsed contacts, stably
// sorted by lower-cased name, each become a DirectoryEntry whose numbers are bucketed by
// their type tags and normalised to the digits and `*` a desk phone can dial.
module Gequdio {
  import opened Wrappers
  import opened Text
  import opened Ordering
  import opened DirectoryTree
  import opened DirectoryEntries
  import VCard

  // ---------------------------------------------------------------------------
  // Number normalisation
  // ---------------------------------------------------------------------------

  /** A character `[0-9*]` keeps. */
  predicate IsDialChar(c: char)
  {
    '0' <= c <= '9' || c == '*'
  }

  /** `re.sub(r"[^0-9*]+", "", s)`: the dial characters of `s`, in order. */
  function KeepDialChars(s: string): (r: string)
    ensures |r| <= |s|
    ensures forall i :: 0 <= i < |r| ==> IsDialChar(r[i])
  {
    if s == [] then []
    else (if IsDialChar(s[0]) then [s[0]] else []) + KeepDialChars(s[1..])
  }

  /** A leading `+` becomes the international prefix `00`; then everything but `[0-9*]` goes. */
  function NormalizeNumber(number: string): (r: string)
    ensures forall i :: 0 <= i < |r| ==> IsDialChar(r[i])
  {
    KeepDialChars(if number != [] && number[0] == '+' then "00" + number[1..] else number)
  }

  lemma {:induction false} KeepDialCharsConcat(x: string, y: string)
    ensures KeepDialChars(x + y) == KeepDialChars(x) + KeepDialChars(y)
  {
    if x != [] {
      assert (x + y)[1..] == x[1..] + y;
      KeepDialCharsConcat(x[1..], y);
    } else {
      assert x + y == y;
    }
  }

  /** A string of dial characters is kept whole. */
  lemma {:induction false} KeepDialCharsOfDial(s: string)
    requires forall i :: 0 <= i < |s| ==> IsDialChar(s[i])
    ensures KeepDialChars(s) == s
  {
    if s != [] {
      KeepDialCharsOfDial(s[1..]);
    }
  }

  /** Every character that is not a dial character is removed, and the dial characters stay in order. */
  lemma {:induction false} KeepDialCharsDrops(x: string, c: char, y: string)
    ensures KeepDialChars(x + [c] + y) == KeepDialChars(x) + (if IsDialChar(c) then [c] else []) + KeepDialChars(y)
  {
    KeepDialCharsConcat(x + [c], y);
    KeepDialCharsConcat(x, [c]);
  }

  /** A leading `+` becomes `00` in front of the dial characters of the rest. */
  lemma NormalizeLeadingPlus(rest: string)
    ensures NormalizeNumber("+" + rest) == "00" + KeepDialChars(rest)
  {
    assert ("+" + rest)[1..] == rest;
    KeepDialCharsConcat("00", rest);
  }

  /** Normalising a normalised number changes nothing. */
  lemma NormalizeIdempotent(number: string)
    ensures NormalizeNumber(NormalizeNumber(number)) == NormalizeNumber(number)
  {
    var r := NormalizeNumber(number);
    KeepDialCharsOfDial(r);
  }

  // ---------------------------------------------------------------------------
  // Buckets
  // ---------------------------------------------------------------------------

  /** The keywords that make a number GEQUDIO's office "Telephone". */
  const OfficeWords: set<string> := {"work", "desk", "office"}

  function Classify(types: seq<string>): Bucket
  {
    ClassifyWith(types, OfficeWords)
  }

  // ---------------------------------------------------------------------------
  // The directory
  // ---------------------------------------------------------------------------

  /** Numbers are classified against the office keywords and written normalised. */
  const Current: Policy := Policy(OfficeWords, NormalizeNumber)

  /** `self._parse_vcard(v)[0].lower()`: the sort key of a contact. */
  function SortKey(c: VCard.Contact): string
  {
    Lower(c.name)
  }

  /** The parsed contacts, in input order. */
  function Contacts(vcards: seq<string>): (r: seq<VCard.Contact>)
    ensures |r| == |vcards|
  {
    if vcards == [] then []
    else Contacts(vcards[..|vcards| - 1]) + [VCard.ParsedContact(vcards[|vcards| - 1])]
  }

  lemma {:induction false} ContactsAt(vcards: seq<string>, i: nat)
    requires i < |vcards|
    ensures Contacts(vcards)[i] == VCard.ParsedContact(vcards[i])
  {
    if i < |vcards| - 1 {
      ContactsAt(vcards[..|vcards| - 1], i);
    }
  }

  /** The entries of the directory, in the order the contacts are sorted into. */
  function Entries(vcards: seq<string>): (r: seq<seq<Element>>)
    ensures |r| == |vcards|
  {
    EntriesOf(Current, SortBy(Contacts(vcards), SortKey))
  }

  /** The document `create_gequdio_contact_xml` returns. */
  function GequdioXml(vcards: seq<string>): string
  {
    Document(Entries(vcards))
  }

  /**
   * `create_gequdio_contact_xml`: parse, sort by lower-cased name, build one entry per
   * contact with its numbers placed one by one, and wrap the serialised root.
   */
  method CreateGequdioContactXml(vcards: seq<string>) returns (xml: string)
    ensures xml == GequdioXml(vcards)
  {
    var contacts := ParseAll(vcards);
    var sorted := SortBy(contacts, SortKey);
    var entries := BuildEntries(Current, sorted);
    xml := Document(entries);
  }

  /** Parses every vCard once; the source parses again inside the sort key, with the same result. */
  method ParseAll(vcards: seq<string>) returns (contacts: seq<VCard.Contact>)
    ensures contacts == Contacts(vcards)
  {
    contacts := [];
    for i := 0 to |vcards|
      invariant contacts == Contacts(vcards[..i])
    {
      var name, numbers := VCard.ParseVCard(vcards[i]);
      assert vcards[..i + 1][..i] == vcards[..i];
      contacts := contacts + [VCard.Contact(name, numbers)];
    }
    assert vcards[..|vcards|] == vcards;
  }

  // ---------------------------------------------------------------------------
  // Properties of the document
  // ---------------------------------------------------------------------------

  /** The lower-cased names the contacts are sorted by. */
  function NameKeys(vcards: seq<string>): (r: seq<string>)
    ensures |r| == |vcards|
  {
    Keys(Contacts(vcards), SortKey)
  }

  /**
   * The key of each vCard is the one the source computes by parsing it again inside the
   * sort key, and the contact sorted under it is that vCard's parsed contact.
   */
  lemma NameKeysReparse(vcards: seq<string>, i: nat)
    requires i < |vcards|
    ensures NameKeys(vcards)[i] == Lower(VCard.ParsedContact(vcards[i]).name)
    ensures Contacts(vcards)[i] == VCard.ParsedContact(vcards[i])
  {
    ContactsAt(vcards, i);
  }

  /**
   * One entry per vCard, in the stable sorted order of the lower-cased names: the order
   * lists every vCard once, the names never decrease, and equal names keep input order.
   */
  lemma EntriesOrder(vcards: seq<string>)
    ensures var order := SortedOrder(NameKeys(vcards));
            && |Entries(vcards)| == |vcards| == |order|
            && multiset(order) == multiset(Range(|vcards|))
            && (forall k :: 0 <= k < |vcards| ==> order[k] < |vcards| && Entries(vcards)[k] == EntryOf(Current, Contacts(vcards)[order[k]]))
            && (forall a, b :: 0 <= a < b < |vcards| ==> LessEq(NameKeys(vcards)[order[a]], NameKeys(vcards)[order[b]]))
            && (forall a, b :: (0 <= a < b < |vcards| && NameKeys(vcards)[order[a]] == NameKeys(vcards)[order[b]]) ==> order[a] < order[b])
  {
    SortedOrderIsStableSort(NameKeys(vcards));
  }

  /** An empty vCard list gives a root element without children. */
  lemma EmptyDirectory()
    ensures GequdioXml([]) == Declaration + "\n<GEQUDIODirectory />\n"
  {
    assert Entries([]) == [];
    EmptyDocument();
  }
}
