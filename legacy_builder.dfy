// `create_gequdio_contact_xml` of the root script: the same stable sort by lower-cased name,
// placeholders and append-on-occupied placement as the current converter, but with "home"
// among the office keywords, every number written exactly as parsed, and a vCard that fails
// to parse ending the whole run with its error.
module LegacyBuilder {
  import opened Wrappers
  import opened Text
  import opened Lists
  import opened Ordering
  import opened DirectoryTree
  import opened DirectoryEntries
  import VCard
  import Gequdio
  import LegacyParser

  // ---------------------------------------------------------------------------
  // Buckets
  // ---------------------------------------------------------------------------

  /** The keywords that make a number the office "Telephone"; "home" counts as office here. */
  const OfficeWords: set<string> := {"work", "desk", "office", "home"}

  function Classify(types: seq<string>): Bucket
  {
    ClassifyWith(types, OfficeWords)
  }

  /** A home number is an office Telephone, whatever other tags it has. */
  lemma HomeIsTelephone(types: seq<string>)
    requires HasTagIn(types, {"home"})
    ensures Classify(types) == Telephone
  {
    var i :| 0 <= i < |types| && Lower(Trim(types[i])) in {"home"};
    assert Lower(Trim(types[i])) in OfficeWords;
    ClassifyWithTags(types, OfficeWords);
  }

  /**
   * The two converters choose the same bucket unless a tag is "home", in which case this one
   * chooses Telephone.
   */
  lemma ClassifyAgainstCurrent(types: seq<string>)
    ensures !HasTagIn(types, {"home"}) ==> Classify(types) == Gequdio.Classify(types)
    ensures Classify(types) != Gequdio.Classify(types) ==> Classify(types) == Telephone
  {
    ClassifyWithTags(types, OfficeWords);
    ClassifyWithTags(types, Gequdio.OfficeWords);
    if HasTagIn(types, OfficeWords) && !HasTagIn(types, {"home"}) {
      var i :| 0 <= i < |types| && Lower(Trim(types[i])) in OfficeWords;
      assert Lower(Trim(types[i])) != "home";
      assert Lower(Trim(types[i])) in Gequdio.OfficeWords;
    }
    if HasTagIn(types, Gequdio.OfficeWords) {
      var i :| 0 <= i < |types| && Lower(Trim(types[i])) in Gequdio.OfficeWords;
      assert Lower(Trim(types[i])) in OfficeWords;
    }
  }

  // ---------------------------------------------------------------------------
  // The directory
  // ---------------------------------------------------------------------------

  /** Numbers are classified against this script's office keywords and written as parsed. */
  const Legacy: Policy := Policy(OfficeWords, number => number)

  /** The parsed contacts in input order, or the error of the first vCard that fails to parse. */
  function Contacts(vcards: seq<string>): (r: Result<seq<VCard.Contact>, LegacyParser.ParseError>)
    ensures r.Success? ==> |r.value| == |vcards|
  {
    if vcards == [] then Success([])
    else match Contacts(vcards[..|vcards| - 1])
      case Failure(e) => Failure(e)
      case Success(cs) =>
        match LegacyParser.Parsed(vcards[|vcards| - 1])
        case Failure(e) => Failure(e)
        case Success(c) => Success(cs + [c])
  }

  /** What the root script's `create_gequdio_contact_xml` returns, or the error it raises. */
  function GequdioXml(vcards: seq<string>): Result<string, LegacyParser.ParseError>
  {
    match Contacts(vcards)
    case Failure(e) => Failure(e)
    case Success(cs) => Success(Document(EntriesOf(Legacy, SortBy(cs, Gequdio.SortKey))))
  }

  /**
   * `create_gequdio_contact_xml`: every vCard is parsed for the sort key before any entry is
   * built, so one that fails ends the run; then the sorted contacts become entries as in the
   * current converter, with raw numbers.
   */
  method CreateGequdioContactXml(vcards: seq<string>) returns (r: Result<string, LegacyParser.ParseError>)
    ensures r == GequdioXml(vcards)
  {
    var parsed := ParseAll(vcards);
    if parsed.Failure? {
      return Failure(parsed.error);
    }
    var sorted := SortBy(parsed.value, Gequdio.SortKey);
    var entries := BuildEntries(Legacy, sorted);
    r := Success(Document(entries));
  }

  /** Once a vCard has failed, later ones do not change the error. */
  lemma {:induction false} ContactsFailureStays(vcards: seq<string>, n: nat)
    requires n <= |vcards| && Contacts(vcards[..n]).Failure?
    ensures Contacts(vcards) == Contacts(vcards[..n])
    decreases |vcards| - n
  {
    if n < |vcards| {
      var init := vcards[..|vcards| - 1];
      assert init[..n] == vcards[..n];
      ContactsFailureStays(init, n);
    } else {
      assert vcards[..n] == vcards;
    }
  }

  /** The key function of `sorted`, applied to every vCard in turn. */
  method ParseAll(vcards: seq<string>) returns (r: Result<seq<VCard.Contact>, LegacyParser.ParseError>)
    ensures r == Contacts(vcards)
  {
    var contacts: seq<VCard.Contact> := [];
    for i := 0 to |vcards|
      invariant Contacts(vcards[..i]) == Success(contacts)
    {
      var parsed := LegacyParser.ParseVCard(vcards[i]);
      assert vcards[..i + 1][..i] == vcards[..i];
      if parsed.Failure? {
        ContactsFailureStays(vcards, i + 1);
        return Failure(parsed.error);
      }
      contacts := contacts + [parsed.value];
    }
    assert vcards[..|vcards|] == vcards;
    r := Success(contacts);
  }

  // ---------------------------------------------------------------------------
  // Properties of the document
  // ---------------------------------------------------------------------------

  /** The vCard fails to parse. */
  predicate Fails(vcard: string)
  {
    LegacyParser.Parsed(vcard).Failure?
  }

  /** The run fails exactly when some vCard fails to parse. */
  lemma {:induction false} ContactsFail(vcards: seq<string>)
    ensures Contacts(vcards).Failure? <==> Any(vcards, Fails)
    ensures GequdioXml(vcards).Failure? <==> Any(vcards, Fails)
    decreases |vcards|
  {
    if vcards != [] {
      ContactsFail(vcards[..|vcards| - 1]);
      AnySnoc(vcards, Fails);
    }
  }

  /** When the run succeeds, the i-th contact is what parsing the i-th vCard gives. */
  lemma {:induction false} ContactsAt(vcards: seq<string>, i: nat)
    requires i < |vcards| && Contacts(vcards).Success?
    ensures LegacyParser.Parsed(vcards[i]) == Success(Contacts(vcards).value[i])
  {
    if i < |vcards| - 1 {
      ContactsAt(vcards[..|vcards| - 1], i);
    }
  }

  /**
   * When every vCard parses, there is one entry per vCard, in the stable sorted order of the
   * lower-cased names: the order lists every vCard once, the names never decrease, and equal
   * names keep input order.
   */
  lemma EntriesOrder(vcards: seq<string>)
    requires Contacts(vcards).Success?
    ensures var cs := Contacts(vcards).value;
            var keys := Keys(cs, Gequdio.SortKey);
            var order := SortedOrder(keys);
            var entries := EntriesOf(Legacy, SortBy(cs, Gequdio.SortKey));
            && GequdioXml(vcards) == Success(Document(entries))
            && |entries| == |vcards| == |order|
            && multiset(order) == multiset(Range(|vcards|))
            && (forall k :: 0 <= k < |vcards| ==> order[k] < |vcards| && entries[k] == EntryOf(Legacy, cs[order[k]]))
            && (forall a, b :: 0 <= a < b < |vcards| ==> LessEq(keys[order[a]], keys[order[b]]))
            && (forall a, b :: (0 <= a < b < |vcards| && keys[order[a]] == keys[order[b]]) ==> order[a] < order[b])
  {
    SortedOrderIsStableSort(Keys(Contacts(vcards).value, Gequdio.SortKey));
  }

  /** An empty vCard list gives a root element without children. */
  lemma EmptyDirectory()
    ensures GequdioXml([]) == Success(Declaration + "\n<GEQUDIODirectory />\n")
  {
    assert SortBy([], Gequdio.SortKey) == [];
    assert EntriesOf(Legacy, []) == [];
    EmptyDocument();
  }
}
