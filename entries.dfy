// The loop that turns each sorted contact into a DirectoryEntry, shared by both converters.
// They differ only in their office keywords and in what they write for a number: the
// current converter normalises it, the root script writes it as parsed.
module DirectoryEntries {
  import opened DirectoryTree
  import VCard

  /** How a converter places its numbers: the keywords that make a Telephone, and the text written. */
  datatype Policy = Policy(officeWords: set<string>, text: string -> string)

  /** The bucket and the text of one number. */
  function PlacementOf(policy: Policy, e: VCard.TelEntry): Placement
  {
    Placement(ClassifyWith(e.types, policy.officeWords), policy.text(e.number))
  }

  function Placements(policy: Policy, numbers: seq<VCard.TelEntry>): (r: seq<Placement>)
    ensures |r| == |numbers|
    ensures forall i :: 0 <= i < |numbers| ==> r[i] == PlacementOf(policy, numbers[i])
  {
    seq(|numbers|, i requires 0 <= i < |numbers| => PlacementOf(policy, numbers[i]))
  }

  /** The children of the DirectoryEntry of one contact. */
  function EntryOf(policy: Policy, c: VCard.Contact): seq<Element>
  {
    EntryChildren(c.name, Placements(policy, c.numbers))
  }

  /** One DirectoryEntry's children per contact, in the given order. */
  function EntriesOf(policy: Policy, contacts: seq<VCard.Contact>): (r: seq<seq<Element>>)
    ensures |r| == |contacts|
    ensures forall k :: 0 <= k < |contacts| ==> r[k] == EntryOf(policy, contacts[k])
  {
    seq(|contacts|, k requires 0 <= k < |contacts| => EntryOf(policy, contacts[k]))
  }

  /** The loop over the sorted contacts, one DirectoryEntry each. */
  method BuildEntries(policy: Policy, sorted: seq<VCard.Contact>) returns (entries: seq<seq<Element>>)
    ensures entries == EntriesOf(policy, sorted)
  {
    entries := [];
    for k := 0 to |sorted|
      invariant |entries| == k
      invariant forall j :: 0 <= j < k ==> entries[j] == EntryOf(policy, sorted[j])
    {
      var children := BuildEntry(policy, sorted[k]);
      entries := entries + [children];
    }
  }

  /** The body of the contact loop: the Name element, then each number classified and placed. */
  method BuildEntry(policy: Policy, contact: VCard.Contact) returns (children: seq<Element>)
    ensures children == EntryOf(policy, contact)
  {
    children := [NameElement(contact.name)];
    for n := 0 to |contact.numbers|
      invariant children == EntryChildren(contact.name, Placements(policy, contact.numbers[..n]))
    {
      var e := contact.numbers[n];
      var bucket := ClassifyWith(e.types, policy.officeWords);
      PlacementsSnoc(policy, contact.name, contact.numbers, n);
      children := PlaceNumber(children, Placement(bucket, policy.text(e.number)));
    }
    assert contact.numbers[..|contact.numbers|] == contact.numbers;
  }

  /** Placing one more number extends the entry built so far. */
  lemma PlacementsSnoc(policy: Policy, name: string, numbers: seq<VCard.TelEntry>, n: nat)
    requires n < |numbers|
    ensures EntryChildren(name, Placements(policy, numbers[..n + 1]))
         == Place(EntryChildren(name, Placements(policy, numbers[..n])), PlacementOf(policy, numbers[n]))
  {
    var ps := Placements(policy, numbers[..n + 1]);
    assert ps[..n] == Placements(policy, numbers[..n]);
  }

  /**
   * Each entry starts with a Name holding the contact's name; a contact without numbers has
   * nothing else, one with numbers continues with Telephone, Mobile and Other, and then with
   * one element for each number whose bucket already held one.
   */
  lemma EntryOfShape(policy: Policy, c: VCard.Contact)
    ensures EntryOf(policy, c)[0] == NameElement(c.name)
    ensures c.numbers == [] ==> EntryOf(policy, c) == [NameElement(c.name)]
    ensures c.numbers != [] ==> |EntryOf(policy, c)| == 4 + |Overflow(Placements(policy, c.numbers))|
    ensures c.numbers != [] ==> EntryOf(policy, c)[1].tag == BucketTag(Telephone)
    ensures c.numbers != [] ==> EntryOf(policy, c)[2].tag == BucketTag(Mobile)
    ensures c.numbers != [] ==> EntryOf(policy, c)[3].tag == BucketTag(Other)
    ensures c.numbers != [] ==> EntryOf(policy, c)[4..] == Overflow(Placements(policy, c.numbers))
  {
    EntryShape(c.name, Placements(policy, c.numbers));
    EntryOverflow(c.name, Placements(policy, c.numbers));
  }

  /** The texts the converter writes for the numbers classified into `b`, non-empty ones only, in order. */
  function NumbersIn(policy: Policy, numbers: seq<VCard.TelEntry>, b: Bucket): seq<string>
  {
    if numbers == [] then []
    else
      var e := numbers[|numbers| - 1];
      var text := policy.text(e.number);
      NumbersIn(policy, numbers[..|numbers| - 1], b)
        + if ClassifyWith(e.types, policy.officeWords) == b && text != [] then [text] else []
  }

  lemma {:induction false} PlacedNumbersIn(policy: Policy, numbers: seq<VCard.TelEntry>, b: Bucket)
    ensures PlacedTexts(Placements(policy, numbers), b) == NumbersIn(policy, numbers, b)
  {
    if numbers != [] {
      var init := numbers[..|numbers| - 1];
      PlacedNumbersIn(policy, init, b);
      assert Placements(policy, numbers)[..|numbers| - 1] == Placements(policy, init);
    }
  }

  /**
   * The texts of an entry's `b` elements are exactly the contact's numbers classified into
   * `b`, as the converter writes them, in vCard order: no number with a non-empty text is
   * lost or doubled.
   */
  lemma EntryNumbers(policy: Policy, c: VCard.Contact, b: Bucket)
    ensures Texts(EntryOf(policy, c), BucketTag(b)) == NumbersIn(policy, c.numbers, b)
  {
    EntryTexts(c.name, Placements(policy, c.numbers), b);
    PlacedNumbersIn(policy, c.numbers, b);
  }
}
