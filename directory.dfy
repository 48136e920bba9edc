// The GEQUDIO directory tree that both builders assemble with ElementTree: one
// DirectoryEntry per contact holding a Name element followed by Telephone, Mobile and
// Other elements; the rule that places one number into an entry; the choice of bucket
// from a number's type tags; and the serialisation of the finished tree.
module DirectoryTree {
  import opened Wrappers
  import opened Text

  /** The three kinds of number element. GEQUDIO shows "Telephone" as its office number. */
  datatype Bucket = Telephone | Mobile | Other

  /** The tag of an element of a DirectoryEntry: Name, or one of the buckets. */
  datatype Tag = NameTag | BucketTag(bucket: Bucket)

  /** The tag as ElementTree writes it. */
  function TagName(t: Tag): string
  {
    match t
    case NameTag => "Name"
    case BucketTag(Telephone) => "Telephone"
    case BucketTag(Mobile) => "Mobile"
    case BucketTag(Other) => "Other"
  }

  /** An element of a DirectoryEntry: its tag and its `text`, which may be `None`. */
  datatype Element = Element(tag: Tag, text: Option<string>)

  /** What one number contributes: the bucket it goes to and the text it is written as. */
  datatype Placement = Placement(bucket: Bucket, text: string)

  /** `el.text` is truthy: the element holds a non-empty text. */
  predicate Occupied(e: Element)
  {
    e.text.Some? && e.text.value != []
  }

  // ---------------------------------------------------------------------------
  // Choosing the bucket
  // ---------------------------------------------------------------------------

  /** `{t.strip().lower() for t in types}`. */
  function NormalizedTags(types: seq<string>): set<string>
  {
    set t | t in types :: Lower(Trim(t))
  }

  const MobileWords: set<string> := {"cell", "mobile"}

  /**
   * The first bucket whose keywords meet the normalised tags: Telephone when they meet
   * `officeWords`, else Mobile when they meet {cell, mobile}, else Other.
   */
  function ClassifyWith(types: seq<string>, officeWords: set<string>): Bucket
  {
    var tags := NormalizedTags(types);
    if tags * officeWords != {} then Telephone
    else if tags * MobileWords != {} then Mobile
    else Other
  }

  /** Some tag, once trimmed and lower-cased, is one of `words`. */
  predicate HasTagIn(types: seq<string>, words: set<string>)
  {
    exists i :: 0 <= i < |types| && Lower(Trim(types[i])) in words
  }

  lemma MeetsIffHasTag(types: seq<string>, words: set<string>)
    ensures NormalizedTags(types) * words != {} <==> HasTagIn(types, words)
  {
    if HasTagIn(types, words) {
      var i :| 0 <= i < |types| && Lower(Trim(types[i])) in words;
      assert Lower(Trim(types[i])) in NormalizedTags(types) * words;
    }
    if NormalizedTags(types) * words != {} {
      var w :| w in NormalizedTags(types) * words;
      var t :| t in types && Lower(Trim(t)) == w;
      var i :| 0 <= i < |types| && types[i] == t;
    }
  }

  /** The bucket in terms of the individual tags: Telephone wins over Mobile, Other is the fallback. */
  lemma ClassifyWithTags(types: seq<string>, officeWords: set<string>)
    ensures ClassifyWith(types, officeWords) == Telephone <==> HasTagIn(types, officeWords)
    ensures ClassifyWith(types, officeWords) == Mobile <==> !HasTagIn(types, officeWords) && HasTagIn(types, MobileWords)
    ensures ClassifyWith(types, officeWords) == Other <==> !HasTagIn(types, officeWords) && !HasTagIn(types, MobileWords)
  {
    MeetsIffHasTag(types, officeWords);
    MeetsIffHasTag(types, MobileWords);
  }

  // ---------------------------------------------------------------------------
  // Placing one number into an entry
  // ---------------------------------------------------------------------------

  /** `contact_node.find(tag)`: the position of the first child with this tag. */
  function Find(children: seq<Element>, tag: Tag): (r: Option<nat>)
    ensures r.None? <==> forall k :: 0 <= k < |children| ==> children[k].tag != tag
    ensures r.Some? ==> r.value < |children| && children[r.value].tag == tag
    ensures r.Some? ==> forall k :: 0 <= k < r.value ==> children[k].tag != tag
  {
    if children == [] then None
    else if children[0].tag == tag then Some(0)
    else match Find(children[1..], tag)
      case None => None
      case Some(k) => Some(k + 1)
  }

  /** The tags the placeholder loop makes sure of, in its order. */
  const PlaceholderTags: seq<Tag> := [BucketTag(Telephone), BucketTag(Mobile), BucketTag(Other)]

  /** One round of the placeholder loop: an empty `tag` element is appended if none exists. */
  function EnsureTag(children: seq<Element>, tag: Tag): seq<Element>
  {
    if Find(children, tag).None? then children + [Element(tag, None)] else children
  }

  /** The placeholder loop run over `tags`. */
  function EnsureTags(children: seq<Element>, tags: seq<Tag>): seq<Element>
  {
    if tags == [] then children
    else EnsureTag(EnsureTags(children, tags[..|tags| - 1]), tags[|tags| - 1])
  }

  /**
   * The children after one number is placed: the placeholders are made sure of; then the
   * text goes into the first element of its bucket when that one is empty, and into a new
   * element appended at the end when it is occupied.
   */
  function Place(children: seq<Element>, p: Placement): seq<Element>
  {
    var cs := EnsureTags(children, PlaceholderTags);
    var tag := BucketTag(p.bucket);
    match Find(cs, tag)
    case None => cs + [Element(tag, Some(p.text))]
    case Some(k) =>
      if Occupied(cs[k]) then cs + [Element(tag, Some(p.text))]
      else cs[k := Element(tag, Some(p.text))]
  }

  /** The children after placing every number in order. */
  function Fill(children: seq<Element>, ps: seq<Placement>): seq<Element>
  {
    if ps == [] then children
    else Place(Fill(children, ps[..|ps| - 1]), ps[|ps| - 1])
  }

  /** `ET.SubElement(contact_node, "Name").text = contact_name`. */
  function NameElement(name: string): Element
  {
    Element(NameTag, Some(name))
  }

  /** The children of the DirectoryEntry of a contact: its Name, then its numbers placed in order. */
  function EntryChildren(name: string, ps: seq<Placement>): seq<Element>
  {
    Fill([NameElement(name)], ps)
  }

  /** The body of the number loop for one number: the placeholder loop, then the placement. */
  method PlaceNumber(children: seq<Element>, p: Placement) returns (r: seq<Element>)
    ensures r == Place(children, p)
  {
    r := children;
    for j := 0 to |PlaceholderTags|
      invariant r == EnsureTags(children, PlaceholderTags[..j])
    {
      assert PlaceholderTags[..j + 1][..j] == PlaceholderTags[..j];
      if Find(r, PlaceholderTags[j]).None? {
        r := r + [Element(PlaceholderTags[j], None)];
      }
    }
    assert PlaceholderTags[..|PlaceholderTags|] == PlaceholderTags;
    var tag := BucketTag(p.bucket);
    var found := Find(r, tag);
    if found.None? || Occupied(r[found.value]) {
      r := r + [Element(tag, Some(p.text))];
    } else {
      r := r[found.value := Element(tag, Some(p.text))];
    }
  }

  // ---------------------------------------------------------------------------
  // The shape an entry keeps
  // ---------------------------------------------------------------------------

  /** The fixed position of each bucket's first element, right after Name. */
  function Slot(b: Bucket): (r: nat)
    ensures 1 <= r <= 3
  {
    match b
    case Telephone => 1
    case Mobile => 2
    case Other => 3
  }

  /**
   * An entry holding at least one number: Name first, then the first Telephone, Mobile and
   * Other elements in that order, only bucket elements after Name, and a bucket whose
   * first element is empty has no other element.
   */
  predicate Shaped(cs: seq<Element>, name: string)
  {
    && |cs| >= 4
    && cs[0] == NameElement(name)
    && cs[1].tag == BucketTag(Telephone) && cs[2].tag == BucketTag(Mobile) && cs[3].tag == BucketTag(Other)
    && (forall k :: 1 <= k < |cs| ==> cs[k].tag.BucketTag?)
    && (forall k :: (1 <= k < |cs| && cs[k].tag.BucketTag? && !Occupied(cs[Slot(cs[k].tag.bucket)])) ==> k == Slot(cs[k].tag.bucket))
  }

  /** The first element with a tag is the one `find` returns. */
  lemma FindAt(cs: seq<Element>, tag: Tag, k: nat)
    requires k < |cs| && cs[k].tag == tag
    requires forall j :: 0 <= j < k ==> cs[j].tag != tag
    ensures Find(cs, tag) == Some(k)
  {
  }

  lemma FindSlot(cs: seq<Element>, name: string, b: Bucket)
    requires Shaped(cs, name)
    ensures Find(cs, BucketTag(b)) == Some(Slot(b))
  {
    FindAt(cs, BucketTag(b), Slot(b));
  }

  lemma ShapedPlaceholders(cs: seq<Element>, name: string)
    requires Shaped(cs, name)
    ensures EnsureTags(cs, PlaceholderTags) == cs
  {
    assert PlaceholderTags[..2][..1] == [BucketTag(Telephone)];
    assert PlaceholderTags[..2] == [BucketTag(Telephone), BucketTag(Mobile)];
    FindSlot(cs, name, Telephone);
    FindSlot(cs, name, Mobile);
    FindSlot(cs, name, Other);
    assert EnsureTags(cs, [BucketTag(Telephone)]) == cs;
    assert EnsureTags(cs, [BucketTag(Telephone), BucketTag(Mobile)]) == cs;
  }

  /** The first number turns the lone Name into Name, Telephone, Mobile, Other with the number in its slot. */
  lemma PlaceFirst(name: string, p: Placement)
    ensures Place([NameElement(name)], p)
         == [NameElement(name), Element(BucketTag(Telephone), None), Element(BucketTag(Mobile), None), Element(BucketTag(Other), None)]
              [Slot(p.bucket) := Element(BucketTag(p.bucket), Some(p.text))]
  {
    var e0 := [NameElement(name)];
    var e1 := e0 + [Element(BucketTag(Telephone), None)];
    var e2 := e1 + [Element(BucketTag(Mobile), None)];
    var e3 := e2 + [Element(BucketTag(Other), None)];
    assert PlaceholderTags[..2][..1] == [BucketTag(Telephone)];
    assert PlaceholderTags[..2] == [BucketTag(Telephone), BucketTag(Mobile)];
    assert EnsureTags(e0, [BucketTag(Telephone)]) == e1;
    assert EnsureTags(e0, [BucketTag(Telephone), BucketTag(Mobile)]) == e2;
    assert EnsureTags(e0, PlaceholderTags) == e3;
    FindAt(e3, BucketTag(p.bucket), Slot(p.bucket));
  }

  lemma PlaceFirstShaped(name: string, p: Placement)
    ensures Shaped(Place([NameElement(name)], p), name)
  {
    PlaceFirst(name, p);
  }

  lemma PlaceShaped(cs: seq<Element>, name: string, p: Placement)
    requires Shaped(cs, name)
    ensures Shaped(Place(cs, p), name)
  {
    ShapedPlaceholders(cs, name);
    FindSlot(cs, name, p.bucket);
  }

  /** An entry with at least one number keeps its shape. */
  lemma {:induction false} FillShaped(name: string, ps: seq<Placement>)
    requires ps != []
    ensures Shaped(EntryChildren(name, ps), name)
  {
    if |ps| == 1 {
      assert ps[..|ps| - 1] == [];
      assert Fill([NameElement(name)], ps[..|ps| - 1]) == [NameElement(name)];
      assert EntryChildren(name, ps) == Place([NameElement(name)], ps[0]);
      PlaceFirstShaped(name, ps[0]);
    } else {
      FillShaped(name, ps[..|ps| - 1]);
      PlaceShaped(EntryChildren(name, ps[..|ps| - 1]), name, ps[|ps| - 1]);
    }
  }

  /**
   * Every entry starts with its Name; without numbers that is all it holds, and with
   * numbers it continues with the Telephone, Mobile and Other elements, in that order.
   */
  lemma EntryShape(name: string, ps: seq<Placement>)
    ensures EntryChildren(name, ps)[0] == NameElement(name)
    ensures ps == [] ==> EntryChildren(name, ps) == [NameElement(name)]
    ensures ps != [] ==> |EntryChildren(name, ps)| >= 4
    ensures ps != [] ==> EntryChildren(name, ps)[1].tag == BucketTag(Telephone)
    ensures ps != [] ==> EntryChildren(name, ps)[2].tag == BucketTag(Mobile)
    ensures ps != [] ==> EntryChildren(name, ps)[3].tag == BucketTag(Other)
  {
    if ps != [] {
      FillShaped(name, ps);
    }
  }

  // ---------------------------------------------------------------------------
  // Where the numbers end up
  // ---------------------------------------------------------------------------

  /** The non-empty texts of the `tag` elements, in order. */
  function Texts(cs: seq<Element>, tag: Tag): seq<string>
  {
    if cs == [] then []
    else
      var e := cs[|cs| - 1];
      Texts(cs[..|cs| - 1], tag) + if e.tag == tag && Occupied(e) then [e.text.value] else []
  }

  /** The non-empty texts placed into bucket `b`, in order. */
  function PlacedTexts(ps: seq<Placement>, b: Bucket): seq<string>
  {
    if ps == [] then []
    else
      var p := ps[|ps| - 1];
      PlacedTexts(ps[..|ps| - 1], b) + if p.bucket == b && p.text != [] then [p.text] else []
  }

  lemma {:induction false} TextsNone(cs: seq<Element>, tag: Tag)
    requires forall k :: 0 <= k < |cs| ==> !(cs[k].tag == tag && Occupied(cs[k]))
    ensures Texts(cs, tag) == []
  {
    if cs != [] {
      TextsNone(cs[..|cs| - 1], tag);
    }
  }

  /** Replacing an element changes no texts of a tag that neither the old nor the new one has. */
  lemma {:induction false} TextsUpdateOther(cs: seq<Element>, k: nat, e: Element, tag: Tag)
    requires k < |cs| && cs[k].tag != tag && e.tag != tag
    ensures Texts(cs[k := e], tag) == Texts(cs, tag)
  {
    if k < |cs| - 1 {
      assert cs[k := e][..|cs| - 1] == cs[..|cs| - 1][k := e];
      TextsUpdateOther(cs[..|cs| - 1], k, e, tag);
    } else {
      assert cs[k := e][..|cs| - 1] == cs[..|cs| - 1];
    }
  }

  /** When only position `k` has the tag, the texts of the tag are that element's text, if any. */
  lemma {:induction false} TextsSole(cs: seq<Element>, k: nat, tag: Tag)
    requires k < |cs| && cs[k].tag == tag
    requires forall j :: 0 <= j < |cs| && j != k ==> cs[j].tag != tag
    ensures Texts(cs, tag) == if Occupied(cs[k]) then [cs[k].text.value] else []
  {
    if k < |cs| - 1 {
      TextsSole(cs[..|cs| - 1], k, tag);
    } else {
      TextsNone(cs[..|cs| - 1], tag);
    }
  }

  /** One placement into a shaped entry adds the number's text, if non-empty, to its own bucket only. */
  lemma PlaceTexts(cs: seq<Element>, name: string, p: Placement, b: Bucket)
    requires Shaped(cs, name)
    ensures Texts(Place(cs, p), BucketTag(b))
         == Texts(cs, BucketTag(b)) + if p.bucket == b && p.text != [] then [p.text] else []
  {
    ShapedPlaceholders(cs, name);
    FindSlot(cs, name, p.bucket);
    var k := Slot(p.bucket);
    var e := Element(BucketTag(p.bucket), Some(p.text));
    if !Occupied(cs[k]) {
      if p.bucket == b {
        TextsSole(cs, k, BucketTag(b));
        TextsSole(cs[k := e], k, BucketTag(b));
      } else {
        TextsUpdateOther(cs, k, e, BucketTag(b));
      }
    } else {
      assert (cs + [e])[..|cs|] == cs;
    }
  }

  lemma PlaceFirstTexts(name: string, p: Placement, b: Bucket)
    ensures Texts(Place([NameElement(name)], p), BucketTag(b)) == if p.bucket == b && p.text != [] then [p.text] else []
  {
    var base := [NameElement(name), Element(BucketTag(Telephone), None), Element(BucketTag(Mobile), None), Element(BucketTag(Other), None)];
    PlaceFirst(name, p);
    assert Shaped(base, name);
    ShapedPlaceholders(base, name);
    FindSlot(base, name, p.bucket);
    assert Place(base, p) == Place([NameElement(name)], p);
    PlaceTexts(base, name, p, b);
    TextsNone(base, BucketTag(b));
  }

  /**
   * Every number whose text is non-empty appears exactly once, in its own bucket, and
   * in placement order: an occupied bucket gets a new element instead of losing the number.
   */
  lemma {:induction false} EntryTexts(name: string, ps: seq<Placement>, b: Bucket)
    ensures Texts(EntryChildren(name, ps), BucketTag(b)) == PlacedTexts(ps, b)
  {
    if ps == [] {
    } else if |ps| == 1 {
      assert ps[..|ps| - 1] == [];
      assert Fill([NameElement(name)], ps[..|ps| - 1]) == [NameElement(name)];
      assert EntryChildren(name, ps) == Place([NameElement(name)], ps[0]);
      assert PlacedTexts(ps, b) == if ps[0].bucket == b && ps[0].text != [] then [ps[0].text] else [];
      PlaceFirstTexts(name, ps[0], b);
    } else {
      var init := ps[..|ps| - 1];
      EntryTexts(name, init, b);
      FillShaped(name, init);
      PlaceTexts(EntryChildren(name, init), name, ps[|ps| - 1], b);
    }
  }

  /**
   * The elements appended after the Telephone, Mobile and Other slots: one for each number
   * whose bucket already held a non-empty number, carrying that number's text (empty or not),
   * in placement order.
   */
  function Overflow(ps: seq<Placement>): seq<Element>
  {
    if ps == [] then []
    else
      var p := ps[|ps| - 1];
      var init := ps[..|ps| - 1];
      Overflow(init) + if PlacedTexts(init, p.bucket) != [] then [Element(BucketTag(p.bucket), Some(p.text))] else []
  }

  /** An occupied element gives its tag at least one text. */
  lemma {:induction false} TextsSome(cs: seq<Element>, k: nat, tag: Tag)
    requires k < |cs| && cs[k].tag == tag && Occupied(cs[k])
    ensures Texts(cs, tag) != []
  {
    if k < |cs| - 1 {
      TextsSome(cs[..|cs| - 1], k, tag);
    }
  }

  /** In a shaped entry, a bucket's slot holds a number exactly when the bucket has texts. */
  lemma SlotOccupied(cs: seq<Element>, name: string, b: Bucket)
    requires Shaped(cs, name)
    ensures Occupied(cs[Slot(b)]) <==> Texts(cs, BucketTag(b)) != []
  {
    var k := Slot(b);
    if Occupied(cs[k]) {
      TextsSome(cs, k, BucketTag(b));
    } else {
      SoleSlot(cs, name, b);
      TextsSole(cs, k, BucketTag(b));
    }
  }

  /** In a shaped entry, an empty slot is the only element of its bucket. */
  lemma SoleSlot(cs: seq<Element>, name: string, b: Bucket)
    requires Shaped(cs, name) && !Occupied(cs[Slot(b)])
    ensures forall j :: 0 <= j < |cs| && j != Slot(b) ==> cs[j].tag != BucketTag(b)
  {
    forall j | 0 <= j < |cs| && j != Slot(b)
      ensures cs[j].tag != BucketTag(b)
    {
      if j > 0 {
        assert cs[j].tag.BucketTag?;
      }
    }
  }

  /** One placement into a shaped entry appends exactly when the bucket already has texts. */
  lemma PlaceOverflow(cs: seq<Element>, name: string, p: Placement)
    requires Shaped(cs, name)
    ensures Texts(cs, BucketTag(p.bucket)) != [] ==> Place(cs, p) == cs + [Element(BucketTag(p.bucket), Some(p.text))]
    ensures Texts(cs, BucketTag(p.bucket)) == [] ==> Place(cs, p) == cs[Slot(p.bucket) := Element(BucketTag(p.bucket), Some(p.text))]
  {
    ShapedPlaceholders(cs, name);
    FindSlot(cs, name, p.bucket);
    SlotOccupied(cs, name, p.bucket);
  }

  /** Placing into a shaped entry adds one element after the slots exactly when the bucket has texts. */
  lemma OverflowSnoc(cs: seq<Element>, name: string, p: Placement, occupied: bool)
    requires Shaped(cs, name) && occupied == (Texts(cs, BucketTag(p.bucket)) != [])
    ensures |Place(cs, p)| == |cs| + if occupied then 1 else 0
    ensures Place(cs, p)[4..] == cs[4..] + if occupied then [Element(BucketTag(p.bucket), Some(p.text))] else []
  {
    PlaceOverflow(cs, name, p);
    TailAfterSlots(cs, Slot(p.bucket), Element(BucketTag(p.bucket), Some(p.text)));
  }

  lemma TailAfterSlots(cs: seq<Element>, k: nat, e: Element)
    requires k < 4 <= |cs|
    ensures (cs + [e])[4..] == cs[4..] + [e]
    ensures cs[k := e][4..] == cs[4..]
  {
  }

  /**
   * After the Name and the three slots, an entry holds exactly the overflow elements: a number
   * whose bucket is already occupied gets an element of its own at the end, even when its text
   * is empty and it is written as an empty element.
   */
  lemma {:induction false} EntryOverflow(name: string, ps: seq<Placement>)
    ensures ps != [] ==> |EntryChildren(name, ps)| == 4 + |Overflow(ps)|
    ensures ps != [] ==> EntryChildren(name, ps)[4..] == Overflow(ps)
  {
    if |ps| == 1 {
      assert ps[..|ps| - 1] == [];
      assert Fill([NameElement(name)], ps[..|ps| - 1]) == [NameElement(name)];
      assert EntryChildren(name, ps) == Place([NameElement(name)], ps[0]);
      PlaceFirst(name, ps[0]);
      assert Overflow(ps) == [];
    } else if |ps| > 1 {
      var init := ps[..|ps| - 1];
      var p := ps[|ps| - 1];
      var cs := EntryChildren(name, init);
      var e := Element(BucketTag(p.bucket), Some(p.text));
      EntryOverflow(name, init);
      FillShaped(name, init);
      EntryTexts(name, init, p.bucket);
      OverflowSnoc(cs, name, p, PlacedTexts(init, p.bucket) != []);
      assert EntryChildren(name, ps) == Place(cs, p);
      assert Overflow(ps) == Overflow(init) + if PlacedTexts(init, p.bucket) != [] then [e] else [];
    }
  }

  // ---------------------------------------------------------------------------
  // Serialisation
  // ---------------------------------------------------------------------------

  /** How ElementTree writes one character of element text: `&`, `<` and `>` as entity references. */
  function EscapeChar(c: char): (r: string)
    ensures '<' !in r && '>' !in r
  {
    if c == '&' then "&amp;" else if c == '<' then "&lt;" else if c == '>' then "&gt;" else [c]
  }

  /** ElementTree's escaping of element text. */
  function Escape(s: string): (r: string)
    ensures '<' !in r && '>' !in r
  {
    if s == [] then [] else EscapeChar(s[0]) + Escape(s[1..])
  }

  /** Reads entity references back: the inverse of `Escape`. */
  function Unescape(s: string): string
  {
    if s == [] then []
    else if |s| >= 5 && s[..5] == "&amp;" then "&" + Unescape(s[5..])
    else if |s| >= 4 && s[..4] == "&lt;" then "<" + Unescape(s[4..])
    else if |s| >= 4 && s[..4] == "&gt;" then ">" + Unescape(s[4..])
    else [s[0]] + Unescape(s[1..])
  }

  lemma UnescapeEntity(c: char, rest: string)
    requires c == '&' || c == '<' || c == '>'
    ensures Unescape(EscapeChar(c) + rest) == [c] + Unescape(rest)
  {
    var e := EscapeChar(c);
    var s := e + rest;
    assert s[..|e|] == e && s[|e|..] == rest;
    if c != '&' {
      assert s[1] != 'a';
    }
  }

  lemma UnescapeChar(c: char, rest: string)
    ensures Unescape(EscapeChar(c) + rest) == [c] + Unescape(rest)
  {
    if c == '&' || c == '<' || c == '>' {
      UnescapeEntity(c, rest);
    } else {
      var s := [c] + rest;
      assert s[0] == c && s[1..] == rest;
    }
  }

  lemma {:induction false} UnescapeEscape(s: string)
    ensures Unescape(Escape(s)) == s
  {
    if s != [] {
      UnescapeEscape(s[1..]);
      UnescapeChar(s[0], Escape(s[1..]));
      assert s == [s[0]] + s[1..];
    }
  }

  /** One element: `<Tag />` when its text is missing or empty, else start tag, escaped text, end tag. */
  function ElementXml(e: Element): string
  {
    var name := TagName(e.tag);
    if e.text.None? || e.text.value == [] then "<" + name + " />"
    else "<" + name + ">" + Escape(e.text.value) + "</" + name + ">"
  }

  function ElementsXml(es: seq<Element>): string
  {
    if es == [] then [] else ElementsXml(es[..|es| - 1]) + ElementXml(es[|es| - 1])
  }

  function EntryXml(children: seq<Element>): string
  {
    if children == [] then "<DirectoryEntry />"
    else "<DirectoryEntry>" + ElementsXml(children) + "</DirectoryEntry>"
  }

  function EntriesXml(entries: seq<seq<Element>>): string
  {
    if entries == [] then [] else EntriesXml(entries[..|entries| - 1]) + EntryXml(entries[|entries| - 1])
  }

  /** The root element, with one DirectoryEntry per entry. */
  function DirectoryXml(entries: seq<seq<Element>>): string
  {
    if entries == [] then "<GEQUDIODirectory />"
    else "<GEQUDIODirectory>" + EntriesXml(entries) + "</GEQUDIODirectory>"
  }

  const Declaration: string := "<?xml version=\"1.0\" encoding=\"UTF-8\" standalone=\"yes\"?>"

  /** The returned document: the declaration, a newline, the serialised root and a final newline. */
  function Document(entries: seq<seq<Element>>): string
  {
    Declaration + "\n" + DirectoryXml(entries) + "\n"
  }

  /** A text wrapped as head, newline, body, newline falls apart into those pieces again. */
  lemma WrapParts(head: string, body: string)
    ensures var w := head + "\n" + body + "\n";
            && |w| == |head| + |body| + 2
            && w[..|head| + 1] == head + "\n"
            && w[|head| + 1..|w| - 1] == body
            && w[|w| - 1] == '\n'
  {
  }

  /**
   * The document is the XML declaration and a newline, then exactly the serialised root,
   * then a final newline.
   */
  lemma DocumentWraps(entries: seq<seq<Element>>)
    ensures StartsWith(Document(entries), Declaration + "\n")
    ensures Document(entries)[|Declaration| + 1..|Document(entries)| - 1] == DirectoryXml(entries)
    ensures EndsWith(Document(entries), "\n")
  {
    WrapParts(Declaration, DirectoryXml(entries));
  }

  /** An empty directory is a root element without children. */
  lemma EmptyDocument()
    ensures Document([]) == Declaration + "\n<GEQUDIODirectory />\n"
  {
  }
}
