/**
 * Card records as the card database returns them, the format legality filter with its
 * 250-card cap, the options of the selection menu, and how a selected option value is
 * resolved back to a card (index.js:48-69, 117-131).
 */
module Cards {
  import opened Wrappers
  import opened JsStrings

  /** At most this many cards survive the filter. */
  const MaxResults: nat := 250

  datatype CardSet = CardSet(name: Option<string>)

  /** The fields of a card record the handlers read; `None` is a field the record lacks.
      An absent `legalities` object behaves like an empty one. */
  datatype Card = Card(
    name: string,
    cardSet: Option<CardSet>,
    rarity: Option<string>,
    regulationMark: Option<string>,
    supertype: string,
    subtypes: Option<seq<string>>,
    legalities: map<string, string>,
    largeImage: Option<string>)

  /** `card.set?.name`. */
  function SetName(c: Card): Option<string> {
    match c.cardSet
    case None => None
    case Some(s) => s.name
  }

  /** The `standard` rule: a regulation mark that is present, non-empty and, upper-cased, not
      less than `"G"` as a string. */
  predicate IsStandardMark(mark: Option<string>) {
    mark.Some? && mark.value != [] && !LexLess(ToUpper(mark.value), "G")
  }

  /** A card is legal in `standard` by its regulation mark, and in any other format by its
      legalities entry for exactly that format name. */
  predicate IsLegalIn(format: string, c: Card) {
    if format == "standard" then IsStandardMark(c.regulationMark)
    else format in c.legalities && c.legalities[format] == "Legal"
  }

  /** The `standard` rule only looks at the first letter of the mark, upper-cased. */
  lemma StandardMarkFirstLetter(mark: Option<string>)
    ensures IsStandardMark(mark) <==> mark.Some? && |mark.value| > 0 && UpperChar(mark.value[0]) >= 'G'
  {
    if mark.Some? && |mark.value| > 0 {
      LexLessOneChar(ToUpper(mark.value), 'G');
    }
  }

  /** Marks `G` and `h` are standard; `F`, an empty mark and a missing mark are not. */
  lemma StandardMarkExamples()
    ensures IsStandardMark(Some("G")) && IsStandardMark(Some("h"))
    ensures !IsStandardMark(Some("F")) && !IsStandardMark(Some("")) && !IsStandardMark(None)
  {
    StandardMarkFirstLetter(Some("G"));
    StandardMarkFirstLetter(Some("h"));
    StandardMarkFirstLetter(Some("F"));
  }

  /** `cards.filter(...)`: the legal cards, in input order. */
  function KeepLegal(cards: seq<Card>, format: string): (r: seq<Card>)
    ensures |r| <= |cards|
    ensures forall j :: 0 <= j < |r| ==> IsLegalIn(format, r[j])
    ensures forall c :: c in r <==> c in cards && IsLegalIn(format, c)
  {
    if |cards| == 0 then []
    else (if IsLegalIn(format, cards[0]) then [cards[0]] else []) + KeepLegal(cards[1..], format)
  }

  /** `cards.filter(...).slice(0, 250)`: at most 250 cards, all legal and all from the input;
      while fewer than 250 come out, every legal card of the input is among them. The result
      is the start of the filtered list: all of it, or its first 250 cards. */
  function LegalCards(cards: seq<Card>, format: string): (r: seq<Card>)
    ensures |r| <= MaxResults
    ensures |r| <= |KeepLegal(cards, format)| && r == KeepLegal(cards, format)[..|r|]
    ensures r == KeepLegal(cards, format) || |r| == MaxResults
    ensures forall c :: c in r ==> c in cards && IsLegalIn(format, c)
    ensures |r| < MaxResults ==> forall c :: c in cards && IsLegalIn(format, c) ==> c in r
  {
    var kept := KeepLegal(cards, format);
    if |kept| <= MaxResults then kept else kept[..MaxResults]
  }

  /** Every legal card keeps its multiplicity; every other card is dropped. */
  lemma {:induction false} KeepLegalCounts(cards: seq<Card>, format: string, c: Card)
    ensures multiset(KeepLegal(cards, format))[c]
            == if IsLegalIn(format, c) then multiset(cards)[c] else 0
  {
    if |cards| > 0 {
      var x, rest := cards[0], KeepLegal(cards[1..], format);
      KeepLegalCounts(cards[1..], format, c);
      var head := if IsLegalIn(format, x) then [x] else [];
      assert KeepLegal(cards, format) == head + rest;
      assert multiset(KeepLegal(cards, format))[c] == multiset(head)[c] + multiset(rest)[c];
      assert cards == [x] + cards[1..];
      assert multiset(cards)[c] == multiset([x])[c] + multiset(cards[1..])[c];
    }
  }

  /** Filtering a concatenation filters each part. */
  lemma {:induction false} KeepLegalAppend(s: seq<Card>, t: seq<Card>, format: string)
    ensures KeepLegal(s + t, format) == KeepLegal(s, format) + KeepLegal(t, format)
  {
    if |s| > 0 {
      assert (s + t)[0] == s[0] && (s + t)[1..] == s[1..] + t;
      KeepLegalAppend(s[1..], t, format);
    } else {
      assert s + t == t;
    }
  }

  /** Once 250 legal cards have been seen, the rest of the input no longer matters. */
  lemma LegalCardsIgnoreTail(s: seq<Card>, t: seq<Card>, format: string)
    requires |KeepLegal(s, format)| >= MaxResults
    ensures LegalCards(s + t, format) == LegalCards(s, format)
  {
    KeepLegalAppend(s, t, format);
    var a, b := KeepLegal(s, format), KeepLegal(t, format);
    LegalCardsWhenFull(s, format);
    LegalCardsWhenFull(s + t, format);
    assert (a + b)[..MaxResults] == a[..MaxResults];
  }

  lemma LegalCardsWhenFull(cards: seq<Card>, format: string)
    requires |KeepLegal(cards, format)| >= MaxResults
    ensures LegalCards(cards, format) == KeepLegal(cards, format)[..MaxResults]
  {
  }

  /** `r` is `s` with some elements left out and the others in their order. */
  ghost predicate IsSubsequence<T>(r: seq<T>, s: seq<T>)
    decreases |s|
  {
    |r| == 0 || (|s| > 0 && ((r[0] == s[0] && IsSubsequence(r[1..], s[1..])) || IsSubsequence(r, s[1..])))
  }

  lemma {:induction false} KeptPrefixIsSubsequence(cards: seq<Card>, format: string, k: nat)
    requires k <= |KeepLegal(cards, format)|
    ensures IsSubsequence(KeepLegal(cards, format)[..k], cards)
  {
    if k > 0 {
      var kept := KeepLegal(cards, format);
      var rest := KeepLegal(cards[1..], format);
      if IsLegalIn(format, cards[0]) {
        assert kept == [cards[0]] + rest;
        KeptPrefixIsSubsequence(cards[1..], format, k - 1);
        assert kept[..k][1..] == rest[..k - 1];
      } else {
        assert kept == rest;
        KeptPrefixIsSubsequence(cards[1..], format, k);
      }
    }
  }

  /** The filtered list keeps the input order. */
  lemma LegalCardsIsSubsequence(cards: seq<Card>, format: string)
    ensures IsSubsequence(LegalCards(cards, format), cards)
  {
    var kept := KeepLegal(cards, format);
    var k := if |kept| <= MaxResults then |kept| else MaxResults;
    KeptPrefixIsSubsequence(cards, format, k);
    assert kept[..|kept|] == kept;
  }

  datatype MenuOption = MenuOption(labelText: string, description: string, value: string)

  /** `name (set name)`, with `Unknown Set` when the set or its name is missing. */
  function Label(c: Card): string {
    c.name + " (" + SetName(c).GetOr("Unknown Set") + ")"
  }

  /** `Reg Mark: <mark> • Rarity: <rarity>`, with `?` and `Unknown` for missing fields. */
  function Description(c: Card): string {
    "Reg Mark: " + c.regulationMark.GetOr("?") + " \U{2022} Rarity: " + c.rarity.GetOr("Unknown")
  }

  /** `cards.map((card, index) => ...)`: one option per card, its value the card's position. */
  function BuildOptions(cards: seq<Card>): (r: seq<MenuOption>)
    ensures |r| == |cards|
  {
    seq(|cards|, j requires 0 <= j < |cards| => MenuOption(Label(cards[j]), Description(cards[j]), NatToString(j)))
  }

  /** `cachedCards?.[parseInt(value, 10)]`: the card at the parsed position, if there is one. */
  function Resolve(cards: seq<Card>, value: string): (r: Option<Card>)
    ensures r.Some? ==> r.value in cards
    ensures r.None? <==> ParseInt(value).None? || !(0 <= ParseInt(value).value < |cards|)
  {
    match ParseInt(value)
    case None => None
    case Some(j) => if 0 <= j < |cards| then Some(cards[j]) else None
  }

  /** Option `j` shows card `j`: the placeholder for a missing field, the field's value
      otherwise. */
  lemma OptionShowsCard(cards: seq<Card>, j: nat)
    requires j < |cards|
    ensures var o, c := BuildOptions(cards)[j], cards[j];
            && (SetName(c).None? ==> o.labelText == c.name + " (Unknown Set)")
            && (SetName(c).Some? ==> o.labelText == c.name + " (" + SetName(c).value + ")")
            && (c.regulationMark.None? ==> o.description[..11] == "Reg Mark: ?")
            && (c.regulationMark.Some? ==>
                  o.description[..10 + |c.regulationMark.value|] == "Reg Mark: " + c.regulationMark.value)
            && (c.rarity.None? ==> o.description[|o.description| - 7..] == "Unknown")
            && (c.rarity.Some? ==>
                  o.description[|o.description| - 8 - |c.rarity.value|..] == "Rarity: " + c.rarity.value)
  {
    var c := cards[j];
    var mark, rarity := c.regulationMark.GetOr("?"), c.rarity.GetOr("Unknown");
    var head, tail := "Reg Mark: " + mark, " \U{2022} " + ("Rarity: " + rarity);
    assert Description(c) == head + tail;
    assert (head + tail)[..|head|] == head;
    assert (head + tail)[|head + tail| - (8 + |rarity|)..] == "Rarity: " + rarity;
  }

  /** Selecting option `j` of a menu built from `cards` resolves to card `j`. */
  lemma SelectingOptionResolvesCard(cards: seq<Card>, j: nat)
    requires j < |cards|
    ensures Resolve(cards, BuildOptions(cards)[j].value) == Some(cards[j])
  {
    ParseIntNatToString(j);
  }

  /** Distinct options carry distinct values. */
  lemma OptionValuesDistinct(cards: seq<Card>, j: nat, k: nat)
    requires j < k < |cards|
    ensures BuildOptions(cards)[j].value != BuildOptions(cards)[k].value
  {
    ParseIntNatToString(j);
    ParseIntNatToString(k);
  }

  /** `card.subtypes?.join(", ") ?? "None"`: `None` only when the list is missing. */
  function SubtypesText(subtypes: Option<seq<string>>): (r: string)
    ensures subtypes.None? ==> r == "None"
    ensures subtypes == Some([]) ==> r == ""
  {
    match subtypes
    case None => "None"
    case Some(xs) => Join(xs, ", ")
  }

  /** The text of the reply to a selection; reading `card.set.name` needs the set object. */
  function DetailsText(c: Card): string
    requires c.cardSet.Some?
  {
    "**" + c.name + "**\nSet: " + c.cardSet.value.name.GetOr("undefined")
    + "\nType: " + c.supertype + " \U{2013} " + SubtypesText(c.subtypes)
    + "\nRegulation Mark: " + c.regulationMark.GetOr("Unknown") + " (Standard Legal \U{2705})\n"
  }

  /** The details reply opens with the card name in bold and its set name (`undefined` when
      the set has no name), and closes with the regulation mark (`Unknown` when missing)
      followed by the fixed `Standard Legal` note, whatever the card's legality. */
  lemma DetailsShowCard(c: Card)
    requires c.cardSet.Some?
    ensures var d, head := DetailsText(c), "**" + c.name + "**\nSet: " + c.cardSet.value.name.GetOr("undefined");
            && |head| <= |d| && d[..|head|] == head
    ensures var d, tail := DetailsText(c),
                "\nRegulation Mark: " + c.regulationMark.GetOr("Unknown") + " (Standard Legal \U{2705})\n";
            && |tail| <= |d| && d[|d| - |tail|..] == tail
  {
    var head := "**" + c.name + "**\nSet: " + c.cardSet.value.name.GetOr("undefined");
    var middle := "\nType: " + c.supertype + " \U{2013} " + SubtypesText(c.subtypes);
    var tail := "\nRegulation Mark: " + c.regulationMark.GetOr("Unknown") + " (Standard Legal \U{2705})\n";
    assert DetailsText(c) == head + middle + tail;
    assert (head + middle + tail)[..|head|] == head;
    assert (head + middle + tail)[|head + middle + tail| - |tail|..] == tail;
  }
}
