/** src/config/utils.ts: list-valued settings read from the environment. */
module ConfigUtils {
  import opened Common
  import opened Text

  function TrimAll(parts: seq<string>): (trimmed: seq<string>)
    ensures |trimmed| == |parts|
    ensures forall i | 0 <= i < |parts| :: trimmed[i] == Trim(parts[i])
  {
    seq(|parts|, i requires 0 <= i < |parts| => Trim(parts[i]))
  }

  // `toArrayConfig`: an absent or empty setting is the empty list; a setting without the separator
  // takes the fast path.
  function ToArrayConfig(configValue: Option<string>, separator: string): seq<string> {
    if configValue.None? || configValue.value == "" then []
    else if !Includes(configValue.value, separator) then [Trim(configValue.value)]
    else TrimAll(Split(configValue.value, separator))
  }

  // The fast path computes what the general path would.
  lemma FastPathAgrees(value: string, separator: string)
    requires value != ""
    ensures ToArrayConfig(Some(value), separator) == TrimAll(Split(value, separator))
  {
    if !Includes(value, separator) {
      assert Occurs(value, "", 0);
      SplitWithout(value, separator);
    }
  }

  // An absent setting is the empty list, and so is an empty one; any other has items, all of them trimmed.
  lemma SettingHasItems(configValue: Option<string>, separator: string)
    ensures ToArrayConfig(configValue, separator) == [] <==> configValue.None? || configValue.value == ""
    ensures forall item | item in ToArrayConfig(configValue, separator) :: Trimmed(item)
  {
    if configValue.Some? && configValue.value != "" {
      FastPathAgrees(configValue.value, separator);
    }
    forall item | item in ToArrayConfig(configValue, separator) ensures Trimmed(item) {
      var parts := Split(configValue.value, separator);
      var i :| 0 <= i < |parts| && item == Trim(parts[i]);
      var left, right := TrimCuts(parts[i]);
    }
  }

  // --- reading what was written -----------------------------------------------------------------

  // What an administrator writes: every item with blanks of its own on either side.
  datatype Padded = Padded(left: string, item: string, right: string)

  predicate WellPadded(p: Padded) {
    Blank(p.left) && Blank(p.right) && Trimmed(p.item)
  }

  predicate Bare(p: Padded) {
    p.left == "" && p.right == ""
  }

  function Written(p: Padded): string {
    p.left + p.item + p.right
  }

  function AllWritten(list: seq<Padded>): seq<string> {
    seq(|list|, i requires 0 <= i < |list| => Written(list[i]))
  }

  function Setting(list: seq<Padded>, separator: string): string {
    Join(AllWritten(list), separator)
  }

  function Items(list: seq<Padded>): seq<string> {
    seq(|list|, i requires 0 <= i < |list| => list[i].item)
  }

  // Only a single empty item written bare makes an empty text, which reads as no items.
  lemma EmptySetting(list: seq<Padded>, separator: string)
    requires |list| >= 1 && separator != ""
    ensures Setting(list, separator) == "" <==> list == [Padded("", "", "")]
  {
    if Setting(list, separator) == "" {
      assert AllWritten(list)[0] == Written(list[0]) == "";
      assert list == [list[0]];
    }
  }

  lemma SeparableReadsBack(list: seq<Padded>, separator: string)
    requires |list| >= 1 && separator != "" && list != [Padded("", "", "")]
    requires forall p | p in list :: WellPadded(p)
    requires Separable(AllWritten(list), separator)
    ensures ToArrayConfig(Some(Setting(list, separator)), separator) == Items(list)
  {
    var written := AllWritten(list);
    EmptySetting(list, separator);
    FastPathAgrees(Setting(list, separator), separator);
    SplitAfterJoin(written, separator);
    forall i | 0 <= i < |list| ensures Trim(written[i]) == list[i].item {
      assert WellPadded(list[i]);
      TrimPadded(list[i].left, list[i].item, list[i].right);
    }
    assert TrimAll(written) == Items(list);
  }

  lemma {:induction false} TrimEndShortens(s: string)
    ensures |TrimEnd(s)| <= |s|
  {
    if s != "" {
      TrimEndShortens(s[..|s| - 1]);
    }
  }

  lemma {:induction false} TrimShortens(s: string)
    ensures |Trim(s)| <= |s|
  {
    if s != "" && IsBlank(s[0]) {
      TrimShortens(s[1..]);
    } else {
      TrimEndShortens(s);
    }
  }

  // A cut inside the item leaves less than the item.
  lemma CutItem(p: Padded, cut: nat)
    requires WellPadded(p) && |p.left| <= cut < |p.left| + |p.item|
    ensures Trim(Written(p)[..cut]) != p.item
  {
    var start := p.item[..cut - |p.left|];
    assert Written(p)[..cut] == p.left + start;
    TrimStartPadded(p.left, start);
    TrimShortens(start);
  }

  lemma OutsideTheItem(p: Padded, j: nat)
    requires WellPadded(p) && j < |Written(p)| && !(|p.left| <= j < |p.left| + |p.item|)
    ensures IsBlank(Written(p)[j]) && !Bare(p)
  {
    assert Written(p)[j] in p.left || Written(p)[j] in p.right;
  }

  // A separator cannot begin inside blanks unless it begins with one.
  lemma CutFallsInItem(p: Padded, separator: string, tail: string, cut: nat)
    requires WellPadded(p) && separator != "" && (!IsBlank(separator[0]) || Bare(p))
    requires cut < |Written(p)| && Occurs(Written(p) + separator + tail, separator, cut)
    ensures |p.left| <= cut < |p.left| + |p.item|
  {
    var text := Written(p) + separator + tail;
    assert Written(p)[cut] == text[cut..cut + |separator|][0] == separator[0];
    if !(|p.left| <= cut < |p.left| + |p.item|) {
      OutsideTheItem(p, cut);
    }
  }

  // When blanks cannot hide a cut, only separable items are read back.
  lemma {:induction false} ReadBackIsSeparable(list: seq<Padded>, separator: string)
    requires |list| >= 1 && separator != ""
    requires forall p | p in list :: WellPadded(p) && (!IsBlank(separator[0]) || Bare(p))
    requires TrimAll(Split(Setting(list, separator), separator)) == Items(list)
    ensures Separable(AllWritten(list), separator)
  {
    var written, text := AllWritten(list), Setting(list, separator);
    if |list| == 1 {
      JoinsBack(text, separator);
      assert Split(text, separator) == [text];
      LonePart(text, separator);
    } else {
      var rest := list[1..];
      var tail := Setting(rest, separator);
      assert written[1..] == AllWritten(rest);
      assert text == written[0] + separator + tail;
      assert Occurs(text, separator, |written[0]|);
      var cut := FirstOccurrence(text, separator, |written[0]|);
      SplitAt(text, separator, cut);
      var after := Split(text[cut + |separator|..], separator);
      assert TrimAll(Split(text, separator))[0] == Trim(text[..cut]) == list[0].item;
      if cut < |written[0]| {
        assert text[..cut] == written[0][..cut];
        CutFallsInItem(list[0], separator, tail, cut);
        CutItem(list[0], cut);
        assert false;
      }
      assert text[cut + |separator|..] == tail;
      RestReadsBack(list, text[..cut], after);
      ReadBackIsSeparable(rest, separator);
      FirstPartEnds(written[0], separator, tail);
      SeparableStep(written, separator);
    }
  }

  lemma RestReadsBack(list: seq<Padded>, first: string, after: seq<string>)
    requires |list| >= 1 && TrimAll([first] + after) == Items(list)
    ensures TrimAll(after) == Items(list[1..])
  {
    forall i | 0 <= i < |after| ensures Trim(after[i]) == list[i + 1].item {
      assert ([first] + after)[i + 1] == after[i];
      assert TrimAll([first] + after)[i + 1] == Items(list)[i + 1];
    }
    assert |TrimAll([first] + after)| == |Items(list)|;
  }

  // Reading a setting gives back the items written into it if the text is not empty and its parts are
  // separable; and only then, unless the separator begins with a blank and blanks were written.
  lemma ToArrayConfigUndoesJoin(list: seq<Padded>, separator: string)
    requires |list| >= 1 && separator != ""
    requires forall p | p in list :: WellPadded(p)
    ensures var readBack := ToArrayConfig(Some(Setting(list, separator)), separator) == Items(list);
            var separable := list != [Padded("", "", "")] && Separable(AllWritten(list), separator);
            && (separable ==> readBack)
            && (!IsBlank(separator[0]) || (forall p | p in list :: Bare(p)) ==> (readBack <==> separable))
  {
    EmptySetting(list, separator);
    if list != [Padded("", "", "")] {
      FastPathAgrees(Setting(list, separator), separator);
      if Separable(AllWritten(list), separator) {
        SeparableReadsBack(list, separator);
      } else if ToArrayConfig(Some(Setting(list, separator)), separator) == Items(list)
                && (!IsBlank(separator[0]) || forall p | p in list :: Bare(p)) {
        ReadBackIsSeparable(list, separator);
      }
    }
  }

  // Where both happen, trimming can repair a wrong cut: "a" and a blank, then two blanks, then "b".
  lemma TrimmingRepairsACut()
    ensures var list := [Padded("", "a", " "), Padded("", "b", "")];
            && ToArrayConfig(Some(Setting(list, "  ")), "  ") == Items(list)
            && !Separable(AllWritten(list), "  ")
  {
    var list := [Padded("", "a", " "), Padded("", "b", "")];
    assert Written(list[0]) == "a " && Written(list[1]) == "b";
    assert AllWritten(list)[0] == "a " && AllWritten(list)[1..] == ["b"];
    assert Setting(list, "  ") == "a " + "  " + "b" == "a   b";
    EarlyCut();
    assert Items(list) == ["a", "b"];
    FastPathAgrees("a   b", "  ");
  }

  lemma EarlyCut()
    ensures TrimAll(Split("a   b", "  ")) == ["a", "b"]
    ensures !Ends("a ", "  ")
  {
    CutBeforeBlank();
    TrimPadded("", "a", "");
    TrimPadded(" ", "b", "");
    assert Occurs("a " + "  ", "  ", 1);
  }

  lemma CutBeforeBlank()
    ensures Split("a   b", "  ") == ["a", " b"]
  {
    var text := "a   b";
    assert text[0..2][0] == 'a' && text[1..3] == "  ";
    SplitAt(text, "  ", 1);
    assert text[..1] == "a" && text[3..] == " b";
    NoTwoBlanks();
  }

  lemma NoTwoBlanks()
    ensures Split(" b", "  ") == [" b"]
  {
    assert " b"[0..2][1] == 'b';
    SplitWithout(" b", "  ");
  }

  // With a separator of one character, as in every call, it is enough that it occurs in no part: the
  // one list lost is a single empty item written bare.
  lemma OneCharacterSeparator(list: seq<Padded>, separator: char)
    requires |list| >= 1
    requires forall p | p in list :: WellPadded(p) && separator !in Written(p)
    ensures ToArrayConfig(Some(Setting(list, [separator])), [separator]) == Items(list)
            <==> list != [Padded("", "", "")]
  {
    var written := AllWritten(list);
    forall i | 0 <= i < |list| ensures !Includes(written[i], [separator]) && Ends(written[i], [separator]) {
      assert list[i] in list;
      OneCharacter(written[i], separator);
    }
    assert Separable(written, [separator]);
    EmptySetting(list, [separator]);
    ToArrayConfigUndoesJoin(list, [separator]);
  }

  // With the empty separator every character is an item, so only lists of single characters come back.
  lemma EmptySeparator(items: seq<string>)
    requires forall item | item in items :: Trimmed(item)
    ensures ToArrayConfig(Some(Join(items, "")), "") == items <==> forall item | item in items :: |item| == 1
  {
    if forall item | item in items :: |item| == 1 {
      SingleReadsBack(items);
    }
    if ToArrayConfig(Some(Join(items, "")), "") == items {
      ReadBackIsSingle(items);
    }
  }

  lemma ReadCharacters(value: string)
    ensures ToArrayConfig(Some(value), "") == TrimAll(Characters(value))
  {
    if value != "" {
      FastPathAgrees(value, "");
    }
  }

  lemma SingleReadsBack(items: seq<string>)
    requires forall item | item in items :: Trimmed(item) && |item| == 1
    ensures ToArrayConfig(Some(Join(items, "")), "") == items
  {
    var text := Join(items, "");
    ReadCharacters(text);
    SingleCharacters(items);
    forall i | 0 <= i < |items| ensures Trim(Characters(text)[i]) == items[i] {
      assert items[i] in items;
      TrimPadded("", items[i], "");
      assert items[i] == Characters(text)[i];
    }
  }

  lemma ReadBackIsSingle(items: seq<string>)
    requires ToArrayConfig(Some(Join(items, "")), "") == items
    ensures forall item | item in items :: |item| == 1
  {
    var text := Join(items, "");
    ReadCharacters(text);
    forall item | item in items ensures |item| <= 1 {
      var i :| 0 <= i < |items| && items[i] == item;
      TrimShortens(Characters(text)[i]);
    }
    AllSingle(items);
  }

  lemma {:induction false} SingleCharacters(items: seq<string>)
    requires forall item | item in items :: |item| == 1
    ensures |Join(items, "")| == |items|
    ensures forall i | 0 <= i < |items| :: Join(items, "")[i] == items[i][0]
  {
    if |items| > 1 {
      SingleCharacters(items[1..]);
      assert items[0] in items;
    }
  }

  lemma {:induction false} AllSingle(items: seq<string>)
    requires forall item | item in items :: |item| <= 1
    ensures |Join(items, "")| <= |items|
    ensures |Join(items, "")| == |items| ==> forall item | item in items :: |item| == 1
  {
    if |items| > 1 {
      AllSingle(items[1..]);
      assert items == [items[0]] + items[1..];
    }
  }
}
