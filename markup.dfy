/**
 * The HTML builders `generateSelectOptions` and `generateOptionsList` of
 * staticfiles/js/utils.769c4292ad42.js, each with a reader of the markup
 * it builds; reading the markup back gives the entries it was built from.
 */
module Markup {
  import opened Wrappers

  /** `s.startsWith(p)` */
  predicate StartsWith(s: string, p: string)
  {
    |p| <= |s| && s[..|p|] == p
  }

  /** The text before the first `c`, and the rest from that `c` on. */
  function SplitAt(s: string, c: char): (r: (string, string))
    ensures r.0 + r.1 == s
    ensures c !in r.0
    ensures r.1 == [] || r.1[0] == c
  {
    if s == [] then ([], [])
    else if s[0] == c then ([], s)
    else
      var (before, after) := SplitAt(s[1..], c);
      assert s == [s[0]] + (before + after);
      ([s[0]] + before, after)
  }

  /** A text split at the first `c` comes apart where it was put together. */
  lemma {:induction false} SplitAtJoined(a: string, b: string, c: char)
    requires c !in a
    requires b == [] || b[0] == c
    ensures SplitAt(a + b, c) == (a, b)
    decreases |a|
  {
    if a == [] {
      assert a + b == b;
    } else {
      assert (a + b)[0] == a[0];
      assert (a + b)[1..] == a[1..] + b;
      SplitAtJoined(a[1..], b, c);
      assert a == [a[0]] + a[1..];
    }
  }

  // ---------------------------------------------------------------------
  // generateSelectOptions

  /** One `[value, string]` pair of `Object.entries(choices)`. */
  datatype Choice = Choice(value: string, display: string)

  const OPTION_OPEN := "<option value=\""
  const OPTION_CLOSE := "</option>"
  const SELECTED := "selected"

  /** One `<option>` tag; the marker is there exactly when the value is the selected one. */
  function OptionTag(choice: Choice, selectedValue: string): string
  {
    OPTION_OPEN + choice.value + "\" "
      + (if choice.value == selectedValue then SELECTED else "")
      + ">" + choice.display + OPTION_CLOSE
  }

  /** The tags of the choices, in entry order. */
  function SelectOptions(choices: seq<Choice>, selectedValue: string): string
  {
    if choices == [] then ""
    else OptionTag(choices[0], selectedValue) + SelectOptions(choices[1..], selectedValue)
  }

  lemma {:induction false} SelectOptionsSnoc(choices: seq<Choice>, choice: Choice, selectedValue: string)
    ensures SelectOptions(choices + [choice], selectedValue)
         == SelectOptions(choices, selectedValue) + OptionTag(choice, selectedValue)
    decreases |choices|
  {
    if choices == [] {
      assert [choice][1..] == [];
    } else {
      assert (choices + [choice])[1..] == choices[1..] + [choice];
      SelectOptionsSnoc(choices[1..], choice, selectedValue);
    }
  }

  method GenerateSelectOptions(choices: seq<Choice>, selectedValue: string) returns (options: string)
    ensures options == SelectOptions(choices, selectedValue)
  {
    options := "";
    for i := 0 to |choices|
      invariant options == SelectOptions(choices[..i], selectedValue)
    {
      assert choices[..i + 1] == choices[..i] + [choices[i]];
      SelectOptionsSnoc(choices[..i], choices[i], selectedValue);
      options := options + OptionTag(choices[i], selectedValue);
    }
    assert choices[..|choices|] == choices;
  }

  /** An option as read back from the markup. */
  datatype ParsedOption = ParsedOption(value: string, display: string, selected: bool)

  function ParseLabel(value: string, selected: bool, s: string): (r: Option<(ParsedOption, string)>)
    ensures r.Some? ==> |r.value.1| < |s|
  {
    var (display, rest) := SplitAt(s, '<');
    if StartsWith(rest, OPTION_CLOSE) then Some((ParsedOption(value, display, selected), rest[|OPTION_CLOSE|..]))
    else None
  }

  /** Reads the rest of an `<option>` tag once its value has been read. */
  function ParseAfterValue(value: string, s: string): (r: Option<(ParsedOption, string)>)
    ensures r.Some? ==> |r.value.1| < |s|
  {
    if !StartsWith(s, "\" ") then None
    else if StartsWith(s[2..], SELECTED + ">") then ParseLabel(value, true, s[2 + |SELECTED| + 1..])
    else if StartsWith(s[2..], ">") then ParseLabel(value, false, s[3..])
    else None
  }

  /** Reads one `<option>` tag off the front of `s`. */
  function ParseOptionTag(s: string): (r: Option<(ParsedOption, string)>)
    ensures r.Some? ==> |r.value.1| < |s|
  {
    if !StartsWith(s, OPTION_OPEN) then None
    else
      var (value, rest) := SplitAt(s[|OPTION_OPEN|..], '"');
      ParseAfterValue(value, rest)
  }

  /** Reads a run of `<option>` tags that makes up the whole of `s`. */
  function ParseOptions(s: string): Option<seq<ParsedOption>>
    decreases |s|
  {
    if s == [] then Some([])
    else match ParseOptionTag(s)
      case None => None
      case Some((option, rest)) =>
        match ParseOptions(rest)
        case None => None
        case Some(options) => Some([option] + options)
  }

  /** A choice whose value holds no `"` and whose display holds no `<`. */
  predicate PlainChoice(choice: Choice)
  {
    '"' !in choice.value && '<' !in choice.display
  }

  /** What the markup says of each choice: its value, its display, whether it is selected. */
  function ChoicesRead(choices: seq<Choice>, selectedValue: string): (r: seq<ParsedOption>)
  {
    seq(|choices|, k requires 0 <= k < |choices| =>
      ParsedOption(choices[k].value, choices[k].display, choices[k].value == selectedValue))
  }

  lemma DisplayRoundTrip(value: string, selected: bool, display: string, rest: string)
    requires '<' !in display
    ensures ParseLabel(value, selected, display + (OPTION_CLOSE + rest))
         == Some((ParsedOption(value, display, selected), rest))
  {
    SplitAtJoined(display, OPTION_CLOSE + rest, '<');
    assert StartsWith(OPTION_CLOSE + rest, OPTION_CLOSE);
    assert (OPTION_CLOSE + rest)[|OPTION_CLOSE|..] == rest;
  }

  /** The rest of a tag that carries the `selected` marker. */
  lemma SelectedAfterValueRoundTrip(value: string, tail: string)
    ensures ParseAfterValue(value, "\" " + (SELECTED + (">" + tail)))
         == ParseLabel(value, true, tail)
  {
    var s := "\" " + (SELECTED + (">" + tail));
    assert StartsWith(s, "\" ");
    assert s[2..] == (SELECTED + ">") + tail;
    assert s[2 + |SELECTED| + 1..] == tail;
  }

  /** The rest of a tag without the marker. */
  lemma UnselectedAfterValueRoundTrip(value: string, tail: string)
    ensures ParseAfterValue(value, "\" " + ("" + (">" + tail)))
         == ParseLabel(value, false, tail)
  {
    var s := "\" " + ("" + (">" + tail));
    assert StartsWith(s, "\" ");
    assert s[2..] == ">" + tail;
    assert s[2..][0] == '>';
    assert !StartsWith(s[2..], SELECTED + ">");
    assert s[3..] == tail;
  }

  lemma AfterValueRoundTrip(value: string, selected: bool, display: string, rest: string)
    requires '<' !in display
    ensures ParseAfterValue(value,
              "\" " + ((if selected then SELECTED else "") + (">" + (display + (OPTION_CLOSE + rest)))))
         == Some((ParsedOption(value, display, selected), rest))
  {
    DisplayRoundTrip(value, selected, display, rest);
    if selected {
      SelectedAfterValueRoundTrip(value, display + (OPTION_CLOSE + rest));
    } else {
      UnselectedAfterValueRoundTrip(value, display + (OPTION_CLOSE + rest));
    }
  }

  lemma OptionTagRoundTrip(choice: Choice, selectedValue: string, rest: string)
    requires PlainChoice(choice)
    ensures ParseOptionTag(OptionTag(choice, selectedValue) + rest)
         == Some((ParsedOption(choice.value, choice.display, choice.value == selectedValue), rest))
  {
    var selected := choice.value == selectedValue;
    var marker := if selected then SELECTED else "";
    var afterValue := "\" " + (marker + (">" + (choice.display + (OPTION_CLOSE + rest))));
    var s := OptionTag(choice, selectedValue) + rest;
    assert s == OPTION_OPEN + (choice.value + afterValue);
    assert s[|OPTION_OPEN|..] == choice.value + afterValue;
    SplitAtJoined(choice.value, afterValue, '"');
    AfterValueRoundTrip(choice.value, selected, choice.display, rest);
  }

  /**
   * Reading the options back gives one option per choice, in entry order,
   * each with its value and display, selected exactly when its value is the
   * selected value.
   */
  lemma {:induction false} SelectOptionsRoundTrip(choices: seq<Choice>, selectedValue: string)
    requires forall k :: 0 <= k < |choices| ==> PlainChoice(choices[k])
    ensures ParseOptions(SelectOptions(choices, selectedValue)) == Some(ChoicesRead(choices, selectedValue))
    decreases |choices|
  {
    if choices != [] {
      var rest := SelectOptions(choices[1..], selectedValue);
      OptionTagRoundTrip(choices[0], selectedValue, rest);
      SelectOptionsRoundTrip(choices[1..], selectedValue);
      assert OptionTag(choices[0], selectedValue) != [];
      assert ChoicesRead(choices, selectedValue)
          == [ChoicesRead(choices, selectedValue)[0]] + ChoicesRead(choices[1..], selectedValue);
    }
  }

  // ---------------------------------------------------------------------
  // generateOptionsList

  /** One element of `data`; which of its fields is shown depends on the list type. */
  datatype ListEntry = ListEntry(componentFinishDisplay: string, value: string, name: string)

  const COMPONENT_FINISHES := "component_finishes"
  const OPTION_VALUES := "option_values"
  const LIST_CLASSES := "-list list-unstyled mb-0 lh-sm"
  const LIST_OPEN := "<ul class=\""
  const LIST_CLOSE := "</ul>"
  const ITEM_OPEN := "<li>"
  const ITEM_CLOSE := "</li>"
  const NO_DATA := "-"

  /** The text shown for one entry. */
  function EntryText(listType: string, entry: ListEntry): string
  {
    if listType == COMPONENT_FINISHES then entry.componentFinishDisplay
    else if listType == OPTION_VALUES then entry.value
    else entry.name
  }

  /** One `<li>` element. */
  function ListItem(text: string): string
  {
    ITEM_OPEN + text + ITEM_CLOSE
  }

  /** The `<li>` elements of the entries, in order. */
  function ListItems(listType: string, entries: seq<ListEntry>): string
  {
    if entries == [] then ""
    else ListItem(EntryText(listType, entries[0])) + ListItems(listType, entries[1..])
  }

  /** The opening tag of a list of the given type. */
  function ListHead(listType: string): string
  {
    LIST_OPEN + listType + LIST_CLASSES + "\">"
  }

  /** The markup for `data`: a dash when there is none, a `<ul>` list otherwise. */
  function OptionsList(listType: string, data: Option<seq<ListEntry>>): string
  {
    if data.None? || |data.value| == 0 then NO_DATA
    else ListHead(listType) + ListItems(listType, data.value) + LIST_CLOSE
  }

  lemma {:induction false} ListItemsSnoc(listType: string, entries: seq<ListEntry>, entry: ListEntry)
    ensures ListItems(listType, entries + [entry])
         == ListItems(listType, entries) + ListItem(EntryText(listType, entry))
    decreases |entries|
  {
    if entries == [] {
      assert [entry][1..] == [];
    } else {
      assert (entries + [entry])[1..] == entries[1..] + [entry];
      ListItemsSnoc(listType, entries[1..], entry);
    }
  }

  method GenerateOptionsList(listType: string, data: Option<seq<ListEntry>>) returns (list: string)
    ensures list == OptionsList(listType, data)
  {
    if data.None? || |data.value| == 0 {
      return NO_DATA;
    }
    var entries := data.value;
    list := LIST_OPEN + listType + LIST_CLASSES + "\">";
    assert entries[..0] == [];
    for i := 0 to |entries|
      invariant list == ListHead(listType) + ListItems(listType, entries[..i])
    {
      assert entries[..i + 1] == entries[..i] + [entries[i]];
      ListItemsSnoc(listType, entries[..i], entries[i]);
      var text;
      if listType == COMPONENT_FINISHES {
        text := entries[i].componentFinishDisplay;
      } else if listType == OPTION_VALUES {
        text := entries[i].value;
      } else {
        text := entries[i].name;
      }
      assert text == EntryText(listType, entries[i]);
      list := list + ListItem(text);
    }
    assert entries[..|entries|] == entries;
    list := list + LIST_CLOSE;
  }

  /** A list as read back from the markup. */
  datatype ParsedList = Dash | Bullets(classes: string, texts: seq<string>)

  /** Reads one `<li>` element off the front of `s`. */
  function ParseItem(s: string): (r: Option<(string, string)>)
    ensures r.Some? ==> |r.value.1| < |s|
  {
    if !StartsWith(s, ITEM_OPEN) then None
    else
      var (text, rest) := SplitAt(s[|ITEM_OPEN|..], '<');
      if !StartsWith(rest, ITEM_CLOSE) then None
      else Some((text, rest[|ITEM_CLOSE|..]))
  }

  /** Reads the `<li>` elements at the front of `s`; the rest is returned. */
  function ParseItems(s: string): Option<(seq<string>, string)>
    decreases |s|
  {
    if !StartsWith(s, ITEM_OPEN) then Some(([], s))
    else match ParseItem(s)
      case None => None
      case Some((text, rest)) =>
        match ParseItems(rest)
        case None => None
        case Some((texts, tail)) => Some(([text] + texts, tail))
  }

  /** Reads the opening tag of a list off the front of `s`, giving its classes. */
  function ParseListHead(s: string): Option<(string, string)>
  {
    if !StartsWith(s, LIST_OPEN) then None
    else
      var (classes, rest) := SplitAt(s[|LIST_OPEN|..], '"');
      if !StartsWith(rest, "\">") then None
      else Some((classes, rest[2..]))
  }

  /** Reads the whole markup of an options list. */
  function ParseOptionsList(s: string): Option<ParsedList>
  {
    if s == NO_DATA then Some(Dash)
    else match ParseListHead(s)
      case None => None
      case Some((classes, rest)) =>
        match ParseItems(rest)
        case None => None
        case Some((texts, tail)) => if tail == LIST_CLOSE then Some(Bullets(classes, texts)) else None
  }

  /** The texts shown for the entries, in order. */
  function EntryTexts(listType: string, entries: seq<ListEntry>): seq<string>
  {
    seq(|entries|, k requires 0 <= k < |entries| => EntryText(listType, entries[k]))
  }

  lemma ListItemRoundTrip(text: string, rest: string)
    requires '<' !in text
    ensures StartsWith(ListItem(text) + rest, ITEM_OPEN)
    ensures ParseItem(ListItem(text) + rest) == Some((text, rest))
  {
    var s := ListItem(text) + rest;
    assert s == ITEM_OPEN + (text + (ITEM_CLOSE + rest));
    assert s[|ITEM_OPEN|..] == text + (ITEM_CLOSE + rest);
    SplitAtJoined(text, ITEM_CLOSE + rest, '<');
    assert StartsWith(ITEM_CLOSE + rest, ITEM_CLOSE);
    assert (ITEM_CLOSE + rest)[|ITEM_CLOSE|..] == rest;
  }

  lemma {:induction false} ListItemsRoundTrip(listType: string, entries: seq<ListEntry>, rest: string)
    requires forall k :: 0 <= k < |entries| ==> '<' !in EntryText(listType, entries[k])
    requires !StartsWith(rest, ITEM_OPEN)
    ensures ParseItems(ListItems(listType, entries) + rest) == Some((EntryTexts(listType, entries), rest))
    decreases |entries|
  {
    if entries != [] {
      var text := EntryText(listType, entries[0]);
      var tail := ListItems(listType, entries[1..]) + rest;
      assert ListItems(listType, entries) + rest == ListItem(text) + tail;
      ListItemRoundTrip(text, tail);
      ListItemsRoundTrip(listType, entries[1..], rest);
      assert EntryTexts(listType, entries) == [text] + EntryTexts(listType, entries[1..]);
    } else {
      assert ListItems(listType, entries) + rest == rest;
    }
  }

  lemma ListHeadRoundTrip(listType: string, rest: string)
    requires '"' !in listType
    ensures ParseListHead(ListHead(listType) + rest) == Some((listType + LIST_CLASSES, rest))
  {
    var classes := listType + LIST_CLASSES;
    var s := ListHead(listType) + rest;
    assert s == LIST_OPEN + (classes + ("\">" + rest));
    assert s[|LIST_OPEN|..] == classes + ("\">" + rest);
    assert '"' !in LIST_CLASSES;
    SplitAtJoined(classes, "\">" + rest, '"');
    assert StartsWith("\">" + rest, "\">");
    assert ("\">" + rest)[2..] == rest;
  }

  /**
   * Reading the list back gives a dash when there is no data, and
   * otherwise the list's classes and one text per entry, in order, the
   * field shown chosen by the list type.
   */
  lemma OptionsListRoundTrip(listType: string, data: Option<seq<ListEntry>>)
    requires '"' !in listType
    requires data.Some? ==> forall k :: 0 <= k < |data.value| ==> '<' !in EntryText(listType, data.value[k])
    ensures ParseOptionsList(OptionsList(listType, data)) ==
      if data.None? || |data.value| == 0 then Some(Dash)
      else Some(Bullets(listType + LIST_CLASSES, EntryTexts(listType, data.value)))
  {
    if data.Some? && |data.value| > 0 {
      var items := ListItems(listType, data.value) + LIST_CLOSE;
      var s := OptionsList(listType, data);
      assert s == ListHead(listType) + items;
      DashExactlyWithoutData(listType, data);
      ListHeadRoundTrip(listType, items);
      assert !StartsWith(LIST_CLOSE, ITEM_OPEN) by {
        assert LIST_CLOSE[1] != ITEM_OPEN[1];
      }
      ListItemsRoundTrip(listType, data.value, LIST_CLOSE);
    }
  }

  /** The dash appears exactly when there is no data. */
  lemma DashExactlyWithoutData(listType: string, data: Option<seq<ListEntry>>)
    ensures OptionsList(listType, data) == NO_DATA <==> data.None? || |data.value| == 0
  {
    if data.Some? && |data.value| > 0 {
      assert OptionsList(listType, data)[0] == '<';
    }
  }
}
