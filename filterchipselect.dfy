/** `FilterChipSelect`: a filter chip from which one option can be selected, through a drop-down
    menu or, when a window is given, a search dialog. Modelled are the selection guards, the
    option cleaning, and the lists the menu and the dialog are built from. The optional
    `OnChanged` callback is the flag `hasOnChanged` plus the log `changes` of the values it
    was called with; the window is the flag `hasWindow`. A tap or the space bar shows the menu
    or the dialog; the model returns what is shown as an `Interaction` value. Drawing and the
    toolkit's popups and dialogs themselves are not modelled. */
module ChipSelect {
  import opened GoStrings
  import opened Slices
  import opened WidgetOptions
  import opened LowerOrder
  import opened Desktop

  /** The icons a menu entry can carry: none, the confirm tick, the blank placeholder, or the
      delete icon of the clear entry. */
  datatype Icon = NoIcon | ConfirmIcon | BlankIcon | DeleteIcon

  /** A `fyne.MenuItem` of the drop-down: the clear entry (which calls `SetSelected("")`), a
      separator, an option (which calls `SetSelected(value)`), or the disabled "No entries"
      item. */
  datatype MenuItem =
    | ClearItem(text: string, icon: Icon)
    | Separator
    | OptionItem(text: string, value: string, icon: Icon)
    | NoEntriesItem(text: string)

  /** What a tap or the space bar brings up: nothing, the popup menu with its entries, or the
      search dialog with the list it opens with. */
  datatype Interaction =
    | NoInteraction
    | DropDownMenu(entries: seq<MenuItem>)
    | SearchDialog(listed: seq<string>)

  // -------------------------------------------------------------------------
  // Selection

  /** The guards of `SetSelected`: the value must differ from the current one, a non-empty
      value must be an option, and clearing needs a non-empty `Text`. */
  predicate Accepts(selected: string, text: string, options: seq<string>, v: string)
  {
    selected != v && (v == "" || v in options) && (v != "" || text != "")
  }

  // -------------------------------------------------------------------------
  // The lists shown to the user

  /** The options offered: `Options`, plus the selection when it is set but no longer an
      option (a "rogue" selection is always offered, so it can be seen and re-picked). */
  function Candidates(options: seq<string>, selected: string): (c: seq<string>)
    ensures forall x :: x in c <==> x in options || (x == selected && selected != "")
    ensures |options| <= |c| && c[..|options|] == options
    ensures NoDuplicates(options) ==> NoDuplicates(c)
  {
    if selected != "" && selected !in options then options + [selected] else options
  }

  /** The candidates in display order: sorted by lower-cased value unless sorting is
      disabled. */
  function Arranged(c: seq<string>, sortDisabled: bool): (r: seq<string>)
    ensures multiset(r) == multiset(c)
    ensures sortDisabled ==> r == c
    ensures !sortDisabled ==> SortedByKey(r)
  {
    if sortDisabled then c else SortByKey(c)
  }

  /** The icon of an option entry: none when nothing is selected, the tick on the selected
      option, a blank elsewhere. */
  function IconFor(o: string, selected: string): (i: Icon)
    ensures i == NoIcon <==> selected == ""
    ensures i == ConfirmIcon <==> selected != "" && o == selected
  {
    if selected == "" then NoIcon else if o == selected then ConfirmIcon else BlankIcon
  }

  /** The clear entry and its separator, present when there is a placeholder to fall back to
      and something to clear. */
  function Header(text: string, selected: string, clearLabel: string): (h: seq<MenuItem>)
    ensures h != [] <==> text != "" && selected != ""
    ensures forall k :: 0 <= k < |h| ==> !h[k].OptionItem? && !h[k].NoEntriesItem?
  {
    if text != "" && selected != "" then [ClearItem(clearLabel, DeleteIcon), Separator] else []
  }

  /** The entries for options `os`, each labelled with the option padded by a space. */
  function OptionItems(os: seq<string>, selected: string): (r: seq<MenuItem>)
    ensures |r| == |os|
  {
    if os == [] then []
    else
      var o := os[|os| - 1];
      OptionItems(os[..|os| - 1], selected) + [OptionItem(" " + o + " ", o, IconFor(o, selected))]
  }

  /** The values of the option entries, in menu order. */
  function OptionValues(items: seq<MenuItem>): seq<string>
  {
    if items == [] then []
    else
      var it := items[|items| - 1];
      OptionValues(items[..|items| - 1]) + if it.OptionItem? then [it.value] else []
  }

  /** The entry list `showDropDownMenu` builds. */
  function DropDown(text: string, selected: string, clearLabel: string, options: seq<string>,
                    sortDisabled: bool): (r: seq<MenuItem>)
    ensures |r| == |Header(text, selected, clearLabel)|
                   + if Candidates(options, selected) == [] then 1 else |Candidates(options, selected)|
  {
    var c := Candidates(options, selected);
    assert |Arranged(c, sortDisabled)| == |multiset(Arranged(c, sortDisabled))| == |c|;
    Header(text, selected, clearLabel)
      + if c == [] then [NoEntriesItem("No entries")] else OptionItems(Arranged(c, sortDisabled), selected)
  }

  lemma {:induction false} OptionValuesAppend(a: seq<MenuItem>, b: seq<MenuItem>)
    ensures OptionValues(a + b) == OptionValues(a) + OptionValues(b)
    decreases |b|
  {
    if b == [] {
      assert a + b == a;
    } else {
      var b1 := b[..|b| - 1];
      assert (a + b)[..|a + b| - 1] == a + b1;
      OptionValuesAppend(a, b1);
    }
  }

  lemma {:induction false} OptionItemsShape(os: seq<string>, selected: string)
    ensures OptionValues(OptionItems(os, selected)) == os
    ensures forall k :: 0 <= k < |os| ==>
              OptionItems(os, selected)[k] == OptionItem(" " + os[k] + " ", os[k], IconFor(os[k], selected))
  {
    if os != [] {
      var init := os[..|os| - 1];
      OptionItemsShape(init, selected);
      var r := OptionItems(os, selected);
      assert r[..|r| - 1] == OptionItems(init, selected);
      assert init + [os[|os| - 1]] == os;
    }
  }

  lemma HeaderHasNoOptions(text: string, selected: string, clearLabel: string)
    ensures OptionValues(Header(text, selected, clearLabel)) == []
  {
    var h := Header(text, selected, clearLabel);
    if h != [] {
      var one := [ClearItem(clearLabel, DeleteIcon)];
      assert h[..1] == one && one[..0] == [];
      assert OptionValues(one) == OptionValues([]) + [];
      assert OptionValues(h) == OptionValues(one) + [];
    }
  }

  /** The values of the entries after the header: the candidates in display order. */
  lemma DropDownValues(text: string, selected: string, clearLabel: string, options: seq<string>,
                       sortDisabled: bool)
    ensures OptionValues(DropDown(text, selected, clearLabel, options, sortDisabled))
            == Arranged(Candidates(options, selected), sortDisabled)
  {
    var h := Header(text, selected, clearLabel);
    var c := Candidates(options, selected);
    HeaderHasNoOptions(text, selected, clearLabel);
    if c == [] {
      var b := [NoEntriesItem("No entries")];
      OptionValuesAppend(h, b);
      assert b[..0] == [];
    } else {
      var os := Arranged(c, sortDisabled);
      OptionValuesAppend(h, OptionItems(os, selected));
      OptionItemsShape(os, selected);
    }
  }

  /** What the drop-down shows: every candidate once, sorted unless sorting is disabled. */
  lemma DropDownOrder(text: string, selected: string, clearLabel: string, options: seq<string>,
                      sortDisabled: bool)
    ensures var vs := OptionValues(DropDown(text, selected, clearLabel, options, sortDisabled));
      && multiset(vs) == multiset(Candidates(options, selected))
      && (sortDisabled ==> vs == Candidates(options, selected))
      && (!sortDisabled ==> SortedByKey(vs))
  {
    DropDownValues(text, selected, clearLabel, options, sortDisabled);
  }

  /** The clear entry comes first exactly when `Text` and `Selected` are both set. */
  lemma DropDownHeader(text: string, selected: string, clearLabel: string, options: seq<string>,
                       sortDisabled: bool)
    ensures var r := DropDown(text, selected, clearLabel, options, sortDisabled);
      r != [] && (r[0].ClearItem? <==> text != "" && selected != "")
  {
    var c := Candidates(options, selected);
    if c != [] {
      OptionItemsShape(Arranged(c, sortDisabled), selected);
    }
  }

  /** "No entries" is shown exactly when there are no options and nothing selected. */
  lemma DropDownNoEntries(text: string, selected: string, clearLabel: string, options: seq<string>,
                          sortDisabled: bool)
    ensures NoEntriesItem("No entries") in DropDown(text, selected, clearLabel, options, sortDisabled)
            <==> options == [] && selected == ""
  {
    var h := Header(text, selected, clearLabel);
    var c := Candidates(options, selected);
    var none := NoEntriesItem("No entries");
    assert none !in h;
    if c != [] {
      var b := OptionItems(Arranged(c, sortDisabled), selected);
      OptionItemsHaveNoNoEntries(Arranged(c, sortDisabled), selected);
      assert DropDown(text, selected, clearLabel, options, sortDisabled) == h + b;
    } else {
      assert DropDown(text, selected, clearLabel, options, sortDisabled) == h + [none];
    }
  }

  lemma {:induction false} OptionItemsHaveNoNoEntries(os: seq<string>, selected: string)
    ensures forall k :: 0 <= k < |os| ==> OptionItems(os, selected)[k].OptionItem?
  {
    if os != [] {
      OptionItemsHaveNoNoEntries(os[..|os| - 1], selected);
    }
  }

  /** Every option entry is labelled with its padded value and carries the icon `IconFor`
      gives it. */
  predicate Labelled(items: seq<MenuItem>, selected: string)
  {
    forall k :: 0 <= k < |items| && items[k].OptionItem? ==>
      items[k].text == " " + items[k].value + " " && items[k].icon == IconFor(items[k].value, selected)
  }

  lemma LabelledConcat(a: seq<MenuItem>, b: seq<MenuItem>, selected: string)
    requires Labelled(a, selected) && Labelled(b, selected)
    ensures Labelled(a + b, selected)
  {
    forall k | 0 <= k < |a + b| && (a + b)[k].OptionItem?
      ensures (a + b)[k].text == " " + (a + b)[k].value + " "
      ensures (a + b)[k].icon == IconFor((a + b)[k].value, selected)
    {
      if k >= |a| {
        assert (a + b)[k] == b[k - |a|];
      } else {
        assert (a + b)[k] == a[k];
      }
    }
  }

  lemma {:induction false} OptionItemsLabelled(os: seq<string>, selected: string)
    ensures Labelled(OptionItems(os, selected), selected)
  {
    if os != [] {
      var o := os[|os| - 1];
      OptionItemsLabelled(os[..|os| - 1], selected);
      LabelledConcat(OptionItems(os[..|os| - 1], selected), [OptionItem(" " + o + " ", o, IconFor(o, selected))], selected);
    }
  }

  /** Option entries of the drop-down are labelled with the padded value and carry the tick on
      the selection only. */
  lemma DropDownIcons(text: string, selected: string, clearLabel: string, options: seq<string>,
                      sortDisabled: bool)
    ensures Labelled(DropDown(text, selected, clearLabel, options, sortDisabled), selected)
  {
    var h := Header(text, selected, clearLabel);
    var c := Candidates(options, selected);
    if c != [] {
      OptionItemsLabelled(Arranged(c, sortDisabled), selected);
      LabelledConcat(h, OptionItems(Arranged(c, sortDisabled), selected), selected);
    } else {
      LabelledConcat(h, [NoEntriesItem("No entries")], selected);
    }
  }

  /** Each candidate is offered, and nothing else: in particular a set selection always
      appears in the drop-down, even when it is no longer an option. */
  lemma DropDownOffersSelection(text: string, selected: string, clearLabel: string,
                                options: seq<string>, sortDisabled: bool)
    ensures forall x :: x in OptionValues(DropDown(text, selected, clearLabel, options, sortDisabled)) <==>
                        x in options || (x == selected && selected != "")
  {
    DropDownOrder(text, selected, clearLabel, options, sortDisabled);
    var vs := OptionValues(DropDown(text, selected, clearLabel, options, sortDisabled));
    var c := Candidates(options, selected);
    forall x ensures x in vs <==> x in c {
      assert x in vs <==> x in multiset(vs);
      assert x in c <==> x in multiset(c);
    }
  }

  /** The search filter: a query of fewer than two bytes shows every option; otherwise the
      options whose lower case contains the lower-cased query, in option order. */
  predicate Matches(s: string, search: string)
  {
    HasSubstring(Lower(s), Lower(search))
  }

  function Mismatching(search: string): string -> bool
  {
    s => !Matches(s, search)
  }

  function SearchFilter(options: seq<string>, search: string): (r: seq<string>)
    ensures Utf8Len(search) < 2 ==> r == options
    ensures Utf8Len(search) >= 2 ==> forall x :: x in r <==> x in options && Matches(x, search)
    ensures IsSubsequence(r, options)
  {
    if Utf8Len(search) < 2 then
      SubsequenceReflexive(options);
      options
    else
      KeptIsSubsequence(options, Mismatching(search));
      Kept(options, Mismatching(search))
  }

  /** A one-character ASCII query, or an empty one, filters nothing out. */
  lemma ShortQueryShowsAll(options: seq<string>, search: string)
    requires search == [] || (|search| == 1 && (search[0] as int) < 0x80)
    ensures SearchFilter(options, search) == options
  {
    ShorterThanTwoBytes(search);
  }

  /** The loop of `showDropDownMenu` that appends one entry per option to `items`. */
  method AppendOptionItems(items0: seq<MenuItem>, os: seq<string>, selected: string)
    returns (items: seq<MenuItem>)
    ensures items == items0 + OptionItems(os, selected)
  {
    items := items0;
    for i := 0 to |os|
      invariant items == items0 + OptionItems(os[..i], selected)
    {
      var o := os[i];
      assert os[..i + 1][..i] == os[..i];
      items := items + [OptionItem(" " + o + " ", o, IconFor(o, selected))];
    }
    assert os[..|os|] == os;
  }

  /** Clearing the search box does not restore the list the dialog opened with: a query
      shorter than two bytes shows `Options` unsorted and without a rogue selection. With
      options "b", "a" the dialog opens with "a", "b" and shows "b", "a" once the query is
      cleared. */
  lemma SearchResetDiffersFromOpeningList()
    ensures SearchFilter(["b", "a"], "") == ["b", "a"]
    ensures Arranged(Candidates(["b", "a"], ""), false) == ["a", "b"]
  {
    assert Utf8Len("") == 0;
    SortBA();
  }

  // Steps of the example above: the sort of "b", "a", one insertion at a time.

  lemma SortBA()
    ensures SortByKey(["b", "a"]) == ["a", "b"]
  {
    var s: seq<string> := ["b", "a"];
    var one: seq<string> := ["a"];
    assert s[1..] == one;
    SortSingle("a");
    KeyLessAB();
    InsertAfter("b", "a");
  }

  lemma SortSingle(x: string)
    ensures SortByKey([x]) == [x]
  {
    var one: seq<string> := [x];
    assert one[1..] == [];
  }

  lemma KeyLessAB()
    ensures KeyLess("a", "b")
  {
    assert LowerChar('a') == 'a' && LowerChar('b') == 'b';
    assert Lower("a") == "a" && Lower("b") == "b";
    assert "a"[0] != "b"[0];
  }

  lemma InsertAfter(x: string, y: string)
    requires KeyLess(y, x)
    ensures Insert(x, [y]) == [y, x]
  {
    var one: seq<string> := [y];
    assert one[1..] == [];
    assert Insert(x, []) == [x];
  }

  // -------------------------------------------------------------------------
  // The widget

  class FilterChipSelect {
    var ClearLabel: string
    var hasOnChanged: bool
    var changes: seq<string>
    var Options: seq<string>
    var Text: string
    var Selected: string
    var SortDisabled: bool
    var hasWindow: bool
    /** The `Disabled()` state of the embedded `DisableableWidget`. */
    var disabled: bool
    var focused: bool
    var hovered: bool
    var minSize: Size

    /** `newFilterChipSelect`: the placeholder as `Text`, the options cleaned, nothing
        selected, sorting on, enabled, and no size cached yet. */
    constructor (placeholder: string, options: seq<string>, hasOnChanged: bool, hasWindow: bool)
      ensures ClearLabel == "Clear" && Text == placeholder && Selected == "" && !SortDisabled
      ensures Options == SelectCleaned(options)
      ensures this.hasOnChanged == hasOnChanged && this.hasWindow == hasWindow && changes == []
      ensures !disabled && !focused && !hovered && IsZero(minSize)
    {
      ClearLabel := "Clear";
      this.hasOnChanged := hasOnChanged;
      changes := [];
      Text := placeholder;
      Selected := "";
      SortDisabled := false;
      this.hasWindow := hasWindow;
      disabled := false;
      focused := false;
      hovered := false;
      minSize := Size(0.0, 0.0);
      new;
      ApplyOptions(options);
    }

    /** `setOptions`: empty strings dropped, then duplicates, first occurrences kept in input
        order. The options are not sorted. */
    method ApplyOptions(options: seq<string>)
      modifies this`Options
      ensures Options == SelectCleaned(options)
    {
      Options := CleanForSelect(options);
    }

    /** `SetOptions`: replaces the options and leaves the selection alone, even when it is no
        longer one of them. */
    method SetOptions(options: seq<string>)
      modifies this`Options
      ensures Options == SelectCleaned(options)
      ensures Selected == old(Selected)
    {
      ApplyOptions(options);
    }

    /** `SetSelected`: an accepted value becomes the selection and is reported once; a rejected
        one changes nothing and reports nothing. */
    method SetSelected(v: string)
      modifies this`Selected, this`changes
      ensures Accepts(old(Selected), Text, Options, v) ==>
                Selected == v && changes == old(changes) + if hasOnChanged then [v] else []
      ensures !Accepts(old(Selected), Text, Options, v) ==>
                Selected == old(Selected) && changes == old(changes)
      ensures Selected != old(Selected) ==> Selected == "" || Selected in Options
      ensures Text == "" && old(Selected) != "" ==> Selected != ""
    {
      if Selected == v {
        return;
      }
      var known := Contains(Options, v);
      if v != "" && !known {
        return;
      }
      if v == "" && Text == "" {
        return;
      }
      Selected := v;
      if hasOnChanged {
        changes := changes + [v];
      }
    }

    /** `ClearSelected`: clears the selection only when there is a `Text` to show instead. */
    method ClearSelected()
      modifies this`Selected, this`changes
      ensures Selected == if Text != "" then "" else old(Selected)
      ensures changes == old(changes) + if Text != "" && old(Selected) != "" && hasOnChanged then [""] else []
    {
      SetSelected("");
    }

    /** The entries `showDropDownMenu` puts into the popup menu. */
    method DropDownItems() returns (items: seq<MenuItem>)
      ensures items == DropDown(Text, Selected, ClearLabel, Options, SortDisabled)
    {
      var h := Header(Text, Selected, ClearLabel);
      items := [];
      if Text != "" && Selected != "" {
        items := items + [ClearItem(ClearLabel, DeleteIcon)];
        items := items + [Separator];
      }
      var options := Clone(Options);
      assert options == Options;
      if Selected != "" {
        var known := Contains(options, Selected);
        if !known {
          options := options + [Selected];
        }
      }
      ghost var c := Candidates(Options, Selected);
      assert options == c;
      assert items == h;
      if |options| == 0 {
        items := items + [NoEntriesItem("No entries")];
      } else {
        if !SortDisabled {
          options := SortByKey(options);
        }
        assert options == Arranged(c, SortDisabled);
        items := AppendOptionItems(items, options, Selected);
      }
    }

    /** The list the search dialog opens with: the candidates, sorted unless sorting is
        disabled. */
    method SearchDialogItems() returns (items: seq<string>)
      ensures items == Arranged(Candidates(Options, Selected), SortDisabled)
    {
      items := Clone(Options);
      assert items == Options;
      if Selected != "" {
        var known := Contains(items, Selected);
        if !known {
          items := items + [Selected];
        }
      }
      if !SortDisabled {
        items := SortByKey(items);
      }
    }

    /** The entry's `OnChanged` handler in the search dialog: the list after typing
        `search`. */
    method SearchResults(search: string) returns (items: seq<string>)
      ensures items == SearchFilter(Options, search)
    {
      if Utf8Len(search) < 2 {
        items := Clone(Options);
        assert items == Options;
        return;
      }
      items := [];
      var search2 := Lower(search);
      for i := 0 to |Options|
        invariant items == Kept(Options[..i], Mismatching(search))
      {
        var s := Options[i];
        assert Options[..i + 1][..i] == Options[..i];
        if HasSubstring(Lower(s), search2) {
          items := items + [s];
        }
      }
      assert Options[..|Options|] == Options;
    }

    /** What `showInteraction` brings up in the current state. */
    ghost function Shown(): Interaction
      reads this
    {
      if hasWindow then SearchDialog(Arranged(Candidates(Options, Selected), SortDisabled))
      else DropDownMenu(DropDown(Text, Selected, ClearLabel, Options, SortDisabled))
    }

    /** `showInteraction`: the drop-down menu without a window, the search dialog with one. */
    method ShowInteraction() returns (shown: Interaction)
      ensures shown.DropDownMenu? <==> !hasWindow
      ensures shown.SearchDialog? <==> hasWindow
      ensures shown == Shown()
    {
      if !hasWindow {
        var entries := DropDownItems();
        shown := DropDownMenu(entries);
      } else {
        var listed := SearchDialogItems();
        shown := SearchDialog(listed);
      }
    }

    /** The host's `Disable`/`Enable`: the flag; the refresh that follows is drawing. */
    method SetDisabled(disabled: bool)
      modifies this`disabled
      ensures this.disabled == disabled
    {
      this.disabled := disabled;
    }

    /** `Tapped` at point `p`: ignored when disabled or outside the cached size; otherwise the
        menu or the dialog is shown. Nothing is selected until the user picks an entry. */
    method Tapped(p: Position) returns (shown: Interaction)
      ensures disabled || TappedOutside(minSize, p) ==> shown == NoInteraction
      ensures !disabled && !TappedOutside(minSize, p) ==> shown == Shown()
    {
      if disabled {
        return NoInteraction;
      }
      if !IsZero(minSize) && (p.x > minSize.width || p.y > minSize.height) {
        return NoInteraction;
      }
      shown := ShowInteraction();
    }

    /** `TypedRune`: the space bar on an enabled chip shows the menu or the dialog. */
    method TypedRune(r: char) returns (shown: Interaction)
      ensures disabled || r != ' ' ==> shown == NoInteraction
      ensures !disabled && r == ' ' ==> shown == Shown()
    {
      if disabled {
        return NoInteraction;
      }
      if r == ' ' {
        shown := ShowInteraction();
      } else {
        shown := NoInteraction;
      }
    }

    /** `FocusGained`: a disabled chip does not take focus. */
    method FocusGained()
      modifies this`focused
      ensures focused == if disabled then old(focused) else true
    {
      if disabled {
        return;
      }
      focused := true;
    }

    /** `FocusLost`. */
    method FocusLost()
      modifies this`focused
      ensures !focused
    {
      focused := false;
    }

    /** `Cursor`: the pointer while hovered. */
    function Cursor(): (c: Cursor)
      reads this
      ensures c == PointerCursor <==> hovered
    {
      HoverCursor(hovered)
    }

    /** `MinSize`: caches the size the toolkit computed; taps and hovering are judged by it. */
    method MinSize(computed: Size) returns (s: Size)
      modifies this`minSize
      ensures minSize == computed && s == computed
    {
      minSize := computed;
      s := minSize;
    }

    /** `MouseMoved`: an enabled chip is hovered exactly when the pointer is within its cached
        size (or no size is cached); a disabled one keeps its flag. */
    method MouseMoved(p: Position)
      modifies this`hovered
      ensures hovered == if disabled then old(hovered) else HoversAt(minSize, p)
    {
      if disabled {
        return;
      }
      hovered := IsZero(minSize) || (p.x <= minSize.width && p.y <= minSize.height);
    }

    /** `MouseIn`: the same as a move. */
    method MouseIn(p: Position)
      modifies this`hovered
      ensures hovered == if disabled then old(hovered) else HoversAt(minSize, p)
    {
      MouseMoved(p);
    }

    /** `MouseOut`: always ends hovering. */
    method MouseOut()
      modifies this`hovered
      ensures !hovered
    {
      if hovered {
        hovered := false;
      }
    }
  }

  /** `NewFilterChipSelect`: the drop-down variant, placeholder kept as given. */
  method NewFilterChipSelect(placeholder: string, options: seq<string>, hasOnChanged: bool)
    returns (w: FilterChipSelect)
    ensures fresh(w) && !w.hasWindow
    ensures w.ClearLabel == "Clear" && w.Text == placeholder && w.Selected == "" && !w.SortDisabled
    ensures w.Options == SelectCleaned(options)
    ensures w.hasOnChanged == hasOnChanged && w.changes == []
    ensures !w.disabled && !w.focused && !w.hovered && IsZero(w.minSize)
  {
    w := new FilterChipSelect(placeholder, options, hasOnChanged, false);
  }

  /** `NewFilterChipSelectWithSearch`: the search variant needs a placeholder, so an empty one
      becomes "PLACEHOLDER". The window may still be absent (`hasWindow` false), and then a tap
      shows the drop-down menu after all. */
  method NewFilterChipSelectWithSearch(placeholder: string, options: seq<string>, hasOnChanged: bool,
                                       hasWindow: bool)
    returns (w: FilterChipSelect)
    ensures fresh(w) && w.hasWindow == hasWindow
    ensures w.Text == if placeholder == "" then "PLACEHOLDER" else placeholder
    ensures w.Text != ""
    ensures w.ClearLabel == "Clear" && w.Selected == "" && !w.SortDisabled
    ensures w.Options == SelectCleaned(options)
    ensures w.hasOnChanged == hasOnChanged && w.changes == []
    ensures !w.disabled && !w.focused && !w.hovered && IsZero(w.minSize)
  {
    var p := placeholder;
    if p == "" {
      p := "PLACEHOLDER";
    }
    w := new FilterChipSelect(p, options, hasOnChanged, hasWindow);
  }
}
