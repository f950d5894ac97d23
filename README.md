# fyne-kx widget core in Dafny

This project models the state logic of the extra widgets in the Go library fyne-kx and
proves properties of that model. Each Go file of the core has its own Dafny module:

- `Slices` (`widget/slices.go`) holds the four generic slice helpers. They are
  `sliceDeduplicate`, which keeps first occurrences, `sliceDeleteFunc`, `sliceClone` and
  `sliceContains`. `Deduplicate` and `DeleteFunc` are methods with the Go loops, proved
  equal to the specification functions `Dedup` and `Kept`, whose properties are lemmas.
  `Clone` and `Contains` are methods whose contracts state their results directly.
- `WidgetOptions` covers how both filter-chip widgets clean their option lists. The two
  widgets apply the helpers in opposite orders. Both orders give the same list.
- `ChipGroup` (`widget/filterchipgroup.go`) is the multi-select `FilterChipGroup`, a class.
  It keeps the cleaned options, one chip flag per option, and the selection in option order.
- `ChipSelect` (`widget/filterchipselect.go`) is the single-select `FilterChipSelect`, a
  class. It models the guarded `SetSelected`, the option cleaning, the drop-down entry list,
  the search dialog's lists, and the tap, space-bar, hover and focus handlers. What a tap
  brings up is returned as a value.
- `LowerOrder` is the case-insensitive order used to sort the single-select options.
- `Stacks` (`internal/stack/stack.go`) is the generic LIFO `Stack[T]`. It is a class over a
  sequence. A functional replay of operation sequences gives the LIFO laws.
- `Svg` (`widget/svg.go`) decides whether a resource is an SVG image, from its name or from
  its first five bytes.
- `IconButtons` (`widget/iconbutton.go`), `Toggles` (`widget/toggle.go`) and `Switches`
  (`widget/switch.go`) are the event handlers of three widgets. Each is a class whose fields
  are the Go struct's state fields.
- `GoStrings` and `Desktop` are helpers for the Go and toolkit values the core uses. They
  cover byte lengths, ASCII lower-casing, byte-wise string order, cursors, positions and
  sizes.

Callbacks such as `OnChanged` are modelled as a flag saying whether one is set, plus a log
of the values it was called with. Go maps are Dafny maps; a missing key reads as `false`.
`len` of a string is its UTF-8 byte count.

Where the code and its documentation disagree, the model follows the code:

- The comment on `SetOptions` (`widget/filterchipselect.go:127`) says options are sorted.
  The code only removes empty strings and duplicates, so `ApplyOptions` is stated that way.
- `Toggle.SetState` and `Switch.SetState` call `OnChanged` even when the state does not
  change. The early `return` leaves only the locked inner closure. A switch test expects no
  callback in that case. That test uses methods the switch does not have, and the model
  follows the code.
- In the search dialog, a query shorter than two bytes resets the list to the plain
  `Options`: unsorted, and without a selection that is no longer an option. So clearing the
  search box does not restore the list the dialog opened with
  (`ChipSelect.SearchResetDiffersFromOpeningList`).

## Model

| member | source | states |
|---|---|---|
| Slices.Dedup | widget/slices.go:3-14 | the result has no duplicates; it holds exactly the values of the input; it is no longer than the input |
| Slices.DedupKeepsFirstOccurrenceOrder | widget/slices.go:3-14 | values appear in the order of their first occurrence in the input |
| Slices.DedupIsSubsequence | widget/slices.go:3-14 | the result is obtained from the input by deleting elements |
| Slices.DedupIdentity | widget/slices.go:3-14 | a duplicate-free input is returned unchanged |
| Slices.Deduplicate | widget/slices.go:3-14 | the loop with its `seen` map computes `Dedup` of the input |
| Slices.Kept | widget/slices.go:17-26 | every kept element is from the input and fails the predicate; every input element that fails the predicate is kept |
| Slices.KeptCount | widget/slices.go:17-26 | a kept value occurs as often as in the input; a deleted value does not occur |
| Slices.KeptIsSubsequence | widget/slices.go:17-26 | deletion preserves the relative order of what remains |
| Slices.KeptExtensional | widget/slices.go:17-26 | only the predicate's answers on the input's elements matter |
| Slices.KeptNoDuplicates | widget/slices.go:17-26 | deleting from a duplicate-free list leaves it duplicate-free |
| Slices.DedupKeptCommute | widget/slices.go:3-26 | de-duplicating then deleting equals deleting then de-duplicating |
| Slices.DeleteFunc | widget/slices.go:17-26 | the loop that skips deleted elements computes `Kept` |
| Slices.Clone | widget/slices.go:29-33 | the copy has the input's length and elements |
| Slices.Contains | widget/slices.go:36-43 | the scan returns true exactly when the value occurs |
| WidgetOptions.GroupCleaned | widget/filterchipgroup.go:32-34 | the group's cleaned options contain no empty string and no duplicate, and hold exactly the non-empty input values |
| WidgetOptions.SelectCleaned | widget/filterchipselect.go:134-139 | the same three facts for the single-select chip's cleaning |
| WidgetOptions.CleanForGroup | widget/filterchipgroup.go:32-34 | the group's helper calls compute `GroupCleaned` |
| WidgetOptions.CleanForSelect | widget/filterchipselect.go:134-139 | `setOptions`'s helper calls compute `SelectCleaned` |
| WidgetOptions.CleaningOrderIrrelevant | widget/filterchipselect.go:134-139 | both widgets clean any option list to the same result |
| WidgetOptions.CleanedKeepsFirstOccurrenceOrder | widget/filterchipgroup.go:32-34 | cleaned options follow the order of first occurrence in the input |
| WidgetOptions.CleanedAppend | widget/filterchipgroup.go:32-34 | a new non-empty value extends the cleaned list at the end; a repeated or empty one leaves it unchanged |
| WidgetOptions.CleanOptionsUnchanged | widget/filterchipgroup.go:32-34 | an already clean list is kept exactly |
| ChipGroup.SelectedIn | widget/filterchipgroup.go:64-72 | the selection holds exactly the options in the chosen set; it is a subsequence of the options; it has no duplicates when the options have none |
| ChipGroup.SelectionIdempotent | widget/filterchipgroup.go:103-104 | normalising an already normalised selection changes nothing |
| ChipGroup.TrueKeys | widget/filterchipgroup.go:64-72 | the set holds exactly the keys the map reads as true |
| ChipGroup.ChipToggleEffect | widget/filterchipgroup.go:45-58 | corollary of `FilterChipGroup.ChipChanged`, stated on values: a chip callback for option v changes only v's membership; the result stays ordered and duplicate-free |
| ChipGroup.FilterChipGroup.constructor | widget/filterchipgroup.go:31-62 | the options are cleaned; the exported copy equals them; there is one chip per option, all off, chip i labelled option i; nothing is selected |
| ChipGroup.FilterChipGroup.UpdateSelected | widget/filterchipgroup.go:64-72 | `selected` is the marked options in option order, and `Selected` equals it |
| ChipGroup.FilterChipGroup.ApplySelected | widget/filterchipgroup.go:84-101 | the selection is the options occurring in the argument, in option order; chip i is on exactly when option i occurs in the argument; chip flags agree with the selection |
| ChipGroup.FilterChipGroup.SetSelected | widget/filterchipgroup.go:76-82 | as `ApplySelected`; then `OnChanged` is called once with the new `Selected`, changed or not |
| ChipGroup.FilterChipGroup.ChipChanged | widget/filterchipgroup.go:45-59 | option i is added when `on` and removed otherwise; the selection stays in option order; the callback fires once with the result; if the other chips agreed before, they still agree |
| ChipGroup.FilterChipGroup.CreateRenderer | widget/filterchipgroup.go:103-104 | a `Selected` assigned before rendering is re-validated into option order, and the chips are set from it |
| ChipSelect.Accepts | widget/filterchipselect.go:109-118 | the three guards of `SetSelected`: a new value, an option unless it is "", and clearing only with a `Text` set; `FilterChipSelect.SetSelected` acts exactly when they hold |
| ChipSelect.Candidates | widget/filterchipselect.go:159-162 | the offered values are the options plus the selection when it is set; the options come first in their order; no duplicate is introduced |
| ChipSelect.Arranged | widget/filterchipselect.go:168-172 | the arranged list is a permutation of the input; it is the input when sorting is disabled and sorted by lower-cased value otherwise |
| ChipSelect.IconFor | widget/filterchipselect.go:178-184 | no icon when nothing is selected; the tick exactly on the selected option |
| ChipSelect.Header | widget/filterchipselect.go:150-157 | the clear entry is present exactly when `Text` and `Selected` are both set, and it holds no option and no "No entries" entry |
| ChipSelect.OptionItems | widget/filterchipselect.go:173-186 | one entry per option (`ChipSelect.OptionItemsShape` and `ChipSelect.OptionItemsLabelled` state which) |
| ChipSelect.DropDown | widget/filterchipselect.go:149-187 | the menu has the header, then one entry per candidate, or the single "No entries" entry when there is no candidate |
| ChipSelect.OptionItemsShape | widget/filterchipselect.go:173-186 | entry k is option k, labelled with a space on each side, with its icon |
| ChipSelect.DropDownValues | widget/filterchipselect.go:149-187 | the option entries of the menu are the arranged candidates |
| ChipSelect.DropDownOrder | widget/filterchipselect.go:159-172 | every candidate is offered once; sorted unless sorting is disabled, in candidate order otherwise |
| ChipSelect.DropDownHeader | widget/filterchipselect.go:151-158 | the menu is never empty; it starts with the clear entry exactly when `Text` and `Selected` are both set |
| ChipSelect.DropDownNoEntries | widget/filterchipselect.go:163-166 | "No entries" appears exactly when there are no options and nothing is selected |
| ChipSelect.OptionItemsLabelled | widget/filterchipselect.go:173-186 | every entry built for an option has the padded label and the icon `IconFor` gives |
| ChipSelect.DropDownIcons | widget/filterchipselect.go:173-186 | every option entry of the whole drop-down has the padded label and the icon `IconFor` gives |
| ChipSelect.DropDownOffersSelection | widget/filterchipselect.go:159-162 | a value is offered exactly when it is an option or the set selection |
| ChipSelect.SearchFilter | widget/filterchipselect.go:254-268 | a query under two bytes shows all options; otherwise exactly the options whose lower case contains the lower-cased query; always in option order |
| ChipSelect.ShortQueryShowsAll | widget/filterchipselect.go:255-259 | an empty query, or a single ASCII character, filters nothing out |
| ChipSelect.SearchResetDiffersFromOpeningList | widget/filterchipselect.go:194-202 | example, not a general law: with options "b", "a" the dialog opens with "a", "b" but shows "b", "a" after the query is cleared |
| ChipSelect.AppendOptionItems | widget/filterchipselect.go:173-186 | the loop appends one entry per option, in order |
| ChipSelect.FilterChipSelect.constructor | widget/filterchipselect.go:78-99 | the clear label is "Clear"; `Text` is the placeholder; the options are cleaned; nothing is selected; sorting is on; the callback flag and window are as given, with nothing reported yet; the chip is enabled, unfocused, unhovered, with no size cached |
| ChipSelect.FilterChipSelect.ApplyOptions | widget/filterchipselect.go:134-139 | `Options` becomes the cleaned list; it is not sorted |
| ChipSelect.FilterChipSelect.SetOptions | widget/filterchipselect.go:129-132 | the options are replaced and the selection is left alone |
| ChipSelect.FilterChipSelect.SetSelected | widget/filterchipselect.go:109-124 | an accepted value becomes the selection and is reported once; a value equal to the current one, a non-option, or a clear with empty `Text` changes nothing and reports nothing; a new selection is empty or an option; an always-selected filter cannot be cleared |
| ChipSelect.FilterChipSelect.ClearSelected | widget/filterchipselect.go:102-104 | the selection is cleared only when `Text` is set; `""` is reported when something was cleared |
| ChipSelect.FilterChipSelect.DropDownItems | widget/filterchipselect.go:149-187 | the entries built equal `DropDown`, whose shape the `DropDown` lemmas state |
| ChipSelect.FilterChipSelect.SearchDialogItems | widget/filterchipselect.go:194-202 | the dialog opens with the arranged candidates |
| ChipSelect.FilterChipSelect.SearchResults | widget/filterchipselect.go:254-268 | the search loop computes `SearchFilter` over the options |
| ChipSelect.NewFilterChipSelect | widget/filterchipselect.go:63-66 | the drop-down variant: no window, the placeholder kept as given, and the rest of the constructor's state |
| ChipSelect.NewFilterChipSelectWithSearch | widget/filterchipselect.go:69-76 | the search variant turns an empty placeholder into "PLACEHOLDER", so `Text` is never empty; the window is as given, and the rest is the constructor's state |
| ChipSelect.FilterChipSelect.ShowInteraction | widget/filterchipselect.go:141-147 | the search dialog with a window, the drop-down menu without one, each with the entries its specification function gives |
| ChipSelect.FilterChipSelect.SetDisabled | widget/filterchipselect.go:21 | the disabled flag of the embedded `DisableableWidget` becomes the argument |
| ChipSelect.FilterChipSelect.Tapped | widget/filterchipselect.go:364-381 | a disabled chip, or a tap beyond a cached size, shows nothing; otherwise the menu or dialog of `ShowInteraction`; the state is unchanged |
| ChipSelect.FilterChipSelect.TypedRune | widget/filterchipselect.go:430-438 | the space bar on an enabled chip shows the menu or dialog; anything else shows nothing |
| ChipSelect.FilterChipSelect.FocusGained | widget/filterchipselect.go:415-421 | focus is taken only when enabled |
| ChipSelect.FilterChipSelect.FocusLost | widget/filterchipselect.go:424-427 | focus always ends |
| ChipSelect.FilterChipSelect.Cursor | widget/filterchipselect.go:383-388 | the pointer cursor exactly while hovered |
| ChipSelect.FilterChipSelect.MinSize | widget/filterchipselect.go:358-362 | the toolkit's computed size is cached and returned |
| ChipSelect.FilterChipSelect.MouseMoved | widget/filterchipselect.go:394-405 | a disabled chip keeps its hover flag; an enabled one is hovered exactly when no size is cached or the point is within it |
| ChipSelect.FilterChipSelect.MouseIn | widget/filterchipselect.go:390-392 | it behaves as a move |
| ChipSelect.FilterChipSelect.MouseOut | widget/filterchipselect.go:407-412 | hovering always ends |
| LowerOrder.KeyLessAsymmetric | widget/filterchipselect.go:169-171 | the less function is asymmetric |
| LowerOrder.NotKeyLessTransitive | widget/filterchipselect.go:169-171 | "not less than" is transitive |
| LowerOrder.Insert | widget/filterchipselect.go:168-172 | insertion adds exactly one value |
| LowerOrder.InsertSorted | widget/filterchipselect.go:168-172 | inserting into a list sorted by lower-cased value keeps it sorted |
| LowerOrder.SortByKey | widget/filterchipselect.go:168-172 | the result is a permutation of the input sorted by lower-cased value |
| Stacks.PopOf | internal/stack/stack.go:31-41 | an empty stack yields `ErrEmpty` and stays as it is; otherwise the top item is returned and only it is removed |
| Stacks.Stack.constructor | internal/stack/stack.go:18-21 | a new stack is empty |
| Stacks.Stack.Push | internal/stack/stack.go:24-28 | the value goes on top and the size grows by one |
| Stacks.Stack.Pop | internal/stack/stack.go:31-41 | the result and new contents are those of `PopOf` |
| Stacks.Stack.Size | internal/stack/stack.go:44-48 | the number of items |
| Stacks.SizeCountsOperations | internal/stack/stack.go:24-48 | after any operation sequence, the size is the initial size plus the pushes minus the successful pops |
| Stacks.PushThenPop | internal/stack/stack.go:24-41 | a push then a pop returns the pushed value and restores the contents |
| Stacks.RunPushAll | internal/stack/stack.go:24-28 | pushing a list appends it on top and yields no results |
| Stacks.RunAppend | internal/stack/stack.go:24-41 | running two operation lists one after the other equals running their concatenation |
| Stacks.RunPops | internal/stack/stack.go:31-41 | n pops remove the top n items and return them top first |
| Stacks.LastInFirstOut | internal/stack/stack.go:24-41 | pushing a list then popping as often returns it reversed and leaves the stack as it was |
| Stacks.PopEmpty | internal/stack/stack.go:35-37 | example and corollary of `Stacks.PopOf`: a pop on an empty stack fails and leaves it empty |
| Svg.Ext | widget/svg.go:11 | the extension is never longer than the path |
| Svg.ExtIsLastDotSuffix | widget/svg.go:11 | the extension is a suffix of the path that starts at a dot and holds no further dot or separator; it is empty only when the final path element has no dot |
| Svg.ExtIsDottedSuffix | widget/svg.go:11 | a suffix that starts at a dot and holds no further dot or separator is the extension |
| Svg.IsFileSvg | widget/svg.go:10-12 | defined as a case-insensitive comparison of the extension with ".svg"; `Svg.FileSvgBySuffix` states what that means for the path |
| Svg.FileSvgBySuffix | widget/svg.go:10-12 | a path names an SVG file exactly when it ends in ".svg" in any case |
| Svg.IsResourceSvg | widget/svg.go:15-29 | an SVG name is enough; a non-SVG name with under five content bytes is not SVG; sniffed SVG content starts with '<' |
| Svg.OnlyFirstFiveBytesMatter | widget/svg.go:24-28 | bytes after the fifth, and the case of the first five, never change the answer |
| Svg.UpperCaseSvgTag | widget/svg.go:24-28 | content starting with "<SVG " is recognised whatever follows |
| GoStrings.Utf8Len | widget/filterchipselect.go:255 | the byte length is at least the rune count, and is zero only for the empty string |
| GoStrings.ShorterThanTwoBytes | widget/filterchipselect.go:255 | a string is shorter than two bytes exactly when it is empty or one ASCII character |
| GoStrings.LexLessTotal | widget/filterchipselect.go:169-171 | Go's string order is total |
| GoStrings.LexLessTransitive | widget/filterchipselect.go:169-171 | Go's string order is transitive |
| IconButtons.DisabledLook | widget/iconbutton.go:72-79 | the disabled look is of the icon itself, and it is the recoloured variant exactly for SVG icons |
| IconButtons.IconButton.constructor | widget/iconbutton.go:32-44 | an enabled, unhovered button showing the icon, with the caller's callback when given |
| IconButtons.IconButton.WithMenu | widget/iconbutton.go:47-64 | the same, with the menu installed and the menu handler as `OnTapped` |
| IconButtons.IconButton.SetIconResource | widget/iconbutton.go:72-79 | the icon is stored with its disabled look |
| IconButtons.IconButton.UpdateState | widget/iconbutton.go:137-143 | the disabled look is shown exactly while disabled |
| IconButtons.IconButton.Refresh | widget/iconbutton.go:90-96 | after a refresh the shown resource matches the state |
| IconButtons.IconButton.SetIcon | widget/iconbutton.go:67-70 | the new icon is shown in the current state; a disabled button with an SVG icon shows the icon's disabled variant |
| IconButtons.IconButton.SetMenuItems | widget/iconbutton.go:82-88 | without a menu nothing changes; otherwise the items are replaced and the button is refreshed |
| IconButtons.IconButton.Tapped | widget/iconbutton.go:98-102 | an enabled button runs the caller's callback once; the menu handler installed at lines 50-53 shows the menu only when it has items; a disabled or handler-less button does nothing |
| IconButtons.IconButton.Cursor | widget/iconbutton.go:108-113 | the pointer cursor exactly while hovered |
| IconButtons.IconButton.MouseIn | widget/iconbutton.go:116-121 | hovering starts only when enabled |
| IconButtons.IconButton.MouseOut | widget/iconbutton.go:128-130 | hovering always ends |
| IconButtons.IconButton.CreateRenderer | widget/iconbutton.go:132-135 | rendering starts with the shown resource matching the state |
| Toggles.Toggle.constructor | widget/toggle.go:32-38 | a new toggle is off and not hovered |
| Toggles.Toggle.SetState | widget/toggle.go:41-54 | the state becomes the argument, and the callback hears it every time, also when the state was already that |
| Toggles.Toggle.Tapped | widget/toggle.go:57-59 | the state flips and the new state is reported |
| Toggles.Toggle.Cursor | widget/toggle.go:65-70 | the pointer cursor exactly while hovered |
| Toggles.Toggle.MouseIn | widget/toggle.go:79-82 | the toggle becomes hovered |
| Toggles.Toggle.MouseOut | widget/toggle.go:89-92 | hovering ends |
| Switches.Switch.constructor | widget/switch.go:39-45 | a new switch is off, enabled, unfocused, unhovered, with no cached size |
| Switches.Switch.SetState | widget/switch.go:48-61 | the state becomes the argument, and the callback hears it every time |
| Switches.Switch.FocusGained | widget/switch.go:64-70 | focus is taken only when enabled |
| Switches.Switch.FocusLost | widget/switch.go:73-76 | focus always ends |
| Switches.Switch.TypedRune | widget/switch.go:79-86 | the space bar flips an enabled switch and reports it; any other rune, or a disabled switch, changes nothing |
| Switches.Switch.Tapped | widget/switch.go:92-109 | a disabled switch, or a tap beyond a cached size, changes nothing; otherwise an unfocused switch on a desktop canvas requests focus once and the state flips and is reported |
| Switches.Switch.Cursor | widget/switch.go:115-120 | the pointer cursor exactly while hovered |
| Switches.Switch.MinSize | widget/switch.go:123-127 | the computed size is cached and returned |
| Switches.Switch.MouseMoved | widget/switch.go:135-147 | a disabled switch keeps its hover state; an enabled one is hovered exactly when no size is cached or the point is within it |
| Switches.Switch.MouseIn | widget/switch.go:130-132 | the same as a move |
| Switches.Switch.MouseOut | widget/switch.go:149-154 | hovering always ends |
| Desktop.HoverCursor | widget/toggle.go:65-70 | the pointer cursor exactly for a hovered widget |
| Desktop.HoverAreaIsTapArea | widget/switch.go:96-97 | corollary of the two guards, shared by the switch and the single-select chip: a point shows hovering exactly when a tap there is not ignored |

## Left out

- Mutexes in `internal/stack/stack.go`, `widget/toggle.go` and `widget/switch.go`: every call is modelled as running alone.
- Drawing: renderers, `Refresh` beyond the icon button's shown resource, theme colours, sizes, and the thumb and pin geometry of toggle and switch.
- Host-toolkit calls: popup menus and their position, dialogs, list widgets, canvas focus (counted in `focusRequests`), `fyne.CurrentDevice()` (a parameter of `Switch.Tapped`), and the toolkit's computed minimum size (a parameter of `Switch.MinSize`).
- `theme.NewDisabledResource` is the abstract `DisabledVariant`, because its recolouring is toolkit code.
- The host's `Disable`/`Enable` is modelled as `IconButton.SetDisabled`, which sets the flag and refreshes, and as `FilterChipSelect.SetDisabled`, which sets the flag.
- `FilterChip` itself is not part of this model. A chip is its label and `On` flag, and a chip's own tap is represented only by the callback it runs (`ChipChanged`).
- The chip group's row-wrap layout is in a package that is not part of this model.
- The single-select chip's popup menu and search dialog are toolkit widgets. `ShowInteraction`, `Tapped` and `TypedRune` return which one would be shown and with which entries. Showing it, its position, the dialog's list widget and its clear button are left out. The `hovered` and `focused` flags are modelled; besides `Cursor`, only drawing reads them.
- `GoStrings.Lower`, `EqualFold`, `LowerByte`: ASCII-only lower-casing. Go's `strings.ToLower` and `strings.EqualFold` also fold non-ASCII letters, so the sort order, search matches and `.svg` check can differ from Go on non-ASCII text.
- `Svg.Ext`: only `/` is a path separator, as `filepath.Ext` has it on Unix-like systems. The Windows separator `\` is not modelled.
- `LowerOrder.SortByKey`: `sort.Slice` does not specify the order among options with equal lower-cased keys. The model picks one, and every contract about it states only "sorted" and "a permutation". The in-place sort of the local slice is modelled as replacing that slice with the sorted one.
- Aliasing: Go slices share their backing arrays. The model has value sequences, so it does not say anything about a caller later mutating a slice it passed in or got back.
- `Stacks.Stack.Pop`: the zero value that Go returns alongside `ErrEmpty` is not modelled; the error case carries no value.
- Menus are modelled by their item labels. A nil `*fyne.Menu` passed to `NewIconButtonWithMenu` is not modelled; it would make the tap handler panic in Go.
- Float32 coordinates are reals; no rounding is modelled.
