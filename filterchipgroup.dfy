/** `FilterChipGroup`: a row of filter chips, one per option, any number of which can be on.
    The group keeps the cleaned option list, one `On` flag per chip and the selection in option
    order, exported as `Selected`. The optional `OnChanged` callback is modelled by the flag
    `hasOnChanged` and the log `changes` of the values it was called with. Redraws (`Refresh`)
    and the chips' layout are not modelled. */
module ChipGroup {
  import opened Slices
  import opened WidgetOptions

  /** A `FilterChip`, reduced to its label and its `On` flag. */
  datatype Chip = Chip(text: string, On: bool)

  /** The set of values a sequence holds. */
  function Elems(s: seq<string>): set<string>
  {
    set x | x in s
  }

  /** The deletion predicate that keeps exactly the members of `S`. */
  function Unselected(S: set<string>): string -> bool
  {
    x => x !in S
  }

  /** The options that are in `S`, in option order: the shape every selection update
      produces. */
  function SelectedIn(options: seq<string>, S: set<string>): (r: seq<string>)
    ensures forall x :: x in r <==> x in options && x in S
    ensures IsSubsequence(r, options)
    ensures NoDuplicates(options) ==> NoDuplicates(r)
  {
    KeptIsSubsequence(options, Unselected(S));
    assert NoDuplicates(options) ==> NoDuplicates(Kept(options, Unselected(S))) by {
      if NoDuplicates(options) {
        KeptNoDuplicates(options, Unselected(S));
      }
    }
    Kept(options, Unselected(S))
  }

  /** Normalising a selection that is already normalised changes nothing; this is why the
      renderer's re-validation of `Selected` is harmless after `SetSelected`. */
  lemma SelectionIdempotent(options: seq<string>, S: set<string>)
    ensures SelectedIn(options, Elems(SelectedIn(options, S))) == SelectedIn(options, S)
  {
    KeptExtensional(options, Unselected(Elems(SelectedIn(options, S))), Unselected(S));
  }

  /** The set of keys a `map[string]bool` maps to `true`. */
  function TrueKeys(m: map<string, bool>): (T: set<string>)
    ensures forall x :: x in T <==> Lookup(m, x)
  {
    set k | k in m && m[k]
  }

  /** The selection a chip callback asks for: `v` added when `on`, removed otherwise. */
  function Toggled(selected: seq<string>, v: string, on: bool): set<string>
  {
    if on then Elems(selected) + {v} else Elems(selected) - {v}
  }

  /** A chip callback for option `v` changes `v`'s membership only: no other option enters or
      leaves the selection, and the result stays in option order without duplicates. */
  lemma ChipToggleEffect(options: seq<string>, selected: seq<string>, v: string, on: bool)
    requires v in options && NoDuplicates(options)
    ensures forall x :: x in SelectedIn(options, Toggled(selected, v, on)) <==>
                        x in options && (if x == v then on else x in selected)
    ensures IsSubsequence(SelectedIn(options, Toggled(selected, v, on)), options)
    ensures NoDuplicates(SelectedIn(options, Toggled(selected, v, on)))
  {
  }

  class FilterChipGroup {
    /** Whether `OnChanged` is set, and every `Selected` it has been called with. */
    var hasOnChanged: bool
    var changes: seq<seq<string>>

    /** The exported copies (documented as read-only). */
    var Options: seq<string>
    var Selected: seq<string>

    var chips: seq<Chip>
    var options: seq<string>
    var selected: seq<string>

    /** One chip per option, chip i labelled with option i; the options are clean. */
    ghost predicate Valid()
      reads this
    {
      && |chips| == |options|
      && (forall i :: 0 <= i < |options| ==> chips[i].text == options[i])
      && NoDuplicates(options)
      && "" !in options
    }

    /** Every chip is on exactly when its option is selected. */
    ghost predicate ChipsAgree()
      reads this
      requires Valid()
    {
      forall i :: 0 <= i < |options| ==> (chips[i].On <==> options[i] in selected)
    }

    /** `NewFilterChipGroup`: options cleaned, one chip per option (all off), nothing
        selected. */
    constructor (options: seq<string>, hasOnChanged: bool)
      ensures Valid() && ChipsAgree()
      ensures this.options == GroupCleaned(options) && Options == this.options
      ensures Selected == [] && selected == []
      ensures forall i :: 0 <= i < |chips| ==> !chips[i].On
      ensures this.hasOnChanged == hasOnChanged && changes == []
    {
      var cleaned := CleanForGroup(options);
      var exported := Clone(cleaned);
      assert exported == cleaned;
      var cs: seq<Chip> := [];
      for i := 0 to |cleaned|
        invariant |cs| == i
        invariant forall k :: 0 <= k < i ==> cs[k] == Chip(cleaned[k], false)
      {
        cs := cs + [Chip(cleaned[i], false)];
      }
      this.hasOnChanged := hasOnChanged;
      changes := [];
      this.options := cleaned;
      Options := exported;
      Selected := [];
      selected := [];
      chips := cs;
    }

    /** `updateSelected`: the options `isSelected` marks, in option order, stored in both
        `selected` and `Selected`. */
    method UpdateSelected(isSelected: map<string, bool>)
      modifies this`selected, this`Selected
      ensures selected == SelectedIn(options, TrueKeys(isSelected))
      ensures Selected == selected
    {
      var S := TrueKeys(isSelected);
      var sel: seq<string> := [];
      for i := 0 to |options|
        invariant sel == Kept(options[..i], Unselected(S))
      {
        var x := options[i];
        assert options[..i + 1][..i] == options[..i];
        if Lookup(isSelected, x) {
          sel := sel + [x];
        }
      }
      assert options[..|options|] == options;
      selected := sel;
      Selected := Clone(selected);
      assert Selected == selected;
    }

    /** `setSelected`: the valid entries of `s` become the selection, in option order, and
        every chip's flag is set from it. */
    method ApplySelected(s: seq<string>)
      requires Valid()
      modifies this`selected, this`Selected, this`chips
      ensures Valid() && ChipsAgree()
      ensures selected == SelectedIn(options, Elems(s)) && Selected == selected
      ensures forall i :: 0 <= i < |chips| ==> chips[i] == Chip(options[i], options[i] in s)
    {
      var isValid: map<string, bool> := map[];
      for i := 0 to |options|
        invariant forall x :: Lookup(isValid, x) <==> x in options[..i]
      {
        assert options[..i + 1] == options[..i] + [options[i]];
        isValid := isValid[options[i] := true];
      }
      assert options[..|options|] == options;
      var isSelected: map<string, bool> := map[];
      for i := 0 to |s|
        invariant forall x :: Lookup(isSelected, x) <==> x in s[..i] && x in options
      {
        var v := s[i];
        assert s[..i + 1] == s[..i] + [v];
        if !Lookup(isValid, v) {
          continue;
        }
        isSelected := isSelected[v := true];
      }
      assert s[..|s|] == s;
      for i := 0 to |options|
        invariant |chips| == |options|
        invariant forall k :: 0 <= k < |options| ==> chips[k].text == options[k]
        invariant forall k :: 0 <= k < i ==> chips[k].On == Lookup(isSelected, options[k])
      {
        chips := chips[i := Chip(chips[i].text, Lookup(isSelected, options[i]))];
      }
      UpdateSelected(isSelected);
      KeptExtensional(options, Unselected(TrueKeys(isSelected)), Unselected(Elems(s)));
    }

    /** `SetSelected`: apply the selection, then report `Selected` once, changed or not. */
    method SetSelected(s: seq<string>)
      requires Valid()
      modifies this`selected, this`Selected, this`chips, this`changes
      ensures Valid() && ChipsAgree()
      ensures selected == SelectedIn(options, Elems(s)) && Selected == selected
      ensures forall i :: 0 <= i < |chips| ==> chips[i] == Chip(options[i], options[i] in s)
      ensures changes == old(changes) + if hasOnChanged then [Selected] else []
    {
      ApplySelected(s);
      if hasOnChanged {
        changes := changes + [Selected];
      }
    }

    /** The callback chip `i` was created with, called with its new state `on`: the option is
        added to or removed from the selection and `OnChanged` is called once with the result.
        The chip's own flag is the chip's business and is not touched here. */
    method ChipChanged(i: nat, on: bool)
      requires Valid() && i < |options|
      modifies this`selected, this`Selected, this`changes
      ensures selected == SelectedIn(options, Toggled(old(selected), options[i], on))
      ensures Selected == selected
      ensures changes == old(changes) + if hasOnChanged then [Selected] else []
      ensures old(ChipsAgree()) ==>
                forall k :: 0 <= k < |options| && k != i ==> (chips[k].On <==> options[k] in selected)
      ensures options[i] in selected <==> on
    {
      var v := options[i];
      var isSelected: map<string, bool> := map[];
      for k := 0 to |selected|
        invariant forall x :: Lookup(isSelected, x) <==> x in selected[..k]
      {
        assert selected[..k + 1] == selected[..k] + [selected[k]];
        isSelected := isSelected[selected[k] := true];
      }
      assert selected[..|selected|] == selected;
      ghost var before := selected;
      isSelected := isSelected[v := on];
      assert TrueKeys(isSelected) == Toggled(before, v, on);
      UpdateSelected(isSelected);
      ChipToggleEffect(options, before, v, on);
      if old(ChipsAgree()) {
        forall k | 0 <= k < |options| && k != i
          ensures chips[k].On <==> options[k] in selected
        {
          assert options[k] != v;
        }
      }
      if hasOnChanged {
        changes := changes + [Selected];
      }
    }

    /** The first step of `CreateRenderer`: a `Selected` assigned before the first render is
        validated like an argument of `SetSelected`, without a callback. */
    method CreateRenderer()
      requires Valid()
      modifies this`selected, this`Selected, this`chips
      ensures Valid() && ChipsAgree()
      ensures selected == SelectedIn(options, Elems(old(Selected))) && Selected == selected
    {
      ApplySelected(Selected);
    }
  }
}
