/** The grouping dialog (`src/components/GroupingDialog.tsx`): an input with
    suggestions drawn from the known groups, that asks its parent to add or
    remove a group of the current selection. The props `groups` and
    `knownGroups` belong to the parent and are passed to each handler; the
    dialog's own state is the input text, the selected suggestion and whether
    it is open. */
module GroupingDialog {
  import opened Wrappers
  import opened Text
  import opened GroupLists

  /** The argument of `onGroupAdd`: a group name, or `undefined` when Enter
      picks an index past the end of the suggestions. */
  datatype GroupArg = Name(name: string) | Undefined

  /** `filteredSuggestions`. */
  function Filtered(knownGroups: seq<string>, input: string, groups: seq<string>): seq<string> {
    Suggestions(knownGroups, input, groups)
  }

  /** `handleAdd`'s test: `onGroupAdd` fires unless the group is present. */
  function AddSignal(g: GroupArg, groups: seq<string>): (r: Option<GroupArg>)
    ensures r.Some? ==> r.value == g
    ensures r.None? <==> g.Name? && g.name in groups
  {
    if g.Name? && g.name in groups then None else Some(g)
  }

  class Dialog {
    var open: bool
    var input: string
    var selectedIndex: int

    ghost predicate Valid()
      reads this
    {
      selectedIndex >= -1
    }

    /** Mounted with `useState("")` and `useState(-1)`. */
    constructor (open: bool)
      ensures this.open == open && input == [] && selectedIndex == -1
      ensures Valid()
    {
      this.open := open;
      input := [];
      selectedIndex := -1;
    }

    /** The `[open]` effect: closing clears the input and the selection;
        opening only moves the focus. */
    method SetOpen(nowOpen: bool)
      requires Valid()
      modifies this
      ensures Valid()
      ensures open == nowOpen
      ensures old(open) && !nowOpen ==> input == [] && selectedIndex == -1
      ensures !(old(open) && !nowOpen) ==> input == old(input) && selectedIndex == old(selectedIndex)
    {
      if open && !nowOpen {
        input := [];
        selectedIndex := -1;
      }
      open := nowOpen;
    }

    /** The input's `onChange`, followed by the `[input]` effect, which runs
        only when the value actually changes. The input is rendered only
        while the dialog is open. */
    method SetInput(v: string)
      requires Valid() && open
      modifies this
      ensures Valid()
      ensures input == v && open == old(open)
      ensures selectedIndex == if v != old(input) then -1 else old(selectedIndex)
    {
      if v != input {
        selectedIndex := -1;
      }
      input := v;
    }

    /** `handleAdd`: the signal to the parent, then the input and the selection
        cleared. Its buttons exist only while the dialog is open. */
    method HandleAdd(g: GroupArg, groups: seq<string>) returns (emitted: Option<GroupArg>)
      requires Valid() && open
      modifies this
      ensures Valid()
      ensures emitted == AddSignal(g, groups)
      ensures input == [] && selectedIndex == -1 && open == old(open)
    {
      emitted := None;
      if !(g.Name? && g.name in groups) {
        emitted := Some(g);
      }
      input := [];
      selectedIndex := -1;
    }

    /** `handleKeyDown`: the arrows move the selection, Enter adds the selected
        suggestion or the trimmed input. */
    method HandleKeyDown(key: string, groups: seq<string>, knownGroups: seq<string>) returns (emitted: Option<GroupArg>)
      requires Valid() && open
      modifies this
      ensures Valid()
      ensures open == old(open)
      ensures var r := GroupKey(key, Filtered(knownGroups, old(input), groups), old(selectedIndex), old(input));
        if r.choice == NoAdd then
          emitted == None && input == old(input) && selectedIndex == r.selected
        else
          emitted == AddSignal(if r.choice.Add? then Name(r.choice.group) else Undefined, groups) &&
          input == [] && selectedIndex == -1
    {
      var suggestions := Filtered(knownGroups, input, groups);
      var r := GroupKey(key, suggestions, selectedIndex, input);
      match r.choice {
        case NoAdd =>
          selectedIndex := r.selected;
          emitted := None;
        case Add(g) =>
          emitted := HandleAdd(Name(g), groups);
        case AddUndefined =>
          emitted := HandleAdd(Undefined, groups);
      }
    }
  }

  /** A suggestion chosen with the arrows and Enter is always signalled: it is
      never one of the current groups. */
  lemma SelectedSuggestionSignalled(groups: seq<string>, knownGroups: seq<string>, input: string, selected: int)
    requires 0 <= selected < |Filtered(knownGroups, input, groups)|
    ensures var r := GroupKey("Enter", Filtered(knownGroups, input, groups), selected, input);
      r.choice.Add? && AddSignal(Name(r.choice.group), groups) == Some(Name(r.choice.group))
  {
    EnterPicksFreshCandidate(knownGroups, input, groups, selected);
  }
}
