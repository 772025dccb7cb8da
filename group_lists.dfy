/** The group-list logic shared by the grouping dialog
    (`src/components/GroupingDialog.tsx`) and the group field of the details
    dialog (`src/components/DetailsDialog.tsx`): the suggestion filter, the
    arrow-key selection index and the choice Enter makes. */
module GroupLists {
  import opened Text

  /** The filter's test: a non-blank input, a case-insensitive substring match
      against the input as typed (not trimmed), and not already chosen. */
  predicate Matches(g: string, input: string, current: seq<string>) {
    Trim(input) != [] && Includes(Lower(g), Lower(input)) && g !in current
  }

  /** `candidates.filter(g => input.trim() && g.toLowerCase().includes(input.toLowerCase()) && !current.includes(g))` */
  function Suggestions(candidates: seq<string>, input: string, current: seq<string>): (r: seq<string>)
    ensures AllSpace(input) ==> r == []
    ensures forall g :: g in r ==> g in candidates && g !in current && Includes(Lower(g), Lower(input))
    ensures forall g :: g in candidates && !AllSpace(input) && g !in current && Includes(Lower(g), Lower(input)) ==> g in r
    ensures IsSubsequence(r, candidates)
  {
    if candidates == [] then []
    else
      var rest := Suggestions(candidates[1..], input, current);
      if Matches(candidates[0], input, current) then [candidates[0]] + rest else rest
  }

  /** The input is matched as typed: a trailing space hides a group that the
      trimmed text would match, although Enter would add the trimmed text. */
  lemma TrailingSpaceHidesMatch()
    ensures Suggestions(["ab"], "ab ", []) == []
    ensures Suggestions(["ab"], "ab", []) == ["ab"]
  {
    assert !Includes("ab", "ab ") by {
      assert !("ab " <= "ab");
      assert !("ab " <= "b");
      assert !("ab " <= "");
    }
    assert Lower("ab ") == "ab " && Lower("ab") == "ab";
    assert Trim("ab") == "ab" by { assert IsTrimmed("ab"); }
    assert Includes("ab", "ab") by { assert "ab" <= "ab"; }
  }

  /** ArrowDown: one step down the list, stopping at the last suggestion. */
  function ArrowDown(prev: int, len: nat): (r: int)
    ensures r == prev + 1 || r == prev
    ensures r == prev + 1 <==> prev < len - 1
  {
    if prev < len - 1 then prev + 1 else prev
  }

  /** ArrowUp: one step up, stopping at -1 (nothing selected). */
  function ArrowUp(prev: int): (r: int)
    ensures r >= -1
    ensures prev > 0 ==> r == prev - 1
    ensures prev <= 0 ==> r == -1
  {
    if prev > 0 then prev - 1 else -1
  }

  /** The selected index stays in `[-1, len-1]` under both arrows. */
  lemma ArrowsStayInRange(prev: int, len: nat)
    requires len > 0 && -1 <= prev <= len - 1
    ensures -1 <= ArrowDown(prev, len) <= len - 1
    ensures -1 <= ArrowUp(prev) <= len - 1
  {
  }

  /** Arrowing down from "nothing selected" `k` times selects index `k-1`,
      and then stays on the last suggestion. */
  lemma {:induction false} ArrowDownRepeated(len: nat, k: nat)
    requires len > 0
    ensures Iterate(-1, len, k) == if k <= len then k - 1 else len - 1
  {
    if k > 0 { ArrowDownRepeated(len, k - 1); }
  }

  /** `k` presses of ArrowDown from `start`. */
  function Iterate(start: int, len: nat, k: nat): int {
    if k == 0 then start else ArrowDown(Iterate(start, len, k - 1), len)
  }

  /** What Enter hands to the add handler. `Undefined` is the JavaScript value
      of `suggestions[i]` for an index past the end. */
  datatype Choice = NoAdd | Add(group: string) | AddUndefined

  /** The selection index and add choice after one key in the group input. */
  datatype KeyResult = KeyResult(selected: int, choice: Choice)

  /** `handleKeyDown` / `handleGroupKeyDown` up to the call of the add handler. */
  function GroupKey(key: string, suggestions: seq<string>, selected: int, input: string): (r: KeyResult)
    ensures key != "ArrowDown" && key != "ArrowUp" && key != "Enter" ==> r == KeyResult(selected, NoAdd)
    ensures key == "Enter" ==> r.selected == selected
    ensures r.choice != NoAdd ==> key == "Enter"
    ensures key == "Enter" && suggestions != [] && 0 <= selected < |suggestions| ==> r.choice == Add(suggestions[selected])
    ensures key == "Enter" && (suggestions == [] || selected < 0) ==>
      r.choice == if Trim(input) == [] then NoAdd else Add(Trim(input))
    ensures key == "Enter" && suggestions != [] && selected >= |suggestions| ==> r.choice == AddUndefined
    ensures suggestions == [] ==> r.selected == selected
    ensures suggestions != [] && -1 <= selected < |suggestions| ==> -1 <= r.selected < |suggestions|
  {
    if suggestions != [] then
      if key == "ArrowDown" then KeyResult(ArrowDown(selected, |suggestions|), NoAdd)
      else if key == "ArrowUp" then KeyResult(ArrowUp(selected), NoAdd)
      else if key == "Enter" then
        if selected >= 0 then
          KeyResult(selected, if selected < |suggestions| then Add(suggestions[selected]) else AddUndefined)
        else if Trim(input) != [] then KeyResult(selected, Add(Trim(input)))
        else KeyResult(selected, NoAdd)
      else KeyResult(selected, NoAdd)
    else if key == "Enter" && Trim(input) != [] then KeyResult(selected, Add(Trim(input)))
    else KeyResult(selected, NoAdd)
  }

  /** Whenever there are suggestions the input is non-blank, so Enter with
      nothing selected always adds the trimmed input, which is non-empty and
      trimmed. */
  lemma EnterWithoutSelection(candidates: seq<string>, input: string, current: seq<string>, selected: int)
    requires Suggestions(candidates, input, current) != [] && selected < 0
    ensures GroupKey("Enter", Suggestions(candidates, input, current), selected, input).choice == Add(Trim(input))
    ensures Trim(input) != [] && IsTrimmed(Trim(input))
  {
  }

  /** A suggestion picked by Enter is one of the candidates and not already
      chosen. */
  lemma EnterPicksFreshCandidate(candidates: seq<string>, input: string, current: seq<string>, selected: int)
    requires 0 <= selected < |Suggestions(candidates, input, current)|
    ensures var c := GroupKey("Enter", Suggestions(candidates, input, current), selected, input).choice;
      c.Add? && c.group in candidates && c.group !in current
  {
    var s := Suggestions(candidates, input, current);
    assert s[selected] in s;
  }
}
