/** The autocomplete search box: a fixed list of suggestions filtered by a
    case-insensitive substring match, and the input's state (query,
    suggestions shown, highlighted index) driven by typing, focus, the
    keyboard, a click on a suggestion, a click outside, and the clear
    button. The filter's 200 ms delay is not modelled: its result is
    applied in the same step as the keystroke. */
module SearchBox {
  import opened Common

  /** The suggestions the component filters. */
  const MockSuggestions: seq<string> := [
    "react js tutorial",
    "react hooks",
    "react redux",
    "react native",
    "react router",
    "react testing library",
    "react context api",
    "react performance optimization",
    "react best practices",
    "react state management"
  ]

  /** `list.filter(...)`: the entries containing `value`, both lower-cased,
      in list order. */
  function Matching(list: seq<string>, value: string): seq<string>
  {
    Containing(list, ToLower(value))
  }

  /** The entries whose lower-cased form contains `needle`. */
  function Containing(list: seq<string>, needle: string): (r: seq<string>)
    ensures |r| <= |list|
  {
    if list == [] then []
    else (if Contains(ToLower(list[0]), needle) then [list[0]] else []) + Containing(list[1..], needle)
  }

  /** Containing is the array filter with the component's callback. */
  lemma {:induction false} ContainingIsFilter(list: seq<string>, needle: string)
    ensures Containing(list, needle) == Filter(list, (s: string) => Contains(ToLower(s), needle))
  {
    if list != [] {
      ContainingIsFilter(list[1..], needle);
    }
  }

  /** An entry is offered exactly when it contains the query, ignoring
      case; the offered ones keep the list's order. */
  lemma MatchingSpec(list: seq<string>, value: string)
    ensures forall s :: s in Matching(list, value) <==> s in list && Contains(ToLower(s), ToLower(value))
    ensures IsSubsequence(Matching(list, value), list)
  {
    var needle := ToLower(value);
    ContainingIsFilter(list, needle);
    FilterMembers(list, (s: string) => Contains(ToLower(s), needle));
    FilterIsSubsequence(list, (s: string) => Contains(ToLower(s), needle));
  }

  /** Every offered entry comes from the list. */
  lemma {:induction false} ContainingFromList(list: seq<string>, needle: string)
    ensures forall i :: 0 <= i < |Containing(list, needle)| ==> Containing(list, needle)[i] in list
  {
    if list != [] {
      ContainingFromList(list[1..], needle);
    }
  }

  lemma ToLowerIdempotent(s: string)
    ensures ToLower(ToLower(s)) == ToLower(s)
  {
    ToLowerChars(s);
    ToLowerChars(ToLower(s));
    assert forall i :: 0 <= i < |s| ==> ToLower(ToLower(s))[i] == ToLower(s)[i];
  }

  /** Only the letters' case is ignored: a query and its lower-cased form
      are offered the same entries. */
  lemma CaseInsensitive(list: seq<string>, value: string)
    ensures Matching(list, ToLower(value)) == Matching(list, value)
  {
    ToLowerIdempotent(value);
  }

  /** Every built-in suggestion starts with "react". */
  lemma MockStartsWithReact()
    ensures forall i :: 0 <= i < |MockSuggestions| ==> |MockSuggestions[i]| >= 5 && MockSuggestions[i][..5] == "react"
  {
  }

  /** So typing "React", in any case, offers the whole list. */
  lemma ReactOffersAll()
    ensures Matching(MockSuggestions, "React") == MockSuggestions
  {
    MockStartsWithReact();
    PrefixOffersAll(MockSuggestions, "React", "react");
  }

  /** A query whose lower-cased form every entry starts with offers every entry. */
  lemma PrefixOffersAll(list: seq<string>, value: string, prefix: string)
    requires ToLower(value) == prefix
    requires forall i :: 0 <= i < |list| ==> |list[i]| >= |prefix| && list[i][..|prefix|] == prefix
    requires forall j :: 0 <= j < |prefix| ==> !('A' <= prefix[j] <= 'Z')
    ensures Matching(list, value) == list
  {
    forall i | 0 <= i < |list|
      ensures Contains(ToLower(list[i]), prefix)
    {
      var low := ToLower(list[i]);
      ToLowerChars(list[i]);
      assert low[..|prefix|] == prefix by {
        assert forall j :: 0 <= j < |prefix| ==> low[j] == list[i][j];
      }
    }
    FilterAll(list, (s: string) => Contains(ToLower(s), prefix));
    ContainingIsFilter(list, prefix);
  }

  /** ArrowDown: one further down, stopping at the last suggestion. */
  function NextIndex(prev: int, count: nat): (i: int)
    ensures -1 <= prev < count ==> -1 <= i < count
    ensures prev < count - 1 ==> i == prev + 1
  {
    if prev < count - 1 then prev + 1 else prev
  }

  /** ArrowUp: one further up, stopping at -1 (nothing highlighted). */
  function PrevIndex(prev: int): (i: int)
    ensures i >= -1 && (prev >= -1 ==> i <= prev)
    ensures prev >= 0 ==> i == prev - 1
  {
    if prev > 0 then prev - 1 else -1
  }

  /** The index after `presses` ArrowDown presses starting from `from`. */
  function DownPresses(from: int, count: nat, presses: nat): int
    decreases presses
  {
    if presses == 0 then from else DownPresses(NextIndex(from, count), count, presses - 1)
  }

  /** From nothing highlighted, k presses highlight the k-th suggestion, and
      further presses stay on the last one. */
  lemma {:induction false} DownSaturates(from: int, count: nat, presses: nat)
    decreases presses
    requires -1 <= from < count
    ensures DownPresses(from, count, presses) == Min(from + presses, count - 1)
  {
    if presses > 0 {
      DownSaturates(NextIndex(from, count), count, presses - 1);
    }
  }

  /** The index after `presses` ArrowUp presses starting from `from`. */
  function UpPresses(from: int, presses: nat): int
    decreases presses
  {
    if presses == 0 then from else UpPresses(PrevIndex(from), presses - 1)
  }

  /** ArrowUp walks back to -1 and stays there. */
  lemma {:induction false} UpSaturates(from: int, presses: nat)
    decreases presses
    requires from >= -1
    ensures UpPresses(from, presses) == Max(from - presses, -1)
  {
    if presses > 0 {
      UpSaturates(PrevIndex(from), presses - 1);
    }
  }

  /** ArrowUp undoes an ArrowDown that moved. */
  lemma UpUndoesDown(prev: int, count: nat)
    requires -1 <= prev < count - 1
    ensures PrevIndex(NextIndex(prev, count)) == prev
  {
  }

  datatype Key = ArrowDown | ArrowUp | Enter | Escape | OtherKey

  class SearchBoxState {
    /** The list the component filters, fixed when it is built. */
    const mockSuggestions: seq<string>
    var query: string
    var suggestions: seq<string>
    var isLoading: bool
    var showSuggestions: bool
    var selectedIndex: int

    /** The highlighted index is -1 or names a shown suggestion, and every
        suggestion comes from the built-in list. */
    ghost predicate Valid()
      reads this
    {
      && -1 <= selectedIndex < |suggestions|
      && (forall i :: 0 <= i < |suggestions| ==> suggestions[i] in mockSuggestions)
    }

    constructor()
      ensures Valid() && mockSuggestions == MockSuggestions
      ensures query == "" && suggestions == [] && !isLoading && !showSuggestions && selectedIndex == -1
    {
      mockSuggestions := MockSuggestions;
      query := "";
      suggestions := [];
      isLoading := false;
      showSuggestions := false;
      selectedIndex := -1;
    }

    /** `handleInputChange`: a non-blank value shows the suggestions matching
        it; a blank one hides and empties the list. The highlight is reset
        either way. */
    method InputChange(value: string)
      requires Valid()
      modifies this
      ensures Valid()
      ensures query == value && selectedIndex == -1
      ensures !IsBlank(value) ==> suggestions == Matching(mockSuggestions, value) && showSuggestions && !isLoading
      ensures IsBlank(value) ==> suggestions == [] && !showSuggestions && isLoading == old(isLoading)
    {
      query := value;
      if !IsBlank(value) {
        isLoading := true;
        var filtered := Matching(mockSuggestions, value);
        ContainingFromList(mockSuggestions, ToLower(value));
        suggestions := filtered;
        showSuggestions := true;
        isLoading := false;
      } else {
        suggestions := [];
        showSuggestions := false;
      }
      selectedIndex := -1;
    }

    /** `handleInputFocus`: reopens the list only over a non-blank query with
        suggestions to show. */
    method Focus()
      requires Valid()
      modifies this
      ensures Valid()
      ensures showSuggestions == (old(showSuggestions) || (!IsBlank(query) && |suggestions| > 0))
      ensures query == old(query) && suggestions == old(suggestions) && isLoading == old(isLoading)
      ensures selectedIndex == old(selectedIndex)
    {
      if !IsBlank(query) && |suggestions| > 0 {
        showSuggestions := true;
      }
    }

    /** `handleSuggestionSelect`: the suggestion becomes the query and the list closes. */
    method SuggestionSelect(suggestion: string)
      requires Valid()
      modifies this
      ensures Valid()
      ensures query == suggestion && !showSuggestions && selectedIndex == -1
      ensures suggestions == old(suggestions) && isLoading == old(isLoading)
    {
      query := suggestion;
      showSuggestions := false;
      selectedIndex := -1;
    }

    /** `handleSearch`: closes the list, but only over a non-blank query. */
    method Search()
      requires Valid()
      modifies this
      ensures Valid()
      ensures !IsBlank(query) ==> !showSuggestions && selectedIndex == -1
      ensures IsBlank(query) ==> showSuggestions == old(showSuggestions) && selectedIndex == old(selectedIndex)
      ensures query == old(query) && suggestions == old(suggestions) && isLoading == old(isLoading)
    {
      if !IsBlank(query) {
        showSuggestions := false;
        selectedIndex := -1;
      }
    }

    /** `handleClear`. */
    method Clear()
      requires Valid()
      modifies this
      ensures Valid()
      ensures query == "" && suggestions == [] && !showSuggestions && selectedIndex == -1
      ensures isLoading == old(isLoading)
    {
      query := "";
      suggestions := [];
      showSuggestions := false;
      selectedIndex := -1;
    }

    /** A mouse-down outside the box closes the list. */
    method ClickOutside()
      requires Valid()
      modifies this
      ensures Valid()
      ensures !showSuggestions && selectedIndex == -1
      ensures query == old(query) && suggestions == old(suggestions) && isLoading == old(isLoading)
    {
      showSuggestions := false;
      selectedIndex := -1;
    }

    /** `handleKeyDown`. Nothing happens while the list is hidden or empty.
        Otherwise the arrows move the highlight, Enter picks the highlighted
        suggestion or, with none, searches, and Escape closes the list. */
    method KeyDown(key: Key)
      requires Valid()
      modifies this
      ensures Valid()
      ensures suggestions == old(suggestions) && isLoading == old(isLoading)
      ensures !old(showSuggestions) || |old(suggestions)| == 0 ==>
        query == old(query) && showSuggestions == old(showSuggestions) && selectedIndex == old(selectedIndex)
      ensures old(showSuggestions) && |old(suggestions)| > 0 ==>
        match key
        case ArrowDown =>
          selectedIndex == NextIndex(old(selectedIndex), |suggestions|)
          && query == old(query) && showSuggestions
        case ArrowUp =>
          selectedIndex == PrevIndex(old(selectedIndex)) && query == old(query) && showSuggestions
        case Enter =>
          if old(selectedIndex) >= 0 then
            query == old(suggestions)[old(selectedIndex)] && !showSuggestions && selectedIndex == -1
          else if !IsBlank(old(query)) then
            query == old(query) && !showSuggestions && selectedIndex == -1
          else
            query == old(query) && showSuggestions && selectedIndex == -1
        case Escape =>
          query == old(query) && !showSuggestions && selectedIndex == -1
        case OtherKey =>
          query == old(query) && showSuggestions && selectedIndex == old(selectedIndex)
    {
      if !showSuggestions || |suggestions| == 0 {
        return;
      }
      match key
      case ArrowDown =>
        selectedIndex := NextIndex(selectedIndex, |suggestions|);
      case ArrowUp =>
        selectedIndex := PrevIndex(selectedIndex);
      case Enter =>
        if selectedIndex >= 0 {
          SuggestionSelect(suggestions[selectedIndex]);
        } else {
          Search();
        }
      case Escape =>
        showSuggestions := false;
        selectedIndex := -1;
      case OtherKey =>
    }
  }
}
