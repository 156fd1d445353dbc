/**
  The single-shot name picker: the reveal sequence flashed by the animation,
  whose last element is the winner, and the picker's own exclusion set.
*/
module Picker {
  import opened Wrappers
  import opened ListOps
  import opened Documents
  import opened Candidates

  /** The fewest names the animation flips through. */
  const MinFlips: nat := 20

  /** The sequence built by `animatePicker(list)`: a shuffle of the list when it
      has at least `MinFlips` names, otherwise `MinFlips` independent picks
      (`picks[i]` is the i-th draw in `[0, |list|)`). The winner is its last element. */
  method RevealSequence(list: seq<string>, draws: seq<nat>, picks: seq<nat>) returns (sequence: seq<string>, finalPick: string)
    requires |list| > 0
    requires ValidDraws(draws, |list|)
    requires |list| < MinFlips ==> |picks| == MinFlips && forall i :: 0 <= i < |picks| ==> picks[i] < |list|
    ensures |sequence| == if |list| >= MinFlips then |list| else MinFlips
    ensures |list| >= MinFlips ==> sequence == FisherYates(list, draws, |list| - 1)
    ensures |list| >= MinFlips ==> multiset(sequence) == multiset(list)
    ensures |list| < MinFlips ==> forall i :: 0 <= i < |sequence| ==> sequence[i] == list[picks[i]]
    ensures forall i :: 0 <= i < |sequence| ==> sequence[i] in list
    ensures finalPick == sequence[|sequence| - 1] && finalPick in list
  {
    if |list| >= MinFlips {
      sequence := Shuffle(list, draws);
      PermutationMembers(sequence, list);
    } else {
      sequence := PickEach(list, picks);
    }
    finalPick := sequence[|sequence| - 1];
  }

  /** The short-list branch of `animatePicker`: one name per draw in `picks`. */
  method PickEach(list: seq<string>, picks: seq<nat>) returns (sequence: seq<string>)
    requires forall i :: 0 <= i < |picks| ==> picks[i] < |list|
    ensures |sequence| == |picks|
    ensures forall i :: 0 <= i < |sequence| ==> sequence[i] == list[picks[i]]
  {
    sequence := [];
    var i := 0;
    while i < |picks|
      invariant 0 <= i <= |picks| && |sequence| == i
      invariant forall k :: 0 <= k < i ==> sequence[k] == list[picks[k]]
    {
      sequence := sequence + [list[picks[i]]];
      i := i + 1;
    }
  }

  /** Every element of a permutation of `b` is an element of `b`. */
  lemma PermutationMembers(a: seq<string>, b: seq<string>)
    requires multiset(a) == multiset(b)
    ensures forall i :: 0 <= i < |a| ==> a[i] in b
  {
    forall i | 0 <= i < |a|
      ensures a[i] in b
    {
      assert a[i] in multiset(a);
    }
  }

  class NamePicker {
    /** `state.pickerExcluded`. */
    var excluded: set<string>

    constructor ()
      ensures excluded == {}
    {
      excluded := {};
    }

    /** `handlePick()`: nothing when the filtered list is empty, else the winner
        of a reveal sequence over it, which is never an excluded name. */
    method Pick(sel: Selection, classrooms: seq<Classroom>, draws: seq<nat>, picks: seq<nat>) returns (winner: Option<string>)
      requires ValidDraws(draws, |PickerList(sel, classrooms, excluded)|)
      requires |PickerList(sel, classrooms, excluded)| < MinFlips ==>
        |picks| == MinFlips && forall i :: 0 <= i < |picks| ==> picks[i] < |PickerList(sel, classrooms, excluded)|
      ensures winner.None? <==> PickerList(sel, classrooms, excluded) == []
      ensures winner.Some? ==> winner.value in PickerList(sel, classrooms, excluded)
      ensures winner.Some? ==> winner.value !in excluded && winner.value in SourceList(sel, classrooms)
    {
      var list := PickerList(sel, classrooms, excluded);
      if list == [] {
        return None;
      }
      var sequence, finalPick := RevealSequence(list, draws, picks);
      assert multiset(list)[finalPick] > 0;
      return Some(finalPick);
    }

    /** Tapping a chip: the name moves in or out of the exclusions. */
    method ToggleExcluded(name: string)
      modifies this
      ensures excluded == if name in old(excluded) then old(excluded) - {name} else old(excluded) + {name}
    {
      if name in excluded {
        excluded := excluded - {name};
      } else {
        excluded := excluded + {name};
      }
    }

    /** `state.pickerExcluded.clear()`. */
    method ClearExcluded()
      modifies this
      ensures excluded == {}
    {
      excluded := {};
    }
  }
}
