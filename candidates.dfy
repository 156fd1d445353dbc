/**
  The candidate lists of the name picker and the turn panel, and the key that
  identifies where the turn list came from.
*/
module Candidates {
  import opened ListOps
  import opened Documents

  /** What a panel reads: its manual-list text and its selected classroom id. */
  datatype Selection = Selection(manualText: string, classId: string)

  /** `getTurnCandidates()`: the list to draw from and its source key. */
  datatype Candidates = Candidates(list: seq<string>, key: string)

  /** The manual list when it has a name, else the selected classroom's students. */
  function SourceList(sel: Selection, classrooms: seq<Classroom>): seq<string>
  {
    var manual := ParseList(sel.manualText);
    if |manual| > 0 then manual else ClassStudents(classrooms, sel.classId)
  }

  /** `getPickerList()`: the source list minus the excluded names, order kept. */
  function PickerList(sel: Selection, classrooms: seq<Classroom>, excluded: set<string>): (r: seq<string>)
    ensures forall x :: multiset(r)[x] == if x in excluded then 0 else multiset(SourceList(sel, classrooms))[x]
    ensures forall k :: 0 <= k < |r| ==> r[k] !in excluded
  {
    var r := Without(SourceList(sel, classrooms), excluded);
    assert forall k :: 0 <= k < |r| ==> multiset(r)[r[k]] > 0;
    r
  }

  /** The source key: the unfiltered manual list joined by `|`, or the class id. */
  function TurnKey(sel: Selection): string
  {
    var manual := ParseList(sel.manualText);
    if |manual| > 0 then "manual:" + Join(manual, "|") else "class:" + sel.classId
  }

  /** `getTurnCandidates()`: the same list as the picker; the key ignores the exclusions. */
  function TurnCandidates(sel: Selection, classrooms: seq<Classroom>, excluded: set<string>): (c: Candidates)
    ensures c.list == PickerList(sel, classrooms, excluded)
    ensures c.key != ""
  {
    Candidates(Without(SourceList(sel, classrooms), excluded), TurnKey(sel))
  }

  /** Changing the exclusions or the stored classrooms never changes the key. */
  lemma TurnKeyIgnoresExclusions(sel: Selection, cs1: seq<Classroom>, cs2: seq<Classroom>, e1: set<string>, e2: set<string>)
    ensures TurnCandidates(sel, cs1, e1).key == TurnCandidates(sel, cs2, e2).key
  {
  }

  /** A manual key never equals a class key. */
  lemma ManualAndClassKeysDiffer(manualSel: Selection, classSel: Selection)
    requires |ParseList(manualSel.manualText)| > 0
    requires |ParseList(classSel.manualText)| == 0
    ensures TurnKey(manualSel) != TurnKey(classSel)
  {
    assert TurnKey(manualSel)[0] == 'm';
    assert TurnKey(classSel)[0] == 'c';
  }

  /** Class keys are equal exactly when the class ids are. */
  lemma ClassKeyInjective(sel1: Selection, sel2: Selection)
    requires |ParseList(sel1.manualText)| == 0 && |ParseList(sel2.manualText)| == 0
    ensures TurnKey(sel1) == TurnKey(sel2) <==> sel1.classId == sel2.classId
  {
    var p := "class:";
    if TurnKey(sel1) == TurnKey(sel2) {
      assert sel1.classId == (p + sel1.classId)[|p|..];
      assert sel2.classId == (p + sel2.classId)[|p|..];
    }
  }

  /** Manual keys identify the manual list when no name contains `|`. */
  lemma ManualKeyInjective(sel1: Selection, sel2: Selection)
    requires |ParseList(sel1.manualText)| > 0 && |ParseList(sel2.manualText)| > 0
    requires forall k :: 0 <= k < |ParseList(sel1.manualText)| ==> '|' !in ParseList(sel1.manualText)[k]
    requires forall k :: 0 <= k < |ParseList(sel2.manualText)| ==> '|' !in ParseList(sel2.manualText)[k]
    ensures TurnKey(sel1) == TurnKey(sel2) <==> ParseList(sel1.manualText) == ParseList(sel2.manualText)
  {
    var m1, m2 := ParseList(sel1.manualText), ParseList(sel2.manualText);
    var p := "manual:";
    if TurnKey(sel1) == TurnKey(sel2) {
      var j1, j2 := Join(m1, "|"), Join(m2, "|");
      assert j1 == (p + j1)[|p|..];
      assert j2 == (p + j2)[|p|..];
      SplitJoin(m1, '|');
      SplitJoin(m2, '|');
    }
  }

  /** Without the `|` restriction keys collide: the one name "x|y" and the two
      lines "x", "y" give the same key although the lists differ. */
  lemma {:induction false} ManualKeyCollision(x: string, y: string, classId1: string, classId2: string)
    requires x != "" && IsTrimmed(x) && '\n' !in x
    requires y != "" && IsTrimmed(y) && '\n' !in y
    ensures TurnKey(Selection(x + "|" + y, classId1)) == TurnKey(Selection(x + "\n" + y, classId2))
    ensures ParseList(x + "|" + y) != ParseList(x + "\n" + y)
  {
    ParseJoinedName(x, y);
    ParseOneLine(x);
    ParseOneLine(y);
    ParseTwoLines(x, y);
    assert [x, y][1..] == [y];
    assert Join([x, y], "|") == x + "|" + y;
  }

  lemma ParseJoinedName(x: string, y: string)
    requires x != "" && IsTrimmed(x) && '\n' !in x
    requires y != "" && IsTrimmed(y) && '\n' !in y
    ensures ParseList(x + "|" + y) == [x + "|" + y]
  {
    var joined := x + "|" + y;
    assert joined[0] == x[0] && joined[|joined| - 1] == y[|y| - 1];
    ParseOneLine(joined);
  }

  lemma ParseTwoLines(x: string, y: string)
    requires ParseList(x) == [x] && ParseList(y) == [y]
    ensures ParseList(x + "\n" + y) == [x, y]
  {
    ParseListAppend(x, y);
  }

  lemma {:induction false} ParseOneLine(x: string)
    requires x != "" && IsTrimmed(x) && '\n' !in x
    ensures ParseList(x) == [x]
  {
    TrimOfTrimmed(x);
    ParseListOneLine(x);
  }
}
