/**
  The document store: `state.data` with its persisted copy, the classroom and
  roulette-set editing ids, and the operations that validate, edit, save,
  import and reset the document.
*/
module Store {
  import opened Wrappers
  import opened ListOps
  import opened Numeric
  import opened Documents
  import opened Groups

  // ---------------------------------------------------------------------
  // Entry lists
  // ---------------------------------------------------------------------

  /** No two entries share an id. */
  predicate UniqueIds(es: seq<Entry>)
  {
    forall i, j :: 0 <= i < j < |es| ==> es[i].id != es[j].id
  }

  /** A remembered id is either unset or names an entry of the list. */
  predicate Resolves(id: string, es: seq<Entry>)
  {
    id == "" || FindEntry(es, id).Some?
  }

  /** `entries.filter((item) => item.id !== id)`: every entry with another id
      stays, as often as before and in order; none with `id` is left. */
  function RemoveById(es: seq<Entry>, id: string): (r: seq<Entry>)
    ensures |r| <= |es|
    ensures forall e :: multiset(r)[e] == if e.id == id then 0 else multiset(es)[e]
  {
    if es == [] then []
    else
      var rest := RemoveById(es[1..], id);
      assert es == [es[0]] + es[1..];
      if es[0].id == id then rest else [es[0]] + rest
  }

  /** Editing in place: the first entry with id `id` takes the new name and
      items; all ids and all other entries stay as they are. */
  function UpdateFirst(es: seq<Entry>, id: string, name: string, items: seq<string>): (r: seq<Entry>)
    ensures |r| == |es|
    ensures forall k :: 0 <= k < |es| ==> r[k].id == es[k].id
    ensures forall k :: 0 <= k < |es| && FindEntry(es, id) != Some(k) ==> r[k] == es[k]
    ensures FindEntry(es, id).Some? ==> r[FindEntry(es, id).value] == Entry(id, name, items)
  {
    match FindEntry(es, id)
    case None => es
    case Some(i) => es[i := Entry(id, name, items)]
  }

  /** `if (last === id) last = ""`. */
  function ClearIfDeleted(last: string, id: string): (r: string)
    ensures r == "" || r != id
    ensures last == id ==> r == ""
    ensures last != id ==> r == last
  {
    if last == id then "" else last
  }

  /** The filter distributes over concatenation, so the kept entries stay in
      their original order. */
  lemma {:induction false} RemoveByIdAppend(a: seq<Entry>, b: seq<Entry>, id: string)
    ensures RemoveById(a + b, id) == RemoveById(a, id) + RemoveById(b, id)
    decreases |a|
  {
    if a == [] {
      assert a + b == b;
    } else {
      assert (a + b)[1..] == a[1..] + b;
      RemoveByIdAppend(a[1..], b, id);
    }
  }

  lemma {:induction false} RemoveKeepsUniqueIds(es: seq<Entry>, id: string)
    requires UniqueIds(es)
    ensures UniqueIds(RemoveById(es, id))
    decreases |es|
  {
    if es != [] {
      var rest := RemoveById(es[1..], id);
      RemoveKeepsUniqueIds(es[1..], id);
      if es[0].id != id {
        forall k | 0 <= k < |rest| ensures rest[k].id != es[0].id {
          assert multiset(rest)[rest[k]] > 0;
          assert rest[k] in es[1..];
        }
      }
    }
  }

  /** Appending an entry whose id is new keeps the ids unique. */
  lemma AppendFreshKeepsUniqueIds(es: seq<Entry>, e: Entry)
    requires UniqueIds(es) && FindEntry(es, e.id).None?
    ensures UniqueIds(es + [e])
  {
  }

  /** Deleting one id leaves every other id that resolved still resolving. */
  lemma RemoveKeepsOthers(es: seq<Entry>, id: string, other: string)
    requires other != id && Resolves(other, es)
    ensures Resolves(other, RemoveById(es, id))
  {
    if other != "" {
      var e := es[FindEntry(es, other).value];
      assert multiset(RemoveById(es, id))[e] > 0;
    }
  }

  /** After a delete, the remembered id resolves whenever it did before. */
  lemma DeleteKeepsResolved(es: seq<Entry>, last: string, id: string)
    requires Resolves(last, es)
    ensures Resolves(ClearIfDeleted(last, id), RemoveById(es, id))
  {
    if last != id {
      RemoveKeepsOthers(es, id, last);
    }
  }

  // ---------------------------------------------------------------------
  // The store
  // ---------------------------------------------------------------------

  datatype SaveOutcome =
    | MissingName   // blank name: an alert, nothing changes
    | TooFewItems   // too few students or options: an alert, nothing changes
    | Saved

  /** Fewest students a classroom and options a roulette set may have. */
  const MinStudents := 1
  const MinOptions := 2

  class DocumentStore {
    /** `state.data`. */
    var data: Document
    /** The stored copy, absent when storage holds nothing. */
    var stored: Option<Json>
    /** `state.editingId`: the classroom being edited, or "". */
    var editingId: string
    /** `state.rouletteEditingId`: the roulette set being edited, or "". */
    var rouletteEditingId: string

    /** Start-up: the stored document merged over the defaults, with the sound
        fallbacks applied; nothing is written back. */
    constructor (raw: Option<Json>)
      ensures data == StartupDocument(raw) && stored == raw
      ensures editingId == "" && rouletteEditingId == ""
    {
      data := StartupDocument(raw);
      stored := raw;
      editingId := "";
      rouletteEditingId := "";
    }

    /** `saveData()`: the stored copy reloads as the current document. */
    method Save()
      modifies this
      ensures stored == Some(Encode(data)) && LoadData(stored) == data
      ensures data == old(data) && editingId == old(editingId) && rouletteEditingId == old(rouletteEditingId)
    {
      stored := Some(Encode(data));
      LoadSaved(data);
    }

    /** `saveClassroom()`: validates the trimmed name and the student list,
        then edits the classroom being edited (if it still exists) or appends
        a new one with id `newId`, saves, and leaves editing mode. */
    method SaveClassroom(nameText: string, studentsText: string, newId: string) returns (out: SaveOutcome)
      modifies this
      ensures Trim(nameText) == "" ==> out == MissingName
      ensures Trim(nameText) != "" && |ParseList(studentsText)| < MinStudents ==> out == TooFewItems
      ensures out == Saved <==> Trim(nameText) != "" && |ParseList(studentsText)| >= MinStudents
      ensures out != Saved ==>
        data == old(data) && stored == old(stored) && editingId == old(editingId)
      ensures out == Saved ==>
        var name, students := Trim(nameText), ParseList(studentsText);
        name != "" && |students| >= MinStudents
        && data == old(data).(classrooms :=
             if old(editingId) != "" then UpdateFirst(old(data.classrooms), old(editingId), name, students)
             else old(data.classrooms) + [Entry(newId, name, students)])
        && stored == Some(Encode(data)) && editingId == ""
      ensures UniqueIds(old(data.classrooms)) && (old(editingId) != "" || FindEntry(old(data.classrooms), newId).None?)
        ==> UniqueIds(data.classrooms)
      ensures rouletteEditingId == old(rouletteEditingId)
    {
      var name := Trim(nameText);
      var students := ParseList(studentsText);
      if name == "" {
        return MissingName;
      }
      if |students| < MinStudents {
        return TooFewItems;
      }
      if editingId != "" {
        data := data.(classrooms := UpdateFirst(data.classrooms, editingId, name, students));
      } else {
        if UniqueIds(data.classrooms) && FindEntry(data.classrooms, newId).None? {
          AppendFreshKeepsUniqueIds(data.classrooms, Entry(newId, name, students));
        }
        data := data.(classrooms := data.classrooms + [Entry(newId, name, students)]);
      }
      Save();
      editingId := "";
      out := Saved;
    }

    /** `saveRouletteSet()`: as `SaveClassroom`, with at least two options. */
    method SaveRouletteSet(nameText: string, optionsText: string, newId: string) returns (out: SaveOutcome)
      modifies this
      ensures Trim(nameText) == "" ==> out == MissingName
      ensures Trim(nameText) != "" && |ParseList(optionsText)| < MinOptions ==> out == TooFewItems
      ensures out == Saved <==> Trim(nameText) != "" && |ParseList(optionsText)| >= MinOptions
      ensures out != Saved ==>
        data == old(data) && stored == old(stored) && rouletteEditingId == old(rouletteEditingId)
      ensures out == Saved ==>
        var name, options := Trim(nameText), ParseList(optionsText);
        name != "" && |options| >= MinOptions
        && data == old(data).(rouletteSets :=
             if old(rouletteEditingId) != "" then UpdateFirst(old(data.rouletteSets), old(rouletteEditingId), name, options)
             else old(data.rouletteSets) + [Entry(newId, name, options)])
        && stored == Some(Encode(data)) && rouletteEditingId == ""
      ensures UniqueIds(old(data.rouletteSets)) && (old(rouletteEditingId) != "" || FindEntry(old(data.rouletteSets), newId).None?)
        ==> UniqueIds(data.rouletteSets)
      ensures editingId == old(editingId)
    {
      var name := Trim(nameText);
      var options := ParseList(optionsText);
      if name == "" {
        return MissingName;
      }
      if |options| < MinOptions {
        return TooFewItems;
      }
      if rouletteEditingId != "" {
        data := data.(rouletteSets := UpdateFirst(data.rouletteSets, rouletteEditingId, name, options));
      } else {
        if UniqueIds(data.rouletteSets) && FindEntry(data.rouletteSets, newId).None? {
          AppendFreshKeepsUniqueIds(data.rouletteSets, Entry(newId, name, options));
        }
        data := data.(rouletteSets := data.rouletteSets + [Entry(newId, name, options)]);
      }
      Save();
      rouletteEditingId := "";
      out := Saved;
    }

    /** `startEditClassroom(id)`: enters editing mode for an existing classroom. */
    method StartEditClassroom(id: string)
      modifies this
      ensures editingId == if FindEntry(data.classrooms, id).Some? then id else old(editingId)
      ensures data == old(data) && stored == old(stored) && rouletteEditingId == old(rouletteEditingId)
    {
      if FindEntry(data.classrooms, id).Some? {
        editingId := id;
      }
    }

    /** `startEditRouletteSet(id)`: enters editing mode for an existing set. */
    method StartEditRouletteSet(id: string)
      modifies this
      ensures rouletteEditingId == if FindEntry(data.rouletteSets, id).Some? then id else old(rouletteEditingId)
      ensures data == old(data) && stored == old(stored) && editingId == old(editingId)
    {
      if FindEntry(data.rouletteSets, id).Some? {
        rouletteEditingId := id;
      }
    }

    /** `resetForm()`: leaves classroom editing mode. */
    method CancelEdit()
      modifies this
      ensures editingId == ""
      ensures data == old(data) && stored == old(stored) && rouletteEditingId == old(rouletteEditingId)
    {
      editingId := "";
    }

    /** `resetRouletteSetForm()`: leaves roulette-set editing mode. */
    method CancelRouletteEdit()
      modifies this
      ensures rouletteEditingId == ""
      ensures data == old(data) && stored == old(stored) && editingId == old(editingId)
    {
      rouletteEditingId := "";
    }

    /** `deleteClassroom(id)` once confirmed: removes every classroom with the
        id, forgets it as the last chosen class, and saves. */
    method DeleteClassroom(id: string, confirmed: bool)
      modifies this
      ensures !confirmed ==> data == old(data) && stored == old(stored)
      ensures confirmed ==>
        data == old(data).(classrooms := RemoveById(old(data.classrooms), id),
                           lastClassId := ClearIfDeleted(old(data.lastClassId), id))
        && stored == Some(Encode(data))
      ensures confirmed ==> FindEntry(data.classrooms, id).None?
      ensures Resolves(old(data.lastClassId), old(data.classrooms)) ==> Resolves(data.lastClassId, data.classrooms)
      ensures UniqueIds(old(data.classrooms)) ==> UniqueIds(data.classrooms)
      ensures editingId == old(editingId) && rouletteEditingId == old(rouletteEditingId)
    {
      if !confirmed {
        return;
      }
      if Resolves(data.lastClassId, data.classrooms) {
        DeleteKeepsResolved(data.classrooms, data.lastClassId, id);
      }
      if UniqueIds(data.classrooms) {
        RemoveKeepsUniqueIds(data.classrooms, id);
      }
      var remaining := RemoveById(data.classrooms, id);
      assert forall k :: 0 <= k < |remaining| ==> multiset(remaining)[remaining[k]] > 0;
      data := data.(classrooms := remaining, lastClassId := ClearIfDeleted(data.lastClassId, id));
      Save();
    }

    /** `deleteRouletteSet(id)` once confirmed: as `DeleteClassroom` for sets. */
    method DeleteRouletteSet(id: string, confirmed: bool)
      modifies this
      ensures !confirmed ==> data == old(data) && stored == old(stored)
      ensures confirmed ==>
        data == old(data).(rouletteSets := RemoveById(old(data.rouletteSets), id),
                           lastRouletteSetId := ClearIfDeleted(old(data.lastRouletteSetId), id))
        && stored == Some(Encode(data))
      ensures confirmed ==> FindEntry(data.rouletteSets, id).None?
      ensures Resolves(old(data.lastRouletteSetId), old(data.rouletteSets)) ==> Resolves(data.lastRouletteSetId, data.rouletteSets)
      ensures UniqueIds(old(data.rouletteSets)) ==> UniqueIds(data.rouletteSets)
      ensures editingId == old(editingId) && rouletteEditingId == old(rouletteEditingId)
    {
      if !confirmed {
        return;
      }
      if Resolves(data.lastRouletteSetId, data.rouletteSets) {
        DeleteKeepsResolved(data.rouletteSets, data.lastRouletteSetId, id);
      }
      if UniqueIds(data.rouletteSets) {
        RemoveKeepsUniqueIds(data.rouletteSets, id);
      }
      var remaining := RemoveById(data.rouletteSets, id);
      assert forall k :: 0 <= k < |remaining| ==> multiset(remaining)[remaining[k]] > 0;
      data := data.(rouletteSets := remaining, lastRouletteSetId := ClearIfDeleted(data.lastRouletteSetId, id));
      Save();
    }

    /** `selectClassroom(id)` and the class pickers' change handlers: remember
        the class and save. */
    method SelectClassroom(id: string)
      modifies this
      ensures data == old(data).(lastClassId := id) && stored == Some(Encode(data))
      ensures editingId == old(editingId) && rouletteEditingId == old(rouletteEditingId)
    {
      data := data.(lastClassId := id);
      Save();
    }

    /** `selectRouletteSet(id)`: remember the set and save. */
    method SelectRouletteSet(id: string)
      modifies this
      ensures data == old(data).(lastRouletteSetId := id) && stored == Some(Encode(data))
      ensures editingId == old(editingId) && rouletteEditingId == old(rouletteEditingId)
    {
      data := data.(lastRouletteSetId := id);
      Save();
    }

    /** `handleGenerateGroups()`: at least two students, else nothing changes;
        the size field (`0` standing for an empty or non-numeric field) falls
        back to 2. The groups are made and the size remembered, unsaved. */
    method GenerateGroups(studentsText: string, sizeField: int, draws: seq<nat>) returns (r: Result<seq<seq<string>>, string>)
      requires ValidDraws(draws, |ParseList(studentsText)|)
      modifies this
      ensures
        var students := ParseList(studentsText);
        |students| < 2 <==> r.Failure?
      ensures r.Failure? ==> data == old(data) && stored == old(stored)
      ensures r.Success? ==>
        var students, size := ParseList(studentsText), if sizeField == 0 then 2 else sizeField;
        r.value == Partition(students, size, draws)
        && data == old(data).(lastGroupSize := size) && stored == old(stored)
      ensures editingId == old(editingId) && rouletteEditingId == old(rouletteEditingId)
    {
      var students := ParseList(studentsText);
      var size := if sizeField == 0 then 2 else sizeField;
      if |students| < 2 {
        return Failure("at least two students are needed");
      }
      var groups := CreateGroups(students, size, draws);
      data := data.(lastGroupSize := size);
      r := Success(groups);
    }

    /** The end of the group animation: the groups are stored and saved. */
    method CommitGroups(groups: seq<seq<string>>)
      modifies this
      ensures data == old(data).(lastGroups := groups) && stored == Some(Encode(data))
      ensures editingId == old(editingId) && rouletteEditingId == old(rouletteEditingId)
    {
      data := data.(lastGroups := groups);
      Save();
    }

    /** `importData` once the file is parsed: an invalid file changes nothing;
        a valid one replaces the document, is saved, and then gets the sound
        duration fallback (which is therefore not in the saved copy). */
    method Import(j: Json) returns (ok: bool)
      modifies this
      ensures ok <==> IsValidImport(j)
      ensures !ok ==> data == old(data) && stored == old(stored)
      ensures ok ==>
        stored == Some(Encode(ImportData(j).value))
        && data == WithDurationDefault(ImportData(j).value)
      ensures editingId == old(editingId) && rouletteEditingId == old(rouletteEditingId)
    {
      match ImportData(j) {
        case Failure(_) =>
          return false;
        case Success(d) =>
          data := d;
          Save();
          data := WithDurationDefault(data);
          return true;
      }
    }

    /** `handleReset()` once confirmed: storage cleared, defaults in force,
        classroom editing left. */
    method Reset(confirmed: bool)
      modifies this
      ensures !confirmed ==> data == old(data) && stored == old(stored) && editingId == old(editingId)
      ensures confirmed ==> data == DefaultDocument() && stored == None && editingId == ""
      ensures confirmed ==> LoadData(stored) == data
      ensures rouletteEditingId == old(rouletteEditingId)
    {
      if !confirmed {
        return;
      }
      stored := None;
      data := WithDurationDefault(DefaultDocument());
      editingId := "";
    }

    /** The timer-sound selector: remember the sound and save. */
    method SetTimerSound(sound: string)
      modifies this
      ensures data == old(data).(timerSound := sound) && stored == Some(Encode(data))
      ensures editingId == old(editingId) && rouletteEditingId == old(rouletteEditingId)
    {
      data := data.(timerSound := sound);
      Save();
    }

    /** The sound-duration buttons: one second up or down, clamped to
        `[1, 15]`, then saved. */
    method AdjustSoundDuration(delta: int)
      modifies this
      ensures data == old(data).(timerSoundDurationSec := Clamp(1, 15, old(data.timerSoundDurationSec) + delta))
      ensures 1 <= data.timerSoundDurationSec <= 15
      ensures stored == Some(Encode(data))
      ensures editingId == old(editingId) && rouletteEditingId == old(rouletteEditingId)
    {
      data := data.(timerSoundDurationSec := Clamp(1, 15, data.timerSoundDurationSec + delta));
      Save();
    }
  }
}
