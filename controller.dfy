/**
  The event handlers that touch several parts of the state at once: the class
  selectors of the picker and turn panels, and the tab switch, which all clear
  the exclusion sets.
*/
module Controller {
  import opened Wrappers
  import opened Documents
  import opened Store
  import opened Turns
  import opened Picker

  /** The picker's class selector: remember and save the class, clear the
      picker's exclusions. */
  method OnPickerClassChange(store: DocumentStore, picker: NamePicker, classId: string)
    modifies store, picker
    ensures store.data == old(store.data).(lastClassId := classId) && store.stored == Some(Encode(store.data))
    ensures store.editingId == old(store.editingId) && store.rouletteEditingId == old(store.rouletteEditingId)
    ensures picker.excluded == {}
  {
    store.SelectClassroom(classId);
    picker.ClearExcluded();
  }

  /** The turn panel's class selector: remember and save the class, clear the
      turn exclusions; the running session itself is left alone. */
  method OnTurnClassChange(store: DocumentStore, turns: TurnSession, classId: string)
    modifies store, turns
    ensures store.data == old(store.data).(lastClassId := classId) && store.stored == Some(Encode(store.data))
    ensures store.editingId == old(store.editingId) && store.rouletteEditingId == old(store.rouletteEditingId)
    ensures turns.excluded == {}
    ensures turns.pool == old(turns.pool) && turns.picked == old(turns.picked)
    ensures turns.sourceKey == old(turns.sourceKey) && turns.origin == old(turns.origin)
  {
    store.SelectClassroom(classId);
    turns.ClearExcluded();
  }

  /** A tab button: both exclusion sets are cleared; the turn session stays. */
  method SwitchTab(picker: NamePicker, turns: TurnSession)
    modifies picker, turns
    ensures picker.excluded == {} && turns.excluded == {}
    ensures turns.pool == old(turns.pool) && turns.picked == old(turns.picked)
    ensures turns.sourceKey == old(turns.sourceKey) && turns.origin == old(turns.origin)
  {
    picker.ClearExcluded();
    turns.ClearExcluded();
  }
}
