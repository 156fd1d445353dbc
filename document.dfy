/**
  The persisted document (`state.data`) of the classroom utility, its JSON
  shape, and the rules that read it back: the structural import validator and
  the key-by-key merge over the defaults used by loading and importing.
*/
module Documents {
  import opened Wrappers

  /** A named list: a classroom (`students`) or a roulette set (`options`). */
  datatype Entry = Entry(id: string, name: string, items: seq<string>)

  type Classroom = Entry
  type RouletteSet = Entry

  datatype Document = Document(
    classrooms: seq<Classroom>,
    lastClassId: string,
    lastGroupSize: int,
    lastGroups: seq<seq<string>>,
    timerSound: string,
    timerSoundDurationSec: int,
    rouletteSets: seq<RouletteSet>,
    lastRouletteSetId: string)

  /** `defaultData()`. */
  function DefaultDocument(): Document
  {
    Document([], "", 3, [], "beep_long", 2, [], "")
  }

  /** A parsed JSON value; numbers are integers in this model. */
  datatype Json =
    | JNull
    | JBool(b: bool)
    | JNum(n: int)
    | JStr(s: string)
    | JArr(items: seq<Json>)
    | JObj(fields: map<string, Json>)

  /** The first entry whose id is `id`, as `Array.prototype.find` picks it. */
  function FindEntry(entries: seq<Entry>, id: string): (r: Option<nat>)
    ensures r.Some? ==> r.value < |entries| && entries[r.value].id == id
    ensures r.Some? ==> forall k :: 0 <= k < r.value ==> entries[k].id != id
    ensures r.None? <==> forall k :: 0 <= k < |entries| ==> entries[k].id != id
  {
    if entries == [] then None
    else if entries[0].id == id then Some(0)
    else match FindEntry(entries[1..], id)
      case None => None
      case Some(i) => Some(i + 1)
  }

  /** The students of the classroom with id `id`, or none when there is no such classroom. */
  function ClassStudents(classrooms: seq<Classroom>, id: string): (r: seq<string>)
    ensures (exists k :: 0 <= k < |classrooms| && classrooms[k].id == id) ==>
      r == classrooms[FindEntry(classrooms, id).value].items
    ensures (forall k :: 0 <= k < |classrooms| ==> classrooms[k].id != id) ==> r == []
  {
    match FindEntry(classrooms, id)
    case None => []
    case Some(i) => classrooms[i].items
  }

  // ---------------------------------------------------------------------
  // Encoding (`JSON.stringify(state.data)`, the export payload)
  // ---------------------------------------------------------------------

  function EncodeAll<T>(xs: seq<T>, enc: T -> Json): (r: seq<Json>)
  {
    seq(|xs|, k requires 0 <= k < |xs| => enc(xs[k]))
  }

  function EncodeStrings(xs: seq<string>): Json
  {
    JArr(EncodeAll(xs, s => JStr(s)))
  }

  function EncodeEntry(e: Entry, itemsKey: string): Json
  {
    JObj(map["id" := JStr(e.id), "name" := JStr(e.name), itemsKey := EncodeStrings(e.items)])
  }

  function EncodeClassroom(c: Classroom): Json { EncodeEntry(c, "students") }

  function EncodeRouletteSet(r: RouletteSet): Json { EncodeEntry(r, "options") }

  /** The stored form of a document: one object with the document's eight keys. */
  function Encode(d: Document): Json
  {
    JObj(map[
      "classrooms" := JArr(EncodeAll(d.classrooms, EncodeClassroom)),
      "lastClassId" := JStr(d.lastClassId),
      "lastGroupSize" := JNum(d.lastGroupSize),
      "lastGroups" := JArr(EncodeAll(d.lastGroups, EncodeStrings)),
      "timerSound" := JStr(d.timerSound),
      "timerSoundDurationSec" := JNum(d.timerSoundDurationSec),
      "rouletteSets" := JArr(EncodeAll(d.rouletteSets, EncodeRouletteSet)),
      "lastRouletteSetId" := JStr(d.lastRouletteSetId)])
  }

  /** The export payload: the document plus an `exportedAt` stamp. */
  function Export(d: Document, exportedAt: string): Json
  {
    JObj(Encode(d).fields["exportedAt" := JStr(exportedAt)])
  }

  // ---------------------------------------------------------------------
  // Decoding
  // ---------------------------------------------------------------------

  /** Decodes every element with `dec`; fails when any element fails. */
  function DecodeAll<T>(js: seq<Json>, dec: Json -> Option<T>): (r: Option<seq<T>>)
    ensures r.Some? <==> forall k :: 0 <= k < |js| ==> dec(js[k]).Some?
    ensures r.Some? ==> |r.value| == |js| && forall k :: 0 <= k < |js| ==> dec(js[k]) == Some(r.value[k])
  {
    if js == [] then Some([])
    else match (dec(js[0]), DecodeAll(js[1..], dec))
      case (Some(x), Some(xs)) => Some([x] + xs)
      case (None, _) => None
      case (_, None) =>
        assert forall k :: 1 <= k < |js| ==> js[k] == js[1..][k - 1];
        None
  }

  function AsString(j: Json): Option<string>
  {
    if j.JStr? then Some(j.s) else None
  }

  function AsInt(j: Json): Option<int>
  {
    if j.JNum? then Some(j.n) else None
  }

  function AsStrings(j: Json): Option<seq<string>>
  {
    if j.JArr? then DecodeAll(j.items, AsString) else None
  }

  function AsGroups(j: Json): Option<seq<seq<string>>>
  {
    if j.JArr? then DecodeAll(j.items, AsStrings) else None
  }

  function AsEntry(j: Json, itemsKey: string): Option<Entry>
  {
    if j.JObj? && "id" in j.fields && "name" in j.fields && itemsKey in j.fields then
      match (AsString(j.fields["id"]), AsString(j.fields["name"]), AsStrings(j.fields[itemsKey]))
      case (Some(id), Some(name), Some(items)) => Some(Entry(id, name, items))
      case _ => None
    else None
  }

  function AsClassrooms(j: Json): Option<seq<Classroom>>
  {
    if j.JArr? then DecodeAll(j.items, e => AsEntry(e, "students")) else None
  }

  function AsRouletteSets(j: Json): Option<seq<RouletteSet>>
  {
    if j.JArr? then DecodeAll(j.items, e => AsEntry(e, "options")) else None
  }

  /** The value under `key`, when present and of the expected shape. */
  function Field<T>(fields: map<string, Json>, key: string, dec: Json -> Option<T>): Option<T>
  {
    if key in fields then dec(fields[key]) else None
  }

  /**
    `{ ...base, ...parsed }`: every known key present in `fields` with a value
    of the field's type replaces the base value; every other field keeps it.
  */
  function Merge(base: Document, fields: map<string, Json>): (d: Document)
    ensures "classrooms" !in fields ==> d.classrooms == base.classrooms
    ensures "lastClassId" !in fields ==> d.lastClassId == base.lastClassId
    ensures "lastGroupSize" !in fields ==> d.lastGroupSize == base.lastGroupSize
    ensures "lastGroups" !in fields ==> d.lastGroups == base.lastGroups
    ensures "timerSound" !in fields ==> d.timerSound == base.timerSound
    ensures "timerSoundDurationSec" !in fields ==> d.timerSoundDurationSec == base.timerSoundDurationSec
    ensures "rouletteSets" !in fields ==> d.rouletteSets == base.rouletteSets
    ensures "lastRouletteSetId" !in fields ==> d.lastRouletteSetId == base.lastRouletteSetId
    ensures Field(fields, "classrooms", AsClassrooms).Some? ==> d.classrooms == Field(fields, "classrooms", AsClassrooms).value
    ensures Field(fields, "lastClassId", AsString).Some? ==> d.lastClassId == Field(fields, "lastClassId", AsString).value
    ensures Field(fields, "lastGroupSize", AsInt).Some? ==> d.lastGroupSize == Field(fields, "lastGroupSize", AsInt).value
    ensures Field(fields, "lastGroups", AsGroups).Some? ==> d.lastGroups == Field(fields, "lastGroups", AsGroups).value
    ensures Field(fields, "timerSound", AsString).Some? ==> d.timerSound == Field(fields, "timerSound", AsString).value
    ensures Field(fields, "timerSoundDurationSec", AsInt).Some? ==>
      d.timerSoundDurationSec == Field(fields, "timerSoundDurationSec", AsInt).value
    ensures Field(fields, "rouletteSets", AsRouletteSets).Some? ==> d.rouletteSets == Field(fields, "rouletteSets", AsRouletteSets).value
    ensures Field(fields, "lastRouletteSetId", AsString).Some? ==>
      d.lastRouletteSetId == Field(fields, "lastRouletteSetId", AsString).value
  {
    Document(
      Field(fields, "classrooms", AsClassrooms).GetOr(base.classrooms),
      Field(fields, "lastClassId", AsString).GetOr(base.lastClassId),
      Field(fields, "lastGroupSize", AsInt).GetOr(base.lastGroupSize),
      Field(fields, "lastGroups", AsGroups).GetOr(base.lastGroups),
      Field(fields, "timerSound", AsString).GetOr(base.timerSound),
      Field(fields, "timerSoundDurationSec", AsInt).GetOr(base.timerSoundDurationSec),
      Field(fields, "rouletteSets", AsRouletteSets).GetOr(base.rouletteSets),
      Field(fields, "lastRouletteSetId", AsString).GetOr(base.lastRouletteSetId))
  }

  /** `loadData()`: nothing stored (or unreadable) gives the defaults. */
  function LoadData(raw: Option<Json>): (d: Document)
    ensures raw.None? || !raw.value.JObj? ==> d == DefaultDocument()
    ensures raw.Some? && raw.value.JObj? && raw.value.fields == map[] ==> d == DefaultDocument()
    ensures raw.Some? && raw.value.JObj? ==> d == Merge(DefaultDocument(), raw.value.fields)
  {
    match raw
    case Some(JObj(fields)) => Merge(DefaultDocument(), fields)
    case _ => DefaultDocument()
  }

  /** `timerSoundDurationSec || 2`. */
  function WithDurationDefault(d: Document): (r: Document)
    ensures r.timerSoundDurationSec != 0
    ensures d.timerSoundDurationSec == 0 ==> r.timerSoundDurationSec == 2
    ensures r == d.(timerSoundDurationSec := r.timerSoundDurationSec)
    ensures d.timerSoundDurationSec != 0 ==> r == d
  {
    if d.timerSoundDurationSec == 0 then d.(timerSoundDurationSec := 2) else d
  }

  /** The document in force after start-up: loaded, then the sound fallbacks applied. */
  function StartupDocument(raw: Option<Json>): (d: Document)
    ensures d.timerSound != "" && d.timerSoundDurationSec != 0
    ensures LoadData(raw).timerSound == "" ==> d.timerSound == "beep_long"
    ensures LoadData(raw).timerSoundDurationSec == 0 ==> d.timerSoundDurationSec == 2
    ensures d == LoadData(raw).(timerSound := d.timerSound, timerSoundDurationSec := d.timerSoundDurationSec)
    ensures LoadData(raw).timerSound != "" && LoadData(raw).timerSoundDurationSec != 0 ==> d == LoadData(raw)
  {
    var loaded := LoadData(raw);
    WithDurationDefault(loaded.(timerSound := if loaded.timerSound == "" then "beep_long" else loaded.timerSound))
  }

  // ---------------------------------------------------------------------
  // Import
  // ---------------------------------------------------------------------

  predicate IsClassroomShape(j: Json)
  {
    j.JObj? && "id" in j.fields && j.fields["id"].JStr? && "name" in j.fields && j.fields["name"].JStr?
    && "students" in j.fields && j.fields["students"].JArr?
    && forall k :: 0 <= k < |j.fields["students"].items| ==> j.fields["students"].items[k].JStr?
  }

  /** `isValidImport`: an object whose `classrooms` is an array of well-shaped classrooms. */
  predicate IsValidImport(j: Json)
  {
    j.JObj? && "classrooms" in j.fields && j.fields["classrooms"].JArr?
    && forall k :: 0 <= k < |j.fields["classrooms"].items| ==> IsClassroomShape(j.fields["classrooms"].items[k])
  }

  /** `importData` after parsing: rejected, or merged over the defaults. The
      sound-duration fallback comes after the merged document is saved, so it
      is not part of this step. */
  function ImportData(j: Json): (r: Result<Document, string>)
    ensures r.Success? <==> IsValidImport(j)
    ensures r.Success? ==> r.value == Merge(DefaultDocument(), j.fields)
  {
    if !IsValidImport(j) then Failure("invalid import")
    else Success(Merge(DefaultDocument(), j.fields))
  }

  // ---------------------------------------------------------------------
  // Lemmas
  // ---------------------------------------------------------------------

  lemma DecodeEncodeAll<T>(xs: seq<T>, enc: T -> Json, dec: Json -> Option<T>)
    requires forall x :: dec(enc(x)) == Some(x)
    ensures DecodeAll(EncodeAll(xs, enc), dec) == Some(xs)
  {
    var r := DecodeAll(EncodeAll(xs, enc), dec);
    assert forall k :: 0 <= k < |xs| ==> dec(EncodeAll(xs, enc)[k]) == Some(xs[k]);
    assert r.value == xs;
  }

  lemma DecodeEncodeStrings(xs: seq<string>)
    ensures AsStrings(EncodeStrings(xs)) == Some(xs)
  {
    DecodeEncodeAll(xs, s => JStr(s), AsString);
  }

  lemma DecodeEncodeEntry(e: Entry, itemsKey: string)
    requires itemsKey != "id" && itemsKey != "name"
    ensures AsEntry(EncodeEntry(e, itemsKey), itemsKey) == Some(e)
  {
    DecodeEncodeStrings(e.items);
  }

  lemma DecodeEncodeFields(d: Document)
    ensures AsClassrooms(JArr(EncodeAll(d.classrooms, EncodeClassroom))) == Some(d.classrooms)
    ensures AsGroups(JArr(EncodeAll(d.lastGroups, EncodeStrings))) == Some(d.lastGroups)
    ensures AsRouletteSets(JArr(EncodeAll(d.rouletteSets, EncodeRouletteSet))) == Some(d.rouletteSets)
  {
    forall c: Classroom ensures AsEntry(EncodeClassroom(c), "students") == Some(c) {
      DecodeEncodeEntry(c, "students");
    }
    DecodeEncodeAll(d.classrooms, EncodeClassroom, e => AsEntry(e, "students"));
    forall g: seq<string> ensures AsStrings(EncodeStrings(g)) == Some(g) {
      DecodeEncodeStrings(g);
    }
    DecodeEncodeAll(d.lastGroups, EncodeStrings, AsStrings);
    forall s: RouletteSet ensures AsEntry(EncodeRouletteSet(s), "options") == Some(s) {
      DecodeEncodeEntry(s, "options");
    }
    DecodeEncodeAll(d.rouletteSets, EncodeRouletteSet, e => AsEntry(e, "options"));
  }

  /** Merging a stored document over any base gives that document back. */
  lemma MergeEncode(base: Document, d: Document)
    ensures Merge(base, Encode(d).fields) == d
  {
    DecodeEncodeFields(d);
  }

  /** What `saveData` writes, `loadData` reads back unchanged. */
  lemma LoadSaved(d: Document)
    ensures LoadData(Some(Encode(d))) == d
  {
    MergeEncode(DefaultDocument(), d);
  }

  /** The `exportedAt` stamp is ignored when merging. */
  lemma MergeExport(base: Document, d: Document, exportedAt: string)
    ensures Merge(base, Export(d, exportedAt).fields) == d
  {
    MergeEncode(base, d);
    MergeIgnoresKey(base, Encode(d).fields, "exportedAt", JStr(exportedAt));
  }

  /** A key that is not one of the document's eight does not affect the merge. */
  lemma MergeIgnoresKey(base: Document, fields: map<string, Json>, key: string, v: Json)
    requires key !in Encode(DefaultDocument()).fields
    ensures Merge(base, fields[key := v]) == Merge(base, fields)
  {
  }

  /** The validator accepts exactly the objects whose `classrooms` decode. */
  lemma ValidImportDecodes(j: Json)
    ensures IsValidImport(j) <==> j.JObj? && Field(j.fields, "classrooms", AsClassrooms).Some?
  {
    if j.JObj? && "classrooms" in j.fields && j.fields["classrooms"].JArr? {
      var items := j.fields["classrooms"].items;
      forall k | 0 <= k < |items|
        ensures IsClassroomShape(items[k]) <==> AsEntry(items[k], "students").Some?
      {
        var c := items[k];
        if c.JObj? && "students" in c.fields && c.fields["students"].JArr? {
          var ss := c.fields["students"].items;
          assert DecodeAll(ss, AsString).Some? <==> forall i :: 0 <= i < |ss| ==> ss[i].JStr?;
        }
      }
    }
  }

  /** Every saved or exported document passes the import validator. */
  lemma EncodedIsValidImport(d: Document, exportedAt: string)
    ensures IsValidImport(Encode(d)) && IsValidImport(Export(d, exportedAt))
  {
    DecodeEncodeFields(d);
    ValidImportDecodes(Encode(d));
    ValidImportDecodes(Export(d, exportedAt));
  }

  /** Importing an export restores the exported document. */
  lemma ImportExport(d: Document, exportedAt: string)
    ensures ImportData(Export(d, exportedAt)) == Success(d)
  {
    EncodedIsValidImport(d, exportedAt);
    MergeExport(DefaultDocument(), d, exportedAt);
  }

  /** An accepted import takes its classrooms from the file, never from the defaults. */
  lemma ImportTakesClassrooms(j: Json)
    requires IsValidImport(j)
    ensures ImportData(j).value.classrooms == AsClassrooms(j.fields["classrooms"]).value
  {
    ValidImportDecodes(j);
  }
}
