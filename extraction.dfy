/** The extraction stage: one annotation record and one filename per source
    row whose workflow name matches, appended to nine parallel columns.
    `json.loads` is the parameter `loads`; None stands for a JSONDecodeError. */
module Extraction {
  import opened Runtime

  /** Keys of the `species_data` dictionary: `species_{n}`, `how_many_{n}`
      and the four context keys. */
  datatype Key = Species(n: nat) | HowMany(n: nat) | TimeOfDay | Temperature | Month | Habitat

  const NONE := JStr("NONE")
  const NODATA := JStr("NODATA")

  /** The eight keys the dictionary starts with and the output columns read. */
  const Fixed: set<Key> :=
    {Species(1), HowMany(1), Species(2), HowMany(2), TimeOfDay, Temperature, Month, Habitat}

  /** The dictionary before any observation is read (main.py:30-35). */
  const Defaults: map<Key, Json> :=
    map[Species(1) := NONE, HowMany(1) := NONE, Species(2) := NONE, HowMany(2) := NONE,
        TimeOfDay := NODATA, Temperature := NODATA, Month := NODATA, Habitat := NODATA]

  // ---------------------------------------------------------------------------
  // extract_filename

  /** `extract_filename` (main.py:19-26) once `json.loads` has run: the
      "Filename" member of the value under the object's first key. A decode
      failure or a missing "Filename" gives None; a value that is not an
      object raises (no `keys`, or not subscriptable by a string) and so does
      an empty object (no first key). */
  function SubjectFilename(data: Option<Json>): (r: Outcome<Option<Json>>)
    ensures data.None? ==> r == Returned(None)
    ensures data.Some? && data.value.JObj? && data.value.members != [] ==>
      var first := Lookup(data.value.members, data.value.members[0].0);
      first.Some? && first.value.JObj? ==> r == Returned(Lookup(first.value.members, "Filename"))
    ensures r.Raised? <==>
      (data.Some? &&
       (!data.value.JObj? || data.value.members == [] ||
        !(Lookup(data.value.members, data.value.members[0].0).Some? &&
          Lookup(data.value.members, data.value.members[0].0).value.JObj?)))
  {
    match data
    case None => Returned(None)
    case Some(JObj(members)) =>
      if members == [] then Raised(IndexError)
      else
        (match Lookup(members, members[0].0)
         case Some(JObj(fields)) => Returned(Lookup(fields, "Filename"))
         case _ => Raised(TypeError))
    case Some(_) => Raised(AttributeError)
  }

  /** A subject object whose first member is the only one under its key
      yields that member's "Filename". */
  lemma SubjectFilenameOfFirstMember(key: string, fields: seq<(string, Json)>, others: seq<(string, Json)>)
    requires forall j :: 0 <= j < |others| ==> others[j].0 != key
    ensures SubjectFilename(Some(JObj([(key, JObj(fields))] + others))) == Returned(Lookup(fields, "Filename"))
  {
    var members := [(key, JObj(fields))] + others;
    assert members[0].0 == key;
    LookupFindsLast(members, key);
    assert forall j :: 1 <= j < |members| ==> members[j].0 != key by {
      forall j | 1 <= j < |members| ensures members[j].0 != key {
        assert members[j] == others[j - 1];
      }
    }
  }

  /** `extract_filename` on a cell: a NaN cell makes `json.loads` raise TypeError. */
  function FilenameOfCell(loads: string -> Option<Json>, cell: Value): (r: Outcome<Option<Json>>)
    ensures cell.NaN? ==> r == Raised(TypeError)
    ensures cell.Text? && loads(cell.s).None? ==> r == Returned(None)
  {
    match cell
    case NaN => Raised(TypeError)
    case Text(s) => SubjectFilename(loads(s))
  }

  // ---------------------------------------------------------------------------
  // extract_annotations

  /** What iterating a value yields (main.py:41): a list its items, an object
      its keys, a string its characters; anything else raises. An object's
      keys are listed with repeats, which Python's dict would drop; it makes
      no difference, since the first string item already raises. */
  function Iterate(v: Json): (r: Outcome<seq<Json>>)
    ensures r.Returned? <==> v.JArr? || v.JObj? || v.JStr?
    ensures v.JArr? ==> r == Returned(v.items)
    ensures r.Raised? ==> r.error == TypeError
    ensures v.JObj? ==> |r.value| == |v.members| && forall x :: x in r.value ==> x.JStr?
    ensures v.JStr? ==> |r.value| == |v.s| && forall x :: x in r.value ==> x.JStr? && |x.s| == 1
  {
    match v
    case JArr(items) => Returned(items)
    case JObj(members) => Returned(seq(|members|, i requires 0 <= i < |members| => JStr(members[i].0)))
    case JStr(s) => Returned(seq(|s|, i requires 0 <= i < |s| => JStr([s[i]])))
    case _ => Raised(TypeError)
  }

  /** `"value" in first` and then `first["value"]` (main.py:40-41), on the
      first element of the decoded list: Returned(None) when it has no
      "value", so that the defaults stand. */
  function ValueOf(first: Json): (r: Outcome<Option<seq<Json>>>)
    ensures r.Raised? ==> r.error == TypeError
    ensures r.Returned? && r.value.Some? ==> first.JObj? && Lookup(first.members, "value").Some?
    ensures first.JObj? && Lookup(first.members, "value").None? ==> r == Returned(None)
  {
    match first
    case JObj(members) =>
      (match Lookup(members, "value")
       case None => Returned(None)
       case Some(v) =>
         match Iterate(v)
         case Returned(items) => Returned(Some(items))
         case Raised(e) => Raised(e))
    case JArr(items) => if JStr("value") in items then Raised(TypeError) else Returned(None)
    case JStr(s) => if Find(s, "value").Some? then Raised(TypeError) else Returned(None)
    case _ => Raised(TypeError)
  }

  /** The observations the loop of main.py:41 runs over, given what
      `json.loads` produced: Returned(None) when the defaults stand, through a
      caught JSONDecodeError, the KeyError of `data[0]` on an object, or a
      `data[0]` without "value". `data[0]` of an empty list or string raises
      IndexError; of a number, boolean or null, TypeError. */
  function Observations(data: Option<Json>): (r: Outcome<Option<seq<Json>>>)
    ensures data.None? || data.value.JObj? ==> r == Returned(None)
    ensures r.Returned? && r.value.Some? ==> data.Some? && data.value.JArr? && data.value.items != [] && data.value.items[0].JObj?
    ensures r.Raised? ==> r.error == TypeError || r.error == IndexError
  {
    match data
    case None => Returned(None)
    case Some(JObj(_)) => Returned(None)
    case Some(JArr(items)) => if items == [] then Raised(IndexError) else ValueOf(items[0])
    case Some(JStr(s)) => if s == [] then Raised(IndexError) else Returned(None)
    case Some(_) => Raised(TypeError)
  }

  /** `item.get("answers", {})`. */
  function Answers(item: Json): (answers: Json)
    ensures answers == JObj([]) || (item.JObj? && ("answers", answers) in item.members)
    ensures !item.JObj? ==> answers == JObj([])
  {
    GetOr(item, "answers", JObj([]))
  }

  /** An observation the loop body reads without raising AttributeError: an
      object whose "answers", when present, is an object too. */
  predicate Readable(item: Json)
  {
    item.JObj? && Answers(item).JObj?
  }

  predicate AllReadable(obs: seq<Json>)
  {
    forall i :: 0 <= i < |obs| ==> Readable(obs[i])
  }

  lemma AllReadableStep(obs: seq<Json>, i: nat)
    requires i < |obs| && AllReadable(obs[..i]) && Readable(obs[i])
    ensures AllReadable(obs[..i + 1])
  {
    var before, after := obs[..i], obs[..i + 1];
    forall j | 0 <= j < |after| ensures Readable(after[j]) {
      if j < i {
        assert after[j] == before[j];
      }
    }
  }

  /** The keys present once the first n observations are read. */
  function Slots(n: nat): set<Key>
  {
    Fixed + (set j | 3 <= j <= n :: Species(j)) + (set j | 3 <= j <= n :: HowMany(j))
  }

  /** The value of one key after the observations `obs` are read: slot n
      from observation n - 1, the context only from observation 0. */
  function SlotValue(obs: seq<Json>, k: Key): Json
  {
    match k
    case Species(n) => if 1 <= n <= |obs| then GetOr(obs[n - 1], "choice", NONE) else NONE
    case HowMany(n) => if 1 <= n <= |obs| then GetOr(Answers(obs[n - 1]), "HOWMANY", NONE) else NONE
    case TimeOfDay => if obs != [] then GetOr(Answers(obs[0]), "TIMEOFDAY", NODATA) else NODATA
    case Temperature => if obs != [] then GetOr(Answers(obs[0]), "TEMPERATURE", NODATA) else NODATA
    case Month => if obs != [] then GetOr(Answers(obs[0]), "MONTHOFTHEYEAR", NODATA) else NODATA
    case Habitat => if obs != [] then GetOr(Answers(obs[0]), "HABITAT", JStr("")) else NODATA
  }

  /** The dictionary after reading the observations `obs`, key by key. */
  function Fill(obs: seq<Json>): (m: map<Key, Json>)
    ensures m.Keys == Slots(|obs|)
  {
    map k | k in Slots(|obs|) :: SlotValue(obs, k)
  }

  /** The dictionary `extract_annotations` returns for what `json.loads`
      produced, or the exception that escapes it. */
  function Annotations(data: Option<Json>): (r: Outcome<map<Key, Json>>)
    ensures r.Returned? ==> Fixed <= r.value.Keys
  {
    match Observations(data)
    case Raised(e) => Raised(e)
    case Returned(None) => Returned(Defaults)
    case Returned(Some(obs)) =>
      if AllReadable(obs) then Returned(Fill(obs))
      else Raised(AttributeError)
  }

  /** `extract_annotations` on a cell: a NaN cell makes `json.loads` raise TypeError. */
  function AnnotationsOfCell(loads: string -> Option<Json>, cell: Value): (r: Outcome<map<Key, Json>>)
    ensures r.Returned? ==> Fixed <= r.value.Keys
    ensures cell.NaN? ==> r == Raised(TypeError)
  {
    match cell
    case NaN => Raised(TypeError)
    case Text(s) => Annotations(loads(s))
  }

  /** Reading no observation leaves the defaults. */
  lemma FillNothing()
    ensures Fill([]) == Defaults
  {
    assert Slots(0) == Fixed;
  }

  /** The dictionary `m` holds, key by key, what reading `obs` leaves. */
  predicate Holds(m: map<Key, Json>, obs: seq<Json>)
  {
    m.Keys == Slots(|obs|) && forall k :: k in m ==> m[k] == SlotValue(obs, k)
  }

  lemma HoldsIsFill(m: map<Key, Json>, obs: seq<Json>)
    requires Holds(m, obs)
    ensures m == Fill(obs)
  {
  }

  lemma SlotsGrow(i: nat)
    ensures Slots(i + 1) == Slots(i) + {Species(i + 1), HowMany(i + 1)}
  {
    var n: nat := i + 1;
    if n >= 3 {
      assert Species(n) in (set j | 3 <= j <= n :: Species(j)) by { assert 3 <= n <= n; }
      assert HowMany(n) in (set j | 3 <= j <= n :: HowMany(j)) by { assert 3 <= n <= n; }
    }
  }

  /** Reading observation i leaves every earlier slot as it was, and the
      context as it was unless i is 0. */
  lemma SlotValueKept(obs: seq<Json>, i: nat, k: Key)
    requires i < |obs| && k in Slots(i)
    requires k != Species(i + 1) && k != HowMany(i + 1)
    requires i > 0 || k.Species? || k.HowMany?
    ensures SlotValue(obs[..i + 1], k) == SlotValue(obs[..i], k)
  {
    var before, after := obs[..i], obs[..i + 1];
    match k
    case Species(n) =>
      if 1 <= n <= i { assert after[n - 1] == before[n - 1]; }
    case HowMany(n) =>
      if 1 <= n <= i { assert after[n - 1] == before[n - 1]; }
    case _ =>
      assert after[0] == before[0];
  }

  /** Reading observation i: its slot i + 1 and, for observation 0, the four
      context fields take the values of that observation. */
  lemma SlotValueRead(obs: seq<Json>, i: nat)
    requires i < |obs|
    ensures SlotValue(obs[..i + 1], Species(i + 1)) == GetOr(obs[i], "choice", NONE)
    ensures SlotValue(obs[..i + 1], HowMany(i + 1)) == GetOr(Answers(obs[i]), "HOWMANY", NONE)
    ensures i == 0 ==>
      && SlotValue(obs[..1], TimeOfDay) == GetOr(Answers(obs[0]), "TIMEOFDAY", NODATA)
      && SlotValue(obs[..1], Temperature) == GetOr(Answers(obs[0]), "TEMPERATURE", NODATA)
      && SlotValue(obs[..1], Month) == GetOr(Answers(obs[0]), "MONTHOFTHEYEAR", NODATA)
      && SlotValue(obs[..1], Habitat) == GetOr(Answers(obs[0]), "HABITAT", JStr(""))
  {
    assert obs[..i + 1][i] == obs[i];
  }

  /** The loop body of main.py:41-53 on observation i, once it is known not to raise. */
  function ReadObservation(m: map<Key, Json>, item: Json, i: nat): map<Key, Json>
  {
    var answers := Answers(item);
    var m1 := m[Species(i + 1) := GetOr(item, "choice", NONE)][HowMany(i + 1) := GetOr(answers, "HOWMANY", NONE)];
    if i == 0 then
      m1[TimeOfDay := GetOr(answers, "TIMEOFDAY", NODATA)][Temperature := GetOr(answers, "TEMPERATURE", NODATA)]
        [Month := GetOr(answers, "MONTHOFTHEYEAR", NODATA)][Habitat := GetOr(answers, "HABITAT", JStr(""))]
    else m1
  }

  lemma ReadObservationKeys(m: map<Key, Json>, item: Json, i: nat)
    requires m.Keys == Slots(i)
    ensures ReadObservation(m, item, i).Keys == Slots(i + 1)
  {
    SlotsGrow(i);
    assert Fixed <= Slots(i);
  }

  lemma ReadObservationValue(m: map<Key, Json>, obs: seq<Json>, i: nat, k: Key)
    requires i < |obs| && Holds(m, obs[..i]) && k in ReadObservation(m, obs[i], i)
    ensures ReadObservation(m, obs[i], i)[k] == SlotValue(obs[..i + 1], k)
  {
    if k == Species(i + 1) || k == HowMany(i + 1) || (i == 0 && !k.Species? && !k.HowMany?) {
      SlotValueRead(obs, i);
    } else {
      assert ReadObservation(m, obs[i], i)[k] == m[k];
      SlotsGrow(i);
      SlotValueKept(obs, i, k);
    }
  }

  /** One pass of the loop body extends what the dictionary holds by one observation. */
  lemma HoldsStep(m: map<Key, Json>, obs: seq<Json>, i: nat)
    requires i < |obs| && Holds(m, obs[..i])
    ensures Holds(ReadObservation(m, obs[i], i), obs[..i + 1])
  {
    ReadObservationKeys(m, obs[i], i);
    forall k | k in ReadObservation(m, obs[i], i)
      ensures ReadObservation(m, obs[i], i)[k] == SlotValue(obs[..i + 1], k)
    {
      ReadObservationValue(m, obs, i, k);
    }
  }

  /** The loop of main.py:41-53 over the observations `obs`, starting from
      the defaults: the filled dictionary, or the AttributeError of the first
      observation that is not an object or whose "answers" is not one. */
  method ReadObservations(obs: seq<Json>) returns (r: Outcome<map<Key, Json>>)
    ensures r == if AllReadable(obs) then Returned(Fill(obs)) else Raised(AttributeError)
  {
    var speciesData := Defaults;
    FillNothing();
    for i := 0 to |obs|
      invariant Holds(speciesData, obs[..i])
      invariant AllReadable(obs[..i])
    {
      var item := obs[i];
      if !item.JObj? {
        assert !AllReadable(obs);
        return Raised(AttributeError);
      }
      ghost var before := speciesData;
      speciesData := speciesData[Species(i + 1) := GetOr(item, "choice", NONE)];
      var answers := Answers(item);
      if !answers.JObj? {
        assert !AllReadable(obs);
        return Raised(AttributeError);
      }
      speciesData := speciesData[HowMany(i + 1) := GetOr(answers, "HOWMANY", NONE)];
      if i == 0 {
        speciesData := speciesData[TimeOfDay := GetOr(answers, "TIMEOFDAY", NODATA)];
        speciesData := speciesData[Temperature := GetOr(answers, "TEMPERATURE", NODATA)];
        speciesData := speciesData[Month := GetOr(answers, "MONTHOFTHEYEAR", NODATA)];
        speciesData := speciesData[Habitat := GetOr(answers, "HABITAT", JStr(""))];
      }
      assert speciesData == ReadObservation(before, item, i);
      HoldsStep(before, obs, i);
      AllReadableStep(obs, i);
    }
    assert obs[..|obs|] == obs;
    HoldsIsFill(speciesData, obs);
    return Returned(speciesData);
  }

  /** `extract_annotations` (main.py:29-57). */
  method ExtractAnnotations(loads: string -> Option<Json>, cell: Value) returns (r: Outcome<map<Key, Json>>)
    ensures r == AnnotationsOfCell(loads, cell)
  {
    if cell.NaN? {
      return Raised(TypeError);
    }
    var found := Observations(loads(cell.s));
    if found.Raised? {
      return Raised(found.error);
    }
    if found.value.None? {
      return Returned(Defaults);
    }
    r := ReadObservations(found.value.value);
  }

  /** The eight values that reach the output columns, in column order. */
  function Fields(m: map<Key, Json>): seq<Json>
    requires Fixed <= m.Keys
  {
    [m[Species(1)], m[HowMany(1)], m[Species(2)], m[HowMany(2)],
     m[TimeOfDay], m[Temperature], m[Month], m[Habitat]]
  }

  /** A decode failure, a top-level object, a non-empty string, or a list
      whose first element is an object without "value" yields exactly the
      defaults: "NONE" for species and counts, "NODATA" for the four context
      fields. */
  lemma DefaultsWhenNoObservations(data: Option<Json>)
    requires || data.None?
             || data.value.JObj?
             || (data.value.JStr? && data.value.s != [])
             || (data.value.JArr? && data.value.items != [] && data.value.items[0].JObj? &&
                 Lookup(data.value.items[0].members, "value").None?)
    ensures Annotations(data) == Returned(Defaults)
    ensures Fields(Defaults) == [NONE, NONE, NONE, NONE, NODATA, NODATA, NODATA, NODATA]
  {
  }

  /** A decoded list whose first element is an object with a "value" list
      yields the dictionary filled from that list, or the AttributeError of
      its first observation that is not an object with object "answers". */
  lemma AnnotationsOfValueList(first: Json, rest: seq<Json>, obs: seq<Json>)
    requires first.JObj? && Lookup(first.members, "value") == Some(JArr(obs))
    ensures Annotations(Some(JArr([first] + rest))) ==
      if AllReadable(obs) then Returned(Fill(obs)) else Raised(AttributeError)
  {
    assert ([first] + rest)[0] == first;
  }

  /** An empty "value" list leaves every field at its default. */
  lemma EmptyValueListGivesDefaults(data: Option<Json>)
    requires Observations(data) == Returned(Some([]))
    ensures Annotations(data) == Returned(Defaults)
  {
    FillNothing();
  }

  /** Species and count n come from observation n - 1, with "NONE" for a
      missing "choice" or "HOWMANY". */
  lemma SlotsFromObservations(obs: seq<Json>, n: nat)
    requires 1 <= n <= |obs|
    ensures Fill(obs)[Species(n)] == GetOr(obs[n - 1], "choice", NONE)
    ensures Fill(obs)[HowMany(n)] == GetOr(Answers(obs[n - 1]), "HOWMANY", NONE)
  {
    assert Species(n) in Slots(|obs|) && HowMany(n) in Slots(|obs|);
  }

  /** The context fields come from observation 0 alone: whatever follows it
      does not change them. */
  lemma ContextFromFirstObservation(obs: seq<Json>, other: seq<Json>)
    requires obs != [] && other != [] && obs[0] == other[0]
    ensures forall k :: k in {TimeOfDay, Temperature, Month, Habitat} ==> Fill(obs)[k] == Fill(other)[k]
  {
  }

  /** When observation 0 exists but has no HABITAT answer, habitat is the
      empty string, not the "NODATA" it is without observations. */
  lemma HabitatDefaultAsymmetry(obs: seq<Json>)
    requires obs != [] && Readable(obs[0]) && Lookup(Answers(obs[0]).members, "HABITAT").None?
    ensures Fill(obs)[Habitat] == JStr("")
    ensures Fill([])[Habitat] == NODATA
  {
    assert Habitat in Slots(|obs|) && Habitat in Slots(0);
    assert Fill(obs)[Habitat] == SlotValue(obs, Habitat);
  }

  /** Observations after the second never reach the eight output fields. */
  lemma LaterObservationsIgnored(obs: seq<Json>, extra: seq<Json>)
    requires |obs| >= 2
    ensures Fields(Fill(obs + extra)) == Fields(Fill(obs))
  {
    var all := obs + extra;
    assert all[0] == obs[0] && all[1] == obs[1];
  }

  // ---------------------------------------------------------------------------
  // The row loop (main.py:78-128)

  /** The three columns of a source row the loop reads. */
  datatype RawRow = RawRow(workflowName: Value, annotations: Value, subjectData: Value)

  /** One extracted row: a filename (None when it could not be read) and the
      annotation dictionary. */
  datatype Record = Record(filename: Option<Json>, annotation: map<Key, Json>)

  predicate Complete(recs: seq<Record>)
  {
    forall i :: 0 <= i < |recs| ==> Fixed <= recs[i].annotation.Keys
  }

  /** The nine lists of `extracted_data`, in column order. */
  datatype Columns = Columns(
    filename: seq<Option<Json>>,
    species1: seq<Json>, howMany1: seq<Json>,
    species2: seq<Json>, howMany2: seq<Json>,
    timeOfDay: seq<Json>, temperature: seq<Json>, month: seq<Json>, habitat: seq<Json>)

  /** How a run ends: a prompt left unanswered, an exception, or the columns. */
  datatype Extraction = NoStartRow | NoWorkflowName | Failed(error: PyError) | Extracted(columns: Columns)

  /** `df.iloc[k:]`: the rows from 0-based position k on. */
  function From(rows: seq<RawRow>, k: nat): (tail: seq<RawRow>)
    ensures |tail| == if k <= |rows| then |rows| - k else 0
    ensures forall i :: 0 <= i < |tail| ==> tail[i] == rows[k + i]
  {
    if k <= |rows| then rows[k..] else []
  }

  /** The rows whose workflow name is exactly `wf`, in order. */
  function Matching(rows: seq<RawRow>, wf: string): (m: seq<RawRow>)
    ensures |m| <= |rows|
    ensures forall i :: 0 <= i < |m| ==> m[i] in rows && m[i].workflowName == Text(wf)
    ensures forall i :: 0 <= i < |rows| && rows[i].workflowName == Text(wf) ==> rows[i] in m
    ensures forall r :: multiset(m)[r] == if r.workflowName == Text(wf) then multiset(rows)[r] else 0
  {
    if rows == [] then []
    else
      assert rows == [rows[0]] + rows[1..];
      if rows[0].workflowName == Text(wf) then [rows[0]] + Matching(rows[1..], wf)
      else Matching(rows[1..], wf)
  }

  /** Matching is a filter: on a concatenation it keeps the matching rows of
      each part, in order. With `MatchingOne` this fixes it completely. */
  lemma {:induction false} MatchingConcat(a: seq<RawRow>, b: seq<RawRow>, wf: string)
    ensures Matching(a + b, wf) == Matching(a, wf) + Matching(b, wf)
    decreases |a|
  {
    if a == [] {
      assert a + b == b;
    } else {
      assert (a + b)[0] == a[0] && (a + b)[1..] == a[1..] + b;
      MatchingConcat(a[1..], b, wf);
    }
  }

  /** A single row is kept exactly when its workflow name is `wf`. */
  lemma MatchingOne(r: RawRow, wf: string)
    ensures Matching([r], wf) == if r.workflowName == Text(wf) then [r] else []
  {
    assert [r][1..] == [];
  }

  /** The extracted record of one row, or the exception that escapes. */
  function RecordOf(loads: string -> Option<Json>, row: RawRow): (r: Outcome<Record>)
    ensures r.Returned? ==> Fixed <= r.value.annotation.Keys
  {
    match FilenameOfCell(loads, row.subjectData)
    case Raised(e) => Raised(e)
    case Returned(f) =>
      match AnnotationsOfCell(loads, row.annotations)
      case Raised(e) => Raised(e)
      case Returned(m) => Returned(Record(f, m))
  }

  /** The records the loop appends for `rows`, row by row, or the first
      exception. */
  function Records(loads: string -> Option<Json>, rows: seq<RawRow>, wf: string): (r: Outcome<seq<Record>>)
    ensures r.Returned? ==> Complete(r.value)
    decreases |rows|
  {
    if rows == [] then Returned([])
    else if rows[0].workflowName != Text(wf) then Records(loads, rows[1..], wf)
    else
      match RecordOf(loads, rows[0])
      case Raised(e) => Raised(e)
      case Returned(rec) =>
        match Records(loads, rows[1..], wf)
        case Raised(e) => Raised(e)
        case Returned(rest) => Returned([rec] + rest)
  }

  /** Some row of `m` raises when its record is extracted. */
  predicate SomeRaises(loads: string -> Option<Json>, m: seq<RawRow>)
  {
    exists i :: 0 <= i < |m| && RecordOf(loads, m[i]).Raised?
  }

  lemma SomeRaisesCons(loads: string -> Option<Json>, row: RawRow, rest: seq<RawRow>)
    ensures SomeRaises(loads, [row] + rest) <==> RecordOf(loads, row).Raised? || SomeRaises(loads, rest)
  {
    var m := [row] + rest;
    if SomeRaises(loads, m) {
      var i :| 0 <= i < |m| && RecordOf(loads, m[i]).Raised?;
      if i > 0 {
        assert m[i] == rest[i - 1];
      }
    }
    if SomeRaises(loads, rest) {
      var i :| 0 <= i < |rest| && RecordOf(loads, rest[i]).Raised?;
      assert m[i + 1] == rest[i];
    }
    if RecordOf(loads, row).Raised? {
      assert m[0] == row;
    }
  }

  /** The run raises exactly when some row with the workflow name does. */
  lemma {:induction false} RecordsRaiseIff(loads: string -> Option<Json>, rows: seq<RawRow>, wf: string)
    ensures Records(loads, rows, wf).Raised? <==> SomeRaises(loads, Matching(rows, wf))
    decreases |rows|
  {
    if rows != [] {
      RecordsRaiseIff(loads, rows[1..], wf);
      if rows[0].workflowName == Text(wf) {
        SomeRaisesCons(loads, rows[0], Matching(rows[1..], wf));
      }
    }
  }

  /** Without an exception there is one record per matching row, in source
      order, each extracted from that row. */
  lemma {:induction false} RecordsFollowMatchingRows(loads: string -> Option<Json>, rows: seq<RawRow>, wf: string)
    ensures Records(loads, rows, wf).Returned? ==>
      var recs := Records(loads, rows, wf).value;
      |recs| == |Matching(rows, wf)| &&
      forall i :: 0 <= i < |recs| ==> Returned(recs[i]) == RecordOf(loads, Matching(rows, wf)[i])
    decreases |rows|
  {
    if rows != [] {
      RecordsFollowMatchingRows(loads, rows[1..], wf);
      if rows[0].workflowName == Text(wf) && Records(loads, rows, wf).Returned? {
        var rest := Matching(rows[1..], wf);
        var m := Matching(rows, wf);
        var tail := Records(loads, rows[1..], wf).value;
        var recs := Records(loads, rows, wf).value;
        assert recs == [RecordOf(loads, rows[0]).value] + tail;
        forall i | 0 <= i < |recs| ensures Returned(recs[i]) == RecordOf(loads, m[i]) {
          if i > 0 {
            assert recs[i] == tail[i - 1] && m[i] == rest[i - 1];
          }
        }
      }
    }
  }

  /** The nine columns built from records, one entry per record. */
  function ColumnsOf(recs: seq<Record>): (c: Columns)
    requires Complete(recs)
  {
    Columns(
      seq(|recs|, i requires 0 <= i < |recs| => recs[i].filename),
      seq(|recs|, i requires 0 <= i < |recs| && Complete(recs) => recs[i].annotation[Species(1)]),
      seq(|recs|, i requires 0 <= i < |recs| && Complete(recs) => recs[i].annotation[HowMany(1)]),
      seq(|recs|, i requires 0 <= i < |recs| && Complete(recs) => recs[i].annotation[Species(2)]),
      seq(|recs|, i requires 0 <= i < |recs| && Complete(recs) => recs[i].annotation[HowMany(2)]),
      seq(|recs|, i requires 0 <= i < |recs| && Complete(recs) => recs[i].annotation[TimeOfDay]),
      seq(|recs|, i requires 0 <= i < |recs| && Complete(recs) => recs[i].annotation[Temperature]),
      seq(|recs|, i requires 0 <= i < |recs| && Complete(recs) => recs[i].annotation[Month]),
      seq(|recs|, i requires 0 <= i < |recs| && Complete(recs) => recs[i].annotation[Habitat]))
  }

  /** The nine columns have equal length, and row i of the eight annotation
      columns holds the eight fields of record i. */
  predicate Aligned(c: Columns, recs: seq<Record>)
    requires Complete(recs)
  {
    && |c.filename| == |recs| && |c.species1| == |recs| && |c.howMany1| == |recs|
    && |c.species2| == |recs| && |c.howMany2| == |recs| && |c.timeOfDay| == |recs|
    && |c.temperature| == |recs| && |c.month| == |recs| && |c.habitat| == |recs|
    && forall i :: 0 <= i < |recs| ==>
      c.filename[i] == recs[i].filename &&
      [c.species1[i], c.howMany1[i], c.species2[i], c.howMany2[i],
       c.timeOfDay[i], c.temperature[i], c.month[i], c.habitat[i]] == Fields(recs[i].annotation)
  }

  lemma ColumnsAligned(recs: seq<Record>)
    requires Complete(recs)
    ensures Aligned(ColumnsOf(recs), recs)
  {
  }

  /** The records of a run whose first records are `done`. */
  function Prepend(done: seq<Record>, o: Outcome<seq<Record>>): Outcome<seq<Record>>
  {
    match o
    case Raised(e) => Raised(e)
    case Returned(rest) => Returned(done + rest)
  }

  lemma PrependNothing(o: Outcome<seq<Record>>)
    ensures Prepend([], o) == o
  {
    if o.Returned? {
      assert [] + o.value == o.value;
    }
  }

  lemma PrependTwice(a: seq<Record>, b: seq<Record>, o: Outcome<seq<Record>>)
    ensures Prepend(a, Prepend(b, o)) == Prepend(a + b, o)
  {
    if o.Returned? {
      assert a + (b + o.value) == (a + b) + o.value;
    }
  }

  /** Appending one complete record's values to the nine columns keeps them aligned. */
  lemma AlignedSnoc(c: Columns, recs: seq<Record>, rec: Record)
    requires Complete(recs) && Fixed <= rec.annotation.Keys && Aligned(c, recs)
    ensures Complete(recs + [rec])
    ensures var m := rec.annotation;
      Aligned(Columns(c.filename + [rec.filename], c.species1 + [m[Species(1)]], c.howMany1 + [m[HowMany(1)]],
                      c.species2 + [m[Species(2)]], c.howMany2 + [m[HowMany(2)]], c.timeOfDay + [m[TimeOfDay]],
                      c.temperature + [m[Temperature]], c.month + [m[Month]], c.habitat + [m[Habitat]]),
              recs + [rec])
  {
    var all := recs + [rec];
    assert forall i :: 0 <= i < |recs| ==> all[i] == recs[i];
    assert all[|recs|] == rec;
  }

  /** A matching row whose record is extracted contributes that record first. */
  lemma RecordsStep(loads: string -> Option<Json>, rows: seq<RawRow>, wf: string, rec: Record)
    requires rows != [] && rows[0].workflowName == Text(wf) && RecordOf(loads, rows[0]) == Returned(rec)
    ensures Records(loads, rows, wf) == Prepend([rec], Records(loads, rows[1..], wf))
  {
  }

  /** The module-level loop of main.py:78-128, with the prompts' answers as
      parameters: no start row or an empty workflow name ends the run before
      any row is read; otherwise the rows from `start_row` on are filtered by
      exact workflow name and each match appends to the nine columns. */
  method ExtractRows(loads: string -> Option<Json>, rows: seq<RawRow>, startRow: Option<int>, workflowName: Option<string>)
    returns (out: Extraction)
    requires startRow.Some? ==> startRow.value >= 1
    ensures startRow.None? ==> out == NoStartRow
    ensures startRow.Some? && (workflowName.None? || workflowName.value == "") ==> out == NoWorkflowName
    ensures startRow.Some? && workflowName.Some? && workflowName.value != "" ==>
      match Records(loads, From(rows, startRow.value - 1), workflowName.value)
      case Raised(e) => out == Failed(e)
      case Returned(recs) => out.Extracted? && Aligned(out.columns, recs)
  {
    if startRow.None? {
      return NoStartRow;
    }
    if workflowName.None? || workflowName.value == "" {
      return NoWorkflowName;
    }
    var wf := workflowName.value;
    var selected := From(rows, startRow.value - 1);
    var filename: seq<Option<Json>> := [];
    var species1, howMany1, species2, howMany2: seq<Json> := [], [], [], [];
    var timeOfDay, temperature, month, habitat: seq<Json> := [], [], [], [];
    ghost var done: seq<Record> := [];
    assert selected[0..] == selected;
    PrependNothing(Records(loads, selected, wf));
    for i := 0 to |selected|
      invariant Complete(done)
      invariant Aligned(Columns(filename, species1, howMany1, species2, howMany2,
                                timeOfDay, temperature, month, habitat), done)
      invariant Records(loads, selected, wf) == Prepend(done, Records(loads, selected[i..], wf))
    {
      var row := selected[i];
      assert selected[i..][0] == row && selected[i..][1..] == selected[i + 1..];
      if row.workflowName != Text(wf) {
        continue;
      }
      var f := FilenameOfCell(loads, row.subjectData);
      if f.Raised? {
        return Failed(f.error);
      }
      var annotations := ExtractAnnotations(loads, row.annotations);
      if annotations.Raised? {
        return Failed(annotations.error);
      }
      var m := annotations.value;
      ghost var rec := Record(f.value, m);
      ghost var before := Columns(filename, species1, howMany1, species2, howMany2,
                                  timeOfDay, temperature, month, habitat);
      AlignedSnoc(before, done, rec);
      RecordsStep(loads, selected[i..], wf, rec);
      filename := filename + [f.value];
      species1 := species1 + [m[Species(1)]];
      howMany1 := howMany1 + [m[HowMany(1)]];
      species2 := species2 + [m[Species(2)]];
      howMany2 := howMany2 + [m[HowMany(2)]];
      timeOfDay := timeOfDay + [m[TimeOfDay]];
      temperature := temperature + [m[Temperature]];
      month := month + [m[Month]];
      habitat := habitat + [m[Habitat]];
      PrependTwice(done, [rec], Records(loads, selected[i + 1..], wf));
      done := done + [rec];
    }
    assert selected[|selected|..] == [];
    return Extracted(Columns(filename, species1, howMany1, species2, howMany2,
                             timeOfDay, temperature, month, habitat));
  }
}
