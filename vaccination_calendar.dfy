/** `calendrier_vaccinal_du_pev.php`: the vaccination page of the wizard.
    Its PHP prologue chooses where the checklist shown comes from (the
    session first, then the consultation's stored blob), and the table
    decides from that checklist which boxes and radios are checked. */
module VaccinationCalendar {
  import opened Php
  import opened Json
  import opened Sanitizer
  import opened Sessions
  import opened Store
  import opened WizardPage
  import VaccinationSave

  /* ----------------------------------------------------------------------
     The vaccine catalogue
     ---------------------------------------------------------------------- */

  /** The route labels of the table, as the bytes of their UTF-8 text. */
  const IntraDermique := "Intra dermique"
  const Orale := "Orale"
  const IntraMusculaire := "Intra musculaire"
  const SousCutanee := "Sous cutan\U{C3}\U{A9}e"

  /** The two answers of the `received` radio pair. */
  const Oui := "Oui"
  const Non := "Non"

  /** One line of the table: the vaccine's code (the key of its record) and
      the routes offered as checkboxes, in page order. */
  datatype Vaccine = Vaccine(code: string, routes: seq<string>)

  /** The sixteen lines of the table, in page order. */
  const Catalogue: seq<Vaccine> := [
    Vaccine("bcg", [IntraDermique, Orale]),
    Vaccine("vpo0", [Orale]),
    Vaccine("dtc_hep_hib_1", [IntraMusculaire]),
    Vaccine("pneumo_13_1", [IntraMusculaire]),
    Vaccine("vpo_1", [Orale]),
    Vaccine("rota_1", [Orale]),
    Vaccine("dtc_hep_hib_2", [IntraMusculaire]),
    Vaccine("pneumo_13_2", [IntraMusculaire]),
    Vaccine("vpo_2", [Orale]),
    Vaccine("rota_2", [Orale]),
    Vaccine("dtc_hep_hib_3", [IntraMusculaire]),
    Vaccine("pneumo_13_3", [IntraMusculaire]),
    Vaccine("vpo_3", [Orale]),
    Vaccine("rougeole_1", [SousCutanee]),
    Vaccine("fievre_jaune", [SousCutanee]),
    Vaccine("rougeole_2", [SousCutanee])
  ]

  predicate HasPrefix(p: string, s: string)
  {
    |p| <= |s| && s[..|p|] == p
  }

  /** The routes a vaccine is given by, read off its code: BCG intradermally
      or orally, the polio and rotavirus doses orally, the pentavalent and
      pneumococcal doses intramuscularly, measles and yellow fever
      subcutaneously. */
  function RouteFamily(code: string): seq<string>
  {
    if code == "bcg" then [IntraDermique, Orale]
    else if HasPrefix("vpo", code) || HasPrefix("rota", code) then [Orale]
    else if HasPrefix("dtc_hep_hib_", code) || HasPrefix("pneumo_13_", code) then [IntraMusculaire]
    else if HasPrefix("rougeole_", code) || code == "fievre_jaune" then [SousCutanee]
    else []
  }

  /** The catalogue has sixteen lines and no code appears twice. */
  lemma CatalogueCodes()
    ensures |Catalogue| == 16
    ensures forall i, j :: 0 <= i < j < |Catalogue| ==> Catalogue[i].code != Catalogue[j].code
  {
  }

  /** Every line of the table offers exactly the routes of its vaccine's
      family. */
  lemma CatalogueRoutes()
    ensures forall i :: 0 <= i < |Catalogue| ==> Catalogue[i].routes == RouteFamily(Catalogue[i].code)
  {
    forall i | 0 <= i < |Catalogue| ensures Catalogue[i].routes == RouteFamily(Catalogue[i].code) {
      var c := Catalogue[i].code;
      if i == 0 {
        assert c == "bcg";
      } else if i in {1, 4, 8, 12} {
        assert c[..3] == "vpo";
      } else if i in {5, 9} {
        assert c[..3][0] != "vpo"[0] && c[..4] == "rota";
      } else if i in {2, 6, 10} {
        assert c[..3][0] != "vpo"[0] && c[..4][0] != "rota"[0] && c[..12] == "dtc_hep_hib_";
      } else if i in {3, 7, 11} {
        assert c[..3][0] != "vpo"[0] && c[..4][0] != "rota"[0] && |c| == 11;
        assert c[..10] == "pneumo_13_";
      } else {
        assert c[..3][0] != "vpo"[0] && c[..4][2] != "rota"[2] && c[..10][0] != "pneumo_13_"[0];
        assert |c| < 12 || c[..12][0] != "dtc_hep_hib_"[0];
        assert c[..9] == "rougeole_" || c == "fievre_jaune";
      }
    }
  }

  /* ----------------------------------------------------------------------
     Where the checklist comes from
     ---------------------------------------------------------------------- */

  /** `json_decode($text, true) ?: []`: the decoded value when it decodes
      to something truthy, otherwise the empty array. */
  function Stored(text: string): Value
  {
    var d := Decode(text);
    if d.Some? && Truthy(d.value) then d.value else Arr([])
  }

  /** `(int)($_GET['consultation_id'] ?? 0)`. */
  function RequestedId(idParam: Option<Value>): int
  {
    IntCast(Coalesce(idParam, Int(0)))
  }

  /** `$_SESSION['vaccination_calendar'] ?? []`. */
  function SessionCalendar(data: SessionMap): Value
  {
    Coalesce(Read(data, VaccinationCalendar), Arr([]))
  }

  /** The checklist the page shows, from the session, the vaccination rows
      of the database, the `consultation_id` query parameter, and whether
      the database access throws. The database is read only for a nonzero
      id and an empty session checklist; a row whose blob is NULL or falsy
      leaves the session value, and an exception is logged and ignored. */
  function Loaded(data: SessionMap, rows: map<int, Row>, idParam: Option<Value>, dbThrows: bool): Value
  {
    var vd := SessionCalendar(data);
    var id := RequestedId(idParam);
    if id == 0 || Truthy(vd) || dbThrows then vd
    else if id in rows && VaccinationSave.VaccinationData in rows[id]
      && Truthy(Str(rows[id][VaccinationSave.VaccinationData])) then Stored(rows[id][VaccinationSave.VaccinationData])
    else vd
  }

  /** What the prologue leaves: the session, with its token ensured, and
      the checklist to render. */
  datatype CalendarPage = CalendarPage(session: SessionMap, calendar: Value)

  function Page(data: SessionMap, rows: map<int, Row>, rnd: seq<Byte>, idParam: Option<Value>, dbThrows: bool): CalendarPage
  {
    CalendarPage(EnsureToken(data, rnd), Loaded(data, rows, idParam, dbThrows))
  }

  /** A non-empty session checklist is shown as it is, whatever the
      database holds and whether or not it fails. */
  lemma SessionFirst(data: SessionMap, rows: map<int, Row>, idParam: Option<Value>, dbThrows: bool, rows2: map<int, Row>, dbThrows2: bool)
    requires Truthy(SessionCalendar(data))
    ensures Loaded(data, rows, idParam, dbThrows) == SessionCalendar(data)
    ensures Loaded(data, rows, idParam, dbThrows) == Loaded(data, rows2, idParam, dbThrows2)
  {
  }

  /** The page shows something other than the session checklist only when
      the id is nonzero, the session checklist is empty, the database
      answered, and the row's blob is set and truthy; it then shows the
      decoded blob. The id defaults to 0. */
  lemma DatabaseOnlyWhenNeeded(data: SessionMap, rows: map<int, Row>, idParam: Option<Value>, dbThrows: bool)
    ensures RequestedId(None) == 0
    ensures Loaded(data, rows, idParam, dbThrows) != SessionCalendar(data) ==>
      var id := RequestedId(idParam);
      id != 0 && !Truthy(SessionCalendar(data)) && !dbThrows
      && id in rows && VaccinationSave.VaccinationData in rows[id]
      && Truthy(Str(rows[id][VaccinationSave.VaccinationData]))
      && Loaded(data, rows, idParam, dbThrows) == Stored(rows[id][VaccinationSave.VaccinationData])
  {
  }

  /** A database failure leaves the session checklist, or the empty array
      when the session has none. */
  lemma FaultFallsBack(data: SessionMap, rows: map<int, Row>, idParam: Option<Value>)
    ensures Loaded(data, rows, idParam, true) == SessionCalendar(data)
    ensures VaccinationCalendar !in data ==> Loaded(data, rows, idParam, true) == Arr([])
  {
  }

  /** A blob is read back as what was encoded when that was truthy, and as
      the empty array otherwise; text that does not decode gives the empty
      array, and the result is never a falsy value other than it. */
  lemma StoredEncoded(v: Value, text: string)
    ensures Stored(Encode(v)) == if Truthy(v) then v else Arr([])
    ensures Decode(text).None? ==> Stored(text) == Arr([])
    ensures Truthy(Stored(text)) || Stored(text) == Arr([])
  {
    DecodeEncode(v);
  }

  /** The encoding of a checklist is truthy text, so a stored row is always
      decoded. */
  lemma EncodedArrayTruthy(es: seq<Entry>)
    ensures Truthy(Str(Encode(Arr(es))))
  {
    if es != [] {
      var m := EncodeMembers(Arr(es), 0);
      assert Encode(Arr(es)) == "{" + m + "}";
      assert Encode(Arr(es))[0] == '{';
    }
  }

  /** The token step leaves the checklist key alone. */
  lemma TokenKeepsCalendar(data: SessionMap, rnd: seq<Byte>)
    ensures SessionCalendar(EnsureToken(data, rnd)) == SessionCalendar(data)
  {
  }

  /** The prologue of the page. `rnd` stands for `random_bytes(32)` and
      `dbThrows` for an exception raised by the database. */
  method LoadCalendar(s: Session, db: Db, rnd: seq<Byte>, idParam: Option<Value>, dbThrows: bool) returns (vd: Value)
    modifies s
    ensures Page(old(s.data), db.vaccinations, rnd, idParam, dbThrows) == CalendarPage(s.data, vd)
  {
    if !Truthy(Coalesce(Read(s.data, CsrfToken), Null)) {
      s.Set(CsrfToken, Str(Bin2Hex(rnd)));
    }
    TokenKeepsCalendar(old(s.data), rnd);
    var id := IntCast(Coalesce(idParam, Int(0)));
    vd := Coalesce(Read(s.data, VaccinationCalendar), Arr([]));
    if id != 0 && !Truthy(vd) && !dbThrows {
      if id in db.vaccinations {
        var row := db.vaccinations[id];
        if VaccinationSave.VaccinationData in row && Truthy(Str(row[VaccinationSave.VaccinationData])) {
          var decoded := Decode(row[VaccinationSave.VaccinationData]);
          if decoded.Some? && Truthy(decoded.value) {
            vd := decoded.value;
          } else {
            vd := Arr([]);
          }
        }
      }
    }
  }

  /* ----------------------------------------------------------------------
     Checked states of the table
     ---------------------------------------------------------------------- */

  /** `$vaccinationData[$code][$f]` under `isset`: nothing when either level
      is missing or is not an array. */
  function Field(vd: Value, code: string, f: string): Option<Value>
  {
    match Get(vd, code)
    case None => None
    case Some(r) => Get(r, f)
  }

  /** `isset($vaccinationData[$code]['selected'])`. */
  predicate SelectedChecked(vd: Value, code: string)
  {
    IsSet(Field(vd, code, VaccinationSave.Selected))
  }

  /** `isset($vaccinationData[$code]['administration']) &&
      in_array($route, $vaccinationData[$code]['administration'])`, loose;
      `in_array` on a set value that is not an array throws. */
  function RouteChecked(vd: Value, code: string, route: string): Outcome<bool>
  {
    var a := Field(vd, code, VaccinationSave.Administration);
    if !IsSet(a) then Done(false)
    else if a.value.Arr? then Done(ArrayHasLoose(a.value.entries, route))
    else TypeError
  }

  /** `isset($vaccinationData[$code]['received']) &&
      $vaccinationData[$code]['received'] === $answer`. */
  predicate ReceivedChecked(vd: Value, code: string, answer: string)
  {
    var o := Field(vd, code, VaccinationSave.Received);
    IsSet(o) && o.value == Str(answer)
  }

  /** A set `administration` that is not an array: the route test throws. */
  predicate BadAdministration(vd: Value, code: string)
  {
    var a := Field(vd, code, VaccinationSave.Administration);
    IsSet(a) && !a.value.Arr?
  }

  /** `htmlspecialchars($vaccinationData[$code]['observations'] ?? '',
      ENT_QUOTES, 'UTF-8')`: the escaped text of a set value; a set array
      reaches the string parameter and throws. */
  function ObservationText(vd: Value, code: string): (r: Outcome<string>)
    ensures r.TypeError? <==> BadObservations(vd, code)
    ensures var o := Field(vd, code, VaccinationSave.Observations);
      (!IsSet(o) ==> r == Done(""))
      && (IsSet(o) && o.value.Str? ==> r == Done(Htmlspecialchars(o.value.s)))
  {
    var o := Field(vd, code, VaccinationSave.Observations);
    if !IsSet(o) then Done("")
    else
      match StringParam(o.value)
      case TypeError => TypeError
      case Done(t) => Done(Htmlspecialchars(t))
  }

  /** A set `observations` that is an array: its echo throws. */
  predicate BadObservations(vd: Value, code: string)
  {
    var o := Field(vd, code, VaccinationSave.Observations);
    IsSet(o) && o.value.Arr?
  }

  /** A line of the table throws: a route test on a bad `administration`,
      or the echo of an array `observations`. */
  predicate RowFails(vd: Value, v: Vaccine)
  {
    (v.routes != [] && BadAdministration(vd, v.code)) || BadObservations(vd, v.code)
  }

  /** The rendered state of one line of the table. */
  datatype RowView = RowView(code: string, selected: bool, routes: seq<bool>, yes: bool, no: bool, observations: string)

  /** The route boxes of one line, left to right. */
  function RouteBoxes(vd: Value, code: string, routes: seq<string>): Outcome<seq<bool>>
  {
    if routes == [] then Done([])
    else
      match RouteChecked(vd, code, routes[0])
      case TypeError => TypeError
      case Done(b) =>
        match RouteBoxes(vd, code, routes[1..])
        case TypeError => TypeError
        case Done(bs) => Done([b] + bs)
  }

  function RenderRow(vd: Value, v: Vaccine): Outcome<RowView>
  {
    match RouteBoxes(vd, v.code, v.routes)
    case TypeError => TypeError
    case Done(bs) =>
      match ObservationText(vd, v.code)
      case TypeError => TypeError
      case Done(obs) =>
        Done(RowView(v.code, SelectedChecked(vd, v.code), bs, ReceivedChecked(vd, v.code, Oui), ReceivedChecked(vd, v.code, Non), obs))
  }

  /** The table, line by line; the page stops at the first line that
      throws. */
  function Render(vd: Value, cat: seq<Vaccine>): Outcome<seq<RowView>>
  {
    if cat == [] then Done([])
    else
      match RenderRow(vd, cat[0])
      case TypeError => TypeError
      case Done(row) =>
        match Render(vd, cat[1..])
        case TypeError => TypeError
        case Done(rows) => Done([row] + rows)
  }

  /** The route boxes throw exactly when there is a route to test and the
      vaccine's `administration` is set but not an array; otherwise box `j`
      is checked exactly when route `j` is loosely in that array. */
  lemma {:induction false} RouteBoxesMeaning(vd: Value, code: string, routes: seq<string>)
    ensures RouteBoxes(vd, code, routes).TypeError? <==> routes != [] && BadAdministration(vd, code)
    ensures RouteBoxes(vd, code, routes).Done? ==>
      var bs := RouteBoxes(vd, code, routes).value;
      var a := Field(vd, code, VaccinationSave.Administration);
      |bs| == |routes| &&
      forall j :: 0 <= j < |routes| ==> (bs[j] <==> IsSet(a) && a.value.Arr? && ArrayHasLoose(a.value.entries, routes[j]))
  {
    if routes != [] {
      RouteBoxesMeaning(vd, code, routes[1..]);
      var r := RouteBoxes(vd, code, routes);
      if r.Done? {
        var bs := r.value;
        var tail := RouteBoxes(vd, code, routes[1..]).value;
        assert bs == [RouteChecked(vd, code, routes[0]).value] + tail;
        forall j | 1 <= j < |routes| ensures bs[j] == tail[j - 1] && routes[j] == routes[1..][j - 1] {
        }
      }
    }
  }

  /** One line throws exactly when it fails; otherwise it shows its route
      boxes and its escaped observations. */
  lemma RenderRowMeaning(vd: Value, v: Vaccine)
    ensures RenderRow(vd, v).TypeError? <==> RowFails(vd, v)
    ensures RenderRow(vd, v).Done? ==>
      RouteBoxes(vd, v.code, v.routes).Done? && ObservationText(vd, v.code).Done?
      && RenderRow(vd, v).value.routes == RouteBoxes(vd, v.code, v.routes).value
      && RenderRow(vd, v).value.observations == ObservationText(vd, v.code).value
  {
    RouteBoxesMeaning(vd, v.code, v.routes);
  }

  /** The table renders unless some line fails (a line with routes whose
      `administration` is set and not an array, or a line whose
      `observations` is an array); when it renders, line `i` shows vaccine
      `i`, its `selected` box is checked exactly when the key is set, at
      most one radio is checked, it has one box per route and it shows the
      escaped observations. */
  lemma RenderMeaning(vd: Value, cat: seq<Vaccine>)
    ensures Render(vd, cat).TypeError? <==> exists i :: 0 <= i < |cat| && RowFails(vd, cat[i])
    ensures Render(vd, cat).Done? ==>
      var rows := Render(vd, cat).value;
      |rows| == |cat| &&
      forall i :: 0 <= i < |cat| ==>
        rows[i].code == cat[i].code
        && (rows[i].selected <==> IsSet(Field(vd, cat[i].code, VaccinationSave.Selected)))
        && !(rows[i].yes && rows[i].no)
        && RouteBoxes(vd, cat[i].code, cat[i].routes).Done?
        && rows[i].routes == RouteBoxes(vd, cat[i].code, cat[i].routes).value
        && ObservationText(vd, cat[i].code).Done?
        && rows[i].observations == ObservationText(vd, cat[i].code).value
  {
    RenderFails(vd, cat);
    RenderRows(vd, cat);
  }

  lemma {:induction false} RenderFails(vd: Value, cat: seq<Vaccine>)
    ensures Render(vd, cat).TypeError? <==> exists i :: 0 <= i < |cat| && RowFails(vd, cat[i])
  {
    if cat != [] {
      RenderFails(vd, cat[1..]);
      RenderRowMeaning(vd, cat[0]);
      if Render(vd, cat).TypeError? && !RenderRow(vd, cat[0]).TypeError? {
        var i :| 0 <= i < |cat[1..]| && RowFails(vd, cat[1..][i]);
        assert cat[i + 1] == cat[1..][i];
      }
      if exists i :: 0 <= i < |cat| && RowFails(vd, cat[i]) {
        var i :| 0 <= i < |cat| && RowFails(vd, cat[i]);
        if i > 0 {
          assert cat[1..][i - 1] == cat[i];
        }
      }
    }
  }

  lemma {:induction false} RenderRows(vd: Value, cat: seq<Vaccine>)
    ensures Render(vd, cat).Done? ==>
      var rows := Render(vd, cat).value;
      |rows| == |cat| &&
      forall i :: 0 <= i < |cat| ==>
        rows[i].code == cat[i].code
        && (rows[i].selected <==> IsSet(Field(vd, cat[i].code, VaccinationSave.Selected)))
        && !(rows[i].yes && rows[i].no)
        && RouteBoxes(vd, cat[i].code, cat[i].routes).Done?
        && rows[i].routes == RouteBoxes(vd, cat[i].code, cat[i].routes).value
        && ObservationText(vd, cat[i].code).Done?
        && rows[i].observations == ObservationText(vd, cat[i].code).value
  {
    if cat != [] && Render(vd, cat).Done? {
      RenderRows(vd, cat[1..]);
      RenderRowMeaning(vd, cat[0]);
      var rows := Render(vd, cat).value;
      var tail := Render(vd, cat[1..]).value;
      assert rows == [RenderRow(vd, cat[0]).value] + tail;
      forall i | 1 <= i < |cat| ensures rows[i] == tail[i - 1] && cat[i] == cat[1..][i - 1] {
      }
    }
  }

  /** The `received` radios compare strictly: a stored `true` or integer
      checks neither, and distinct answers are never both checked. */
  lemma ReceivedStrict(vd: Value, code: string, a: string, b: string)
    requires a != b
    ensures !(ReceivedChecked(vd, code, a) && ReceivedChecked(vd, code, b))
    ensures Field(vd, code, VaccinationSave.Received) == Some(Bool(true)) ==> !ReceivedChecked(vd, code, a)
  {
  }

  /* ----------------------------------------------------------------------
     From the saved checklist back to the page
     ---------------------------------------------------------------------- */

  /** In a checklist saved by `save_vaccination.php`, each vaccine's record
      is the sanitised record of what was posted for it. */
  lemma SavedRecord(vaccines: Value, code: string)
    requires vaccines.Arr? && UniqueKeys(vaccines.entries)
    ensures Get(Arr(VaccinationSave.Calendar(vaccines)), code) ==
      match Get(vaccines, code)
      case None => None
      case Some(d) => Some(Arr(VaccinationSave.SanitizeRecord(d)))
  {
    VaccinationSave.CalendarRecords(vaccines);
    var es := vaccines.entries;
    IndexOfSameKeys(VaccinationSave.RecordsOf(es), es, StrKey(code));
  }

  /** A vaccine of the posted checklist whose `observations` was posted as
      an array (`vaccines[code][observations][]=...`). */
  predicate PostedArrayObservations(vaccines: Value, code: string)
  {
    match Get(vaccines, code)
    case None => false
    case Some(d) =>
      var o := Get(d, VaccinationSave.Observations);
      IsSet(o) && o.value.Arr?
  }

  /** A saved checklist makes the page throw exactly when some vaccine of
      the table had its `observations` posted as an array: the save
      handler keeps `administration` only when it is an array, but keeps
      an array `observations` (sanitised element by element), which the
      page's `htmlspecialchars` then refuses. */
  lemma SavedRenders(vaccines: Value, cat: seq<Vaccine>)
    requires vaccines.Arr? && UniqueKeys(vaccines.entries)
    ensures Render(Arr(VaccinationSave.Calendar(vaccines)), cat).TypeError? <==>
      exists i :: 0 <= i < |cat| && PostedArrayObservations(vaccines, cat[i].code)
  {
    var vd := Arr(VaccinationSave.Calendar(vaccines));
    forall i | 0 <= i < |cat|
      ensures RowFails(vd, cat[i]) <==> PostedArrayObservations(vaccines, cat[i].code)
    {
      SavedRowFails(vaccines, cat[i]);
    }
    RenderMeaning(vd, cat);
  }

  /** Posting `vaccines[bcg][observations][]=x` is accepted and saved, and
      the page then throws on the first line of the table. */
  lemma ArrayObservationCrashes(x: string)
    ensures var posted := Arr([Entry(StrKey("bcg"), Arr([Entry(StrKey(VaccinationSave.Observations), Arr([Entry(IntKey(0), Str(x))]))]))]);
      Render(Arr(VaccinationSave.Calendar(posted)), Catalogue).TypeError?
  {
    var posted := Arr([Entry(StrKey("bcg"), Arr([Entry(StrKey(VaccinationSave.Observations), Arr([Entry(IntKey(0), Str(x))]))]))]);
    assert PostedArrayObservations(posted, Catalogue[0].code);
    SavedRenders(posted, Catalogue);
  }

  lemma SavedRowFails(vaccines: Value, v: Vaccine)
    requires vaccines.Arr? && UniqueKeys(vaccines.entries)
    ensures RowFails(Arr(VaccinationSave.Calendar(vaccines)), v) <==> PostedArrayObservations(vaccines, v.code)
  {
    SavedRecord(vaccines, v.code);
    match Get(vaccines, v.code)
    case None =>
    case Some(d) =>
      VaccinationSave.RecordField(d, VaccinationSave.Administration);
      VaccinationSave.RecordField(d, VaccinationSave.Observations);
      KeptObservations(d);
  }

  /** The kept `observations` is the sanitised posted one. */
  lemma KeptObservations(d: Value)
    ensures var o := Get(d, VaccinationSave.Observations);
      VaccinationSave.Kept(d, VaccinationSave.Observations) == if IsSet(o) then Some(Sanitize(o.value)) else None
  {
    assert VaccinationSave.Observations != VaccinationSave.Selected;
  }

  /** After saving, each sub-key of a vaccine's record reads as the save
      handler keeps it. */
  lemma SavedField(vaccines: Value, code: string, d: Value, f: string)
    requires vaccines.Arr? && UniqueKeys(vaccines.entries) && Get(vaccines, code) == Some(d)
    ensures Field(Arr(VaccinationSave.Calendar(vaccines)), code, f) == VaccinationSave.Kept(d, f)
  {
    SavedRecord(vaccines, code);
    VaccinationSave.RecordField(d, f);
  }

  /** After saving, the `selected` box of a vaccine is checked exactly when
      `selected` was posted for it, whatever its value. */
  lemma SelectedRoundTrip(vaccines: Value, code: string, d: Value)
    requires vaccines.Arr? && UniqueKeys(vaccines.entries) && Get(vaccines, code) == Some(d)
    ensures SelectedChecked(Arr(VaccinationSave.Calendar(vaccines)), code) <==> IsSet(Get(d, VaccinationSave.Selected))
  {
    SavedField(vaccines, code, d, VaccinationSave.Selected);
  }

  /** After saving, the radio of an answer is checked exactly when the
      posted answer sanitises to it; posting an answer that sanitising
      leaves as it is checks it. */
  lemma ReceivedRoundTrip(vaccines: Value, code: string, d: Value, a: string)
    requires vaccines.Arr? && UniqueKeys(vaccines.entries) && Get(vaccines, code) == Some(d)
    ensures ReceivedChecked(Arr(VaccinationSave.Calendar(vaccines)), code, a) <==>
      IsSet(Get(d, VaccinationSave.Received)) && Sanitize(Get(d, VaccinationSave.Received).value) == Str(a)
    ensures Get(d, VaccinationSave.Received) == Some(Str(a)) && Sanitize(Str(a)) == Str(a) ==>
      ReceivedChecked(Arr(VaccinationSave.Calendar(vaccines)), code, a)
  {
    SavedField(vaccines, code, d, VaccinationSave.Received);
    KeptReceived(d);
  }

  /** The kept `received` answer is the sanitised posted one. */
  lemma KeptReceived(d: Value)
    ensures var o := Get(d, VaccinationSave.Received);
      VaccinationSave.Kept(d, VaccinationSave.Received) == if IsSet(o) then Some(Sanitize(o.value)) else None
  {
    assert VaccinationSave.Received != VaccinationSave.Selected;
  }

  /** Loosely finding a non-numeric label among string values is finding
      it exactly. */
  lemma LooseAmongStrings(es: seq<Entry>, l: string)
    requires forall i :: 0 <= i < |es| ==> es[i].value.Str?
    requires !IsIntNumeric(l) && l != "" && l != "0"
    ensures ArrayHasLoose(es, l) <==> exists i :: 0 <= i < |es| && es[i].value == Str(l)
  {
    forall i | 0 <= i < |es| ensures LooseEqualsStr(es[i].value, l) <==> es[i].value == Str(l) {
      LooseEqualsNonNumeric(es[i].value, l);
    }
  }

  /** Sanitizing a list of values that it leaves alone gives the list
      back. */
  lemma SanitizeFixed(es: seq<Entry>)
    requires forall i :: 0 <= i < |es| ==> Sanitize(es[i].value) == es[i].value
    ensures Sanitize(Arr(es)) == Arr(es)
  {
    var r := Sanitize(Arr(es)).entries;
    assert |r| == |es|;
    forall i | 0 <= i < |es| ensures r[i] == es[i] {
    }
  }

  /** The answer and route labels of the table. */
  const Labels := [Oui, Non, IntraDermique, Orale, IntraMusculaire, SousCutanee]

  lemma {:induction false} Utf8AsciiPrefix(a: string, b: string)
    requires IsAscii(a) && ValidUtf8(b)
    ensures ValidUtf8(a + b)
  {
    if a == [] {
      assert a + b == b;
    } else {
      Utf8AsciiPrefix(a[1..], b);
      assert (a + b)[1..] == a[1..] + b;
      assert SequenceLength(a + b) == 1;
    }
  }

  /** Text with no surrounding whitespace that escaping leaves as it is,
      in UTF-8, is left as it is by sanitizing. */
  lemma SanitizeKeeps(l: string)
    requires l != [] && ValidUtf8(l) && !IsTrimChar(l[0]) && !IsTrimChar(l[|l| - 1])
    requires Escape(l) == l
    ensures Sanitize(Str(l)) == Str(l)
  {
    assert TrimStart(l) == l;
    assert TrimEnd(l) == l;
    assert Htmlspecialchars(Trim(l)) == l;
  }

  /** Text that starts with a letter is not numeric. */
  lemma LetterNotNumeric(l: string)
    requires l != [] && 'A' <= l[0] <= 'Z'
    ensures !IsIntNumeric(l) && l != "" && l != "0"
  {
    assert SkipNumericSpace(l) == l;
    assert SplitSign(l) == (1, l);
    assert DigitRun(l) == [];
  }

  /** Letters and spaces are not escaped. */
  lemma WordEscape(l: string)
    requires forall i :: 0 <= i < |l| ==> 'A' <= l[i] <= 'Z' || 'a' <= l[i] <= 'z' || l[i] == ' '
    ensures Escape(l) == l && IsAscii(l)
  {
    forall i | 0 <= i < |l| ensures EscapeChar(l[i]) == [l[i]] {
      var c := l[i];
      assert c != '&' && c != '"' && c != '\'' && c != '<' && c != '>';
    }
    EscapeUnchanged(l);
  }

  /** A plain ASCII word: letters and inner spaces only. */
  lemma AsciiWord(l: string)
    requires l != [] && 'A' <= l[0] <= 'Z' && 'a' <= l[|l| - 1] <= 'z'
    requires forall i :: 0 <= i < |l| ==> 'A' <= l[i] <= 'Z' || 'a' <= l[i] <= 'z' || l[i] == ' '
    ensures Sanitize(Str(l)) == Str(l)
    ensures !IsIntNumeric(l) && l != "" && l != "0"
  {
    WordEscape(l);
    AsciiIsUtf8(l);
    SanitizeKeeps(l);
    LetterNotNumeric(l);
  }

  /** "ée" in UTF-8: valid, and not escaped. */
  lemma AccentTail(t: string)
    requires |t| == 3 && t[0] == '\U{C3}' && t[1] == '\U{A9}' && t[2] == 'e'
    ensures Escape(t) == t && ValidUtf8(t)
  {
    assert EscapeChar(t[0]) == [t[0]] && EscapeChar(t[1]) == [t[1]] && EscapeChar(t[2]) == [t[2]];
    EscapeUnchanged(t);
    assert SequenceLength(t) == 2;
    var e := t[2..];
    assert SequenceLength(e) == 1 && e[1..] == [];
  }

  /** A capitalised ASCII word followed by a UTF-8 encoded accented letter
      and a final letter is left as it is by sanitizing and is not
      numeric. */
  lemma AccentedWord(l: string, k: nat)
    requires |l| == k + 3 && 'A' <= l[0] <= 'Z'
    requires forall i :: 0 <= i < k ==> 'A' <= l[i] <= 'Z' || 'a' <= l[i] <= 'z' || l[i] == ' '
    requires l[k] == '\U{C3}' && l[k + 1] == '\U{A9}' && l[k + 2] == 'e'
    ensures Sanitize(Str(l)) == Str(l)
    ensures !IsIntNumeric(l) && l != "" && l != "0"
  {
    AccentedText(l, k);
    assert !IsTrimChar(l[0]) && !IsTrimChar(l[|l| - 1]);
    SanitizeKeeps(l);
    LetterNotNumeric(l);
  }

  lemma AccentedText(l: string, k: nat)
    requires |l| == k + 3
    requires forall i :: 0 <= i < k ==> 'A' <= l[i] <= 'Z' || 'a' <= l[i] <= 'z' || l[i] == ' '
    requires l[k] == '\U{C3}' && l[k + 1] == '\U{A9}' && l[k + 2] == 'e'
    ensures Escape(l) == l && ValidUtf8(l)
  {
    var head, tail := l[..k], l[k..];
    assert head + tail == l;
    WordEscape(head);
    AccentTail(tail);
    EscapeAppend(head, tail);
    Utf8AsciiPrefix(head, tail);
  }

  /** The one label with a non-ASCII letter. */
  lemma SousCutaneeLabel(l: string)
    requires l == SousCutanee
    ensures Sanitize(Str(l)) == Str(l) && !IsIntNumeric(l) && l != "" && l != "0"
  {
    AccentedWord(l, 10);
  }

  lemma ShortLabel(l: string)
    requires l == Oui || l == Non || l == Orale
    ensures Sanitize(Str(l)) == Str(l) && !IsIntNumeric(l) && l != "" && l != "0"
  {
    AsciiWord(l);
  }

  lemma LongLabel(l: string)
    requires l == IntraDermique || l == IntraMusculaire
    ensures Sanitize(Str(l)) == Str(l) && !IsIntNumeric(l) && l != "" && l != "0"
  {
    AsciiWord(l);
  }

  lemma LabelPlain(l: string)
    requires l in Labels
    ensures Sanitize(Str(l)) == Str(l) && !IsIntNumeric(l) && l != "" && l != "0"
  {
    if l == SousCutanee {
      SousCutaneeLabel(l);
    } else if l == Oui || l == Non || l == Orale {
      ShortLabel(l);
    } else {
      LongLabel(l);
    }
  }

  /** Every label of the table survives sanitizing unchanged and is not
      numeric, so the round trips below apply to them. */
  lemma LabelsPlain()
    ensures forall l :: l in Labels ==> Sanitize(Str(l)) == Str(l) && !IsIntNumeric(l) && l != "" && l != "0"
  {
    forall l | l in Labels
      ensures Sanitize(Str(l)) == Str(l) && !IsIntNumeric(l) && l != "" && l != "0"
    {
      LabelPlain(l);
    }
  }

  /** After saving, the box of a non-numeric route is checked exactly when
      that route was among the routes ticked for the vaccine, when the
      ticked routes are strings that sanitising leaves as they are. */
  lemma RouteRoundTrip(vaccines: Value, code: string, d: Value, ticked: seq<Entry>, l: string)
    requires vaccines.Arr? && UniqueKeys(vaccines.entries) && Get(vaccines, code) == Some(d)
    requires Get(d, VaccinationSave.Administration) == Some(Arr(ticked))
    requires forall i :: 0 <= i < |ticked| ==> ticked[i].value.Str? && Sanitize(ticked[i].value) == ticked[i].value
    requires !IsIntNumeric(l) && l != "" && l != "0"
    ensures RouteChecked(Arr(VaccinationSave.Calendar(vaccines)), code, l) ==
      Done(exists i :: 0 <= i < |ticked| && ticked[i].value == Str(l))
  {
    SavedField(vaccines, code, d, VaccinationSave.Administration);
    SanitizeFixed(ticked);
    LooseAmongStrings(ticked, l);
  }

  /** Every route offered by the table is one of its labels. */
  lemma CatalogueLabels(i: int, j: int)
    requires 0 <= i < |Catalogue| && 0 <= j < |Catalogue[i].routes|
    ensures Catalogue[i].routes[j] in Labels
  {
    CatalogueRoutes();
  }

  /** For every line and route box of the table: after saving a form whose
      ticked routes are labels of the table, the box is checked exactly
      when its route was ticked. */
  lemma CatalogueBoxRoundTrip(vaccines: Value, i: int, j: int, d: Value, ticked: seq<Entry>)
    requires 0 <= i < |Catalogue| && 0 <= j < |Catalogue[i].routes|
    requires vaccines.Arr? && UniqueKeys(vaccines.entries) && Get(vaccines, Catalogue[i].code) == Some(d)
    requires Get(d, VaccinationSave.Administration) == Some(Arr(ticked))
    requires forall k :: 0 <= k < |ticked| ==> ticked[k].value.Str? && ticked[k].value.s in Labels
    ensures RouteChecked(Arr(VaccinationSave.Calendar(vaccines)), Catalogue[i].code, Catalogue[i].routes[j]) ==
      Done(exists k :: 0 <= k < |ticked| && ticked[k].value == Str(Catalogue[i].routes[j]))
  {
    LabelsPlain();
    CatalogueLabels(i, j);
    RouteRoundTrip(vaccines, Catalogue[i].code, d, ticked, Catalogue[i].routes[j]);
  }

  /** A checklist saved with a consultation id is found again by a later
      page load for that id whose session has no checklist (a new session,
      or one cleared by `clear_session.php`), provided every key in it is
      UTF-8. Otherwise the encoder failed, the stored blob is empty, and
      the page keeps the session's own empty checklist. */
  lemma SavedThenLoaded(sess: SessionMap, t: Tables, post: Value, fault: VaccinationSave.DbFault, later: SessionMap)
    requires VaccinationSave.Handle(sess, t, true, post, fault).reply.SavedToDb?
    requires !Truthy(SessionCalendar(later))
    ensures var r := VaccinationSave.Handle(sess, t, true, post, fault);
      var cal := VaccinationSave.Calendar(VaccinationSave.VaccinesOf(post));
      Loaded(later, r.tables.vaccinations, Some(Int(r.reply.id)), false) ==
        if Utf8Clean(Arr(cal)) then Arr(cal) else SessionCalendar(later)
  {
    var r := VaccinationSave.Handle(sess, t, true, post, fault);
    var cal := VaccinationSave.Calendar(VaccinationSave.VaccinesOf(post));
    VaccinationSave.BlobSaved(sess, t, true, post, fault);
    LoadedBlob(later, r.tables.vaccinations, r.reply.id, cal);
  }

  /** A page load for a consultation whose row holds the blob of `cal`. */
  lemma LoadedBlob(later: SessionMap, rows: map<int, Row>, id: int, cal: seq<Entry>)
    requires id != 0 && id in rows && VaccinationSave.VaccinationData in rows[id]
    requires rows[id][VaccinationSave.VaccinationData] == VaccinationSave.Blob(cal)
    requires !Truthy(SessionCalendar(later))
    ensures Loaded(later, rows, Some(Int(id)), false) == if Utf8Clean(Arr(cal)) then Arr(cal) else SessionCalendar(later)
  {
    assert RequestedId(Some(Int(id))) == id;
    if Utf8Clean(Arr(cal)) {
      EncodedArrayTruthy(cal);
      StoredEncoded(Arr(cal), []);
    }
  }

  /** The failing case made concrete: a checklist saved under a vaccine key
      that is not UTF-8 is lost for a later session without a checklist,
      which sees the empty array. */
  lemma BadKeyLost(sess: SessionMap, t: Tables, post: Value, fault: VaccinationSave.DbFault, i: int)
    requires VaccinationSave.Handle(sess, t, true, post, fault).reply.SavedToDb?
    requires var cal := VaccinationSave.Calendar(VaccinationSave.VaccinesOf(post));
      0 <= i < |cal| && cal[i].key.StrKey? && !ValidUtf8(cal[i].key.s)
    ensures var r := VaccinationSave.Handle(sess, t, true, post, fault);
      Loaded(map[], r.tables.vaccinations, Some(Int(r.reply.id)), false) == Arr([])
  {
    var cal := VaccinationSave.Calendar(VaccinationSave.VaccinesOf(post));
    BadKeyFails(cal, i);
    SavedThenLoaded(sess, t, post, fault, map[]);
  }
}
