/** `save_consultation.php`: the final submission of the wizard. After the
    method and CSRF guards it reads the consultation and its four satellite
    rows, lays out the report's paragraphs, offers the document for download
    under a file name derived from the patient's name, and then forgets the
    wizard's form in the session. Paragraph styles, line breaks and the
    Word file itself are not modelled: the document is its sequence of
    paragraph texts. */
module FinalSubmission {
  import opened Php
  import opened Json
  import opened Sessions
  import opened Store

  /* ----------------------------------------------------------------------
     The document
     ---------------------------------------------------------------------- */

  /** The section being written: its paragraphs, in order. */
  class Document {
    var lines: seq<string>

    constructor ()
      ensures lines == []
    {
      lines := [];
    }

    /** `$section->addText($s, ...)`. */
    method AddText(s: string)
      modifies this
      ensures lines == old(lines) + [s]
    {
      lines := lines + [s];
    }
  }

  /* ----------------------------------------------------------------------
     Field lines
     ---------------------------------------------------------------------- */

  const NotAvailable := "N/A"
  const PhoneField := "emergency_contact_phone"
  const CountryCode := "+237"

  /** `$record[$field] ?? 'N/A'` on a fetched row; a NULL column is absent
      from the row. */
  function FieldValue(row: Row, f: string): string
  {
    if f in row then row[f] else NotAvailable
  }

  /** `$value && $value !== 'N/A'`. */
  predicate Shown(v: string)
  {
    Truthy(Str(v)) && v != NotAvailable
  }

  /** The value printed for a shown field: the emergency phone gets the
      country code in front in the demographics loop, which is the only loop
      that rewrites it. */
  function Displayed(prefixPhone: bool, f: string, v: string): string
  {
    if prefixPhone && f == PhoneField then CountryCode + v else v
  }

  /** `"$label: $value"` for one (label, column) pair. */
  function FieldLine(row: Row, field: (string, string), prefixPhone: bool): string
  {
    field.0 + ": " + Displayed(prefixPhone, field.1, FieldValue(row, field.1))
  }

  /** The paragraphs of one `foreach ($fields as $label => $field)` loop:
      a line for each field whose value is shown, in the order of the
      fields. */
  function FieldLines(row: Row, fields: seq<(string, string)>, prefixPhone: bool): seq<string>
  {
    if fields == [] then []
    else
      var last := fields[|fields| - 1];
      FieldLines(row, fields[..|fields| - 1], prefixPhone)
        + (if Shown(FieldValue(row, last.1)) then [FieldLine(row, last, prefixPhone)] else [])
  }

  /** The loop writes at most one line per field; each line is the line of
      a field whose value is shown, and every shown field has its line. */
  lemma {:induction false} FieldLinesMeaning(row: Row, fields: seq<(string, string)>, prefixPhone: bool)
    ensures |FieldLines(row, fields, prefixPhone)| <= |fields|
    ensures forall j :: 0 <= j < |fields| && Shown(FieldValue(row, fields[j].1)) ==>
      FieldLine(row, fields[j], prefixPhone) in FieldLines(row, fields, prefixPhone)
    ensures forall l :: l in FieldLines(row, fields, prefixPhone) ==>
      exists j :: 0 <= j < |fields| && Shown(FieldValue(row, fields[j].1)) && l == FieldLine(row, fields[j], prefixPhone)
  {
    if fields != [] {
      var n := |fields| - 1;
      var init := fields[..n];
      FieldLinesMeaning(row, init, prefixPhone);
      var lines := FieldLines(row, fields, prefixPhone);
      var head := FieldLines(row, init, prefixPhone);
      assert forall j :: 0 <= j < n ==> init[j] == fields[j];
      forall l | l in lines
        ensures exists j :: 0 <= j < |fields| && Shown(FieldValue(row, fields[j].1)) && l == FieldLine(row, fields[j], prefixPhone)
      {
        if l in head {
          var j :| 0 <= j < |init| && Shown(FieldValue(row, init[j].1)) && l == FieldLine(row, init[j], prefixPhone);
          assert init[j] == fields[j];
        } else {
          assert l == FieldLine(row, fields[n], prefixPhone) && Shown(FieldValue(row, fields[n].1));
        }
      }
    }
  }

  /** The positions of the fields whose value is shown, in increasing
      order: exactly the shown positions, each once. */
  function ShownIndices(row: Row, fields: seq<(string, string)>): (idx: seq<nat>)
    ensures forall k :: 0 <= k < |idx| ==> idx[k] < |fields| && Shown(FieldValue(row, fields[idx[k]].1))
    ensures forall k, m :: 0 <= k < m < |idx| ==> idx[k] < idx[m]
    ensures forall j :: 0 <= j < |fields| && Shown(FieldValue(row, fields[j].1)) ==> j in idx
  {
    if fields == [] then []
    else
      var n := |fields| - 1;
      var init := fields[..n];
      assert forall j :: 0 <= j < n ==> init[j] == fields[j];
      ShownIndices(row, init) + (if Shown(FieldValue(row, fields[n].1)) then [n] else [])
  }

  /** The lines come in the order of the fields: line `k` is the line of
      the `k`-th shown field. */
  lemma {:induction false} FieldLinesOrder(row: Row, fields: seq<(string, string)>, prefixPhone: bool)
    ensures |FieldLines(row, fields, prefixPhone)| == |ShownIndices(row, fields)|
    ensures forall k :: 0 <= k < |ShownIndices(row, fields)| ==>
      FieldLines(row, fields, prefixPhone)[k] == FieldLine(row, fields[ShownIndices(row, fields)[k]], prefixPhone)
  {
    if fields != [] {
      var n := |fields| - 1;
      var init := fields[..n];
      FieldLinesOrder(row, init, prefixPhone);
      assert forall j :: 0 <= j < n ==> init[j] == fields[j];
    }
  }

  /** A NULL column, the empty string, "0" and "N/A" are not printed; any
      other text, such as "RAS", is. */
  lemma ShownExamples(row: Row, f: string)
    requires f !in row
    ensures !Shown(FieldValue(row, f))
    ensures !Shown("") && !Shown("0") && !Shown(NotAvailable)
    ensures Shown("RAS") && Shown("00")
  {
  }

  /** In the demographics the emergency phone is printed as "+237"
      followed by the stored text, which is not checked or stripped. */
  lemma PhoneWithCountryCode(row: Row, caption: string)
    requires PhoneField in row && Shown(row[PhoneField])
    ensures FieldLine(row, (caption, PhoneField), true) == caption + ": " + CountryCode + row[PhoneField]
    ensures |FieldLines(row, [(caption, PhoneField)], true)| == 1
    ensures FieldLine(row, (caption, PhoneField), false) == caption + ": " + row[PhoneField]
  {
    assert [(caption, PhoneField)][..0] == [];
  }

  /** The loop over the fields, one `addText` per shown field. */
  method AddFields(doc: Document, row: Row, fields: seq<(string, string)>, prefixPhone: bool)
    modifies doc
    ensures doc.lines == old(doc.lines) + FieldLines(row, fields, prefixPhone)
  {
    var i := 0;
    while i < |fields|
      invariant 0 <= i <= |fields|
      invariant doc.lines == old(doc.lines) + FieldLines(row, fields[..i], prefixPhone)
    {
      var (caption, f) := fields[i];
      var value := FieldValue(row, f);
      assert fields[..i + 1][..i] == fields[..i];
      if Shown(value) {
        doc.AddText(caption + ": " + Displayed(prefixPhone, f, value));
      }
      i := i + 1;
    }
    assert fields[..i] == fields;
  }

  /* ----------------------------------------------------------------------
     The report's sections
     ---------------------------------------------------------------------- */

  const Title := "Rapport de Consultation Drepadata"
  const PatientHeader := "INFORMATIONS PATIENT"
  const NameLabel := "Nom et Pr\U{C3}\U{A9}nom: "
  const DateLabel := "Date de g\U{C3}\U{A9}n\U{C3}\U{A9}ration: "
  const AdminHeader := "1. INFORMATIONS ADMINISTRATIVES"
  const DemoHeader := "2. DONN\U{C3}\U{89}ES D\U{C3}\U{89}MOGRAPHIQUES"
  const TreatmentHeader := "3. TRAITEMENTS EN COURS"
  const HistoryHeader := "4. ANT\U{C3}\U{89}C\U{C3}\U{89}DENTS M\U{C3}\U{89}DICAUX"
  const FollowUpHeader := "5. SUIVI PSYCHOSOCIAL"
  const VaccinationHeader := "6. VACCINATIONS"
  const ExamsToDoHeader := "7. EXAMENS \U{C3}\U{80} R\U{C3}\U{89}ALISER"
  const CommentsHeader := "8. COMMENTAIRES"
  const Footer := "Document g\U{C3}\U{A9}n\U{C3}\U{A9}r\U{C3}\U{A9} par Drepadata Consultation App"

  const FullName := "full_name"
  const ExamsToDo := "examens_avant_consultation"
  const Comments := "commentaires"

  const AdminFields: seq<(string, string)> := [
    ("FOSA", "fosa"), ("R\U{C3}\U{A9}gion", "region"), ("District", "district"),
    ("Date du diagnostic", "diagnostic_date"), ("IPP", "ipp"), ("Personnel", "personnel"),
    ("R\U{C3}\U{A9}f\U{C3}\U{A9}r\U{C3}\U{A9}", "referred"),
    ("R\U{C3}\U{A9}f\U{C3}\U{A9}r\U{C3}\U{A9} de", "referred_from"),
    ("R\U{C3}\U{A9}f\U{C3}\U{A9}r\U{C3}\U{A9} pour", "referred_for"), ("Evolution", "evolution")]

  const DemoFields: seq<(string, string)> := [
    ("Age", "age"), ("Date de naissance", "birth_date"), ("Sexe", "sex"), ("Adresse", "address"),
    ("Contact d'urgence", "emergency_contact_name"), ("Relation", "emergency_contact_relation"),
    ("T\U{C3}\U{A9}l\U{C3}\U{A9}phone", PhoneField), ("Vit avec", "lives_with"),
    ("Assurance", "insurance"), ("Groupe de soutien", "support_group"), ("Nom du groupe", "group_name"),
    ("Parents biologiques", "parents"), ("Rang fratrie", "sibling_rank")]

  const TreatmentFields: seq<(string, string)> := [
    ("Hydroxyur\U{C3}\U{A9}e", "hydroxyurea"), ("Tol\U{C3}\U{A9}rance", "tolerance"),
    ("Raisons non-utilisation", "hydroxyurea_reasons"), ("Posologie hydroxyur\U{C3}\U{A9}e", "hydroxyurea_dosage"),
    ("Acide folique", "folic_acid"), ("P\U{C3}\U{A9}nicilline", "penicillin"),
    ("Transfusions r\U{C3}\U{A9}guli\U{C3}\U{A8}res", "regular_transfusion"), ("Type transfusion", "transfusion_type"),
    ("Fr\U{C3}\U{A9}quence transfusion", "transfusion_frequency"),
    ("Derni\U{C3}\U{A8}re transfusion", "last_transfusion_date"), ("Autres traitements", "other_treatments")]

  const HistoryFields: seq<(string, string)> := [
    ("Type dr\U{C3}\U{A9}panocytose", "sickle_type"), ("Age au diagnostic", "diagnosis_age"),
    ("Crises vaso-occlusives", "vocs"), ("Hospitalisations", "hospitalizations")]

  const FollowUpFields: seq<(string, string)> := [
    ("Impact scolaire", "impact_scolaire"), ("Accompagnement psychologique", "accompagnement_psychologique"),
    ("Soutien social", "soutien_social"), ("Famille inform\U{C3}\U{A9}e", "famille_informee"),
    ("Plan de suivi", "plan_suivi_personnalise"), ("Prochaine consultation", "date_prochaine_consultation"),
    ("\U{C3}\U{89}ducation th\U{C3}\U{A9}rapeutique", "education_therapeutique")]

  /** A satellite section: `$stmt->fetch() ?: []` gives the empty array for
      a missing row, and `!empty(...)` skips the section then. A fetched row
      always holds its key columns, so it is never empty. */
  function SatelliteSection(header: string, row: Option<Row>, fields: seq<(string, string)>): seq<string>
  {
    match row
    case None => []
    case Some(r) => [header] + FieldLines(r, fields, false)
  }

  /** A satellite section is left out exactly when its row is missing; it
      opens with its header otherwise. */
  lemma SatelliteSectionShown(header: string, row: Option<Row>, fields: seq<(string, string)>)
    ensures SatelliteSection(header, row, fields) == [] <==> row.None?
    ensures row.Some? ==> SatelliteSection(header, row, fields)[0] == header
    ensures |SatelliteSection(header, row, fields)| <= |fields| + 1
  {
    if row.Some? {
      FieldLinesMeaning(row.value, fields, false);
    }
  }

  /** `$vaccine` interpolated: an integer key in decimal. */
  function KeyString(k: Key): string
  {
    match k
    case IntKey(i) => DecimalString(i)
    case StrKey(s) => s
  }

  /** The paragraphs for one entry of the stored checklist: only an array
      entry is printed, with its `received` and `date` when set. */
  function VaccineLines(e: Entry): seq<string>
  {
    if !e.value.Arr? then []
    else
      var received := Get(e.value, "received");
      var date := Get(e.value, "date");
      ["Vaccin: " + KeyString(e.key)]
        + (if IsSet(received) then ["Re\U{C3}\U{A7}u: " + Interpolate(received.value)] else [])
        + (if IsSet(date) then ["Date: " + Interpolate(date.value)] else [])
  }

  function AllVaccineLines(es: seq<Entry>): seq<string>
  {
    if es == [] then [] else AllVaccineLines(es[..|es| - 1]) + VaccineLines(es[|es| - 1])
  }

  /** `$vaccinationRow ? json_decode($vaccinationRow['vaccination_data'],
      true) : []`: a NULL blob or text that does not decode gives null. */
  function StoredVaccinations(row: Option<Row>): Value
  {
    match row
    case None => Arr([])
    case Some(r) =>
      if "vaccination_data" !in r then Null
      else match Decode(r["vaccination_data"])
        case None => Null
        case Some(v) => v
  }

  /** Section 6: printed when the stored checklist is not empty; its
      entries are listed when it is an array. */
  function VaccinationSection(v: Value): seq<string>
  {
    if !Truthy(v) then []
    else [VaccinationHeader] + (if v.Arr? then AllVaccineLines(v.entries) else [])
  }

  /** A column as PHP sees it: text, or null when NULL. */
  function Column(row: Row, f: string): Value
  {
    if f in row then Str(row[f]) else Null
  }

  /** The bullet list of examinations: each truthy element. */
  function ExamLines(es: seq<Entry>): seq<string>
  {
    if es == [] then []
    else ExamLines(es[..|es| - 1]) + (if Truthy(es[|es| - 1].value) then ["\U{E2}\U{80}\U{A2} " + Interpolate(es[|es| - 1].value)] else [])
  }

  /** Section 7: printed when the column is not empty; the bullets are
      listed when it decodes to an array. */
  function ExamsToDoSection(c: Row): seq<string>
  {
    if !Truthy(Column(c, ExamsToDo)) then []
    else
      [ExamsToDoHeader] +
      match Decode(c[ExamsToDo])
      case Some(Arr(es)) => ExamLines(es)
      case _ => []
  }

  /** Section 8: the comment text as it is stored. */
  function CommentsSection(c: Row): seq<string>
  {
    if Truthy(Column(c, Comments)) then [CommentsHeader, c[Comments]] else []
  }

  /** The four satellite rows of a consultation, each possibly missing. */
  datatype Satellites = Satellites(treatments: Option<Row>, exams: Option<Row>, observations: Option<Row>, vaccinations: Option<Row>)

  function Find(m: map<int, Row>, id: int): Option<Row>
  {
    if id in m then Some(m[id]) else None
  }

  function SatellitesOf(t: Tables, id: int): Satellites
  {
    Satellites(Find(t.treatments, id), Find(t.exams, id), Find(t.observations, id), Find(t.vaccinations, id))
  }

  /** The formatted times `date('d/m/Y H:i')` and `date('Y-m-d_H-i-s')`. */
  datatype Clock = Clock(display: string, file: string)

  /** The title block: title, patient header, name and generation date. */
  function Opening(c: Row, clock: Clock): seq<string>
  {
    [Title, PatientHeader, NameLabel + FieldValue(c, FullName), DateLabel + clock.display]
  }

  /** Sections 1 and 2, read from the consultation row. */
  function RootSections(c: Row): seq<string>
  {
    ([AdminHeader] + FieldLines(c, AdminFields, false)) + ([DemoHeader] + FieldLines(c, DemoFields, true))
  }

  /** Sections 3 to 5, one per satellite row that exists. */
  function SatelliteSections(sat: Satellites): seq<string>
  {
    SatelliteSection(TreatmentHeader, sat.treatments, TreatmentFields)
      + SatelliteSection(HistoryHeader, sat.exams, HistoryFields)
      + SatelliteSection(FollowUpHeader, sat.observations, FollowUpFields)
  }

  /** Sections 6 to 8 and the footer. */
  function Closing(c: Row, vaccinations: Option<Row>): seq<string>
  {
    VaccinationSection(StoredVaccinations(vaccinations)) + ExamsToDoSection(c) + CommentsSection(c) + [Footer]
  }

  /** The paragraphs of the report, in order. */
  function Report(c: Row, sat: Satellites, clock: Clock): seq<string>
  {
    Opening(c, clock) + RootSections(c) + SatelliteSections(sat) + Closing(c, sat.vaccinations)
  }

  /* ----------------------------------------------------------------------
     The file name
     ---------------------------------------------------------------------- */

  predicate IsSafeChar(c: char)
  {
    'a' <= c <= 'z' || 'A' <= c <= 'Z' || '0' <= c <= '9' || c == '_' || c == '-'
  }

  /** `preg_replace('/[^a-zA-Z0-9_-]/', '_', $name)`: without the `u` flag
      the pattern works byte by byte, so each byte of a multi-byte letter
      becomes its own underscore. */
  function SafeName(s: string): (r: string)
    ensures |r| == |s|
    ensures forall i :: 0 <= i < |s| ==> r[i] == if IsSafeChar(s[i]) then s[i] else '_'
  {
    if s == [] then [] else [if IsSafeChar(s[0]) then s[0] else '_'] + SafeName(s[1..])
  }

  /** The safe name holds only safe characters, keeps a name made of them,
      and is unchanged by a second pass. */
  lemma SafeNameProperties(s: string)
    ensures forall i :: 0 <= i < |SafeName(s)| ==> IsSafeChar(SafeName(s)[i])
    ensures (forall i :: 0 <= i < |s| ==> IsSafeChar(s[i])) ==> SafeName(s) == s
    ensures SafeName(SafeName(s)) == SafeName(s)
  {
  }

  /** `$consultation['full_name'] ?? 'Patient'`. */
  function PatientName(c: Row): string
  {
    if FullName in c then c[FullName] else "Patient"
  }

  /** The default name is made of safe characters only, so a report on a
      consultation without a name is saved under "Patient". */
  lemma PatientIsSafe()
    ensures SafeName("Patient") == "Patient"
  {
    var p := "Patient";
    assert p[0] == 'P' && p[1] == 'a' && p[2] == 't' && p[3] == 'i' && p[4] == 'e' && p[5] == 'n' && p[6] == 't';
    assert SafeName(p)[..] == p;
  }

  const FilePrefix := "consultation_report_"
  const FileSuffix := ".docx"

  function Filename(c: Row, clock: Clock): string
  {
    FilePrefix + SafeName(PatientName(c)) + "_" + clock.file + FileSuffix
  }

  /** The first, second and last parts of a five-part concatenation are
      found again at their positions. */
  lemma Joined(p: string, m: string, u: string, t: string, x: string)
    ensures var f := p + m + u + t + x;
      |f| == |p| + |m| + |u| + |t| + |x| &&
      f[..|p|] == p && f[|p|..|p| + |m|] == m && f[|f| - |x|..] == x
  {
    var f := p + m + u + t + x;
    var head := p + m;
    assert f == head + (u + t) + x;
    Framed(head, u + t, x);
    Framed(p, m, []);
    assert head + [] == head;
    assert f[..|p|] == f[..|head|][..|p|];
    assert f[|p|..|p| + |m|] == f[..|head|][|p|..|p| + |m|];
  }

  /** The three parts of `p + m + q` are found again at their positions. */
  lemma Framed(p: string, m: string, q: string)
    ensures |p + m + q| == |p| + |m| + |q|
    ensures (p + m + q)[..|p|] == p
    ensures (p + m + q)[|p|..|p| + |m|] == m
    ensures (p + m + q)[|p| + |m|..] == q
  {
  }

  /** The file name is the prefix, the patient name made safe byte for
      byte, the time and the extension; a missing name gives "Patient". The
      part taken from the name cannot close the quoted `filename=` of the
      download header or break the header line. */
  lemma FilenameShape(c: Row, clock: Clock)
    ensures var f := Filename(c, clock);
      var n := |PatientName(c)|;
      |f| == |FilePrefix| + n + 1 + |clock.file| + |FileSuffix| &&
      f[..|FilePrefix|] == FilePrefix &&
      f[|FilePrefix|..|FilePrefix| + n] == SafeName(PatientName(c)) &&
      f[|f| - |FileSuffix|..] == FileSuffix
    ensures forall ch :: ch in SafeName(PatientName(c)) ==> ch != '"' && ch != '\n' && ch != '\r'
    ensures FullName !in c ==> PatientName(c) == "Patient"
  {
    var safe := SafeName(PatientName(c));
    Joined(FilePrefix, safe, "_", clock.file, FileSuffix);
    assert forall ch :: ch in safe ==> IsSafeChar(ch);
  }

  /* ----------------------------------------------------------------------
     The request
     ---------------------------------------------------------------------- */

  datatype FinalReply =
    | MethodNotAllowed     // 405
    | CsrfInvalid          // 403
    | MissingId            // 400
    | NotFound             // 404
    | Download(filename: string, document: seq<string>)
    | ServerError          // 500
    | Fatal                // uncaught TypeError of hash_equals

  /** Where an exception is raised: by the database before the
      consultation is read, or while the document is written. */
  datatype Failure = NoFailure | DatabaseFails | WriterFails

  datatype FinalResult = FinalResult(session: SessionMap, reply: FinalReply)

  /** The session keys forgotten after the download; the checklist and the
      prefill stay. */
  const SubmittedKeys: set<string> := {FormData, ConsultationId, CurrentStep}

  /** `(int)($_POST['consultation_id'] ?? 0)`. */
  function PostedId(post: Value): int
  {
    IntCast(Coalesce(Get(post, ConsultationId), Int(0)))
  }

  function Handle(sess: SessionMap, t: Tables, isPost: bool, post: Value, clock: Clock, failure: Failure): FinalResult
  {
    if !isPost then FinalResult(sess, MethodNotAllowed)
    else match CsrfCheck(sess, Get(post, CsrfToken))
      case CsrfCrash => FinalResult(sess, Fatal)
      case Reject => FinalResult(sess, CsrfInvalid)
      case Accept =>
        var id := PostedId(post);
        if id == 0 then FinalResult(sess, MissingId)
        else if failure == DatabaseFails then FinalResult(sess, ServerError)
        else if id !in t.consultations then FinalResult(sess, NotFound)
        else if failure == WriterFails then FinalResult(sess, ServerError)
        else
          var c := t.consultations[id];
          FinalResult(sess - SubmittedKeys, Download(Filename(c, clock), Report(c, SatellitesOf(t, id), clock)))
  }

  /** Whether the request gets past the method check and the CSRF guard. */
  predicate Admitted(sess: SessionMap, isPost: bool, post: Value)
  {
    isPost && CsrfCheck(sess, Get(post, CsrfToken)) == Accept
  }

  /** A missing or zero id is refused before the database is used: the
      answer does not depend on the tables or on a database failure. */
  lemma MissingIdFirst(sess: SessionMap, t: Tables, post: Value, clock: Clock, failure: Failure, t2: Tables, failure2: Failure)
    requires Admitted(sess, true, post) && PostedId(post) == 0
    ensures Handle(sess, t, true, post, clock, failure) == FinalResult(sess, MissingId)
    ensures Handle(sess, t2, true, post, clock, failure2) == Handle(sess, t, true, post, clock, failure)
  {
  }

  /** A nonzero id with no consultation row is answered 404 with the
      session unchanged, whatever the writer would do; a negative id is
      looked up like any other. */
  lemma NotFoundKeepsSession(sess: SessionMap, t: Tables, post: Value, clock: Clock, failure: Failure)
    requires Admitted(sess, true, post) && PostedId(post) != 0 && PostedId(post) !in t.consultations
    requires failure != DatabaseFails
    ensures Handle(sess, t, true, post, clock, failure) == FinalResult(sess, NotFound)
  {
  }

  /** The document is offered exactly when the request is admitted, names
      an existing consultation, and nothing fails. Then the three form keys
      are gone from the session and every other key keeps its value;
      otherwise the session is unchanged. */
  lemma DownloadClearsForm(sess: SessionMap, t: Tables, isPost: bool, post: Value, clock: Clock, failure: Failure)
    ensures Handle(sess, t, isPost, post, clock, failure).reply.Download? <==>
      Admitted(sess, isPost, post) && PostedId(post) != 0 && PostedId(post) in t.consultations && failure == NoFailure
    ensures var r := Handle(sess, t, isPost, post, clock, failure);
      r.reply.Download? ==>
        (forall k :: k in r.session <==> k in sess && k !in SubmittedKeys) &&
        (forall k :: k in r.session ==> r.session[k] == sess[k]) &&
        Read(r.session, VaccinationCalendar) == Read(sess, VaccinationCalendar) &&
        Read(r.session, PrefillData) == Read(sess, PrefillData) &&
        r.reply.filename == Filename(t.consultations[PostedId(post)], clock)
    ensures !Handle(sess, t, isPost, post, clock, failure).reply.Download? ==>
      Handle(sess, t, isPost, post, clock, failure).session == sess
  {
    assert VaccinationCalendar !in SubmittedKeys && PrefillData !in SubmittedKeys;
  }

  /** The report lists a satellite's section exactly when its row exists. */
  lemma ReportSections(t: Tables, id: int)
    ensures var sat := SatellitesOf(t, id);
      (SatelliteSection(TreatmentHeader, sat.treatments, TreatmentFields) == [] <==> id !in t.treatments) &&
      (SatelliteSection(HistoryHeader, sat.exams, HistoryFields) == [] <==> id !in t.exams) &&
      (SatelliteSection(FollowUpHeader, sat.observations, FollowUpFields) == [] <==> id !in t.observations) &&
      (id !in t.vaccinations ==> VaccinationSection(StoredVaccinations(sat.vaccinations)) == [])
  {
    var sat := SatellitesOf(t, id);
    SatelliteSectionShown(TreatmentHeader, sat.treatments, TreatmentFields);
    SatelliteSectionShown(HistoryHeader, sat.exams, HistoryFields);
    SatelliteSectionShown(FollowUpHeader, sat.observations, FollowUpFields);
  }

  /* ----------------------------------------------------------------------
     The handler
     ---------------------------------------------------------------------- */

  /** The paragraphs of one stored vaccine. */
  method AddVaccine(doc: Document, e: Entry)
    modifies doc
    ensures doc.lines == old(doc.lines) + VaccineLines(e)
  {
    var data := e.value;
    if data.Arr? {
      ghost var before := doc.lines;
      var first := "Vaccin: " + KeyString(e.key);
      doc.AddText(first);
      var received := Get(data, "received");
      ghost var r: seq<string> := [];
      if IsSet(received) {
        var line := "Re\U{C3}\U{A7}u: " + Interpolate(received.value);
        doc.AddText(line);
        r := [line];
      }
      var date := Get(data, "date");
      ghost var d: seq<string> := [];
      if IsSet(date) {
        var line := "Date: " + Interpolate(date.value);
        doc.AddText(line);
        d := [line];
      }
      assert doc.lines == before + ([first] + r + d);
    }
  }

  /** The per-vaccine loop of section 6. */
  method AddVaccines(doc: Document, es: seq<Entry>)
    modifies doc
    ensures doc.lines == old(doc.lines) + AllVaccineLines(es)
  {
    var i := 0;
    while i < |es|
      invariant 0 <= i <= |es|
      invariant doc.lines == old(doc.lines) + AllVaccineLines(es[..i])
    {
      AllVaccineLinesStep(es, i);
      AddVaccine(doc, es[i]);
      i := i + 1;
    }
    assert es[..i] == es;
  }

  lemma AllVaccineLinesStep(es: seq<Entry>, i: nat)
    requires i < |es|
    ensures AllVaccineLines(es[..i + 1]) == AllVaccineLines(es[..i]) + VaccineLines(es[i])
  {
    assert es[..i + 1][..i] == es[..i];
  }

  /** The bullet loop of section 7. */
  method AddExams(doc: Document, es: seq<Entry>)
    modifies doc
    ensures doc.lines == old(doc.lines) + ExamLines(es)
  {
    var i := 0;
    while i < |es|
      invariant 0 <= i <= |es|
      invariant doc.lines == old(doc.lines) + ExamLines(es[..i])
    {
      assert es[..i + 1][..i] == es[..i];
      if Truthy(es[i].value) {
        doc.AddText("\U{E2}\U{80}\U{A2} " + Interpolate(es[i].value));
      }
      i := i + 1;
    }
    assert es[..i] == es;
  }

  method AddSatellite(doc: Document, header: string, row: Option<Row>, fields: seq<(string, string)>)
    modifies doc
    ensures doc.lines == old(doc.lines) + SatelliteSection(header, row, fields)
  {
    if row.Some? {
      doc.AddText(header);
      AddFields(doc, row.value, fields, false);
    }
  }

  method AddOpening(doc: Document, c: Row, clock: Clock)
    modifies doc
    ensures doc.lines == old(doc.lines) + Opening(c, clock)
  {
    var name, date := NameLabel + FieldValue(c, FullName), DateLabel + clock.display;
    doc.AddText(Title);
    doc.AddText(PatientHeader);
    doc.AddText(name);
    doc.AddText(date);
  }

  method AddRootSections(doc: Document, c: Row)
    modifies doc
    ensures doc.lines == old(doc.lines) + RootSections(c)
  {
    ghost var before := doc.lines;
    ghost var admin, demo := FieldLines(c, AdminFields, false), FieldLines(c, DemoFields, true);
    doc.AddText(AdminHeader);
    AddFields(doc, c, AdminFields, false);
    Regroup(before, [AdminHeader], admin);
    ghost var mid := doc.lines;
    doc.AddText(DemoHeader);
    AddFields(doc, c, DemoFields, true);
    Regroup(mid, [DemoHeader], demo);
    Regroup(before, [AdminHeader] + admin, [DemoHeader] + demo);
  }

  method AddSatellites(doc: Document, sat: Satellites)
    modifies doc
    ensures doc.lines == old(doc.lines) + SatelliteSections(sat)
  {
    AddSatellite(doc, TreatmentHeader, sat.treatments, TreatmentFields);
    AddSatellite(doc, HistoryHeader, sat.exams, HistoryFields);
    AddSatellite(doc, FollowUpHeader, sat.observations, FollowUpFields);
  }

  /** Section 6. */
  method AddVaccination(doc: Document, v: Value)
    modifies doc
    ensures doc.lines == old(doc.lines) + VaccinationSection(v)
  {
    if Truthy(v) {
      doc.AddText(VaccinationHeader);
      if v.Arr? {
        AddVaccines(doc, v.entries);
      }
    }
  }

  /** Section 7. */
  method AddExamsToDo(doc: Document, c: Row)
    modifies doc
    ensures doc.lines == old(doc.lines) + ExamsToDoSection(c)
  {
    if Truthy(Column(c, ExamsToDo)) {
      doc.AddText(ExamsToDoHeader);
      var decoded := Decode(c[ExamsToDo]);
      if decoded.Some? && decoded.value.Arr? {
        AddExams(doc, decoded.value.entries);
      }
    }
  }

  /** Section 8. */
  method AddComments(doc: Document, c: Row)
    modifies doc
    ensures doc.lines == old(doc.lines) + CommentsSection(c)
  {
    if Truthy(Column(c, Comments)) {
      doc.AddText(CommentsHeader);
      doc.AddText(c[Comments]);
    }
  }

  method AddClosing(doc: Document, c: Row, vaccinations: Option<Row>)
    modifies doc
    ensures doc.lines == old(doc.lines) + Closing(c, vaccinations)
  {
    ghost var v, x, m := VaccinationSection(StoredVaccinations(vaccinations)), ExamsToDoSection(c), CommentsSection(c);
    AddVaccination(doc, StoredVaccinations(vaccinations));
    AddExamsToDo(doc, c);
    AddComments(doc, c);
    doc.AddText(Footer);
    assert doc.lines == old(doc.lines) + v + x + m + [Footer];
    assert Closing(c, vaccinations) == v + x + m + [Footer];
    Regroup5(old(doc.lines), v, x, m, [Footer]);
  }

  /** The document, paragraph by paragraph. */
  method BuildReport(c: Row, sat: Satellites, clock: Clock) returns (doc: Document)
    ensures doc.lines == Report(c, sat, clock)
  {
    ghost var o, rs, ss, cl := Opening(c, clock), RootSections(c), SatelliteSections(sat), Closing(c, sat.vaccinations);
    doc := new Document();
    AddOpening(doc, c, clock);
    assert doc.lines == o;
    AddRootSections(doc, c);
    assert doc.lines == o + rs;
    AddSatellites(doc, sat);
    AddClosing(doc, c, sat.vaccinations);
    assert doc.lines == o + rs + ss + cl;
  }

  /** The request handler on the session and the database. */
  method Submit(s: Session, db: Db, isPost: bool, post: Value, clock: Clock, failure: Failure) returns (r: FinalReply)
    modifies s
    ensures Handle(old(s.data), db.State(), isPost, post, clock, failure) == FinalResult(s.data, r)
  {
    if !isPost {
      return MethodNotAllowed;
    }
    var check := CsrfCheck(s.data, Get(post, CsrfToken));
    if check == CsrfCrash {
      return Fatal;
    }
    if check == Reject {
      return CsrfInvalid;
    }
    var id := IntCast(Coalesce(Get(post, ConsultationId), Int(0)));
    if id == 0 {
      return MissingId;
    }
    if failure == DatabaseFails {
      return ServerError;
    }
    if id !in db.consultations {
      return NotFound;
    }
    var c := db.consultations[id];
    var doc := BuildReport(c, SatellitesOf(db.State(), id), clock);
    if failure == WriterFails {
      return ServerError;
    }
    var filename := Filename(c, clock);
    ForgetForm(s);
    r := Download(filename, doc.lines);
  }

  /** The three `unset` calls after the download. */
  method ForgetForm(s: Session)
    modifies s
    ensures s.data == old(s.data) - SubmittedKeys
  {
    s.Unset(FormData);
    s.Unset(ConsultationId);
    s.Unset(CurrentStep);
  }
}
