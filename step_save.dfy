/** `save_consultation_step.php`: one wizard step submitted by the browser.
    The request passes, in this order, the inactivity timeout, the method
    check, the CSRF guard, the `save_session` shortcut, validation of the raw
    input against the step's rules, sanitisation, creation of the
    consultation when no id is given, the "RAS" default pass, the
    allow-listed write into the step's table and the per-step snapshot in
    the session. */
module StepSave {
  import opened Php
  import opened Json
  import opened Sanitizer
  import opened Validation
  import opened Sessions
  import opened Store

  /* ----------------------------------------------------------------------
     Routing and rules
     ---------------------------------------------------------------------- */

  /** `(int)($input['current_step'] ?? 1)`. */
  function StepOf(input: Value): int
  {
    IntCast(Coalesce(Get(input, "current_step"), Int(1)))
  }

  /** `(int)($input['consultation_id'] ?? 0)`. */
  function IdOf(input: Value): int
  {
    IntCast(Coalesce(Get(input, "consultation_id"), Int(0)))
  }

  /** `$stepTableMap[$currentStep] ?? 'consultations'`. */
  function StepTable(step: int): TableName
  {
    if step == 3 then Treatments
    else if step == 4 then Exams
    else if step == 5 || step == 7 then Observations
    else if step == 6 then Vaccinations
    else Consultations
  }

  /** `$validationRules[$currentStep] ?? []`. */
  function StepRules(step: int): RuleTable
  {
    if step == 1 then
      [("fosa", ["required", "string", "max:255"]),
       ("region", ["required", "string", "max:255"]),
       ("district", ["string", "max:255"]),
       ("diagnostic_date", ["date"]),
       ("ipp", ["string", "max:255"]),
       ("personnel", ["string", "max:255"]),
       ("referred", ["in:Oui,Non"]),
       ("referred_from", ["string", "max:255"]),
       ("referred_for", ["string", "max:255"]),
       ("evolution", ["string", "max:255"])]
    else if step == 2 then
      [("full_name", ["required", "string", "max:255"]),
       ("age", ["integer", "min:0"]),
       ("birth_date", ["date"]),
       ("sex", ["in:M,F"]),
       ("address", ["string"]),
       ("emergency_contact_name", ["string", "max:255"]),
       ("emergency_contact_relation", ["string", "max:255"]),
       ("emergency_contact_phone", ["nullable", "regex:/^[0-9]{9}$/"]),
       ("lives_with", ["in:Oui,Non"]),
       ("insurance", ["in:Oui,Non"]),
       ("support_group", ["in:Oui,Non"]),
       ("group_name", ["string", "max:255"]),
       ("parents", ["in:Oui,Non"]),
       ("sibling_rank", ["integer", "min:1"])]
    else if step == 3 then
      [("hydroxyurea", ["in:Oui,Non"]),
       ("tolerance", ["string", "max:50"]),
       ("hydroxyurea_reasons", ["string", "max:255"]),
       ("hydroxyurea_dosage", ["string", "max:100"]),
       ("folic_acid", ["in:Oui,Non"]),
       ("penicillin", ["in:Oui,Non"]),
       ("regular_transfusion", ["in:Oui,Non"]),
       ("transfusion_type", ["string", "max:50"]),
       ("transfusion_frequency", ["string", "max:100"]),
       ("last_transfusion_date", ["date"]),
       ("other_treatments", ["string"])]
    else if step == 4 then
      [("sickle_type", ["in:SS,SC,S\U{CE}\U{B2}\U{E2}\U{81}\U{B0},S\U{CE}\U{B2}\U{E2}\U{81}\U{BA},Autre"]),
       ("diagnosis_age", ["string", "max:50"]),
       ("diagnosis_circumstance", ["string", "max:50"]),
       ("family_history", ["string", "max:50"]),
       ("other_medical_history", ["in:Oui,Non"]),
       ("previous_surgeries", ["in:Oui,Non"]),
       ("allergies", ["in:Oui,Non"]),
       ("vocs", ["string", "max:50"]),
       ("hospitalizations", ["string", "max:50"])]
    else if step == 5 then
      [("impact_scolaire", ["in:Oui,Non"]),
       ("accompagnement_psychologique", ["in:Oui,Non"]),
       ("soutien_social", ["in:Oui,Non"]),
       ("famille_informee", ["in:Oui,Non"]),
       ("date_prochaine_consultation", ["date"])]
    else if step == 6 then
      [("vaccination_data", ["string"])]
    else if step == 7 then
      [("plan_suivi_personnalise", ["string", "max:100"])]
    else if step == 8 then
      [("examens_avant_consultation", ["array"]),
       ("education_therapeutique", ["in:Oui,Non"])]
    else if step == 9 then
      [("commentaires", ["string"])]
    else []
  }

  /** The two tables the handler is written against: the validation rules
      of each step and the columns each target table accepts. The request
      below is defined, and most of its properties proved, for any such
      pair; `Wizard` is the pair the handler declares. */
  datatype Config = Config(rules: int -> RuleTable, columns: TableName -> seq<string>)

  const Wizard: Config := Config(StepRules, AllowList)

  /** Steps 1, 2, 8 and 9 go to the root table, 3 to treatments, 4 to
      exams, 5 and 7 to observations, 6 to vaccinations; any other step
      number goes to the root table with no rules, so validation never
      rejects it. */
  lemma Routing(step: int, input: Value)
    ensures StepTable(step) == Consultations <==> step in {1, 2, 8, 9} || step < 1 || step > 9
    ensures StepTable(step) == Treatments <==> step == 3
    ensures StepTable(step) == Exams <==> step == 4
    ensures StepTable(step) == Observations <==> step == 5 || step == 7
    ensures StepTable(step) == Vaccinations <==> step == 6
    ensures (step < 1 || step > 9) ==> StepRules(step) == [] && CheckFields(input, StepRules(step)) == Done([])
  {
  }

  /** A request without `current_step` is step 1. */
  lemma MissingStepIsOne(input: Value)
    requires !IsSet(Get(input, "current_step"))
    ensures StepOf(input) == 1 && StepTable(StepOf(input)) == Consultations
  {
  }

  /** Every field a step validates, except `education_therapeutique` at
      step 8, is a column of that step's table. */
  lemma RulesWithinAllowList(step: int)
    requires 1 <= step <= 9
    ensures forall i :: 0 <= i < |StepRules(step)| ==>
      StepRules(step)[i].0 in AllowList(StepTable(step)) || (step == 8 && StepRules(step)[i].0 == "education_therapeutique")
  {
    if step == 1 || step == 2 || step == 8 || step == 9 {
      RootRulesAllowed(step);
    } else {
      SatelliteRulesAllowed(step);
    }
  }

  lemma RootRulesAllowed(step: int)
    requires step == 1 || step == 2 || step == 8 || step == 9
    ensures forall i :: 0 <= i < |StepRules(step)| ==>
      StepRules(step)[i].0 in AllowList(StepTable(step)) || (step == 8 && StepRules(step)[i].0 == "education_therapeutique")
  {
    EducationNotStoredAtRoot();
    if step == 1 { } else if step == 2 { } else if step == 8 { } else { }
  }

  lemma SatelliteRulesAllowed(step: int)
    requires 3 <= step <= 7
    ensures forall i :: 0 <= i < |StepRules(step)| ==> StepRules(step)[i].0 in AllowList(StepTable(step))
  {
    if step == 3 { } else if step == 4 { } else if step == 5 { } else if step == 6 { } else { }
  }

  /* ----------------------------------------------------------------------
     Payload
     ---------------------------------------------------------------------- */

  /** `$a['f'] = $x` on an array. */
  function SetField(v: Value, f: string, x: Value): (r: Value)
    ensures v.Arr? ==> r.Arr? && Get(r, f) == Some(x) && forall g :: g != f ==> Get(r, g) == Get(v, g)
    ensures !v.Arr? ==> r == v
  {
    if v.Arr? then Arr(Put(v.entries, StrKey(f), x)) else v
  }

  /** `array_filter($a)`: the truthy entries, keys kept. */
  function ArrayFilter(es: seq<Entry>): (r: seq<Entry>)
    ensures forall i :: 0 <= i < |r| ==> Truthy(r[i].value) && r[i] in es
    ensures forall e :: e in es && Truthy(e.value) ==> e in r
  {
    if es == [] then []
    else (if Truthy(es[0].value) then [es[0]] else []) + ArrayFilter(es[1..])
  }

  /** The value `json_encode` puts in place of the exam list: the text, or
      `false` when a key of the list is not UTF-8 (the root table then
      receives "", as PDO binds `false`). */
  function EncodedExams(es: seq<Entry>): (r: Value)
    ensures Utf8Clean(Arr(es)) ==> r.Str? && Decode(r.s) == Some(Arr(es))
    ensures !Utf8Clean(Arr(es)) ==> r == Bool(false) && DbText(r) == ""
  {
    match JsonEncode(Arr(es))
    case Some(j) => Str(j)
    case None => Bool(false)
  }

  /** Sanitisation of the validated input, the phone clean-up and the JSON
      encoding of the exam list. A phone field that is a non-empty array
      makes `sanitizePhone` throw a `TypeError`. */
  function Payload(input: Value): (r: Outcome<Value>)
    ensures input.Arr? && r.Done? ==> r.value.Arr?
    ensures !input.Arr? ==> r == Done(Sanitize(input))
  {
    var s := Sanitize(input);
    var o := Get(s, "emergency_contact_phone");
    var phone := if IsSet(o) then SanitizePhone(o.value) else Done(Null);
    if phone.TypeError? then TypeError
    else
      var s1 := if IsSet(o) then SetField(s, "emergency_contact_phone", phone.value) else s;
      var x := Get(s1, "examens_avant_consultation");
      if IsSet(x) && x.value.Arr? then
        Done(SetField(s1, "examens_avant_consultation", EncodedExams(ArrayFilter(x.value.entries))))
      else Done(s1)
  }

  /* ----------------------------------------------------------------------
     The "RAS" default pass
     ---------------------------------------------------------------------- */

  const Ras := "RAS"

  /** `$value === null || $value === '' || (is_array($value) && count($value)
      === 0)`. */
  predicate Blank(v: Value)
  {
    v == Null || v == Str("") || v == Arr([])
  }

  /** The entries after the `foreach` that replaces blank values by "RAS". */
  function RasDefaults(es: seq<Entry>): (r: seq<Entry>)
    ensures Keys(r) == Keys(es)
    ensures forall i :: 0 <= i < |r| ==> !Blank(r[i].value)
    ensures forall i :: 0 <= i < |r| ==> if Blank(es[i].value) then r[i].value == Str(Ras) else r[i].value == es[i].value
  {
    seq(|es|, i requires 0 <= i < |es| => Entry(es[i].key, if Blank(es[i].value) then Str(Ras) else es[i].value))
  }

  /** The payload after the pass; a payload that is not an array is left
      alone (the `foreach` does not run). */
  function WithRas(p: Value): Value
  {
    if p.Arr? then Arr(RasDefaults(p.entries)) else p
  }

  /** The `foreach ($sanitizedData as $key => $value)` loop, rewriting the
      entries in place. */
  method FillDefaults(es: seq<Entry>) returns (r: seq<Entry>)
    ensures r == RasDefaults(es)
  {
    r := es;
    var i := 0;
    while i < |r|
      invariant 0 <= i <= |r| == |es|
      invariant forall j :: 0 <= j < i ==> r[j] == RasDefaults(es)[j]
      invariant forall j :: i <= j < |r| ==> r[j] == es[j]
    {
      if Blank(r[i].value) {
        r := r[i := Entry(r[i].key, Str(Ras))];
      }
      i := i + 1;
    }
  }

  /** After the pass every field the payload holds is set, so `isset` in
      the allow-list loops is true exactly for the fields present; a field
      that was blank reads "RAS" and any other keeps its value. */
  lemma RasFieldsSet(es: seq<Entry>, f: string)
    ensures IsSet(Get(Arr(RasDefaults(es)), f)) <==> Get(Arr(es), f).Some?
    ensures Get(Arr(es), f).Some? ==>
      Get(Arr(RasDefaults(es)), f).value == (if Blank(Get(Arr(es), f).value) then Str(Ras) else Get(Arr(es), f).value)
  {
    IndexOfSameKeys(RasDefaults(es), es, StrKey(f));
  }

  /** A required field holding only blanks passes validation, is cleared by
      sanitisation and is then stored as "RAS". */
  lemma BlankRequiredStoredAsRas(field: string, s: string, rule: string)
    requires ParseRule(rule).name == "required"
    requires s != [] && forall i :: 0 <= i < |s| ==> IsTrimChar(s[i])
    ensures ApplyRule(field, Str(s), rule) == Pass
    ensures Sanitize(Str(s)) == Null
    ensures RasDefaults([Entry(StrKey(field), Sanitize(Str(s)))])[0].value == Str(Ras)
  {
    assert TrimStart(s) == [];
    assert IsTrimChar(s[0]) && !IsTrimChar('0');
    RequiredRejects(field, Str(s), rule);
  }

  /* ----------------------------------------------------------------------
     The request
     ---------------------------------------------------------------------- */

  /** What the handler answers. */
  datatype Response =
    | SessionExpired                        // 401
    | MethodNotAllowed                      // 405
    | CsrfInvalid                           // 403
    | SessionSaved                          // 200, `save_session`
    | InvalidData(errors: ErrorMap)         // 400 with the error map
    | StepSaved(id: Value, step: int)       // 200 with the consultation id
    | SaveFailed                            // 500, after rollback
    | Fatal                                 // an uncaught `TypeError`

  function Status(r: Response): int
  {
    match r
    case SessionExpired => 401
    case MethodNotAllowed => 405
    case CsrfInvalid => 403
    case SessionSaved => 200
    case InvalidData(_) => 400
    case StepSaved(_, _) => 200
    case SaveFailed => 500
    case Fatal => 500
  }

  /** Where the database throws, if it does: at `Database::getInstance()`,
      at the insert of a new consultation, or later (the write statement or
      the commit). */
  datatype Fault = NoFault | ConnectFails | InsertFails | WriteFails

  datatype StepResult = StepResult(session: SessionMap, tables: Tables, response: Response)

  /** `$_SESSION['consultation_form_data'][$currentStep] = $data`: the
      snapshot array is created when there is none. */
  function PutStep(o: Option<Value>, step: int, data: Value): (r: Value)
    ensures r.Arr? && Lookup(r.entries, IntKey(step)) == Some(data)
    ensures o.Some? && o.value.Arr? ==>
      forall k :: k != IntKey(step) ==> Lookup(r.entries, k) == Lookup(o.value.entries, k)
  {
    if o.Some? && o.value.Arr? then Arr(Put(o.value.entries, IntKey(step), data))
    else
      var es := [Entry(IntKey(step), data)];
      assert IndexOf(es, IntKey(step)) == 0;
      Arr(es)
  }

  /** The whole request, from the session, the database, the clock and the
      decoded input. */
  function Handle(cfg: Config, sess: SessionMap, t: Tables, now: int, isPost: bool, input: Value, fault: Fault): StepResult
  {
    if Expired(sess, now) then StepResult(map[], t, SessionExpired)
    else
      var s1 := sess[LastActivity := Int(now)];
      if !isPost then StepResult(s1, t, MethodNotAllowed)
      else
        match CsrfCheck(s1, Get(input, CsrfToken))
        case CsrfCrash => StepResult(s1, t, Fatal)
        case Reject => StepResult(s1, t, CsrfInvalid)
        case Accept =>
          if Get(input, "action") == Some(Str("save_session")) then StepResult(s1[FormData := input], t, SessionSaved)
          else Accepted(cfg, s1, t, input, fault)
  }

  /** A request past the CSRF guard: validation, then sanitisation, then the
      transaction. */
  function Accepted(cfg: Config, s1: SessionMap, t: Tables, input: Value, fault: Fault): StepResult
  {
    match CheckFields(input, cfg.rules(StepOf(input)))
    case TypeError => StepResult(s1, t, Fatal)
    case Done(errors) =>
      if errors != [] then StepResult(s1, t, InvalidData(errors))
      else
        match Payload(input)
        case TypeError => StepResult(s1, t, Fatal)
        case Done(p) => Persist(cfg, s1, t, StepOf(input), IdOf(input), p, fault)
  }

  /** The transaction: a consultation is created when the id casts to 0,
      the payload gets its defaults and is written; on an exception the
      tables are rolled back but the session id set after the insert stays. */
  function Persist(cfg: Config, s1: SessionMap, t: Tables, step: int, id: int, p: Value, fault: Fault): StepResult
  {
    if fault == ConnectFails then StepResult(s1, t, Fatal)
    else if id == 0 && fault == InsertFails then StepResult(s1, t, SaveFailed)
    else
      var key := if id == 0 then t.nextId else id;
      var t1 := if id == 0 then t.(consultations := t.consultations[key := map[]], nextId := key + 1) else t;
      var s2 := if id == 0 then s1[ConsultationId := Str(DecimalString(key))] else s1;
      var data := WithRas(p);
      if fault == WriteFails then StepResult(s2, t.(nextId := t1.nextId), SaveFailed)
      else
        StepResult(
          s2[FormData := PutStep(Read(s2, FormData), step, data)][CurrentStep := Int(step)],
          WriteStep(t1, StepTable(step), cfg.columns(StepTable(step)), key, data),
          StepSaved(if id == 0 then Str(DecimalString(key)) else Int(id), step))
  }

  /* ----------------------------------------------------------------------
     Properties of the request
     ---------------------------------------------------------------------- */

  /** An expired session is wiped and answered with 401 before anything
      else. */
  lemma ExpiryFirst(cfg: Config, sess: SessionMap, t: Tables, now: int, isPost: bool, input: Value, fault: Fault)
    ensures Handle(cfg, sess, t, now, isPost, input, fault).response == SessionExpired <==> Expired(sess, now)
    ensures Expired(sess, now) ==>
      Handle(cfg, sess, t, now, isPost, input, fault).session == map[] && Handle(cfg, sess, t, now, isPost, input, fault).tables == t
  {
  }

  /** The transaction sets only the id, the snapshots and the current
      step in the session. */
  lemma PersistKeepsOtherKeys(cfg: Config, s1: SessionMap, t: Tables, step: int, id: int, p: Value, fault: Fault, k: string)
    requires k != ConsultationId && k != FormData && k != CurrentStep
    ensures k in Persist(cfg, s1, t, step, id, p, fault).session <==> k in s1
    ensures k in s1 ==> Persist(cfg, s1, t, step, id, p, fault).session[k] == s1[k]
  {
  }

  lemma AcceptedKeepsOtherKeys(cfg: Config, s1: SessionMap, t: Tables, input: Value, fault: Fault, k: string)
    requires k != ConsultationId && k != FormData && k != CurrentStep
    ensures k in Accepted(cfg, s1, t, input, fault).session <==> k in s1
    ensures k in s1 ==> Accepted(cfg, s1, t, input, fault).session[k] == s1[k]
  {
    var checked := CheckFields(input, cfg.rules(StepOf(input)));
    if checked.Done? && checked.value == [] && Payload(input).Done? {
      PersistKeepsOtherKeys(cfg, s1, t, StepOf(input), IdOf(input), Payload(input).value, fault, k);
    }
  }

  /** A request on a live session leaves `last_activity` at the current
      time, whatever happens next. */
  lemma ActivityRefreshed(cfg: Config, sess: SessionMap, t: Tables, now: int, isPost: bool, input: Value, fault: Fault)
    requires !Expired(sess, now)
    ensures LastActivity in Handle(cfg, sess, t, now, isPost, input, fault).session
    ensures Handle(cfg, sess, t, now, isPost, input, fault).session[LastActivity] == Int(now)
  {
    var s1 := sess[LastActivity := Int(now)];
    if isPost && CsrfCheck(s1, Get(input, CsrfToken)) == Accept && Get(input, "action") != Some(Str("save_session")) {
      AcceptedKeepsOtherKeys(cfg, s1, t, input, fault, LastActivity);
    }
  }

  /** A request stopped by the method check or the CSRF guard changes
      nothing but `last_activity`. */
  lemma GuardsChangeNothing(cfg: Config, sess: SessionMap, t: Tables, now: int, isPost: bool, input: Value, fault: Fault)
    requires !Expired(sess, now)
    requires !isPost || CsrfCheck(sess[LastActivity := Int(now)], Get(input, CsrfToken)) != Accept
    ensures Handle(cfg, sess, t, now, isPost, input, fault).tables == t
    ensures Handle(cfg, sess, t, now, isPost, input, fault).session == sess[LastActivity := Int(now)]
    ensures Handle(cfg, sess, t, now, isPost, input, fault).response in {MethodNotAllowed, CsrfInvalid, Fatal}
    ensures isPost && !IsSet(Get(input, CsrfToken)) ==> Handle(cfg, sess, t, now, isPost, input, fault).response == CsrfInvalid
  {
  }

  /** `save_session` replaces the form data wholesale with the raw input,
      with no validation and no database access. */
  lemma SaveSessionShortcut(cfg: Config, sess: SessionMap, t: Tables, now: int, input: Value, fault: Fault)
    requires !Expired(sess, now)
    requires CsrfCheck(sess[LastActivity := Int(now)], Get(input, CsrfToken)) == Accept
    requires Get(input, "action") == Some(Str("save_session"))
    ensures Handle(cfg, sess, t, now, true, input, fault) == StepResult(sess[LastActivity := Int(now)][FormData := input], t, SessionSaved)
  {
  }

  /** Validation runs on the raw input; a rejected request answers 400
      with the full error map and changes neither the tables nor the
      snapshots. */
  lemma InvalidChangesNothing(cfg: Config, s1: SessionMap, t: Tables, input: Value, fault: Fault)
    ensures Accepted(cfg, s1, t, input, fault).response.InvalidData? <==>
      CheckFields(input, cfg.rules(StepOf(input))).Done? && CheckFields(input, cfg.rules(StepOf(input))).value != []
    ensures Accepted(cfg, s1, t, input, fault).response.InvalidData? ==>
      Accepted(cfg, s1, t, input, fault) == StepResult(s1, t, InvalidData(CheckFields(input, cfg.rules(StepOf(input))).value))
  {
    var checked := CheckFields(input, cfg.rules(StepOf(input)));
    if checked.Done? && checked.value == [] && Payload(input).Done? {
      PersistNeverInvalid(cfg, s1, t, StepOf(input), IdOf(input), Payload(input).value, fault);
    }
  }

  /** The transaction answers with anything but a validation failure. */
  lemma PersistNeverInvalid(cfg: Config, s1: SessionMap, t: Tables, step: int, id: int, p: Value, fault: Fault)
    ensures !Persist(cfg, s1, t, step, id, p, fault).response.InvalidData?
  {
  }

  /** A nonzero id is echoed back as it is and creates no row. */
  lemma IdKept(cfg: Config, s1: SessionMap, t: Tables, step: int, id: int, p: Value, fault: Fault)
    requires id != 0
    requires Persist(cfg, s1, t, step, id, p, fault).response.StepSaved?
    ensures Persist(cfg, s1, t, step, id, p, fault).response.id == Int(id)
    ensures Persist(cfg, s1, t, step, id, p, fault).tables.consultations.Keys == t.consultations.Keys
  {
    WriteStepEffect(t, StepTable(step), cfg.columns(StepTable(step)), id, WithRas(p));
  }

  /** An id that casts to 0 creates exactly one consultation row, under the
      next id, which is answered as text and kept in the session. */
  lemma IdCreated(cfg: Config, s1: SessionMap, t: Tables, step: int, p: Value, fault: Fault)
    requires Fresh(t)
    requires Persist(cfg, s1, t, step, 0, p, fault).response.StepSaved?
    ensures Persist(cfg, s1, t, step, 0, p, fault).response.id == Str(DecimalString(t.nextId))
    ensures Persist(cfg, s1, t, step, 0, p, fault).tables.consultations.Keys == t.consultations.Keys + {t.nextId}
    ensures |Persist(cfg, s1, t, step, 0, p, fault).tables.consultations| == |t.consultations| + 1
    ensures Persist(cfg, s1, t, step, 0, p, fault).tables.nextId == t.nextId + 1
    ensures Persist(cfg, s1, t, step, 0, p, fault).session[ConsultationId] == Str(DecimalString(t.nextId))
  {
    var key := t.nextId;
    var t1 := t.(consultations := t.consultations[key := map[]], nextId := key + 1);
    PersistNewId(cfg, s1, t, step, p, fault);
    SessionKeysDistinct();
    InsertThenWrite(t, StepTable(step), cfg.columns(StepTable(step)), WithRas(p));
  }

  /** A saved step without an id: a new root row, the step's write on it,
      and the new id in the session and the answer. */
  lemma PersistNewId(cfg: Config, s1: SessionMap, t: Tables, step: int, p: Value, fault: Fault)
    requires Persist(cfg, s1, t, step, 0, p, fault).response.StepSaved?
    ensures var key := t.nextId;
      var s2 := s1[ConsultationId := Str(DecimalString(key))];
      Persist(cfg, s1, t, step, 0, p, fault) == StepResult(
        s2[FormData := PutStep(Read(s2, FormData), step, WithRas(p))][CurrentStep := Int(step)],
        WriteStep(t.(consultations := t.consultations[key := map[]], nextId := key + 1),
          StepTable(step), cfg.columns(StepTable(step)), key, WithRas(p)),
        StepSaved(Str(DecimalString(key)), step))
  {
  }

  lemma SessionKeysDistinct()
    ensures ConsultationId != FormData && ConsultationId != CurrentStep
  {
    assert ConsultationId[13] == 'i' && FormData[13] == 'f';
    assert ConsultationId[1] == 'o' && CurrentStep[1] == 'u';
  }

  /** When `Database::getInstance()` throws, `$db` is never assigned and the
      catch block's `$db->rollback()` is a call on null: the request dies
      with an uncaught `Error` before anything is written. */
  lemma ConnectFailureIsFatal(cfg: Config, s1: SessionMap, t: Tables, step: int, id: int, p: Value)
    ensures Persist(cfg, s1, t, step, id, p, ConnectFails) == StepResult(s1, t, Fatal)
  {
  }

  /** The transaction keeps the auto-increment guarantee: whether it
      commits or rolls back, no id at or above the counter is in use. */
  lemma PersistFresh(cfg: Config, s1: SessionMap, t: Tables, step: int, id: int, p: Value, fault: Fault)
    requires Fresh(t)
    ensures Fresh(Persist(cfg, s1, t, step, id, p, fault).tables)
  {
    if fault != ConnectFails && !(id == 0 && fault == InsertFails) {
      var key := if id == 0 then t.nextId else id;
      var t1 := if id == 0 then t.(consultations := t.consultations[key := map[]], nextId := key + 1) else t;
      if id == 0 { InsertFresh(t); }
      if fault == WriteFails {
        assert Persist(cfg, s1, t, step, id, p, fault).tables == t.(nextId := t1.nextId);
        RollbackFresh(t, t1.nextId);
      } else {
        assert Persist(cfg, s1, t, step, id, p, fault).tables
          == WriteStep(t1, StepTable(step), cfg.columns(StepTable(step)), key, WithRas(p));
        WriteStepFresh(t1, StepTable(step), cfg.columns(StepTable(step)), key, WithRas(p));
      }
    }
  }

  /** Every request keeps the auto-increment guarantee, so `IdCreated`
      applies to the next request as well. */
  lemma HandleFresh(cfg: Config, sess: SessionMap, t: Tables, now: int, isPost: bool, input: Value, fault: Fault)
    requires Fresh(t)
    ensures Fresh(Handle(cfg, sess, t, now, isPost, input, fault).tables)
  {
    var s1 := sess[LastActivity := Int(now)];
    var checked := CheckFields(input, cfg.rules(StepOf(input)));
    if checked.Done? && checked.value == [] && Payload(input).Done? {
      PersistFresh(cfg, s1, t, StepOf(input), IdOf(input), Payload(input).value, fault);
    }
  }

  /** The tables after the transaction: as they were when nothing was
      inserted, the saved tables with the moved counter after a rollback,
      and otherwise the step's write on the tables with the new row. */
  lemma PersistTables(cfg: Config, s1: SessionMap, t: Tables, step: int, id: int, p: Value, fault: Fault)
    ensures var key := if id == 0 then t.nextId else id;
      var t1 := if id == 0 then t.(consultations := t.consultations[key := map[]], nextId := key + 1) else t;
      Persist(cfg, s1, t, step, id, p, fault).tables ==
        if fault == ConnectFails || (id == 0 && fault == InsertFails) then t
        else if fault == WriteFails then t.(nextId := t1.nextId)
        else WriteStep(t1, StepTable(step), cfg.columns(StepTable(step)), key, WithRas(p))
  {
  }

  /** Recording the same snapshot twice is recording it once. */
  lemma PutStepTwice(o: Option<Value>, step: int, data: Value)
    ensures PutStep(Some(PutStep(o, step, data)), step, data) == PutStep(o, step, data)
  {
    var r := PutStep(o, step, data);
    PutTwice(r.entries, IntKey(step), data);
    assert r.entries == Put(r.entries, IntKey(step), data) by {
      if o.Some? && o.value.Arr? {
        PutTwice(o.value.entries, IntKey(step), data);
      } else {
        assert IndexOf(r.entries, IntKey(step)) == 0;
        assert r.entries[0 := Entry(IntKey(step), data)] == r.entries;
      }
    }
  }

  /** A transaction for an existing id that commits, run again on its own
      outcome, changes nothing more and gives the same answer. */
  lemma PersistTwice(cfg: Config, s1: SessionMap, t: Tables, step: int, id: int, p: Value)
    requires id != 0
    ensures var r := Persist(cfg, s1, t, step, id, p, NoFault);
      Persist(cfg, r.session, r.tables, step, id, p, NoFault) == r
  {
    var r := Persist(cfg, s1, t, step, id, p, NoFault);
    var data := WithRas(p);
    var snap := PutStep(Read(s1, FormData), step, data);
    SessionKeysDistinct();
    assert Read(r.session, FormData) == Some(snap);
    PutStepTwice(Read(s1, FormData), step, data);
    WriteStepIdempotent(t, StepTable(step), cfg.columns(StepTable(step)), id, data);
    var s3 := r.session[FormData := PutStep(Read(r.session, FormData), step, data)][CurrentStep := Int(step)];
    assert s3 == r.session;
  }

  /** A validated save of a step for an existing consultation, resubmitted
      on the session and tables it produced, leaves them as they are and
      gives the same answer. */
  lemma AcceptedTwice(cfg: Config, s1: SessionMap, t: Tables, input: Value)
    requires IdOf(input) != 0
    ensures var r := Accepted(cfg, s1, t, input, NoFault);
      Accepted(cfg, r.session, r.tables, input, NoFault) == r
  {
    var checked := CheckFields(input, cfg.rules(StepOf(input)));
    if checked.Done? && checked.value == [] && Payload(input).Done? {
      PersistTwice(cfg, s1, t, StepOf(input), IdOf(input), Payload(input).value);
    }
  }

  /** The same request for an existing consultation, sent again at the
      same time on the session and tables the first one left after saving,
      is answered alike and changes nothing more. */
  lemma HandleTwice(cfg: Config, sess: SessionMap, t: Tables, now: int, input: Value)
    requires IdOf(input) != 0
    requires Handle(cfg, sess, t, now, true, input, NoFault).response.StepSaved?
    ensures var r := Handle(cfg, sess, t, now, true, input, NoFault);
      Handle(cfg, r.session, r.tables, now, true, input, NoFault) == r
  {
    var s1 := sess[LastActivity := Int(now)];
    var r := Accepted(cfg, s1, t, input, NoFault);
    assert Handle(cfg, sess, t, now, true, input, NoFault) == r;
    AcceptedTwice(cfg, s1, t, input);
    SessionKeysDistinct();
    AcceptedKeepsOtherKeys(cfg, s1, t, input, NoFault, LastActivity);
    AcceptedKeepsOtherKeys(cfg, s1, t, input, NoFault, CsrfToken);
    assert r.session[LastActivity := Int(now)] == r.session;
    assert CsrfCheck(r.session, Get(input, CsrfToken)) == CsrfCheck(s1, Get(input, CsrfToken));
  }

  /** Without an id, the same submission sent twice creates two
      consultations: the second request inserts another root row under the
      next id. */
  lemma ResubmitWithoutIdAddsRow(cfg: Config, s1: SessionMap, t: Tables, step: int, p: Value)
    requires Fresh(t)
    ensures var r := Persist(cfg, s1, t, step, 0, p, NoFault);
      var r2 := Persist(cfg, r.session, r.tables, step, 0, p, NoFault);
      r2.response.StepSaved? && r2.response.id != r.response.id
      && |r2.tables.consultations| == |t.consultations| + 2
  {
    var r := Persist(cfg, s1, t, step, 0, p, NoFault);
    NewRowSaved(cfg, s1, t, step, p);
    NewRowSaved(cfg, r.session, r.tables, step, p);
    DecimalStringInjective(t.nextId, t.nextId + 1);
  }

  /** A fault-free save without an id answers with the next id and adds
      one root row, keeping the auto-increment guarantee. */
  lemma NewRowSaved(cfg: Config, s1: SessionMap, t: Tables, step: int, p: Value)
    requires Fresh(t)
    ensures var r := Persist(cfg, s1, t, step, 0, p, NoFault);
      r.response == StepSaved(Str(DecimalString(t.nextId)), step)
      && |r.tables.consultations| == |t.consultations| + 1
      && r.tables.nextId == t.nextId + 1 && Fresh(r.tables)
  {
    NoFaultSaves(cfg, s1, t, step, 0, p);
    IdCreated(cfg, s1, t, step, p, NoFault);
    PersistFresh(cfg, s1, t, step, 0, p, NoFault);
  }

  /** Without a fault the transaction always saves. */
  lemma NoFaultSaves(cfg: Config, s1: SessionMap, t: Tables, step: int, id: int, p: Value)
    ensures Persist(cfg, s1, t, step, id, p, NoFault).response.StepSaved?
  {
  }

  /** Distinct ids print as distinct texts. */
  lemma DecimalStringInjective(i: int, j: int)
    requires i != j
    ensures DecimalString(i) != DecimalString(j)
  {
    IntRoundTrip(i, []);
    IntRoundTrip(j, []);
    assert DecimalString(i) + [] == DecimalString(i);
    assert DecimalString(j) + [] == DecimalString(j);
  }

  /** Whether it commits or rolls back, the transaction leaves a column
      that is not allow-listed for the step's table as it was, in every
      row of that table that existed before. */
  lemma PersistKeepsColumn(cfg: Config, s1: SessionMap, t: Tables, step: int, id: int, p: Value, fault: Fault, k: int, c: string)
    requires Fresh(t)
    requires c !in cfg.columns(StepTable(step)) && k in Table(t, StepTable(step))
    ensures ColumnKept(Table(t, StepTable(step)), Table(Persist(cfg, s1, t, step, id, p, fault).tables, StepTable(step)), k, c)
  {
    var target := StepTable(step);
    PersistTables(cfg, s1, t, step, id, p, fault);
    var key := if id == 0 then t.nextId else id;
    var t1 := if id == 0 then t.(consultations := t.consultations[key := map[]], nextId := key + 1) else t;
    if fault == ConnectFails || (id == 0 && fault == InsertFails) {
    } else if fault == WriteFails {
      assert Table(t.(nextId := t1.nextId), target) == Table(t, target);
    } else {
      if id == 0 { InsertKeepsRows(t, target, k); }
      KeptColumn(t1, target, cfg.columns(target), key, WithRas(p), k, c);
    }
  }

  /** A whole request leaves a column that is not allow-listed for its
      step's table as it was, in every row of that table that existed
      before. */
  lemma HandleKeepsColumn(cfg: Config, sess: SessionMap, t: Tables, now: int, isPost: bool, input: Value, fault: Fault, k: int, c: string)
    requires Fresh(t)
    requires c !in cfg.columns(StepTable(StepOf(input))) && k in Table(t, StepTable(StepOf(input)))
    ensures var target := StepTable(StepOf(input));
      ColumnKept(Table(t, target), Table(Handle(cfg, sess, t, now, isPost, input, fault).tables, target), k, c)
  {
    HandleTables(cfg, sess, t, now, isPost, input, fault);
    var s1 := sess[LastActivity := Int(now)];
    if Handle(cfg, sess, t, now, isPost, input, fault).tables != t {
      PersistKeepsColumn(cfg, s1, t, StepOf(input), IdOf(input), Payload(input).value, fault, k, c);
    }
  }

  /** A request either leaves the tables alone or ends with the tables of
      its validated transaction. */
  lemma HandleTables(cfg: Config, sess: SessionMap, t: Tables, now: int, isPost: bool, input: Value, fault: Fault)
    ensures var r := Handle(cfg, sess, t, now, isPost, input, fault);
      r.tables == t ||
      (CheckFields(input, cfg.rules(StepOf(input))) == Done([]) && Payload(input).Done?
       && r.tables == Persist(cfg, sess[LastActivity := Int(now)], t, StepOf(input), IdOf(input), Payload(input).value, fault).tables)
  {
  }

  /** With the handler's own tables, a step-8 request never stores
      `education_therapeutique`, although step 8 validates it: the field is
      not a column of the root table, so in every existing consultation row
      that column is left as it was. */
  lemma WizardKeepsEducation(sess: SessionMap, t: Tables, now: int, isPost: bool, input: Value, fault: Fault, k: int)
    requires Fresh(t) && StepOf(input) == 8 && k in t.consultations
    ensures ColumnKept(t.consultations, Handle(Wizard, sess, t, now, isPost, input, fault).tables.consultations, k, "education_therapeutique")
  {
    EducationNotStoredAtRoot();
    assert StepTable(8) == Consultations;
    HandleKeepsColumn(Wizard, sess, t, now, isPost, input, fault, k, "education_therapeutique");
  }

  /** On an exception the five tables are as before the request and the
      snapshots and current step are untouched; only an id assigned after a
      successful insert stays in the session. */
  lemma FailureRollsBack(cfg: Config, s1: SessionMap, t: Tables, step: int, id: int, p: Value, fault: Fault)
    requires Persist(cfg, s1, t, step, id, p, fault).response == SaveFailed
    ensures Persist(cfg, s1, t, step, id, p, fault).tables == t.(nextId := Persist(cfg, s1, t, step, id, p, fault).tables.nextId)
    ensures Persist(cfg, s1, t, step, id, p, fault).session == s1 ||
      (id == 0 && Persist(cfg, s1, t, step, id, p, fault).session == s1[ConsultationId := Str(DecimalString(t.nextId))])
  {
  }

  /** On success the step's data, with its defaults, is written to the
      step's table and recorded as the step's snapshot, and the current
      step is the submitted one. */
  lemma SuccessRecordsSnapshot(cfg: Config, s1: SessionMap, t: Tables, step: int, id: int, p: Value, fault: Fault)
    requires Persist(cfg, s1, t, step, id, p, fault).response.StepSaved?
    ensures fault != WriteFails
    ensures Persist(cfg, s1, t, step, id, p, fault).session[CurrentStep] == Int(step)
    ensures Persist(cfg, s1, t, step, id, p, fault).session[FormData].Arr?
    ensures Lookup(Persist(cfg, s1, t, step, id, p, fault).session[FormData].entries, IntKey(step)) == Some(WithRas(p))
  {
  }

  /** A successful request changes only the target table's row for the
      consultation (and creates the root row when the id was 0); in that
      row only allow-listed fields of the payload change. */
  lemma SuccessWritesAllowListOnly(cfg: Config, s1: SessionMap, t: Tables, step: int, id: int, p: Value, fault: Fault, c: string)
    requires p.Arr?
    requires Persist(cfg, s1, t, step, id, p, fault).response.StepSaved?
    requires id != 0 && id in Table(t, StepTable(step))
    ensures var after := Table(Persist(cfg, s1, t, step, id, p, fault).tables, StepTable(step))[id];
      var before := Table(t, StepTable(step))[id];
      if c in cfg.columns(StepTable(step)) && Get(p, c).Some? then
        c in after && after[c] == DbText(Get(WithRas(p), c).value)
      else
        (c in after <==> c in before) && (c in before ==> after[c] == before[c])
  {
    var data := WithRas(p);
    RasFieldsSet(p.entries, c);
    WriteStepEffect(t, StepTable(step), cfg.columns(StepTable(step)), id, data);
    WriteStepColumn(t, StepTable(step), cfg.columns(StepTable(step)), id, data, c);
  }

  /* ----------------------------------------------------------------------
     The handler
     ---------------------------------------------------------------------- */

  /** The request handler on the session and the database of the request. */
  method SaveStep(cfg: Config, s: Session, db: Db, now: int, isPost: bool, input: Value, fault: Fault) returns (r: Response)
    modifies s, db
    ensures Handle(cfg, old(s.data), old(db.State()), now, isPost, input, fault) == StepResult(s.data, db.State(), r)
  {
    if Expired(s.data, now) {
      s.Destroy();
      return SessionExpired;
    }
    s.Set(LastActivity, Int(now));
    if !isPost {
      return MethodNotAllowed;
    }
    var csrf := CsrfCheck(s.data, Get(input, CsrfToken));
    if csrf == CsrfCrash {
      return Fatal;
    } else if csrf == Reject {
      return CsrfInvalid;
    }
    if Get(input, "action") == Some(Str("save_session")) {
      s.Set(FormData, input);
      return SessionSaved;
    }
    r := SaveValidated(cfg, s, db, input, fault);
  }

  /** Validation, sanitisation and the transaction. */
  method SaveValidated(cfg: Config, s: Session, db: Db, input: Value, fault: Fault) returns (r: Response)
    modifies s, db
    ensures Accepted(cfg, old(s.data), old(db.State()), input, fault) == StepResult(s.data, db.State(), r)
  {
    var step := StepOf(input);
    var id := IdOf(input);
    var validator := new Validator();
    var ok, crashed := validator.Validate(input, cfg.rules(step));
    if crashed {
      return Fatal;
    }
    if !ok {
      return InvalidData(validator.errors);
    }
    var payload := Payload(input);
    if payload.TypeError? {
      return Fatal;
    }
    r := Transaction(cfg, s, db, step, id, payload.value, fault);
  }

  method Transaction(cfg: Config, s: Session, db: Db, step: int, id: int, p: Value, fault: Fault) returns (r: Response)
    modifies s, db
    ensures Persist(cfg, old(s.data), old(db.State()), step, id, p, fault) == StepResult(s.data, db.State(), r)
  {
    if fault == ConnectFails {
      return Fatal;
    }
    var saved := db.State();
    var key := id;
    if id == 0 {
      if fault == InsertFails {
        db.Rollback(saved);
        return SaveFailed;
      }
      key := db.InsertConsultation();
      s.Set(ConsultationId, Str(DecimalString(key)));
    }
    var data := p;
    if p.Arr? {
      var es := FillDefaults(p.entries);
      data := Arr(es);
    }
    db.Write(StepTable(step), cfg.columns(StepTable(step)), key, data);
    if fault == WriteFails {
      db.Rollback(saved);
      return SaveFailed;
    }
    s.Set(FormData, PutStep(Read(s.data, FormData), step, data));
    s.Set(CurrentStep, Int(step));
    r := StepSaved(if id == 0 then Str(DecimalString(key)) else Int(id), step);
  }
}
