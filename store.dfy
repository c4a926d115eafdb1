/** The five tables the wizard writes, keyed by consultation id, and the
    allow-listed sparse writes of the step handler: an `UPDATE` of the root
    `consultations` row and an `INSERT ... ON DUPLICATE KEY UPDATE` of a
    satellite row. A row maps column names to the text bound to them; a
    column that is absent is `NULL`. Timestamps (`NOW()`) are not modelled. */
module Store {
  import opened Php

  type Row = map<string, string>

  datatype TableName = Consultations | Treatments | Exams | Observations | Vaccinations

  /** The database: the root table keyed by its `AUTO_INCREMENT` id, the
      satellites keyed by their unique `consultation_id`, and the next id the
      root table hands out. */
  datatype Tables = Tables(
    consultations: map<int, Row>,
    treatments: map<int, Row>,
    exams: map<int, Row>,
    observations: map<int, Row>,
    vaccinations: map<int, Row>,
    nextId: int)

  function Table(t: Tables, name: TableName): map<int, Row>
  {
    match name
    case Consultations => t.consultations
    case Treatments => t.treatments
    case Exams => t.exams
    case Observations => t.observations
    case Vaccinations => t.vaccinations
  }

  function WithTable(t: Tables, name: TableName, m: map<int, Row>): (r: Tables)
    ensures Table(r, name) == m && r.nextId == t.nextId
    ensures forall n :: n != name ==> Table(r, n) == Table(t, n)
  {
    match name
    case Consultations => t.(consultations := m)
    case Treatments => t.(treatments := m)
    case Exams => t.(exams := m)
    case Observations => t.(observations := m)
    case Vaccinations => t.(vaccinations := m)
  }

  /** The text PDO binds for a value passed to `execute`: strings as they
      are, integers in decimal, `true` as "1" and `false` as "", an array as
      "Array". */
  function DbText(v: Value): string
  {
    match v
    case Null => ""
    case Bool(b) => if b then "1" else ""
    case Int(i) => DecimalString(i)
    case Str(s) => s
    case Arr(_) => "Array"
  }

  /** The columns each table accepts from a step's payload. */
  function AllowList(name: TableName): seq<string>
  {
    match name
    case Consultations =>
      ["fosa", "region", "district", "diagnostic_date", "ipp", "personnel",
       "referred", "referred_from", "referred_for", "evolution",
       "full_name", "age", "birth_date", "sex", "address", "emergency_contact_name",
       "emergency_contact_relation", "emergency_contact_phone", "lives_with",
       "insurance", "support_group", "group_name", "parents", "sibling_rank",
       "examens_avant_consultation", "commentaires"]
    case Treatments =>
      ["hydroxyurea", "tolerance", "hydroxyurea_reasons", "hydroxyurea_dosage",
       "folic_acid", "penicillin", "regular_transfusion", "transfusion_type",
       "transfusion_frequency", "last_transfusion_date", "other_treatments"]
    case Exams =>
      ["sickle_type", "diagnosis_age", "diagnosis_circumstance", "family_history",
       "other_medical_history", "previous_surgeries", "allergies", "vocs", "hospitalizations"]
    case Observations =>
      ["impact_scolaire", "accompagnement_psychologique", "soutien_social",
       "famille_informee", "date_prochaine_consultation", "plan_suivi_personnalise",
       "education_therapeutique"]
    case Vaccinations => ["vaccination_data"]
  }

  /** The column assignments built by the `foreach ($allowedFields ...)`
      loop: the allow-listed fields set in the payload, in allow-list
      order, with the text bound to them. */
  function Columns(allowed: seq<string>, payload: Value): (cols: seq<(string, string)>)
    ensures |cols| <= |allowed|
  {
    if allowed == [] then []
    else
      var f := allowed[|allowed| - 1];
      var o := Get(payload, f);
      Columns(allowed[..|allowed| - 1], payload) + (if IsSet(o) then [(f, DbText(o.value))] else [])
  }

  /** A row after `SET c1 = v1, c2 = v2, ...`. */
  function Overlay(row: Row, cols: seq<(string, string)>): Row
  {
    if cols == [] then row
    else Overlay(row, cols[..|cols| - 1])[cols[|cols| - 1].0 := cols[|cols| - 1].1]
  }

  /** An allow-listed field set in the payload is written with the payload's
      value; every other column keeps its previous state, present or not. */
  lemma {:induction false} OverlayColumns(row: Row, allowed: seq<string>, payload: Value, c: string)
    ensures (c in allowed && IsSet(Get(payload, c))) ==>
      c in Overlay(row, Columns(allowed, payload)) &&
      Overlay(row, Columns(allowed, payload))[c] == DbText(Get(payload, c).value)
    ensures !(c in allowed && IsSet(Get(payload, c))) ==>
      (c in Overlay(row, Columns(allowed, payload)) <==> c in row) &&
      (c in row ==> Overlay(row, Columns(allowed, payload))[c] == row[c])
  {
    if allowed != [] {
      var init := allowed[..|allowed| - 1];
      var f := allowed[|allowed| - 1];
      OverlayColumns(row, init, payload, c);
      var cols := Columns(allowed, payload);
      var prev := Columns(init, payload);
      if IsSet(Get(payload, f)) {
        assert cols[..|cols| - 1] == prev;
      } else {
        assert cols == prev;
      }
      assert c in allowed <==> c in init || c == f;
    }
  }

  /** No assignment is built exactly when no allow-listed field is set. */
  lemma {:induction false} ColumnsEmpty(allowed: seq<string>, payload: Value)
    ensures Columns(allowed, payload) == [] <==> forall f :: f in allowed ==> !IsSet(Get(payload, f))
  {
    if allowed != [] {
      var init := allowed[..|allowed| - 1];
      ColumnsEmpty(init, payload);
      assert forall f :: f in allowed <==> f in init || f == allowed[|allowed| - 1];
    }
  }

  /** Writing the same assignments twice is writing them once. */
  lemma {:induction false} OverlayTwice(row: Row, cols: seq<(string, string)>)
    ensures Overlay(Overlay(row, cols), cols) == Overlay(row, cols)
  {
    if cols != [] {
      var n := |cols| - 1;
      var once := Overlay(row, cols);
      forall c
        ensures (c in Overlay(once, cols) <==> c in once)
        ensures c in once ==> Overlay(once, cols)[c] == once[c]
      {
        OverlayOwnColumns(once, cols, c);
        OverlayOwnColumns(row, cols, c);
      }
    }
  }

  /** The last assignment to a column decides its value; a column that is
      assigned nowhere keeps its previous state. */
  lemma {:induction false} OverlayOwnColumns(row: Row, cols: seq<(string, string)>, c: string)
    ensures (exists j :: 0 <= j < |cols| && cols[j].0 == c) ==>
      c in Overlay(row, cols) && Overlay(row, cols)[c] == cols[LastIndex(cols, c)].1
    ensures (forall j :: 0 <= j < |cols| ==> cols[j].0 != c) ==>
      (c in Overlay(row, cols) <==> c in row) && (c in row ==> Overlay(row, cols)[c] == row[c])
  {
    if cols != [] {
      var n := |cols| - 1;
      OverlayOwnColumns(row, cols[..n], c);
      if cols[n].0 != c {
        assert forall j :: 0 <= j < n ==> cols[..n][j] == cols[j];
        if exists j :: 0 <= j < |cols| && cols[j].0 == c {
          var j :| 0 <= j < |cols| && cols[j].0 == c;
          assert cols[..n][j].0 == c;
        }
      }
    }
  }

  /** The position of the last assignment to column `c`. */
  function LastIndex(cols: seq<(string, string)>, c: string): (j: int)
    ensures -1 <= j < |cols|
    ensures j >= 0 ==> cols[j].0 == c && forall k :: j < k < |cols| ==> cols[k].0 != c
    ensures j < 0 ==> forall k :: 0 <= k < |cols| ==> cols[k].0 != c
  {
    if cols == [] then -1
    else if cols[|cols| - 1].0 == c then |cols| - 1
    else LastIndex(cols[..|cols| - 1], c)
  }

  /** `UPDATE consultations SET ... WHERE id = ?`: issued only when some
      column is assigned; a missing row matches nothing. */
  function UpdateRow(t: map<int, Row>, id: int, cols: seq<(string, string)>): map<int, Row>
  {
    if cols == [] || id !in t then t else t[id := Overlay(t[id], cols)]
  }

  /** `INSERT ... ON DUPLICATE KEY UPDATE` on the unique `consultation_id`:
      issued only when some column is assigned; a new row holds just the
      assigned columns, an existing row is overlaid. */
  function UpsertRow(t: map<int, Row>, id: int, cols: seq<(string, string)>): map<int, Row>
  {
    if cols == [] then t
    else t[id := Overlay(if id in t then t[id] else map[], cols)]
  }

  /** A write of the assignments `cols` into `target`'s row for `id`. */
  function WriteColumns(t: Tables, target: TableName, id: int, cols: seq<(string, string)>): Tables
  {
    var m := Table(t, target);
    WithTable(t, target, if target == Consultations then UpdateRow(m, id, cols) else UpsertRow(m, id, cols))
  }

  /** One step's write into its target table, of the `allowed` columns the
      payload sets. */
  function WriteStep(t: Tables, target: TableName, allowed: seq<string>, id: int, payload: Value): Tables
  {
    WriteColumns(t, target, id, Columns(allowed, payload))
  }

  /** A step's write touches only the target table's row for `id`, and in
      it only the allow-listed columns the payload sets, which receive the
      payload's values; a satellite table ends with a row for `id` exactly
      when it had one or some column was assigned. */
  lemma WriteStepEffect(t: Tables, target: TableName, allowed: seq<string>, id: int, payload: Value)
    ensures WriteStep(t, target, allowed, id, payload).nextId == t.nextId
    ensures forall n :: n != target ==> Table(WriteStep(t, target, allowed, id, payload), n) == Table(t, n)
    ensures forall k :: k != id ==> (k in Table(WriteStep(t, target, allowed, id, payload), target) <==> k in Table(t, target))
    ensures forall k :: k != id && k in Table(t, target) ==> Table(WriteStep(t, target, allowed, id, payload), target)[k] == Table(t, target)[k]
    ensures target == Consultations ==>
      (id in Table(WriteStep(t, target, allowed, id, payload), target) <==> id in Table(t, target))
    ensures target != Consultations ==>
      (id in Table(WriteStep(t, target, allowed, id, payload), target) <==>
        id in Table(t, target) || exists f :: f in allowed && IsSet(Get(payload, f)))
  {
    ColumnsEmpty(allowed, payload);
  }

  /** In the row written for `id`, an allow-listed column set in the
      payload holds the payload's text and every other column is as it was
      (absent from a new satellite row). */
  lemma WriteStepColumn(t: Tables, target: TableName, allowed: seq<string>, id: int, payload: Value, c: string)
    requires id in Table(WriteStep(t, target, allowed, id, payload), target)
    ensures var row := Table(WriteStep(t, target, allowed, id, payload), target)[id];
      var before: Row := if id in Table(t, target) then Table(t, target)[id] else map[];
      if c in allowed && IsSet(Get(payload, c)) then
        c in row && row[c] == DbText(Get(payload, c).value)
      else
        (c in row <==> c in before) && (c in before ==> row[c] == before[c])
  {
    var cols := Columns(allowed, payload);
    var before: Row := if id in Table(t, target) then Table(t, target)[id] else map[];
    OverlayColumns(before, allowed, payload, c);
    ColumnsEmpty(allowed, payload);
  }

  lemma UpdateRowTwice(m: map<int, Row>, id: int, cols: seq<(string, string)>)
    ensures UpdateRow(UpdateRow(m, id, cols), id, cols) == UpdateRow(m, id, cols)
  {
    if cols != [] && id in m { OverlayTwice(m[id], cols); }
  }

  lemma UpsertRowTwice(m: map<int, Row>, id: int, cols: seq<(string, string)>)
    ensures UpsertRow(UpsertRow(m, id, cols), id, cols) == UpsertRow(m, id, cols)
  {
    if cols != [] { OverlayTwice(if id in m then m[id] else map[], cols); }
  }

  /** Writing the same assignments twice is writing them once. */
  lemma WriteColumnsTwice(t: Tables, target: TableName, id: int, cols: seq<(string, string)>)
    ensures WriteColumns(WriteColumns(t, target, id, cols), target, id, cols) == WriteColumns(t, target, id, cols)
  {
    var m := Table(t, target);
    var m1 := if target == Consultations then UpdateRow(m, id, cols) else UpsertRow(m, id, cols);
    var once := WithTable(t, target, m1);
    UpdateRowTwice(m, id, cols);
    UpsertRowTwice(m, id, cols);
    var m2 := if target == Consultations then UpdateRow(m1, id, cols) else UpsertRow(m1, id, cols);
    assert m2 == m1;
    TablesEqual(WithTable(once, target, m2), once);
  }

  /** Two databases with the same tables and counter are the same. */
  lemma TablesEqual(a: Tables, b: Tables)
    requires forall n :: Table(a, n) == Table(b, n)
    requires a.nextId == b.nextId
    ensures a == b
  {
    assert Table(a, Consultations) == Table(b, Consultations);
    assert Table(a, Treatments) == Table(b, Treatments);
    assert Table(a, Exams) == Table(b, Exams);
    assert Table(a, Observations) == Table(b, Observations);
    assert Table(a, Vaccinations) == Table(b, Vaccinations);
  }

  /** What MySQL's auto-increment guarantees of the root table: every id
      it holds was handed out before, so the next id is not in use. */
  predicate Fresh(t: Tables)
  {
    t.nextId >= 1 && forall k :: k in t.consultations ==> 0 < k < t.nextId
  }

  /** A step's write adds no root row, so the counter stays ahead. */
  lemma WriteStepFresh(t: Tables, target: TableName, allowed: seq<string>, id: int, payload: Value)
    requires Fresh(t)
    ensures Fresh(WriteStep(t, target, allowed, id, payload))
  {
    WriteStepEffect(t, target, allowed, id, payload);
    var r := WriteStep(t, target, allowed, id, payload);
    assert Table(r, Consultations).Keys <= Table(t, Consultations).Keys;
  }

  /** The root row inserted under the next id is a new one, and the
      counter moves past it. */
  lemma InsertFresh(t: Tables)
    requires Fresh(t)
    ensures t.nextId !in t.consultations
    ensures Fresh(t.(consultations := t.consultations[t.nextId := map[]], nextId := t.nextId + 1))
  {
  }

  /** Inserting the next root row keeps every row that was already there,
      in whichever table. */
  lemma InsertKeepsRows(t: Tables, name: TableName, k: int)
    requires Fresh(t) && k in Table(t, name)
    ensures var t1 := t.(consultations := t.consultations[t.nextId := map[]], nextId := t.nextId + 1);
      k in Table(t1, name) && Table(t1, name)[k] == Table(t, name)[k]
  {
    InsertFresh(t);
  }

  /** The step's write on a freshly inserted root row: the root table
      gains exactly that row and the counter has moved past it. */
  lemma InsertThenWrite(t: Tables, target: TableName, allowed: seq<string>, payload: Value)
    requires Fresh(t)
    ensures var w := WriteStep(t.(consultations := t.consultations[t.nextId := map[]], nextId := t.nextId + 1),
        target, allowed, t.nextId, payload);
      w.consultations.Keys == t.consultations.Keys + {t.nextId}
      && |w.consultations| == |t.consultations| + 1
      && w.nextId == t.nextId + 1
  {
    var key := t.nextId;
    var t1 := t.(consultations := t.consultations[key := map[]], nextId := key + 1);
    InsertFresh(t);
    SameRootKeys(t1, target, allowed, key, payload);
    assert |t1.consultations| == |t.consultations| + 1;
  }

  /** A step write on an existing root row leaves the set of root ids as
      it was. */
  lemma SameRootKeys(t: Tables, target: TableName, allowed: seq<string>, id: int, payload: Value)
    requires id in t.consultations
    ensures WriteStep(t, target, allowed, id, payload).consultations.Keys == t.consultations.Keys
    ensures |WriteStep(t, target, allowed, id, payload).consultations| == |t.consultations|
    ensures WriteStep(t, target, allowed, id, payload).nextId == t.nextId
  {
    WriteStepEffect(t, target, allowed, id, payload);
    var w := WriteStep(t, target, allowed, id, payload);
    if target == Consultations {
      assert Table(w, Consultations) == w.consultations && Table(t, Consultations) == t.consultations;
      assert forall k :: k in w.consultations <==> k in t.consultations;
    } else {
      assert w.consultations == Table(w, Consultations) == Table(t, Consultations) == t.consultations;
    }
    assert |w.consultations| == |w.consultations.Keys|;
  }

  /** A rollback restores tables that were fresh and keeps a counter that
      only grew, so the result is fresh. */
  lemma RollbackFresh(saved: Tables, counter: int)
    requires Fresh(saved) && counter >= saved.nextId
    ensures Fresh(saved.(nextId := counter))
  {
  }

  /** Resubmitting the same payload leaves the same stored state. */
  lemma WriteStepIdempotent(t: Tables, target: TableName, allowed: seq<string>, id: int, payload: Value)
    ensures WriteStep(WriteStep(t, target, allowed, id, payload), target, allowed, id, payload) == WriteStep(t, target, allowed, id, payload)
  {
    WriteColumnsTwice(t, target, id, Columns(allowed, payload));
  }

  /** `education_therapeutique`, collected at step 8, is not a column the
      root table accepts, while the observations table would take it. */
  lemma EducationNotStoredAtRoot()
    ensures "education_therapeutique" !in AllowList(Consultations)
    ensures "education_therapeutique" in AllowList(Observations)
  {
    assert AllowList(Observations)[6] == "education_therapeutique";
  }

  /** Row `k` is still in the table and column `c` of it has kept its
      presence and its value. */
  predicate ColumnKept(before: map<int, Row>, after: map<int, Row>, k: int, c: string)
    requires k in before
  {
    k in after && (c in after[k] <==> c in before[k]) && (c in before[k] ==> after[k][c] == before[k][c])
  }

  /** A column outside the allow list keeps, in every existing row of the
      target table, its presence and its value. */
  lemma KeptColumn(t: Tables, target: TableName, allowed: seq<string>, id: int, payload: Value, k: int, c: string)
    requires c !in allowed && k in Table(t, target)
    ensures ColumnKept(Table(t, target), Table(WriteStep(t, target, allowed, id, payload), target), k, c)
  {
    WriteStepEffect(t, target, allowed, id, payload);
    if k == id {
      WriteStepColumn(t, target, allowed, id, payload, c);
    }
  }

  /** The database connection of one request, with its transaction. */
  class Db {
    var consultations: map<int, Row>
    var treatments: map<int, Row>
    var exams: map<int, Row>
    var observations: map<int, Row>
    var vaccinations: map<int, Row>
    var nextId: int

    constructor(t: Tables)
      ensures State() == t
    {
      consultations, treatments, exams, observations, vaccinations, nextId :=
        t.consultations, t.treatments, t.exams, t.observations, t.vaccinations, t.nextId;
    }

    function State(): Tables
      reads this
    {
      Tables(consultations, treatments, exams, observations, vaccinations, nextId)
    }

    /** `INSERT INTO consultations (created_at, updated_at) VALUES (NOW(),
        NOW())` followed by `lastInsertId()`: a fresh empty row under the
        next id. */
    method InsertConsultation() returns (id: int)
      modifies this
      ensures id == old(nextId) && nextId == old(nextId) + 1
      ensures State() == old(State()).(consultations := old(consultations)[id := map[]], nextId := id + 1)
      ensures Fresh(old(State())) ==> id !in old(consultations) && Fresh(State())
    {
      if Fresh(State()) {
        InsertFresh(State());
      }
      id := nextId;
      consultations := consultations[id := map[]];
      nextId := nextId + 1;
    }

    /** `SELECT id FROM consultations WHERE id = ?` found a row. */
    function HasConsultation(id: int): bool
      reads this
    {
      id in consultations
    }

    /** The step handler's write: the assignment list is built by the loop
        over the allow-list, then sent as one statement. */
    method Write(target: TableName, allowed: seq<string>, id: int, payload: Value)
      modifies this
      ensures State() == WriteStep(old(State()), target, allowed, id, payload)
    {
      var cols := CollectColumns(allowed, payload);
      var m := Table(State(), target);
      SetTable(target, if target == Consultations then UpdateRow(m, id, cols) else UpsertRow(m, id, cols));
    }

    method SetTable(target: TableName, m: map<int, Row>)
      modifies this
      ensures State() == WithTable(old(State()), target, m)
    {
      match target
      case Consultations => consultations := m;
      case Treatments => treatments := m;
      case Exams => exams := m;
      case Observations => observations := m;
      case Vaccinations => vaccinations := m;
    }

    /** `INSERT INTO consultation_vaccinations (consultation_id,
        vaccination_data) VALUES (?, ?) ON DUPLICATE KEY UPDATE ...`. */
    method UpsertVaccination(id: int, blob: string)
      modifies this
      ensures State() == old(State()).(vaccinations := UpsertRow(old(vaccinations), id, [("vaccination_data", blob)]))
    {
      vaccinations := UpsertRow(vaccinations, id, [("vaccination_data", blob)]);
    }

    /** `rollback()` to the state saved at `beginTransaction()`; ids the
        auto-increment counter handed out are not given back. */
    method Rollback(saved: Tables)
      modifies this
      ensures State() == saved.(nextId := old(nextId))
      ensures Fresh(saved) && old(nextId) >= saved.nextId ==> Fresh(State())
    {
      consultations, treatments, exams, observations, vaccinations :=
        saved.consultations, saved.treatments, saved.exams, saved.observations, saved.vaccinations;
    }
  }

  /** The `foreach ($allowedFields as $field)` loop collecting the
      assignments. */
  method CollectColumns(allowed: seq<string>, payload: Value) returns (cols: seq<(string, string)>)
    ensures cols == Columns(allowed, payload)
  {
    cols := [];
    var i := 0;
    while i < |allowed|
      invariant 0 <= i <= |allowed|
      invariant cols == Columns(allowed[..i], payload)
    {
      var f := allowed[i];
      var o := Get(payload, f);
      assert allowed[..i + 1][..i] == allowed[..i];
      if IsSet(o) {
        cols := cols + [(f, DbText(o.value))];
      }
      i := i + 1;
    }
    assert allowed[..i] == allowed;
  }

  /** A single-column upsert keeps one row per id and replaces the stored
      blob. */
  lemma UpsertBlob(t: map<int, Row>, id: int, blob: string)
    ensures UpsertRow(t, id, [("vaccination_data", blob)]).Keys == t.Keys + {id}
    ensures UpsertRow(t, id, [("vaccination_data", blob)])[id]["vaccination_data"] == blob
    ensures forall k :: k in t && k != id ==> UpsertRow(t, id, [("vaccination_data", blob)])[k] == t[k]
  {
    var cols := [("vaccination_data", blob)];
    assert cols[..0] == [];
  }
}
