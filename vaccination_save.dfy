/** `save_vaccination.php`: the vaccination checklist of the wizard's sixth
    step. The checklist is sanitised vaccine by vaccine, always stored in
    the session and, when the request names an existing consultation,
    stored as one JSON blob in that consultation's vaccination row. */
module VaccinationSave {
  import opened Php
  import opened Json
  import opened Sanitizer
  import opened Sessions
  import opened Store

  /* ----------------------------------------------------------------------
     One vaccine's record
     ---------------------------------------------------------------------- */

  const Selected := "selected"
  const Received := "received"
  const DateGiven := "date"
  const Observations := "observations"
  const Administration := "administration"

  /** The sub-keys a sanitised record can hold, in the order they are
      assigned. */
  const RecordKeys := [Selected, Received, DateGiven, Observations, Administration]

  /** `selected`, cast to bool, when it is set. */
  function SelectedSlot(d: Value): seq<Entry>
  {
    if IsSet(Get(d, Selected)) then [Entry(StrKey(Selected), Bool(Truthy(Get(d, Selected).value)))] else []
  }

  /** A sub-key copied through `Sanitizer::sanitize` when it is set. */
  function Copied(d: Value, f: string): seq<Entry>
  {
    if IsSet(Get(d, f)) then [Entry(StrKey(f), Sanitize(Get(d, f).value))] else []
  }

  /** `administration`, mapped through `sanitize` with its keys, when it is
      set and an array. */
  function AdministrationSlot(d: Value): seq<Entry>
  {
    var o := Get(d, Administration);
    if IsSet(o) && o.value.Arr? then [Entry(StrKey(Administration), Sanitize(o.value))] else []
  }

  /** The record built for one vaccine by the body of the `foreach`: it
      starts empty and each sub-key that is set is assigned in turn, so it
      is appended. */
  function SanitizeRecord(d: Value): seq<Entry>
  {
    SelectedSlot(d) + (Copied(d, Received) + (Copied(d, DateGiven) + (Copied(d, Observations) + AdministrationSlot(d))))
  }

  /** What the record holds under each sub-key, stated key by key. */
  function Kept(d: Value, f: string): Option<Value>
  {
    var o := Get(d, f);
    if !IsSet(o) then None
    else if f == Selected then Some(Bool(Truthy(o.value)))
    else if f == Received || f == DateGiven || f == Observations then Some(Sanitize(o.value))
    else if f == Administration && o.value.Arr? then Some(Sanitize(o.value))
    else None
  }

  /** A slot holds at most its own sub-key. */
  predicate SlotOf(slot: seq<Entry>, f: string)
  {
    |slot| <= 1 && forall i :: 0 <= i < |slot| ==> slot[i].key == StrKey(f)
  }

  lemma SlotLookup(slot: seq<Entry>, f: string, g: string)
    requires SlotOf(slot, f) && g != f
    ensures Lookup(slot, StrKey(g)) == None
  {
  }

  /** Every sub-key of a sanitised record reads as `Kept` says: the five
      known sub-keys under their conditions, and nothing else. */
  lemma RecordField(d: Value, f: string)
    ensures Get(Arr(SanitizeRecord(d)), f) == Kept(d, f)
  {
    var a, b, c, e, z := SelectedSlot(d), Copied(d, Received), Copied(d, DateGiven), Copied(d, Observations), AdministrationSlot(d);
    var k := StrKey(f);
    LookupAppend(a, b + (c + (e + z)), k);
    LookupAppend(b, c + (e + z), k);
    LookupAppend(c, e + z, k);
    LookupAppend(e, z, k);
    if f != Selected { SlotLookup(a, Selected, f); }
    if f != Received { SlotLookup(b, Received, f); }
    if f != DateGiven { SlotLookup(c, DateGiven, f); }
    if f != Observations { SlotLookup(e, Observations, f); }
    if f != Administration { SlotLookup(z, Administration, f); }
  }

  /** Every key of the entries is one of `names`. */
  predicate NamedBy(es: seq<Entry>, names: seq<string>)
  {
    forall i :: 0 <= i < |es| ==> es[i].key.StrKey? && es[i].key.s in names
  }

  lemma NamedAppend(a: seq<Entry>, b: seq<Entry>, names: seq<string>)
    requires NamedBy(a, names) && NamedBy(b, names)
    ensures NamedBy(a + b, names)
  {
    forall i | 0 <= i < |a + b| ensures (a + b)[i].key.StrKey? && (a + b)[i].key.s in names {
      if i >= |a| { assert (a + b)[i] == b[i - |a|]; }
    }
  }

  /** No entry of `es` has the key `f`. */
  predicate Avoids(es: seq<Entry>, f: string)
  {
    forall i :: 0 <= i < |es| ==> es[i].key != StrKey(f)
  }

  lemma AvoidsAppend(a: seq<Entry>, b: seq<Entry>, f: string)
    requires Avoids(a, f) && Avoids(b, f)
    ensures Avoids(a + b, f)
  {
    forall i | 0 <= i < |a + b| ensures (a + b)[i].key != StrKey(f) {
      if i >= |a| { assert (a + b)[i] == b[i - |a|]; }
    }
  }

  /** A slot in front of entries that avoid its sub-key keeps keys unique. */
  lemma UniqueSlotFirst(slot: seq<Entry>, f: string, rest: seq<Entry>)
    requires SlotOf(slot, f) && UniqueKeys(rest) && Avoids(rest, f)
    ensures UniqueKeys(slot + rest)
  {
    forall i, j | 0 <= i < j < |slot + rest| ensures (slot + rest)[i].key != (slot + rest)[j].key {
      assert (slot + rest)[j] == rest[j - |slot|];
      if i >= |slot| { assert (slot + rest)[i] == rest[i - |slot|]; }
    }
  }

  /** The slot of sub-key `f` avoids every other sub-key. */
  lemma SlotAvoids(slot: seq<Entry>, f: string, g: string)
    requires SlotOf(slot, f) && f != g
    ensures Avoids(slot, g)
  {
  }

  /** The five slots of a record carry distinct sub-keys. */
  lemma RecordUnique(d: Value)
    ensures UniqueKeys(SanitizeRecord(d))
  {
    var a, b, c, e, z := SelectedSlot(d), Copied(d, Received), Copied(d, DateGiven), Copied(d, Observations), AdministrationSlot(d);
    assert SlotOf(a, Selected) && SlotOf(b, Received) && SlotOf(c, DateGiven);
    assert SlotOf(e, Observations) && SlotOf(z, Administration);
    assert Selected[0] == 's' && Received[0] == 'r' && DateGiven[0] == 'd';
    assert Observations[0] == 'o' && Administration[0] == 'a';
    SlotAvoids(z, Administration, Observations);
    UniqueSlotFirst(e, Observations, z);
    SlotAvoids(e, Observations, DateGiven);
    SlotAvoids(z, Administration, DateGiven);
    AvoidsAppend(e, z, DateGiven);
    UniqueSlotFirst(c, DateGiven, e + z);
    SlotAvoids(c, DateGiven, Received);
    SlotAvoids(e, Observations, Received);
    SlotAvoids(z, Administration, Received);
    AvoidsAppend(e, z, Received);
    AvoidsAppend(c, e + z, Received);
    UniqueSlotFirst(b, Received, c + (e + z));
    SlotAvoids(b, Received, Selected);
    SlotAvoids(c, DateGiven, Selected);
    SlotAvoids(e, Observations, Selected);
    SlotAvoids(z, Administration, Selected);
    AvoidsAppend(e, z, Selected);
    AvoidsAppend(c, e + z, Selected);
    AvoidsAppend(b, c + (e + z), Selected);
    UniqueSlotFirst(a, Selected, b + (c + (e + z)));
  }

  /** A record holds only the five known sub-keys, each at most once. */
  lemma RecordShape(d: Value)
    ensures NamedBy(SanitizeRecord(d), RecordKeys)
    ensures |SanitizeRecord(d)| <= |RecordKeys|
    ensures UniqueKeys(SanitizeRecord(d))
  {
    RecordUnique(d);
    var a, b, c, e, z := SelectedSlot(d), Copied(d, Received), Copied(d, DateGiven), Copied(d, Observations), AdministrationSlot(d);
    assert RecordKeys[0] == Selected && RecordKeys[1] == Received && RecordKeys[2] == DateGiven;
    assert RecordKeys[3] == Observations && RecordKeys[4] == Administration;
    NamedAppend(e, z, RecordKeys);
    NamedAppend(c, e + z, RecordKeys);
    NamedAppend(b, c + (e + z), RecordKeys);
    NamedAppend(a, b + (c + (e + z)), RecordKeys);
  }

  /* ----------------------------------------------------------------------
     The checklist
     ---------------------------------------------------------------------- */

  /** Each vaccine key of the input, in order, with its record. */
  function RecordsOf(es: seq<Entry>): (r: seq<Entry>)
    ensures |r| == |es| && Keys(r) == Keys(es)
  {
    seq(|es|, i requires 0 <= i < |es| => Entry(es[i].key, Arr(SanitizeRecord(es[i].value))))
  }

  /** `$a[$key] = $value` for each pair in turn, from an empty array: a
      repeated key overwrites. */
  function Assign(rs: seq<Entry>): seq<Entry>
  {
    if rs == [] then []
    else Put(Assign(rs[..|rs| - 1]), rs[|rs| - 1].key, rs[|rs| - 1].value)
  }

  /** The sanitised checklist: every vaccine key assigned its record by the
      `foreach`, which runs no iteration over a value that is not an array. */
  function Calendar(vaccines: Value): seq<Entry>
  {
    if vaccines.Arr? then Assign(RecordsOf(vaccines.entries)) else []
  }

  /** Assigning pairs with distinct keys appends each one. */
  lemma {:induction false} AssignDistinct(rs: seq<Entry>)
    requires UniqueKeys(rs)
    ensures Assign(rs) == rs
  {
    if rs != [] {
      var n := |rs| - 1;
      var p := rs[..n];
      assert UniqueKeys(p);
      AssignDistinct(p);
      assert p + [rs[n]] == rs;
      assert IndexOf(p, rs[n].key) < 0 by {
        forall j | 0 <= j < |p| ensures p[j].key != rs[n].key {
          assert p[j] == rs[j];
        }
      }
    }
  }

  /** An array's keys are distinct, so the sanitised checklist has exactly
      the input's vaccine keys, in the input's order, each with its
      record. */
  lemma CalendarRecords(vaccines: Value)
    requires vaccines.Arr? && UniqueKeys(vaccines.entries)
    ensures Calendar(vaccines) == RecordsOf(vaccines.entries)
  {
    var es := vaccines.entries;
    var rs := RecordsOf(es);
    assert UniqueKeys(rs) by {
      forall i, j | 0 <= i < j < |rs| ensures rs[i].key != rs[j].key {
        assert rs[i].key == es[i].key && rs[j].key == es[j].key;
      }
    }
    AssignDistinct(rs);
  }

  /** `vaccines_count`: one per vaccine key of the input. */
  lemma CalendarCount(vaccines: Value)
    requires vaccines.Arr? && UniqueKeys(vaccines.entries)
    ensures |Calendar(vaccines)| == |vaccines.entries|
    ensures Keys(Calendar(vaccines)) == Keys(vaccines.entries)
  {
    CalendarRecords(vaccines);
  }

  /** The `foreach ($vaccines as $vaccineKey => $vaccineData)` loop. */
  method SanitizeVaccines(vaccines: Value) returns (r: seq<Entry>)
    ensures r == Calendar(vaccines)
  {
    r := [];
    if !vaccines.Arr? {
      return;
    }
    var es := vaccines.entries;
    var i := 0;
    ghost var rs := RecordsOf(es);
    while i < |es|
      invariant 0 <= i <= |es|
      invariant r == Assign(rs[..i])
    {
      assert rs[..i + 1][..i] == rs[..i];
      assert rs[i] == Entry(es[i].key, Arr(SanitizeRecord(es[i].value)));
      r := Put(r, es[i].key, Arr(SanitizeRecord(es[i].value)));
      i := i + 1;
    }
    assert rs[..i] == rs;
  }

  /* ----------------------------------------------------------------------
     The request
     ---------------------------------------------------------------------- */

  const VaccinationData := "vaccination_data"

  /** What the handler answers. */
  datatype Reply =
    | MethodNotAllowed                      // 405
    | CsrfInvalid                           // 403
    | NoData                                // 200, success false
    | NotFound                              // 200, "Consultation non trouvée"
    | SavedToDb(id: int, count: int)        // 200 with the id
    | SavedToSession(count: int)            // 200 without an id
    | SaveFailed                            // 500, after rollback
    | Fatal                                 // an uncaught `TypeError`

  /** Where the database throws, if it does: at the connection or the
      existence query, or at the upsert or the commit. */
  datatype DbFault = Healthy | LookupThrows | UpsertThrows

  datatype VaccResult = VaccResult(session: SessionMap, tables: Tables, reply: Reply)

  /** `$_POST['vaccines'] ?? []`. */
  function VaccinesOf(post: Value): Value
  {
    Coalesce(Get(post, "vaccines"), Arr([]))
  }

  /** `(int)($_POST['consultation_id'] ?? 0)`. */
  function PostedId(post: Value): int
  {
    IntCast(Coalesce(Get(post, ConsultationId), Int(0)))
  }

  /** The text bound to the blob column: `json_encode($sanitizedVaccines)`,
      or "" when the encoder returns `false` (PDO binds `false` as the
      empty string). Keys are never sanitised, so one that is not UTF-8
      makes the blob empty. */
  function Blob(cal: seq<Entry>): (b: string)
    ensures Utf8Clean(Arr(cal)) ==> Decode(b) == Some(Arr(cal))
    ensures !Utf8Clean(Arr(cal)) ==> b == ""
  {
    match JsonEncode(Arr(cal))
    case Some(j) => j
    case None => ""
  }

  /** The blob row written for consultation `id`. */
  function StoreBlob(t: Tables, id: int, cal: seq<Entry>): Tables
  {
    t.(vaccinations := UpsertRow(t.vaccinations, id, [(VaccinationData, Blob(cal))]))
  }

  /** The whole request. */
  function Handle(sess: SessionMap, t: Tables, isPost: bool, post: Value, fault: DbFault): VaccResult
  {
    if !isPost then VaccResult(sess, t, MethodNotAllowed)
    else
      match CsrfCheck(sess, Get(post, CsrfToken))
      case CsrfCrash => VaccResult(sess, t, Fatal)
      case Reject => VaccResult(sess, t, CsrfInvalid)
      case Accept =>
        var vaccines := VaccinesOf(post);
        if !Truthy(vaccines) then VaccResult(sess, t, NoData)
        else
          var cal := Calendar(vaccines);
          var s1 := sess[VaccinationCalendar := Arr(cal)];
          var id := PostedId(post);
          if id <= 0 then VaccResult(s1, t, SavedToSession(|cal|))
          else if fault == LookupThrows then VaccResult(s1, t, SaveFailed)
          else if id !in t.consultations then VaccResult(s1, t, NotFound)
          else if fault == UpsertThrows then VaccResult(s1, t, SaveFailed)
          else VaccResult(s1, StoreBlob(t, id, cal), SavedToDb(id, |cal|))
  }

  /** The checklist write touches only the vaccinations table, so the
      auto-increment guarantee of the root table is kept. */
  lemma HandleFresh(sess: SessionMap, t: Tables, isPost: bool, post: Value, fault: DbFault)
    requires Fresh(t)
    ensures Fresh(Handle(sess, t, isPost, post, fault).tables)
    ensures Handle(sess, t, isPost, post, fault).tables.consultations == t.consultations
  {
    var r := Handle(sess, t, isPost, post, fault);
    var id := PostedId(post);
    if Admitted(sess, isPost, post) && id > 0 && fault == Healthy && id in t.consultations {
      assert r.tables == StoreBlob(t, id, Calendar(VaccinesOf(post)));
    } else {
      assert r.tables == t;
    }
  }

  /** Whether the request gets past the method check, the CSRF guard and
      the emptiness check. */
  predicate Admitted(sess: SessionMap, isPost: bool, post: Value)
  {
    isPost && CsrfCheck(sess, Get(post, CsrfToken)) == Accept && Truthy(VaccinesOf(post))
  }

  /* ----------------------------------------------------------------------
     Properties of the request
     ---------------------------------------------------------------------- */

  /** A request stopped by the method check, the CSRF guard or an empty
      checklist changes neither the session nor the database. */
  lemma RejectedChangesNothing(sess: SessionMap, t: Tables, isPost: bool, post: Value, fault: DbFault)
    requires !Admitted(sess, isPost, post)
    ensures Handle(sess, t, isPost, post, fault) ==
      VaccResult(sess, t, Handle(sess, t, isPost, post, fault).reply)
    ensures Handle(sess, t, isPost, post, fault).reply in {MethodNotAllowed, CsrfInvalid, Fatal, NoData}
    ensures !isPost ==> Handle(sess, t, isPost, post, fault).reply == MethodNotAllowed
    ensures isPost && !IsSet(Get(post, CsrfToken)) ==> Handle(sess, t, isPost, post, fault).reply == CsrfInvalid
  {
  }

  /** An admitted request replaces the session's checklist with the
      sanitised one before any database work, and keeps it whatever the
      database then does; no other session key changes. */
  lemma CalendarAlwaysStored(sess: SessionMap, t: Tables, isPost: bool, post: Value, fault: DbFault)
    requires Admitted(sess, isPost, post)
    ensures Handle(sess, t, isPost, post, fault).session == sess[VaccinationCalendar := Arr(Calendar(VaccinesOf(post)))]
  {
  }

  /** Without a positive id only the session is written, and the reply
      carries no id. */
  lemma SessionOnlyWithoutId(sess: SessionMap, t: Tables, isPost: bool, post: Value, fault: DbFault)
    requires Admitted(sess, isPost, post) && PostedId(post) <= 0
    ensures Handle(sess, t, isPost, post, fault).tables == t
    ensures Handle(sess, t, isPost, post, fault).reply == SavedToSession(|Calendar(VaccinesOf(post))|)
  {
  }

  /** An id without a consultation row is answered "not found" and no
      vaccination row is written. */
  lemma MissingConsultation(sess: SessionMap, t: Tables, isPost: bool, post: Value, fault: DbFault)
    requires Admitted(sess, isPost, post) && PostedId(post) > 0
    requires PostedId(post) !in t.consultations && fault != LookupThrows
    ensures Handle(sess, t, isPost, post, fault).tables == t
    ensures Handle(sess, t, isPost, post, fault).reply == NotFound
  {
  }

  /** The database changes only when the blob is saved: exactly when the
      request is admitted, the id is positive, the consultation exists and
      nothing throws. Then the consultation has one vaccination row whose
      blob decodes to the sanitised checklist when every key is UTF-8 and
      is empty otherwise, the other rows and tables are untouched, and the
      count is the checklist's size. */
  lemma BlobSaved(sess: SessionMap, t: Tables, isPost: bool, post: Value, fault: DbFault)
    ensures Handle(sess, t, isPost, post, fault).reply.SavedToDb? <==>
      Admitted(sess, isPost, post) && PostedId(post) > 0 && PostedId(post) in t.consultations && fault == Healthy
    ensures !Handle(sess, t, isPost, post, fault).reply.SavedToDb? ==> Handle(sess, t, isPost, post, fault).tables == t
    ensures Handle(sess, t, isPost, post, fault).reply.SavedToDb? ==>
      var id := PostedId(post);
      var after := Handle(sess, t, isPost, post, fault).tables;
      var cal := Calendar(VaccinesOf(post));
      after == t.(vaccinations := after.vaccinations) &&
      after.vaccinations.Keys == t.vaccinations.Keys + {id} &&
      after.vaccinations[id][VaccinationData] == Blob(cal) &&
      (Utf8Clean(Arr(cal)) ==> Decode(after.vaccinations[id][VaccinationData]) == Some(Arr(cal))) &&
      (!Utf8Clean(Arr(cal)) ==> after.vaccinations[id][VaccinationData] == "") &&
      (forall k :: k in t.vaccinations && k != id ==> after.vaccinations[k] == t.vaccinations[k]) &&
      Handle(sess, t, isPost, post, fault).reply == SavedToDb(id, |cal|)
  {
    if Handle(sess, t, isPost, post, fault).reply.SavedToDb? {
      var cal := Calendar(VaccinesOf(post));
      UpsertBlob(t.vaccinations, PostedId(post), Blob(cal));
    }
  }

  /** Sending the same checklist again leaves the same session and the
      same database: the upsert replaces the blob instead of adding a row. */
  lemma ResubmitSameState(sess: SessionMap, t: Tables, post: Value)
    requires Admitted(sess, true, post)
    ensures var first := Handle(sess, t, true, post, Healthy);
      var second := Handle(first.session, first.tables, true, post, Healthy);
      second.session == first.session && second.tables == first.tables && second.reply == first.reply
  {
    var first := Handle(sess, t, true, post, Healthy);
    var cal := Calendar(VaccinesOf(post));
    var id := PostedId(post);
    assert first.session[CsrfToken] == sess[CsrfToken];
    if id > 0 && id in t.consultations {
      UpsertRowTwice(t.vaccinations, id, [(VaccinationData, Blob(cal))]);
    }
  }

  /* ----------------------------------------------------------------------
     The handler
     ---------------------------------------------------------------------- */

  /** The request handler on the session and the database of the request. */
  method SaveVaccination(s: Session, db: Db, isPost: bool, post: Value, fault: DbFault) returns (r: Reply)
    modifies s, db
    ensures Handle(old(s.data), old(db.State()), isPost, post, fault) == VaccResult(s.data, db.State(), r)
  {
    if !isPost {
      return MethodNotAllowed;
    }
    var csrf := CsrfCheck(s.data, Get(post, CsrfToken));
    if csrf == CsrfCrash {
      return Fatal;
    } else if csrf == Reject {
      return CsrfInvalid;
    }
    var id := PostedId(post);
    var vaccines := VaccinesOf(post);
    if !Truthy(vaccines) {
      return NoData;
    }
    var cal := SanitizeVaccines(vaccines);
    s.Set(VaccinationCalendar, Arr(cal));
    if id <= 0 {
      return SavedToSession(|cal|);
    }
    if fault == LookupThrows {
      return SaveFailed;
    }
    var saved := db.State();
    if !db.HasConsultation(id) {
      db.Rollback(saved);
      return NotFound;
    }
    var blob := Blob(cal);
    db.UpsertVaccination(id, blob);
    if fault == UpsertThrows {
      db.Rollback(saved);
      return SaveFailed;
    }
    r := SavedToDb(id, |cal|);
  }
}
