# Drepadata consultation wizard: a Dafny model of its server side

This project models the PHP back end of the Drepadata multi-step consultation
form for sickle-cell patients, and proves properties of that model.

The model covers:

- the `Validator` and `Sanitizer` classes;
- the step-saving endpoint `save_consultation_step.php`, with its inactivity
  timeout, CSRF guard, per-step validation, sanitisation, "RAS" defaults,
  transaction and per-step snapshot in the session;
- the vaccination checklist endpoint `save_vaccination.php`;
- `clear_session.php`;
- the PHP prologue of the wizard page `consultation.php`: session marking,
  CSRF token creation and the "resume" prefill;
- the vaccination page `calendrier_vaccinal_du_pev.php`: where its checklist
  comes from, and which boxes and radios it checks;
- the final submission `save_consultation.php`: the report's text lines, the
  download file name and the session keys it forgets.

PHP values are a datatype: `Null`, `Bool`, `Int`, `Str`, or an ordered array of
key/value entries. A `char` stands for one byte, so UTF-8 text is written byte
by byte. The semantics are those of PHP 8:

- `isset`, `??`, `empty` and truthiness;
- loose `==` and `in_array`;
- `(int)` casts that saturate at 64 bits;
- `FILTER_VALIDATE_INT`;
- `TypeError` thrown by internal functions given an array, or `null` where a
  string is required, which ends the request with a fatal error.

The session is a `Session` object whose map the handlers update in place. The
database is a `Db` object holding the five tables as maps from consultation
id to row, plus the next auto-increment id. Each endpoint is a pure `Handle`
function from the session, the tables and the request to the new session,
the new tables and the reply. Beside it sits an imperative method that
updates the `Session` and `Db` objects, with an `ensures` tying its effect to
`Handle`. The properties are proved as lemmas about `Handle`.

The auto-increment guarantee, `Store.Fresh`, says that every consultation id
in use is positive and below the counter. Every handler and every `Db` method
that touches the root table keeps it, so a newly inserted consultation never
overwrites an existing one.

The clock, the random bytes, and where the database throws are parameters.
The step handler's faults include a failing connection. Its catch block then
calls `rollback()` on a null `$db`, which is a fatal error.
JSON is modelled by an injective text encoding with a parser, and
`Json.DecodeEncode` proves the round trip. `json_encode` fails, returning
`false`, when a string or key is not valid UTF-8 (`Json.JsonEncode`). The
sanitiser cleans values but never keys, so a vaccine or exam key that is not
UTF-8 makes the stored blob the empty string, which the vaccination page
treats as "no saved checklist".

Behaviours of the source that the model keeps as they are written:

- The `integer` rule uses the truthiness of `filter_var`'s result. So `"0"`
  fails it, and an age of 0 is refused even though its next rule is `min:0`.
- `education_therapeutique` is validated at step 8, whose write goes to the
  root table. That table's allow list lacks it, so step 8 never stores it;
  only the observations table has such a column (`StepSave.WizardKeepsEducation`).
- A phone number typed with the country code, such as `+237 690 00 11 22`,
  is refused at step 2, the only step whose form has the field: its rule
  `regex:/^[0-9]{9}$/` rejects the raw text and the request is answered
  with 400. `Sanitizer::sanitizePhone` is not reached there. Only a
  request that posts the field at step 1, 8 or 9 gets it sanitised: those
  steps do not validate it but write the root table, which has the column.
  The number then keeps twelve digits, becomes null and is stored as `RAS`
  rather than reduced to nine digits.
- Resuming uses `array_merge`. The per-step snapshots, keyed by step number,
  come back renumbered 0, 1, 2, ….
- A step posted without a consultation id inserts a new consultation each
  time it is sent, so a resubmission creates a second one
  (`StepSave.ResubmitWithoutIdAddsRow`); with an id, a resubmission changes
  nothing (`StepSave.HandleTwice`).
- When a transaction fails after the new consultation id was put in the
  session, the id stays in the session while the row is rolled back.
- A step number outside 1–9 has no rules and is written to the root table.
- `Sanitizer::sanitize` is not idempotent: `&` becomes `&amp;`, and
  sanitising that again gives `&amp;amp;`.

## Model

| member | source | states |
|---|---|---|
| Php.Put | save_vaccination.php:55-75 | array assignment `$a[$k] = $v`: the key maps to the new value, every other key is unchanged, and keys stay unique |
| Php.LooseEqualsNonNumeric | calendrier_vaccinal_du_pev.php:195 | loose `==` against a non-numeric label holds exactly for that string, `true`, or an integer printing as it |
| Sanitizer.TrimIdempotent | src/Sanitizer.php:13 | trimming twice is trimming once |
| Sanitizer.TrimSlice | src/Sanitizer.php:13 | `trim` removes exactly the leading and trailing whitespace run and keeps the middle slice |
| Sanitizer.UnescapeEscape | src/Sanitizer.php:14 | the `htmlspecialchars` escaping (ENT_QUOTES) is undone by unescaping: nothing is lost |
| Sanitizer.EscapeNoMarkup | src/Sanitizer.php:14 | escaped text contains no `<`, `>`, `"` or `'` |
| Sanitizer.Sanitize | src/Sanitizer.php:6-19 | arrays are mapped with their keys kept, strings become null or non-empty text, other scalars are unchanged |
| Sanitizer.SanitizeString | src/Sanitizer.php:12-16 | a string sanitises to null exactly when it trims to nothing or is not valid UTF-8; otherwise to a well-escaped text without markup that decodes to the trimmed text |
| Sanitizer.EscapeWellEscaped | src/Sanitizer.php:14 | in escaped text every `&` begins one of `&amp;`, `&quot;`, `&#039;`, `&lt;`, `&gt;` |
| Sanitizer.EscapeUnescape | src/Sanitizer.php:14 | every well-escaped text without markup is the escaping of its own decoding |
| Sanitizer.EscapedDetermined | src/Sanitizer.php:14 | two well-escaped texts without markup that decode alike are equal, so the sanitised string is the only text meeting `SanitizeString`'s contract |
| Sanitizer.SanitizeNoEmptyText | src/Sanitizer.php:15 | no sanitised value, at any depth, holds the empty string |
| Sanitizer.SanitizeEscapesTwice | src/Sanitizer.php:14 | sanitising is not idempotent: `&` sanitised twice differs from `&` sanitised once |
| Sanitizer.SanitizePhone | src/Sanitizer.php:21-36 | throws exactly for a non-empty array; otherwise returns null or a nine-digit string; a falsy input gives null |
| Sanitizer.SanitizePhoneKeeps | src/Sanitizer.php:28-35 | a nine-digit number is kept, and sanitising it again changes nothing |
| Sanitizer.SanitizePhoneSeparator | src/Sanitizer.php:28 | a non-digit separator inside a nine-digit number is removed |
| Sanitizer.SanitizePhoneCountryCode | src/Sanitizer.php:31-33 | a number written with the `+237 ` prefix has twelve digits and gives null |
| Sanitizer.SanitizePhoneInteger | src/Sanitizer.php:28-35 | a nine-digit integer is kept as its decimal text |
| Sanitizer.SanitizeArray | src/Sanitizer.php:38-48 | a non-array gives null; otherwise each kept entry is an input entry sanitised to a non-null, non-empty value, and each such entry is kept |
| Sanitizer.KeptIndices | src/Sanitizer.php:45-47 | the positions `array_filter` keeps, strictly increasing, every kept position included |
| Sanitizer.KeepFilledOrder | src/Sanitizer.php:45-47 | entry `k` of the filtered array is the input entry at the `k`-th kept position, so order and multiplicity are kept |
| Sanitizer.SanitizeArrayOrder | src/Sanitizer.php:44-47 | entry `k` of `sanitizeArray`'s result is the input entry at the `k`-th kept position, with its key and its sanitised value |
| Validation.JoinSplit | src/Validator.php:25 | `explode` loses nothing: joining the parts with the delimiter gives back the text |
| Validation.ParseRuleParts | src/Validator.php:25-27 | a rule splits into its name and its first parameter; a third part is ignored |
| Validation.FilterIntDecimal | src/Validator.php:49 | `FILTER_VALIDATE_INT` accepts the decimal text of every 64-bit integer, with its value |
| Validation.DateRoundTrip | src/Validator.php:87-91 | a valid calendar date formatted as `Y-m-d` is accepted and read back as the same date |
| Validation.DateTextIsFormatted | src/Validator.php:87-91 | an accepted date text is exactly the formatting of the date it denotes |
| Validation.DateExamples | src/Validator.php:87-91 | 29 February of a leap year is accepted; 30 February and an unpadded month are refused |
| Validation.UnknownRulePasses | src/Validator.php:29-84 | a rule name outside the switch never adds an error |
| Validation.NullPassesAllButRequired | src/Validator.php:36-83 | every rule other than `required` accepts a missing value |
| Validation.RequiredRejects | src/Validator.php:30-34 | `required` fails exactly for null, `false`, integer 0, the empty string or the empty array (the string `"0"` passes), and never throws |
| Validation.IntegerRule | src/Validator.php:48-52 | `integer` passes exactly when `filter_var` gives a nonzero integer |
| Validation.ZeroIsNotAnInteger | src/Validator.php:49 | `integer` refuses `"0"` |
| Validation.MinRule | src/Validator.php:54-58 | `min` passes exactly when the `(int)` cast reaches the bound |
| Validation.ZeroMeetsMinZero | src/Validator.php:54-58 | `"0"` meets `min:0` |
| Validation.MaxRule | src/Validator.php:42-46 | `max` throws exactly on an array and fails a string exactly when its byte length exceeds the bound |
| Validation.DateRule | src/Validator.php:60-64 | `date` passes a string exactly when it is a valid `Y-m-d` date |
| Validation.NineDigitRule | src/Validator.php:73-77 | `regex:/^[0-9]{9}$/` passes exactly nine digits, optionally followed by one newline |
| Validation.InRule | src/Validator.php:66-71 | `in` passes exactly when the value is null or loosely equal to one of the comma-separated choices |
| Validation.InYesNo | src/Validator.php:66-71 | `in:Oui,Non` passes exactly null, `"Oui"`, `"Non"` and `true` |
| Validation.AddError | src/Validator.php:30-83 | recording an error appends it to its field's messages and leaves the other fields alone |
| Validation.AddErrorWellFormed | src/Validator.php:30-83 | recording an error keeps one entry per field |
| Validation.FlattenEmpty | src/Validator.php:98-107 | the flattened message list is empty exactly when no field has an error |
| Validation.FoldTableDone | src/Validator.php:12-18 | validation completes exactly when no rule throws |
| Validation.FoldTableEmpty | src/Validator.php:8-21 | the error map is well formed, and it is empty (validate returns true) exactly when every rule passes |
| Validation.FoldTableMessages | src/Validator.php:12-18 | each field's messages are its failing rules' messages in rule order, and fields without rules have none |
| Validation.Validator.Validate | src/Validator.php:8-21 | the loops leave the error map of the rule table, report a `TypeError` exactly when a rule throws, and return whether the map is empty |
| Validation.Validator.ValidateField | src/Validator.php:15-17 | one field's rules applied in order extend the error map as the fold does |
| Validation.Validator.GetErrorMessages | src/Validator.php:98-107 | the messages of all fields, field by field, in order |
| Json.DecodeEncode | save_vaccination.php:100 | decoding the encoding of any value gives the value back |
| Json.JsonEncode | save_vaccination.php:100 | the encoder succeeds exactly when every string and key is valid UTF-8, and then decoding gives the value back |
| Json.BadKeyFails | save_vaccination.php:100 | one array key that is not UTF-8 makes the encoder fail, whatever the values |
| Json.RasIsNotJson | save_consultation_step.php:205-209 | the `RAS` placeholder is not JSON |
| Sessions.CsrfCheck | save_consultation_step.php:54-58 | the guard accepts exactly a set string token equal to the session's; a missing token is refused |
| Sessions.CsrfMatch | save_vaccination.php:35-39 | the session's own token is accepted; another string, a missing token and null are refused |
| Sessions.CsrfWithoutSessionToken | save_vaccination.php:35 | with no token in the session, a posted token makes `hash_equals` throw |
| ClearSession.ClearRemovesExactly | clear_session.php:30-34 | a key survives clearing exactly when it is not one of the five wizard keys, with its value |
| ClearSession.ClearKeepsGuards | clear_session.php:30-34 | the CSRF token, the activity time and the initialised mark are kept |
| ClearSession.RefusedKeepsSession | clear_session.php:22-26 | a request that is not POST is answered 405 and changes nothing |
| ClearSession.ClearTwice | clear_session.php:28-39 | clearing is idempotent and leaves none of the wizard keys |
| ClearSession.ClearWizard | clear_session.php:22-39 | the session object is updated as the handler says |
| Store.OverlayColumns | save_consultation_step.php:224-236 | after the update, an allow-listed column set in the payload holds the payload's text, and every other column is unchanged |
| Store.ColumnsEmpty | save_consultation_step.php:231 | no statement is issued exactly when no allow-listed field is set |
| Store.OverlayTwice | save_consultation_step.php:224-236 | applying the same column update twice is applying it once |
| Store.WriteStepEffect | save_consultation_step.php:212-328 | a step write touches only the target table's row for the id: an UPDATE on the root table and an upsert on the satellites |
| Store.WriteStepColumn | save_consultation_step.php:224-236 | each column of the written row is the payload's text when allow-listed and set, else the old value |
| Store.WriteStepIdempotent | save_consultation_step.php:212-328 | saving the same step payload twice leaves the tables as saving it once |
| Store.EducationNotStoredAtRoot | save_consultation_step.php:214-219 | `education_therapeutique` is not a root column; it is an observations column |
| Store.KeptColumn | save_consultation_step.php:224-236 | a column outside the allow list keeps its presence and value in every existing row of the written table |
| Store.UpsertBlob | save_vaccination.php:101-106 | the vaccination upsert creates or replaces the id's row with the blob and keeps the other rows |
| Store.Db.InsertConsultation | save_consultation_step.php:197-200 | a new empty root row gets the next auto-increment id; when every id in use is below the counter, the new id was not in use and that stays so |
| Store.InsertFresh | save_consultation_step.php:197-200 | under the auto-increment guarantee the next id is unused, and inserting keeps the guarantee |
| Store.InsertThenWrite | save_consultation_step.php:197-328 | inserting a root row and then writing the step adds exactly the new id to the root table and moves the counter past it |
| Store.WriteStepFresh | save_consultation_step.php:212-328 | a step write adds no root row and keeps the auto-increment guarantee |
| Store.Db.Write | save_consultation_step.php:212-328 | the tables become the step write of the payload |
| Store.Db.Rollback | save_consultation_step.php:343-346 | the tables return to the saved state; the auto-increment counter does not, so the auto-increment guarantee survives |
| Store.RollbackFresh | save_consultation_step.php:343-346 | restoring a state that kept the guarantee, with a counter that only grew, keeps it |
| Store.CollectColumns | save_consultation_step.php:224-229 | the loop collects the allow-listed set fields in allow-list order with their text |
| StepSave.Routing | save_consultation_step.php:72-84 | steps 1, 2, 8 and 9 map to the root table, 3 to treatments, 4 to exams, 5 and 7 to observations, 6 to vaccinations; any other step maps to the root table with no rules |
| StepSave.MissingStepIsOne | save_consultation_step.php:68 | a request without `current_step` is step 1 |
| StepSave.RulesWithinAllowList | save_consultation_step.php:87-160 | every validated field of steps 1 to 9 except `education_therapeutique` is a column of its step's table |
| StepSave.EncodedExams | save_consultation_step.php:186-188 | the exam list becomes text that decodes to the filtered list when its keys are UTF-8, and otherwise `false`, bound as "" |
| StepSave.RasDefaults | save_consultation_step.php:205-209 | keys are kept; a null, empty-string or empty-array value becomes `RAS`; others are unchanged |
| StepSave.FillDefaults | save_consultation_step.php:205-209 | the loop gives the defaults pass |
| StepSave.RasFieldsSet | save_consultation_step.php:205-209 | after the defaults, a field is set exactly when it was present in the payload |
| StepSave.BlankRequiredStoredAsRas | save_consultation_step.php:167-209 | a whitespace-only value passes `required`, sanitises to null and is stored as `RAS` |
| StepSave.PutStep | save_consultation_step.php:333-334 | the step's snapshot is recorded under its number and the other snapshots are kept |
| Php.PutTwice | save_consultation_step.php:333 | assigning the same value to the same key twice is assigning it once |
| StepSave.PutStepTwice | save_consultation_step.php:333 | recording the same snapshot twice is recording it once |
| StepSave.ExpiryFirst | save_consultation_step.php:29-35 | the answer is 401 exactly when the session is expired; then the session is emptied and the tables are unchanged |
| StepSave.ActivityRefreshed | save_consultation_step.php:36 | a live session has its activity time set to now, whatever happens next |
| StepSave.GuardsChangeNothing | save_consultation_step.php:38-58 | a refused method or token changes only the activity time, and a missing token is answered 403 |
| StepSave.SaveSessionShortcut | save_consultation_step.php:61-65 | `action=save_session` stores the raw input as the form data and touches no table |
| StepSave.InvalidChangesNothing | save_consultation_step.php:166-175 | the answer is 400 exactly when validation completes with errors; the session and tables are then unchanged |
| StepSave.PersistKeepsOtherKeys | save_consultation_step.php:190-355 | the transaction changes no session key other than the id, the form data and the current step |
| StepSave.AcceptedKeepsOtherKeys | save_consultation_step.php:166-355 | a validated request changes no other session key |
| StepSave.IdKept | save_consultation_step.php:197-202 | a given id is answered as given and creates no root row |
| StepSave.IdCreated | save_consultation_step.php:197-202 | without an id, a root row is created with the next id, which the session and the answer carry as text; under the auto-increment guarantee the root table gains exactly one row |
| StepSave.ConnectFailureIsFatal | save_consultation_step.php:190-191 | when the connection cannot be made, the catch block's `rollback()` is called on null: a fatal error, with the session and tables as they were |
| StepSave.PersistFresh | save_consultation_step.php:190-355 | the transaction, committed or rolled back, keeps every id in use below the counter |
| StepSave.HandleFresh | save_consultation_step.php:29-355 | a whole request keeps the auto-increment guarantee, which is what `IdCreated` needs |
| StepSave.PersistTwice | save_consultation_step.php:190-341 | a committed transaction for an existing id, run again on its own outcome, gives the same session, tables and answer |
| StepSave.AcceptedTwice | save_consultation_step.php:166-341 | the same for a validated request with an id |
| StepSave.HandleTwice | save_consultation_step.php:29-341 | a saved request with an id, sent again at the same time on the state it left, is answered alike and changes nothing |
| StepSave.NewRowSaved | save_consultation_step.php:197-202 | a fault-free save without an id answers the next id and adds one root row |
| StepSave.ResubmitWithoutIdAddsRow | save_consultation_step.php:197-202 | the same submission without an id sent twice creates two consultations with different ids |
| StepSave.FailureRollsBack | save_consultation_step.php:343-355 | a failed transaction leaves the tables as before, except the counter; the session keeps at most the new id |
| StepSave.SuccessRecordsSnapshot | save_consultation_step.php:330-341 | a saved step records the current step and the defaulted payload as that step's snapshot |
| StepSave.PersistKeepsColumn | save_consultation_step.php:190-355 | committed or rolled back, the transaction keeps every existing row of the step's table and each column outside its allow list |
| StepSave.HandleKeepsColumn | save_consultation_step.php:29-355 | the same for a whole request |
| StepSave.WizardKeepsEducation | save_consultation_step.php:68-163 | under the handler's own rules and allow lists, a step-8 request never changes `education_therapeutique` in an existing root row |
| StepSave.SuccessWritesAllowListOnly | save_consultation_step.php:212-328 | after a save, a column of an existing row changes only when it is allow-listed and set in the payload |
| StepSave.SaveStep | save_consultation_step.php:29-355 | the session and database objects end as the handler says |
| StepSave.SaveValidated | save_consultation_step.php:166-355 | the same, from validation on |
| StepSave.Transaction | save_consultation_step.php:190-355 | the same, for the transaction |
| VaccinationSave.RecordField | save_vaccination.php:54-76 | a vaccine's record holds `selected` cast to bool, the sanitised received, date and observations, and the sanitised administration array, each only when set |
| VaccinationSave.RecordShape | save_vaccination.php:55-75 | a record has at most the five sub-keys, each once |
| VaccinationSave.CalendarRecords | save_vaccination.php:53-76 | the sanitised checklist has the input's vaccine keys, in order, each with its record |
| VaccinationSave.CalendarCount | save_vaccination.php:112 | the vaccine count is the number of input vaccines |
| VaccinationSave.SanitizeVaccines | save_vaccination.php:53-76 | the loop builds the sanitised checklist |
| VaccinationSave.RejectedChangesNothing | save_vaccination.php:28-50 | a refused method, a refused token or an empty checklist changes nothing |
| VaccinationSave.CalendarAlwaysStored | save_vaccination.php:80 | an admitted request always stores the sanitised checklist in the session |
| VaccinationSave.SessionOnlyWithoutId | save_vaccination.php:83-128 | without a positive id the database is untouched and the reply counts the vaccines |
| VaccinationSave.MissingConsultation | save_vaccination.php:89-97 | a positive id with no consultation is answered "not found" and writes nothing |
| VaccinationSave.Blob | save_vaccination.php:100 | the blob decodes to the checklist when every key is UTF-8, and is "" otherwise |
| VaccinationSave.BlobSaved | save_vaccination.php:83-120 | the database changes exactly when the request names an existing consultation and nothing throws; then that id's row holds the blob, which decodes to the checklist when its keys are UTF-8 and is "" otherwise |
| VaccinationSave.ResubmitSameState | save_vaccination.php:80-108 | submitting the same checklist again leaves the same session and tables |
| VaccinationSave.HandleFresh | save_vaccination.php:83-132 | a request adds and removes no root row and keeps the auto-increment guarantee |
| VaccinationSave.SaveVaccination | save_vaccination.php:28-144 | the session and database objects end as the handler says |
| WizardPage.Hex2BinBin2Hex | consultation.php:22 | the token's hex encoding is lossless |
| WizardPage.MergeStringKeys | consultation.php:39 | `array_merge` keeps every string key's value |
| WizardPage.MergeRenumbers | consultation.php:39 | `array_merge` renumbers integer keys 0, 1, 2, … in order |
| WizardPage.InitializedOnce | consultation.php:15-18 | the session id is regenerated exactly when the session was not initialised, and a second load does not regenerate it |
| WizardPage.EnsureTokenOnce | consultation.php:21-23 | a token is created only when the session's token is empty, as 64 hex digits of the random bytes, and is not replaced later |
| WizardPage.TokenOnce | consultation.php:15-23 | the page keeps an existing token, and reloading keeps the token it created |
| WizardPage.PrefillOnlyOnResume | consultation.php:31-40 | without `resume`, the prefill is left as it was and nothing throws |
| WizardPage.ResumeLoose | consultation.php:31 | `resume` matches exactly the integer-numeric texts with value 1, and `true` |
| WizardPage.PrefillContents | consultation.php:33-39 | the prefill holds the session checklist under `vaccination_calendar` and every other string key of the form data |
| WizardPage.PrefillRenumbersSnapshots | consultation.php:33-39 | per-step snapshots come back keyed 0, 1, 2, … in their order |
| WizardPage.Prepare | consultation.php:15-40 | the session object ends as the prologue says |
| VaccinationCalendar.CatalogueCodes | calendrier_vaccinal_du_pev.php:184-611 | the table has sixteen vaccines with distinct codes |
| VaccinationCalendar.CatalogueRoutes | calendrier_vaccinal_du_pev.php:184-611 | each vaccine offers exactly the routes of its family |
| VaccinationCalendar.SessionFirst | calendrier_vaccinal_du_pev.php:30-33 | a truthy session checklist is shown whatever the database holds |
| VaccinationCalendar.DatabaseOnlyWhenNeeded | calendrier_vaccinal_du_pev.php:27-44 | the database is used only for a nonzero id and a falsy session checklist, and then gives its decoded blob |
| VaccinationCalendar.FaultFallsBack | calendrier_vaccinal_du_pev.php:45-50 | a database exception leaves the session checklist, or an empty one |
| VaccinationCalendar.StoredEncoded | calendrier_vaccinal_du_pev.php:43 | a stored blob decodes to the saved value when it is truthy, otherwise to an empty array |
| VaccinationCalendar.LoadCalendar | calendrier_vaccinal_du_pev.php:20-51 | the session object and the shown checklist are as the prologue says |
| VaccinationCalendar.RouteBoxesMeaning | calendrier_vaccinal_du_pev.php:195-196 | route boxes throw exactly for a set non-array administration; otherwise box j is checked exactly when route j is loosely in it |
| VaccinationCalendar.ObservationText | calendrier_vaccinal_du_pev.php:209 | the observations field shows "" when unset and the escaped text of a string; it throws exactly when it holds an array |
| VaccinationCalendar.RenderRowMeaning | calendrier_vaccinal_du_pev.php:186-210 | a line throws exactly when its administration or its observations is bad; otherwise it shows its route boxes and its observations text |
| VaccinationCalendar.RenderMeaning | calendrier_vaccinal_du_pev.php:184-611 | the table renders every line, or throws exactly when some line has a bad administration or array observations; each box and text follows its own field |
| VaccinationCalendar.ReceivedStrict | calendrier_vaccinal_du_pev.php:201-202 | at most one radio is checked, and a boolean `received` checks none |
| VaccinationCalendar.SavedRowFails | save_vaccination.php:69-71 | a line of a saved checklist throws exactly when its posted observations was an array |
| VaccinationCalendar.SavedRenders | calendrier_vaccinal_du_pev.php:184-611 | a saved checklist renders unless some vaccine of the table was posted with array observations, and then the page throws |
| VaccinationCalendar.ArrayObservationCrashes | calendrier_vaccinal_du_pev.php:209 | a `bcg` checklist posted with `observations` as an array makes the page throw on reload |
| VaccinationCalendar.SelectedRoundTrip | calendrier_vaccinal_du_pev.php:189 | a vaccine's box is checked on reload exactly when `selected` was posted |
| VaccinationCalendar.ReceivedRoundTrip | calendrier_vaccinal_du_pev.php:201-202 | a posted plain answer checks its radio on reload |
| VaccinationCalendar.RouteRoundTrip | calendrier_vaccinal_du_pev.php:195-196 | a plain route label's box is checked on reload exactly when it was ticked |
| VaccinationCalendar.LabelsPlain | calendrier_vaccinal_du_pev.php:195-202 | every route and answer label survives sanitising unchanged and is not numeric |
| VaccinationCalendar.CatalogueBoxRoundTrip | calendrier_vaccinal_du_pev.php:184-611 | for every line and route of the table, a ticked box comes back ticked and an unticked one unticked |
| VaccinationCalendar.SavedThenLoaded | calendrier_vaccinal_du_pev.php:27-44 | a checklist saved with an id is shown again for that id when the session has none, provided its keys are UTF-8; otherwise the session's empty value is shown |
| VaccinationCalendar.LoadedBlob | calendrier_vaccinal_du_pev.php:27-44 | a row holding a checklist's blob is loaded as that checklist when its keys are UTF-8, and otherwise leaves the session value |
| VaccinationCalendar.BadKeyLost | calendrier_vaccinal_du_pev.php:40-43 | a checklist saved under a key that is not UTF-8 comes back as the empty array |
| FinalSubmission.FieldLinesMeaning | save_consultation.php:124-129 | a section lists exactly its fields whose value is present, truthy and not `N/A`, at most one line each |
| FinalSubmission.ShownIndices | save_consultation.php:124-129 | the positions of the shown fields, strictly increasing, each shown position included |
| FinalSubmission.FieldLinesOrder | save_consultation.php:124-129 | line `k` of a section is the line of the `k`-th shown field, so the lines follow the table's field order |
| FinalSubmission.ShownExamples | save_consultation.php:125-126 | a missing column, `""`, `"0"` and `N/A` are not shown; `RAS` and `"00"` are |
| FinalSubmission.PhoneWithCountryCode | save_consultation.php:150-158 | the emergency phone is shown with `+237` in front, and other fields without it |
| FinalSubmission.AddFields | save_consultation.php:124-129 | the loop adds a section's field lines |
| FinalSubmission.SatelliteSectionShown | save_consultation.php:162-185 | a satellite section is printed exactly when its row exists, and starts with its header |
| FinalSubmission.SafeName | save_consultation.php:274 | every byte outside letters, digits, `_` and `-` becomes `_`, and the length is kept |
| FinalSubmission.SafeNameProperties | save_consultation.php:274 | the safe name has only safe bytes, keeps a name already safe, and is idempotent |
| FinalSubmission.FilenameShape | save_consultation.php:273-275 | the file name is the prefix, the safe patient name, the time and `.docx`, and the name part has no quote or line break; a missing name is taken as `Patient` |
| FinalSubmission.PatientIsSafe | save_consultation.php:273-274 | the default name `Patient` passes the filter unchanged |
| FinalSubmission.MissingIdFirst | save_consultation.php:43-50 | a missing or zero id is answered 400 without reading the database |
| FinalSubmission.NotFoundKeepsSession | save_consultation.php:60-68 | an unknown id is answered 404 with the session unchanged |
| FinalSubmission.DownloadClearsForm | save_consultation.php:30-298 | the report is downloaded exactly for an admitted request for an existing consultation with no failure; then only the three form keys are removed from the session; otherwise the session is unchanged |
| FinalSubmission.ReportSections | save_consultation.php:70-89 | the treatments, history and follow-up sections appear exactly when their rows exist, and a missing vaccination row gives no vaccination section |
| FinalSubmission.AddVaccines | save_consultation.php:232-243 | the loop adds each array entry's vaccine lines |
| FinalSubmission.AddExams | save_consultation.php:253-257 | the loop adds a bullet line for each truthy exam |
| FinalSubmission.BuildReport | save_consultation.php:92-270 | the document holds the report's lines in order |
| FinalSubmission.Submit | save_consultation.php:30-316 | the session object ends as the handler says, and the reply carries the report |

## Left out

- Logging (`src/Logger.php`) is not modelled. It writes to a log file and has no effect on replies or state.
- HTML, CSS and JavaScript of the pages are not modelled. Of the vaccination page, only the checked state of its inputs is modelled; of the wizard page, only its PHP prologue.
- The Word document layout is not modelled. Fonts, sizes, alignment and text breaks are styling. The document is reduced to its paragraph texts in order.
- The temporary file, `readfile` and `unlink` of the download are not modelled. They are I/O.
- The SQL text, prepared statements and `created_at`/`updated_at`/`NOW()` timestamps are not modelled. The tables hold the text each column is bound to.
- Foreign keys are not modelled. An upsert into a satellite table for an id without a root row is not refused by the model.
- The exact characters of `json_encode` are not modelled. The model uses its own injective encoding with a proved round trip, and its failure on text that is not UTF-8; only decode-after-encode and when it fails are claimed.
- `time()`, `random_bytes(32)`, `date()` and where the database or the document writer throws are parameters of the handlers.
- `session_start`, cookie parameters, response headers and HTTP status lines are not modelled. `session_regenerate_id` is a flag in the prologue's result.
- The timing of `hash_equals` is not modelled; only its result is.
- The choice between a JSON body and form data (save_consultation_step.php:46-51) is not modelled. The decoded input is the handler's parameter.
- The existence check for `vendor/autoload.php` (consultation.php:26-28) is not modelled. It is a deployment check.
- Validation.PregMatch: only the nine-digit pattern used by the rule tables is interpreted; any other non-empty pattern is treated as matching.
- Floating-point values and numeric strings with a fraction or exponent are not modelled. Values are null, booleans, integers, strings and arrays.
- Php.IntCast: a string in float notation such as `"1e3"` is cast by reading its integer prefix (1), where PHP gives 1000; integer texts agree.
- Concurrent requests on one session or one consultation are not modelled.
