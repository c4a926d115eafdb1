/** `clear_session.php`: after a submission the browser asks the server to
    forget the wizard's data. Only the request method is checked; there is
    no CSRF guard. */
module ClearSession {
  import opened Php
  import opened Sessions

  /** The session keys the wizard fills, which the handler removes. */
  const WizardKeys: set<string> := {FormData, ConsultationId, CurrentStep, VaccinationCalendar, PrefillData}

  datatype ClearReply = SessionCleared | MethodNotAllowed

  datatype ClearResult = ClearResult(session: SessionMap, reply: ClearReply)

  /** The session after the five `unset` calls. */
  function Cleared(data: SessionMap): SessionMap
  {
    data - WizardKeys
  }

  /** The whole request: a POST clears, anything else is refused. */
  function Handle(data: SessionMap, isPost: bool): ClearResult
  {
    if isPost then ClearResult(Cleared(data), SessionCleared) else ClearResult(data, MethodNotAllowed)
  }

  /** Clearing removes exactly the wizard keys: every other key stays with
      its value, whatever the request carries. */
  lemma ClearRemovesExactly(data: SessionMap, k: string)
    ensures k in Cleared(data) <==> k in data && k !in WizardKeys
    ensures k in Cleared(data) ==> Cleared(data)[k] == data[k]
  {
  }

  /** The token, the activity time and the initialisation flag survive. */
  lemma ClearKeepsGuards(data: SessionMap)
    ensures forall k :: k in {CsrfToken, LastActivity, Initialized} ==>
      (k in Cleared(data) <==> k in data) && (k in data ==> Cleared(data)[k] == data[k])
  {
    assert CsrfToken !in WizardKeys && LastActivity !in WizardKeys && Initialized !in WizardKeys;
  }

  /** A refused request removes nothing. */
  lemma RefusedKeepsSession(data: SessionMap)
    ensures Handle(data, false) == ClearResult(data, MethodNotAllowed)
  {
  }

  /** Clearing twice is clearing once, and the second request succeeds
      too. */
  lemma ClearTwice(data: SessionMap)
    ensures Handle(Handle(data, true).session, true) == Handle(data, true)
    ensures forall k :: k in WizardKeys ==> k !in Handle(data, true).session
  {
    assert Cleared(Cleared(data)) == Cleared(data);
  }

  /** The request handler: `unset` of each key in turn. */
  method ClearWizard(s: Session, isPost: bool) returns (r: ClearReply)
    modifies s
    ensures Handle(old(s.data), isPost) == ClearResult(s.data, r)
  {
    if !isPost {
      return MethodNotAllowed;
    }
    s.Unset(FormData);
    s.Unset(ConsultationId);
    s.Unset(CurrentStep);
    s.Unset(VaccinationCalendar);
    s.Unset(PrefillData);
    r := SessionCleared;
  }
}
