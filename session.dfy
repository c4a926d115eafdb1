/** `$_SESSION` as the wizard's handlers use it: a map from key to value,
    the inactivity timeout and the CSRF token comparison they share. */
module Sessions {
  import opened Php

  type SessionMap = map<string, Value>

  const LastActivity := "last_activity"
  const CsrfToken := "csrf_token"
  const FormData := "consultation_form_data"
  const ConsultationId := "consultation_id"
  const CurrentStep := "current_step"
  const VaccinationCalendar := "vaccination_calendar"
  const PrefillData := "prefill_data"
  const Initialized := "initialized"

  /** Seconds of inactivity after which the step handler ends the session. */
  const Timeout := 1800

  /** `$_SESSION[$k] ?? null` and `isset($_SESSION[$k])` read the session
      through this. */
  function Read(data: SessionMap, k: string): Option<Value>
  {
    if k in data then Some(data[k]) else None
  }

  /** `isset($_SESSION['last_activity']) && time() - $_SESSION['last_activity']
      > 1800`: strictly more than the timeout has passed. */
  predicate Expired(data: SessionMap, now: int)
  {
    IsSet(Read(data, LastActivity)) && now - IntCast(data[LastActivity]) > Timeout
  }

  /** The outcome of the CSRF guard. */
  datatype CsrfOutcome = Accept | Reject | CsrfCrash

  /** `!isset($token) || !hash_equals($_SESSION['csrf_token'], $token)`:
      a missing or null request token is rejected first; otherwise both
      tokens must be strings (`hash_equals` throws a `TypeError` on any other
      type, including a session without a token) and are compared. */
  function CsrfCheck(data: SessionMap, token: Option<Value>): (r: CsrfOutcome)
    ensures r == Accept <==>
      IsSet(token) && token.value.Str? && CsrfToken in data && data[CsrfToken] == token.value
    ensures !IsSet(token) ==> r == Reject
  {
    if !IsSet(token) then Reject
    else
      var known := Coalesce(Read(data, CsrfToken), Null);
      if !known.Str? || !token.value.Str? then CsrfCrash
      else if known.s == token.value.s then Accept
      else Reject
  }

  /** A session that holds a token accepts exactly that token and rejects
      every other string. */
  lemma CsrfMatch(data: SessionMap, token: string, other: string)
    requires CsrfToken in data && data[CsrfToken] == Str(token) && other != token
    ensures CsrfCheck(data, Some(Str(token))) == Accept
    ensures CsrfCheck(data, Some(Str(other))) == Reject
    ensures CsrfCheck(data, None) == Reject && CsrfCheck(data, Some(Null)) == Reject
  {
  }

  /** Without a session token every request token that is set makes
      `hash_equals` throw. */
  lemma CsrfWithoutSessionToken(data: SessionMap, token: Value)
    requires CsrfToken !in data && token != Null
    ensures CsrfCheck(data, Some(token)) == CsrfCrash
  {
  }

  /** The session of one request. */
  class Session {
    var data: SessionMap

    constructor(initial: SessionMap)
      ensures data == initial
    {
      data := initial;
    }

    /** `$_SESSION[$k] = $v`. */
    method Set(k: string, v: Value)
      modifies this
      ensures data == old(data)[k := v]
    {
      data := data[k := v];
    }

    /** `unset($_SESSION[$k])`. */
    method Unset(k: string)
      modifies this
      ensures data == old(data) - {k}
    {
      data := data - {k};
    }

    /** `session_unset(); session_destroy();` */
    method Destroy()
      modifies this
      ensures data == map[]
    {
      data := map[];
    }
  }
}
