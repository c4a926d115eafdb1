/** The `Validator` class: a table of rules per field, applied to the
    submitted data, with every violation collected into a map from field
    name to the list of its messages. */
module Validation {
  import opened Php

  /* ----------------------------------------------------------------------
     explode / implode
     ---------------------------------------------------------------------- */

  /** `explode($d, $s)` for a one-character delimiter. */
  function Split(s: string, d: char): (parts: seq<string>)
    ensures |parts| >= 1
    ensures forall i :: 0 <= i < |parts| ==> d !in parts[i]
  {
    if s == [] then [[]]
    else
      var rest := Split(s[1..], d);
      if s[0] == d then [[]] + rest else [[s[0]] + rest[0]] + rest[1..]
  }

  /** `implode($sep, $parts)`. */
  function Join(parts: seq<string>, sep: string): string
  {
    if parts == [] then []
    else if |parts| == 1 then parts[0]
    else parts[0] + sep + Join(parts[1..], sep)
  }

  lemma JoinCons(x: string, rest: seq<string>, sep: string)
    requires |rest| >= 1
    ensures Join([x + rest[0]] + rest[1..], sep) == x + Join(rest, sep)
  {
    var ps := [x + rest[0]] + rest[1..];
    if |rest| > 1 {
      assert ps[1..] == rest[1..];
    }
  }

  /** Joining the pieces with the delimiter gives the string back. */
  lemma {:induction false} JoinSplit(s: string, d: char)
    ensures Join(Split(s, d), [d]) == s
  {
    if s != [] {
      JoinSplit(s[1..], d);
      var rest := Split(s[1..], d);
      if s[0] == d {
        assert ([[]] + rest)[1..] == rest;
        assert s == [d] + s[1..];
      } else {
        JoinCons([s[0]], rest, [d]);
        assert s == [s[0]] + s[1..];
      }
    }
  }

  lemma {:induction false} SplitNoDelimiter(s: string, d: char)
    requires d !in s
    ensures Split(s, d) == [s]
  {
    if s != [] {
      SplitNoDelimiter(s[1..], d);
      assert [s[0]] + s[1..] == s;
    }
  }

  /** Splitting at one delimiter splits the two sides independently. */
  lemma {:induction false} SplitAt(a: string, b: string, d: char)
    ensures Split(a + [d] + b, d) == Split(a, d) + Split(b, d)
  {
    var s := a + [d] + b;
    if a == [] {
      assert s[1..] == b;
    } else {
      assert s[1..] == a[1..] + [d] + b;
      SplitAt(a[1..], b, d);
    }
  }

  /* ----------------------------------------------------------------------
     Rules
     ---------------------------------------------------------------------- */

  /** A rule string split on ':': its name and its parameter, which is the
      second segment only (`$ruleParts[1] ?? null`). */
  datatype ParsedRule = ParsedRule(name: string, param: Option<string>)

  function ParseRule(rule: string): ParsedRule
  {
    var parts := Split(rule, ':');
    ParsedRule(parts[0], if |parts| >= 2 then Some(parts[1]) else None)
  }

  /** A rule without ':' has no parameter; with one, the parameter is the
      text up to the next ':', and anything after that is ignored. */
  lemma ParseRuleParts(name: string, param: string, more: string)
    requires ':' !in name && ':' !in param
    ensures ParseRule(name) == ParsedRule(name, None)
    ensures ParseRule(name + ":" + param) == ParsedRule(name, Some(param))
    ensures ParseRule(name + ":" + param + ":" + more) == ParsedRule(name, Some(param))
  {
    SplitNoDelimiter(name, ':');
    SplitNoDelimiter(param, ':');
    SplitAt(name, param, ':');
    assert name + ":" + param == name + [':'] + param;
    SplitAt(name + ":" + param, more, ':');
    assert name + ":" + param + ":" + more == (name + ":" + param) + [':'] + more;
  }

  /** The parameter as it is interpolated into a message or converted:
      a missing parameter (null) reads as "". */
  function ParamText(p: Option<string>): string
  {
    if p.Some? then p.value else ""
  }

  /** The outcome of one rule on one value. `Crash` is the `TypeError` PHP 8
      throws when `strlen`, `DateTime::createFromFormat` or `preg_match`
      receives an array. */
  datatype Check = Pass | Fail(message: string) | Crash

  function Msg(field: string, text: string): string
  {
    "Le champ " + field + text
  }

  /* ----------------------------------------------------------------------
     filter_var($v, FILTER_VALIDATE_INT)
     ---------------------------------------------------------------------- */

  /** The whitespace FILTER_VALIDATE_INT strips at both ends. */
  predicate IsFilterSpace(c: char)
  {
    c == ' ' || c == '\t' || c == '\r' || c == '\U{0B}' || c == '\n'
  }

  function TrimFilterSpace(s: string): (r: string)
    ensures |r| <= |s|
    ensures r != [] ==> !IsFilterSpace(r[0]) && !IsFilterSpace(r[|r| - 1])
    decreases |s|
  {
    if s != [] && IsFilterSpace(s[0]) then TrimFilterSpace(s[1..])
    else if s != [] && IsFilterSpace(s[|s| - 1]) then TrimFilterSpace(s[..|s| - 1])
    else s
  }

  /** The integer a string denotes for FILTER_VALIDATE_INT: an optional
      sign, then "0" or digits without a leading zero, in the 64-bit range. */
  function ParseFilterInt(s: string): (r: Option<int>)
    ensures r.Some? ==> IntMin <= r.value <= IntMax
  {
    var t := TrimFilterSpace(s);
    if t == [] then None
    else
      var (sign, body) := if t[0] == '-' then (-1, t[1..]) else if t[0] == '+' then (1, t[1..]) else (1, t);
      if body == "0" then Some(0)
      else if body == [] || !AllDigits(body) || body[0] == '0' then None
      else
        var n := sign * DigitsValue(body);
        if IntMin <= n <= IntMax then Some(n) else None
  }

  /** `filter_var($v, FILTER_VALIDATE_INT)` as an optional integer (PHP's
      `false` is `None`). Scalars are validated through their text; an
      array is rejected. */
  function FilterInt(v: Value): Option<int>
  {
    match v
    case Arr(_) => None
    case Int(i) => Some(i)
    case _ => if StringParam(v).Done? then ParseFilterInt(StringParam(v).value) else None
  }

  /** Every 64-bit integer's decimal text validates to that integer. */
  lemma FilterIntDecimal(i: int)
    requires IntMin <= i <= IntMax
    ensures ParseFilterInt(DecimalString(i)) == Some(i)
  {
    var s := DecimalString(i);
    var n: nat := if i < 0 then -i else i;
    var ds := NatDigits(n);
    assert TrimFilterSpace(s) == s by {
      if i < 0 {
        assert s[0] == '-' && s[|s| - 1] == ds[|ds| - 1];
      } else {
        assert s[0] == ds[0] && s[|s| - 1] == ds[|ds| - 1];
      }
    }
    NatDigitsValue(n);
    if i < 0 {
      assert s[1..] == ds;
    }
    if n == 0 {
      assert ds == "0";
    }
  }

  /* ----------------------------------------------------------------------
     Dates: DateTime::createFromFormat('Y-m-d', $s) and format('Y-m-d')
     ---------------------------------------------------------------------- */

  predicate IsLeapYear(y: int)
  {
    (y % 4 == 0 && y % 100 != 0) || y % 400 == 0
  }

  function DaysInMonth(y: int, m: int): int
    requires 1 <= m <= 12
  {
    if m == 2 then (if IsLeapYear(y) then 29 else 28)
    else if m == 4 || m == 6 || m == 9 || m == 11 then 30
    else 31
  }

  /** A calendar date that `format('Y-m-d')` prints with a four-digit year. */
  predicate ValidYmd(y: int, m: int, d: int)
  {
    0 <= y <= 9999 && 1 <= m <= 12 && 1 <= d <= DaysInMonth(y, m)
  }

  /** The last `w` decimal digits of `n`, zero-padded (`%0wd`). */
  function FixedDigits(n: nat, w: nat): (s: string)
    ensures |s| == w && AllDigits(s)
  {
    if w == 0 then [] else FixedDigits(n / 10, w - 1) + [Digit(n % 10)]
  }

  lemma {:induction false} FixedDigitsValue(n: nat, w: nat)
    requires n < Pow10(w)
    ensures DigitsValue(FixedDigits(n, w)) == n
  {
    if w > 0 {
      var s := FixedDigits(n, w);
      assert s[..|s| - 1] == FixedDigits(n / 10, w - 1);
      FixedDigitsValue(n / 10, w - 1);
    }
  }

  lemma {:induction false} FixedDigitsOfValue(t: string)
    requires AllDigits(t)
    ensures FixedDigits(DigitsValue(t), |t|) == t
  {
    if t != [] {
      var init := t[..|t| - 1];
      var c := t[|t| - 1] as int - '0' as int;
      var n := DigitsValue(t);
      assert n == DigitsValue(init) * 10 + c;
      assert n / 10 == DigitsValue(init) && n % 10 == c;
      FixedDigitsOfValue(init);
      assert t == init + [t[|t| - 1]];
    }
  }

  /** `format('Y-m-d')`. */
  function FormatDate(y: nat, m: nat, d: nat): string
  {
    FixedDigits(y, 4) + "-" + FixedDigits(m, 2) + "-" + FixedDigits(d, 2)
  }

  /** The year, month and day of a string of the exact shape `dddd-dd-dd`. */
  function DateFields(s: string): Option<(nat, nat, nat)>
  {
    if |s| == 10 && s[4] == '-' && s[7] == '-'
       && AllDigits(s[..4]) && AllDigits(s[5..7]) && AllDigits(s[8..])
    then Some((DigitsValue(s[..4]), DigitsValue(s[5..7]), DigitsValue(s[8..])))
    else None
  }

  /** `isValidDate`: parsing with 'Y-m-d' and formatting again gives the
      same text. Parsing rolls an out-of-range day or month over into the
      next month or year, and formatting pads to fixed width, so the round
      trip holds exactly for a valid date written with fixed-width fields. */
  predicate IsDateText(s: string)
  {
    DateFields(s).Some? && ValidYmd(DateFields(s).value.0, DateFields(s).value.1, DateFields(s).value.2)
  }

  /** Every valid date formats to text that is accepted and parses back. */
  lemma DateRoundTrip(y: nat, m: nat, d: nat)
    requires ValidYmd(y, m, d)
    ensures DateFields(FormatDate(y, m, d)) == Some((y, m, d))
    ensures IsDateText(FormatDate(y, m, d))
  {
    var s := FormatDate(y, m, d);
    assert s[..4] == FixedDigits(y, 4);
    assert s[5..7] == FixedDigits(m, 2);
    assert s[8..] == FixedDigits(d, 2);
    assert Pow10(2) == 100 && Pow10(4) == 10000;
    FixedDigitsValue(y, 4);
    FixedDigitsValue(m, 2);
    FixedDigitsValue(d, 2);
  }

  /** Accepted text is exactly the formatted form of the date it denotes. */
  lemma DateTextIsFormatted(s: string)
    requires IsDateText(s)
    ensures s == FormatDate(DateFields(s).value.0, DateFields(s).value.1, DateFields(s).value.2)
  {
    FixedDigitsOfValue(s[..4]);
    FixedDigitsOfValue(s[5..7]);
    FixedDigitsOfValue(s[8..]);
    assert s == s[..4] + "-" + s[5..7] + "-" + s[8..];
  }

  /** Examples of the `Y-m-d` check. Here and in the other example lemmas
      the texts are parameters pinned by `requires` rather than literals in
      the `ensures`: the solver then unfolds each literal once, in the
      precondition, instead of in every clause that mentions it. */
  lemma DateExamples(leap: string, overflow: string, unpadded: string)
    requires leap == "2024-02-29" && overflow == "2023-02-30" && unpadded == "2024-2-1"
    ensures IsDateText(leap)
    ensures !IsDateText(overflow)
    ensures !IsDateText(unpadded)
  {
    assert leap[..4] == "2024" && leap[5..7] == "02" && leap[8..] == "29";
    assert DigitsValue("2024") == 2024 by {
      assert "2024"[..3] == "202" && "202"[..2] == "20" && "20"[..1] == "2";
    }
    assert DigitsValue("02") == 2 by { assert "02"[..1] == "0"; }
    assert DigitsValue("29") == 29 by { assert "29"[..1] == "2"; }
    assert overflow[..4] == "2023" && overflow[5..7] == "02" && overflow[8..] == "30";
    assert DigitsValue("2023") == 2023 by {
      assert "2023"[..3] == "202" && "202"[..2] == "20" && "20"[..1] == "2";
    }
    assert DigitsValue("30") == 30 by { assert "30"[..1] == "3"; }
    assert |unpadded| == 8;
  }

  /** `isValidDate($v)`: the value is passed to `createFromFormat` as a
      string; an array is a `TypeError`. */
  function IsValidDate(v: Value): Outcome<bool>
  {
    match StringParam(v)
    case TypeError => TypeError
    case Done(t) => Done(IsDateText(t))
  }

  /* ----------------------------------------------------------------------
     preg_match
     ---------------------------------------------------------------------- */

  /** The one pattern the rule tables use. */
  const NineDigitPattern: string := "/^[0-9]{9}$/"

  /** What `/^[0-9]{9}$/` matches: nine digits, and `$` also matches before
      a final line feed. */
  predicate NineDigitLine(t: string)
  {
    (|t| == 9 && AllDigits(t)) || (|t| == 10 && AllDigits(t[..9]) && t[9] == '\n')
  }

  /** `preg_match($pattern, $subject)` as a truth value. A missing or empty
      pattern makes `preg_match` fail (false); patterns other than the
      nine-digit one are not modelled and count as matching. */
  function PregMatch(pattern: Option<string>, subject: Value): Outcome<bool>
  {
    match StringParam(subject)
    case TypeError => TypeError
    case Done(t) =>
      if pattern == Some(NineDigitPattern) then Done(NineDigitLine(t))
      else if pattern == None || pattern == Some("") then Done(false)
      else Done(true)
  }

  /* ----------------------------------------------------------------------
     applyRule
     ---------------------------------------------------------------------- */

  /** `applyRule($field, $value, $rule)`; the `switch` on the rule name
      compares non-numeric strings, so it is plain equality. */
  function ApplyRule(field: string, value: Value, rule: string): Check
  {
    var r := ParseRule(rule);
    var rv := ParamText(r.param);
    if r.name == "required" then
      if !Truthy(value) && value != Str("0") then Fail(Msg(field, " est requis.")) else Pass
    else if r.name == "string" then
      if value != Null && !value.Str? then
        Fail(Msg(field, " doit \U{C3}\U{AA}tre une cha\U{C3}\U{AE}ne de caract\U{C3}\U{A8}res."))
      else Pass
    else if r.name == "max" then
      if value == Null then Pass
      else if StringParam(value).TypeError? then Crash
      else if |StringParam(value).value| > StrToInt(rv) then
        Fail(Msg(field, " ne doit pas d\U{C3}\U{A9}passer " + rv + " caract\U{C3}\U{A8}res."))
      else Pass
    else if r.name == "integer" then
      if value != Null && !(FilterInt(value).Some? && FilterInt(value).value != 0) then
        Fail(Msg(field, " doit \U{C3}\U{AA}tre un nombre entier."))
      else Pass
    else if r.name == "min" then
      if value != Null && IntCast(value) < StrToInt(rv) then
        Fail(Msg(field, " doit \U{C3}\U{AA}tre au moins " + rv + "."))
      else Pass
    else if r.name == "date" then
      if value == Null then Pass
      else if IsValidDate(value).TypeError? then Crash
      else if !IsValidDate(value).value then Fail(Msg(field, " doit \U{C3}\U{AA}tre une date valide."))
      else Pass
    else if r.name == "in" then
      var allowed := Split(rv, ',');
      if value != Null && !InArrayLoose(value, allowed) then
        Fail(Msg(field, " doit \U{C3}\U{AA}tre une des valeurs suivantes: " + Join(allowed, ", ")))
      else Pass
    else if r.name == "regex" then
      if value == Null then Pass
      else if PregMatch(r.param, value).TypeError? then Crash
      else if !PregMatch(r.param, value).value then Fail(Msg(field, " n'est pas dans le format attendu."))
      else Pass
    else if r.name == "array" then
      if value != Null && !value.Arr? then Fail(Msg(field, " doit \U{C3}\U{AA}tre un tableau."))
      else Pass
    else Pass
  }

  predicate KnownRule(name: string)
  {
    name in ["required", "string", "max", "integer", "min", "date", "in", "regex", "array"]
  }

  /** An unknown rule name such as `nullable` never reports anything. */
  lemma UnknownRulePasses(field: string, value: Value, rule: string)
    requires !KnownRule(ParseRule(rule).name)
    ensures ApplyRule(field, value, rule) == Pass
  {
  }

  /** Null (an absent field) passes every rule except `required`. */
  lemma NullPassesAllButRequired(field: string, rule: string)
    requires ParseRule(rule).name != "required"
    ensures ApplyRule(field, Null, rule) == Pass
  {
  }

  /** `required` rejects exactly PHP's empty values other than the string
      "0". */
  lemma RequiredRejects(field: string, value: Value, rule: string)
    requires ParseRule(rule).name == "required"
    ensures ApplyRule(field, value, rule).Fail? <==>
      value == Null || value == Bool(false) || value == Int(0) || value == Str("") || value == Arr([])
    ensures !ApplyRule(field, value, rule).Crash?
  {
  }

  /** `integer` passes exactly the values that validate to a non-zero
      integer, so zero, valid as it is, is reported as not an integer. */
  lemma IntegerRule(field: string, value: Value, rule: string)
    requires ParseRule(rule).name == "integer" && value != Null
    ensures ApplyRule(field, value, rule) == Pass <==> FilterInt(value).Some? && FilterInt(value).value != 0
    ensures !ApplyRule(field, value, rule).Crash?
  {
  }

  lemma ZeroIsNotAnInteger(field: string, zero: string, rule: string)
    requires zero == "0" && ParseRule(rule).name == "integer"
    ensures ApplyRule(field, Str(zero), rule).Fail?
  {
    assert ParseFilterInt(zero) == Some(0) by {
      assert TrimFilterSpace(zero) == zero;
    }
  }

  /** `min:N` fails exactly when the integer cast of the value is below
      the integer cast of N. */
  lemma MinRule(field: string, value: Value, rule: string)
    requires ParseRule(rule).name == "min" && value != Null
    ensures ApplyRule(field, value, rule) == Pass <==> IntCast(value) >= StrToInt(ParamText(ParseRule(rule).param))
    ensures !ApplyRule(field, value, rule).Crash?
  {
  }

  lemma StrToIntZero(zero: string)
    requires zero == "0"
    ensures StrToInt(zero) == 0
  {
    assert SkipNumericSpace(zero) == zero;
    assert SplitSign(zero) == (1, zero);
    assert DigitRun(zero) == zero;
    assert zero[..0] == [];
    assert DigitsValue(zero) == 0;
  }

  /** Zero meets `min:0`. */
  lemma ZeroMeetsMinZero(field: string, zero: string, rule: string)
    requires zero == "0" && rule == "min:0"
    ensures ApplyRule(field, Str(zero), rule) == Pass
  {
    assert ParseRule(rule) == ParsedRule("min", Some(zero)) by {
      ParseRuleParts("min", zero, "");
      assert "min" + ":" + zero == rule;
    }
    StrToIntZero(zero);
    assert IntCast(Str(zero)) == 0;
    MinRule(field, Str(zero), rule);
  }

  /** `max:N` fails exactly when the byte length exceeds N; an array is a
      `TypeError`. */
  lemma MaxRule(field: string, value: Value, rule: string)
    requires ParseRule(rule).name == "max" && value != Null
    ensures ApplyRule(field, value, rule).Crash? <==> value.Arr?
    ensures value.Str? ==> (ApplyRule(field, value, rule).Fail? <==> |value.s| > StrToInt(ParamText(ParseRule(rule).param)))
  {
  }

  /** `date` accepts exactly the strings that are a valid date written
      `YYYY-MM-DD`. */
  lemma DateRule(field: string, s: string, rule: string)
    requires ParseRule(rule).name == "date"
    ensures ApplyRule(field, Str(s), rule) == Pass <==> IsDateText(s)
  {
  }

  /** `regex:/^[0-9]{9}$/` accepts nine digits, optionally followed by one
      line feed. */
  lemma NineDigitRule(field: string, s: string, rule: string)
    requires rule == "regex:" + NineDigitPattern
    ensures ApplyRule(field, Str(s), rule) == Pass <==> NineDigitLine(s)
  {
    ParseRuleParts("regex", NineDigitPattern, "");
    assert "regex" + ":" + NineDigitPattern == rule;
    RegexRuleParsed(field, Str(s), rule, NineDigitPattern);
  }

  lemma RegexRuleParsed(field: string, value: Value, rule: string, pattern: string)
    requires ParseRule(rule) == ParsedRule("regex", Some(pattern))
    requires value.Str?
    ensures ApplyRule(field, value, rule) == Pass <==> PregMatch(Some(pattern), value) == Done(true)
  {
  }

  /** `in:a,b,...` accepts null and the values loosely equal to one of the
      listed strings. */
  lemma InRule(field: string, value: Value, allowed: string)
    requires ':' !in allowed
    ensures ApplyRule(field, value, "in:" + allowed) == Pass <==>
      value == Null || InArrayLoose(value, Split(allowed, ','))
  {
    ParseRuleParts("in", allowed, "");
    assert "in" + ":" + allowed == "in:" + allowed;
    InRuleParsed(field, value, "in:" + allowed, allowed);
  }

  lemma InRuleParsed(field: string, value: Value, rule: string, allowed: string)
    requires ParseRule(rule) == ParsedRule("in", Some(allowed))
    ensures ApplyRule(field, value, rule) == Pass <==>
      value == Null || InArrayLoose(value, Split(allowed, ','))
  {
  }

  lemma SplitYesNo(choices: string, yes: string, no: string)
    requires choices == "Oui,Non" && yes == "Oui" && no == "Non"
    ensures Split(choices, ',') == [yes, no]
  {
    assert choices == yes + [','] + no;
    SplitAt(yes, no, ',');
    SplitNoDelimiter(yes, ',');
    SplitNoDelimiter(no, ',');
  }

  /** For the yes/no choices, loose comparison also lets the boolean `true`
      (a JSON `true`) through, and nothing else besides the two words. */
  lemma InYesNo(field: string, value: Value, choices: string)
    requires choices == "Oui,Non"
    ensures ApplyRule(field, value, "in:" + choices) == Pass <==>
      value == Null || value == Str("Oui") || value == Str("Non") || value == Bool(true)
  {
    var yes, no := "Oui", "Non";
    SplitYesNo(choices, yes, no);
    InRule(field, value, choices);
    NotNumeric(yes);
    NotNumeric(no);
    LooseEqualsNonNumeric(value, yes);
    LooseEqualsNonNumeric(value, no);
    assert InArrayLoose(value, [yes, no]) <==> LooseEqualsStr(value, yes) || LooseEqualsStr(value, no) by {
      if LooseEqualsStr(value, no) { assert [yes, no][1] == no; }
      if LooseEqualsStr(value, yes) { assert [yes, no][0] == yes; }
    }
    assert value.Int? ==> DecimalString(value.i) != yes && DecimalString(value.i) != no by {
      if value.Int? {
        var t := DecimalString(value.i);
        assert t[0] == '-' || IsDigit(t[0]) by {
          if value.i >= 0 { assert t[0] == NatDigits(value.i)[0]; }
        }
      }
    }
  }

  lemma NotNumeric(s: string)
    requires s != [] && !IsNumericSpace(s[0]) && s[0] != '-' && s[0] != '+' && !IsDigit(s[0])
    ensures !IsIntNumeric(s)
  {
    assert SkipNumericSpace(s) == s;
    assert SplitSign(s).1 == s;
    assert DigitRun(s) == [];
  }

  /* ----------------------------------------------------------------------
     The error map
     ---------------------------------------------------------------------- */

  datatype FieldErrors = FieldErrors(field: string, messages: seq<string>)

  /** `$this->errors`: field name → messages, in the order fields first
      failed. */
  type ErrorMap = seq<FieldErrors>

  /** `$this->errors[$field] ?? []`. */
  function MessagesOf(e: ErrorMap, f: string): seq<string>
  {
    if e == [] then []
    else if e[0].field == f then e[0].messages
    else MessagesOf(e[1..], f)
  }

  /** `$this->errors[$field][] = $message`. */
  function AddError(e: ErrorMap, f: string, m: string): (r: ErrorMap)
    ensures r != []
    ensures MessagesOf(r, f) == MessagesOf(e, f) + [m]
    ensures forall g :: g != f ==> MessagesOf(r, g) == MessagesOf(e, g)
  {
    if e == [] then [FieldErrors(f, [m])]
    else if e[0].field == f then [FieldErrors(f, e[0].messages + [m])] + e[1..]
    else
      var r := [e[0]] + AddError(e[1..], f, m);
      assert r[1..] == AddError(e[1..], f, m);
      r
  }

  /** `getErrorMessages()`: every message, field by field. */
  function Flatten(e: ErrorMap): seq<string>
  {
    if e == [] then [] else Flatten(e[..|e| - 1]) + e[|e| - 1].messages
  }

  /** Each field appears once and has at least one message. */
  predicate WellFormed(e: ErrorMap)
  {
    (forall i :: 0 <= i < |e| ==> e[i].messages != [])
    && (forall i, j :: 0 <= i < j < |e| ==> e[i].field != e[j].field)
  }

  lemma {:induction false} AddErrorWellFormed(e: ErrorMap, f: string, m: string)
    requires WellFormed(e)
    ensures WellFormed(AddError(e, f, m))
  {
    if e != [] && e[0].field != f {
      AddErrorWellFormed(e[1..], f, m);
      var r := AddError(e, f, m);
      var t := AddError(e[1..], f, m);
      assert r == [e[0]] + t;
      forall j | 0 < j < |r|
        ensures r[0].field != r[j].field
      {
        var g := r[j].field;
        assert t[j - 1].field == g;
        FieldOfIndex(t, j - 1);
        if g != f {
          assert MessagesOf(t, g) == MessagesOf(e[1..], g);
          IndexOfField(e[1..], g);
        }
      }
    } else if e != [] {
      var r := AddError(e, f, m);
      assert forall j :: 0 < j < |r| ==> r[j] == e[j];
    }
  }

  /** In a well-formed map, a field that is listed has its messages. */
  lemma {:induction false} FieldOfIndex(e: ErrorMap, i: int)
    requires WellFormed(e) && 0 <= i < |e|
    ensures MessagesOf(e, e[i].field) == e[i].messages
  {
    if i > 0 {
      FieldOfIndex(e[1..], i - 1);
    }
  }

  /** A field with messages is listed. */
  lemma {:induction false} IndexOfField(e: ErrorMap, g: string)
    requires MessagesOf(e, g) != []
    ensures exists i :: 0 <= i < |e| && e[i].field == g
  {
    if e[0].field != g {
      IndexOfField(e[1..], g);
      var i :| 0 <= i < |e[1..]| && e[1..][i].field == g;
      assert e[i + 1].field == g;
    }
  }

  /** Of a well-formed map, the flattened messages are empty exactly when
      the map is. */
  lemma FlattenEmpty(e: ErrorMap)
    requires WellFormed(e)
    ensures Flatten(e) == [] <==> e == []
  {
    if e != [] {
      assert e[|e| - 1].messages != [];
    }
  }

  /* ----------------------------------------------------------------------
     validate
     ---------------------------------------------------------------------- */

  /** The outcomes of a field's rules, in rule order. */
  function Checks(field: string, value: Value, rules: seq<string>): (cs: seq<Check>)
    ensures |cs| == |rules|
  {
    seq(|rules|, j requires 0 <= j < |rules| => ApplyRule(field, value, rules[j]))
  }

  /** One rule's outcome added to the errors so far. */
  function Record(e: ErrorMap, field: string, c: Check): Outcome<ErrorMap>
  {
    match c
    case Pass => Done(e)
    case Fail(m) => Done(AddError(e, field, m))
    case Crash => TypeError
  }

  /** The inner loop of `validate`: the outcomes of one field's rules
      recorded in order; the first crash ends it. */
  function Fold(field: string, cs: seq<Check>, acc: ErrorMap): Outcome<ErrorMap>
  {
    if cs == [] then Done(acc)
    else
      match Fold(field, cs[..|cs| - 1], acc)
      case TypeError => TypeError
      case Done(e) => Record(e, field, cs[|cs| - 1])
  }

  /** The outer loop of `validate`: field by field, from a cleared error
      map. */
  function FoldTable(fields: seq<string>, css: seq<seq<Check>>): Outcome<ErrorMap>
    requires |fields| == |css|
  {
    if fields == [] then Done([])
    else
      match FoldTable(fields[..|fields| - 1], css[..|css| - 1])
      case TypeError => TypeError
      case Done(e) => Fold(fields[|fields| - 1], css[|css| - 1], e)
  }

  /** `$data[$field] ?? null`. */
  function FieldValue(data: Value, field: string): Value
  {
    Coalesce(Get(data, field), Null)
  }

  /** A rule table: field name → rule strings, in order. */
  type RuleTable = seq<(string, seq<string>)>

  function Fields(rules: RuleTable): (fs: seq<string>)
    ensures |fs| == |rules|
  {
    seq(|rules|, i requires 0 <= i < |rules| => rules[i].0)
  }

  /** For each field of the table, the outcomes of its rules on `data`. */
  function TableChecks(data: Value, rules: RuleTable): (css: seq<seq<Check>>)
    ensures |css| == |rules|
  {
    seq(|rules|, i requires 0 <= i < |rules| => Checks(rules[i].0, FieldValue(data, rules[i].0), rules[i].1))
  }

  /** `validate($data, $rules)` from a cleared error map. */
  function CheckFields(data: Value, rules: RuleTable): Outcome<ErrorMap>
  {
    FoldTable(Fields(rules), TableChecks(data, rules))
  }

  /** The messages of the failing outcomes, in order. */
  function FailMessages(cs: seq<Check>): seq<string>
  {
    if cs == [] then []
    else FailMessages(cs[..|cs| - 1]) + (if cs[|cs| - 1].Fail? then [cs[|cs| - 1].message] else [])
  }

  predicate NoCrash(cs: seq<Check>)
  {
    forall j :: 0 <= j < |cs| ==> !cs[j].Crash?
  }

  predicate AllPass(cs: seq<Check>)
  {
    forall j :: 0 <= j < |cs| ==> cs[j] == Pass
  }

  /** One field's rules end in a `TypeError` exactly when some rule
      crashes. */
  lemma {:induction false} FoldDone(field: string, cs: seq<Check>, acc: ErrorMap)
    ensures Fold(field, cs, acc).Done? <==> NoCrash(cs)
  {
    if cs != [] {
      var init := cs[..|cs| - 1];
      FoldDone(field, init, acc);
      assert forall j :: 0 <= j < |init| ==> init[j] == cs[j];
    }
  }

  /** One field's rules extend that field's messages by the failing rules'
      messages in order, and no other field changes. */
  lemma {:induction false} FoldMessages(field: string, cs: seq<Check>, acc: ErrorMap)
    requires Fold(field, cs, acc).Done?
    ensures MessagesOf(Fold(field, cs, acc).value, field) == MessagesOf(acc, field) + FailMessages(cs)
    ensures forall g :: g != field ==> MessagesOf(Fold(field, cs, acc).value, g) == MessagesOf(acc, g)
  {
    if cs != [] {
      FoldMessages(field, cs[..|cs| - 1], acc);
    }
  }

  lemma {:induction false} FoldWellFormed(field: string, cs: seq<Check>, acc: ErrorMap)
    requires WellFormed(acc) && Fold(field, cs, acc).Done?
    ensures WellFormed(Fold(field, cs, acc).value)
  {
    if cs != [] {
      var init := cs[..|cs| - 1];
      FoldWellFormed(field, init, acc);
      var c := cs[|cs| - 1];
      if c.Fail? {
        AddErrorWellFormed(Fold(field, init, acc).value, field, c.message);
      }
    }
  }

  /** The errors stay empty exactly when they were and every rule passes. */
  lemma {:induction false} FoldEmpty(field: string, cs: seq<Check>, acc: ErrorMap)
    requires Fold(field, cs, acc).Done?
    ensures Fold(field, cs, acc).value == [] <==> acc == [] && AllPass(cs)
  {
    if cs != [] {
      var init := cs[..|cs| - 1];
      FoldEmpty(field, init, acc);
      assert forall j :: 0 <= j < |init| ==> init[j] == cs[j];
    }
  }

  predicate Distinct(fields: seq<string>)
  {
    forall i, j :: 0 <= i < j < |fields| ==> fields[i] != fields[j]
  }

  predicate TableNoCrash(css: seq<seq<Check>>)
  {
    forall i :: 0 <= i < |css| ==> NoCrash(css[i])
  }

  predicate TableAllPass(css: seq<seq<Check>>)
  {
    forall i :: 0 <= i < |css| ==> AllPass(css[i])
  }

  /** `validate` ends in a `TypeError` exactly when some rule of some
      field crashes. */
  lemma {:induction false} FoldTableDone(fields: seq<string>, css: seq<seq<Check>>)
    requires |fields| == |css|
    ensures FoldTable(fields, css).Done? <==> TableNoCrash(css)
  {
    if fields != [] {
      var n := |fields| - 1;
      var init := css[..n];
      FoldTableDone(fields[..n], init);
      assert forall i :: 0 <= i < n ==> init[i] == css[i];
      if FoldTable(fields[..n], init).Done? {
        FoldDone(fields[n], css[n], FoldTable(fields[..n], init).value);
      }
    }
  }

  /** The error map `validate` leaves is well formed, and empty exactly when
      every rule of every field passes; so `validate` returns true exactly
      then. */
  lemma {:induction false} FoldTableEmpty(fields: seq<string>, css: seq<seq<Check>>)
    requires |fields| == |css| && FoldTable(fields, css).Done?
    ensures WellFormed(FoldTable(fields, css).value)
    ensures FoldTable(fields, css).value == [] <==> TableAllPass(css)
  {
    if fields != [] {
      var n := |fields| - 1;
      var init := css[..n];
      FoldTableEmpty(fields[..n], init);
      assert forall i :: 0 <= i < n ==> init[i] == css[i];
      var e0 := FoldTable(fields[..n], init).value;
      FoldWellFormed(fields[n], css[n], e0);
      FoldEmpty(fields[n], css[n], e0);
    }
  }

  /** Each listed field holds the messages of its failing rules in rule
      order, and an unlisted field holds none. */
  lemma {:induction false} FoldTableMessages(fields: seq<string>, css: seq<seq<Check>>)
    requires |fields| == |css| && Distinct(fields) && FoldTable(fields, css).Done?
    ensures forall i :: 0 <= i < |fields| ==>
      MessagesOf(FoldTable(fields, css).value, fields[i]) == FailMessages(css[i])
    ensures forall g :: g !in fields ==> MessagesOf(FoldTable(fields, css).value, g) == []
  {
    if fields != [] {
      var n := |fields| - 1;
      var init := css[..n];
      var fs := fields[..n];
      FoldTableMessages(fs, init);
      var e0 := FoldTable(fs, init).value;
      var e := FoldTable(fields, css).value;
      assert e == Fold(fields[n], css[n], e0).value;
      FoldMessages(fields[n], css[n], e0);
      assert fields[n] !in fs;
      forall i | 0 <= i < |fields|
        ensures MessagesOf(e, fields[i]) == FailMessages(css[i])
      {
        if i < n {
          assert fs[i] == fields[i] && init[i] == css[i];
          assert fields[i] != fields[n];
        } else {
          assert MessagesOf(e0, fields[n]) == [];
        }
      }
      forall g | g !in fields
        ensures MessagesOf(e, g) == []
      {
        assert g !in fs;
      }
    }
  }

  /* ----------------------------------------------------------------------
     The class
     ---------------------------------------------------------------------- */

  class Validator {
    var errors: ErrorMap

    constructor()
      ensures errors == []
    {
      errors := [];
    }

    /** `validate($data, $rules)`: clears the errors, applies every rule of
        every field and reports whether no error was recorded. `crashed` is
        a `TypeError` that ends the request. */
    method Validate(data: Value, rules: RuleTable) returns (ok: bool, crashed: bool)
      modifies this
      ensures crashed <==> CheckFields(data, rules).TypeError?
      ensures !crashed ==> errors == CheckFields(data, rules).value && (ok <==> errors == [])
    {
      errors := [];
      var i := 0;
      assert rules[..0] == [];
      while i < |rules|
        invariant 0 <= i <= |rules|
        invariant CheckFields(data, rules[..i]) == Done(errors)
      {
        var f, rs := rules[i].0, rules[i].1;
        var fieldCrashed := ValidateField(f, FieldValue(data, f), rs);
        CheckFieldsStep(data, rules, i);
        if fieldCrashed {
          CheckFieldsCrash(data, rules, i + 1);
          return false, true;
        }
        i := i + 1;
      }
      assert rules[..i] == rules;
      ok := errors == [];
      crashed := false;
    }

    /** The inner loop of `validate`: every rule of one field, in order. */
    method ValidateField(f: string, v: Value, rs: seq<string>) returns (crashed: bool)
      modifies this
      ensures crashed <==> Fold(f, Checks(f, v, rs), old(errors)).TypeError?
      ensures !crashed ==> Fold(f, Checks(f, v, rs), old(errors)) == Done(errors)
    {
      ghost var cs := Checks(f, v, rs);
      var j := 0;
      while j < |rs|
        invariant 0 <= j <= |rs|
        invariant Fold(f, cs[..j], old(errors)) == Done(errors)
      {
        var c := ApplyRule(f, v, rs[j]);
        FoldStep(f, cs, j, old(errors), c);
        if c.Crash? {
          FoldCrash(f, cs, j + 1, old(errors));
          return true;
        }
        errors := if c.Fail? then AddError(errors, f, c.message) else errors;
        j := j + 1;
      }
      assert cs[..j] == cs;
      crashed := false;
    }

    /** `getErrorMessages()`. */
    method GetErrorMessages() returns (messages: seq<string>)
      ensures messages == Flatten(errors)
    {
      messages := [];
      var i := 0;
      while i < |errors|
        invariant 0 <= i <= |errors|
        invariant messages == Flatten(errors[..i])
      {
        var ms := errors[i].messages;
        var j := 0;
        while j < |ms|
          invariant 0 <= j <= |ms|
          invariant messages == Flatten(errors[..i]) + ms[..j]
        {
          messages := messages + [ms[j]];
          j := j + 1;
        }
        assert ms[..j] == ms;
        assert errors[..i + 1][..i] == errors[..i];
        i := i + 1;
      }
      assert errors[..i] == errors;
    }
  }

  /** One more rule of a field. */
  lemma FoldStep(field: string, cs: seq<Check>, j: nat, acc: ErrorMap, c: Check)
    requires j < |cs| && c == cs[j]
    ensures Fold(field, cs[..j + 1], acc) ==
      match Fold(field, cs[..j], acc)
      case TypeError => TypeError
      case Done(e) => Record(e, field, c)
  {
    assert cs[..j + 1][..j] == cs[..j];
  }

  /** A crash in a prefix of a field's rules is a crash of the field. */
  lemma {:induction false} FoldCrash(field: string, cs: seq<Check>, k: nat, acc: ErrorMap)
    requires k <= |cs| && Fold(field, cs[..k], acc).TypeError?
    ensures Fold(field, cs, acc).TypeError?
    decreases |cs| - k
  {
    if k < |cs| {
      assert cs[..k + 1][..k] == cs[..k];
      FoldCrash(field, cs, k + 1, acc);
    } else {
      assert cs[..k] == cs;
    }
  }

  /** One more field of the table. */
  lemma TableStep(fields: seq<string>, css: seq<seq<Check>>, i: nat)
    requires |fields| == |css| && i < |fields|
    ensures FoldTable(fields[..i + 1], css[..i + 1]) ==
      match FoldTable(fields[..i], css[..i])
      case TypeError => TypeError
      case Done(e) => Fold(fields[i], css[i], e)
  {
    assert fields[..i + 1][..i] == fields[..i];
    assert css[..i + 1][..i] == css[..i];
  }

  /** A crash in a prefix of the table is a crash of the whole table. */
  lemma {:induction false} TableCrash(fields: seq<string>, css: seq<seq<Check>>, k: nat)
    requires |fields| == |css| && k <= |fields| && FoldTable(fields[..k], css[..k]).TypeError?
    ensures FoldTable(fields, css).TypeError?
    decreases |fields| - k
  {
    if k < |fields| {
      TableStep(fields, css, k);
      TableCrash(fields, css, k + 1);
    } else {
      assert fields[..k] == fields && css[..k] == css;
    }
  }

  /** Validating one more field of the table folds that field's checks
      into the errors of the fields before it. */
  lemma CheckFieldsStep(data: Value, rules: RuleTable, i: nat)
    requires i < |rules|
    ensures CheckFields(data, rules[..i + 1]) ==
      match CheckFields(data, rules[..i])
      case TypeError => TypeError
      case Done(e) => Fold(rules[i].0, Checks(rules[i].0, FieldValue(data, rules[i].0), rules[i].1), e)
  {
    var fs, css := Fields(rules[..i + 1]), TableChecks(data, rules[..i + 1]);
    assert fs[..i] == Fields(rules[..i]);
    assert css[..i] == TableChecks(data, rules[..i]);
  }

  /** A crash while validating a prefix of the table is a crash of the
      whole table. */
  lemma CheckFieldsCrash(data: Value, rules: RuleTable, k: nat)
    requires k <= |rules| && CheckFields(data, rules[..k]).TypeError?
    ensures CheckFields(data, rules).TypeError?
  {
    var fs, css := Fields(rules), TableChecks(data, rules);
    assert Fields(rules[..k]) == fs[..k];
    assert TableChecks(data, rules[..k]) == css[..k];
    TableCrash(fs, css, k);
  }
}
