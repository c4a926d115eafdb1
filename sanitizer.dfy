/** The `Sanitizer` class: cleaning of submitted form values before they are
    stored (trimming, HTML escaping, phone numbers, checkbox groups). */
module Sanitizer {
  import opened Php

  /* ----------------------------------------------------------------------
     trim
     ---------------------------------------------------------------------- */

  /** The characters `trim` strips by default: space, tab, line feed,
      carriage return, NUL and vertical tab. */
  predicate IsTrimChar(c: char)
  {
    c == ' ' || c == '\t' || c == '\n' || c == '\r' || c == '\U{00}' || c == '\U{0B}'
  }

  function TrimStart(s: string): (r: string)
    ensures |r| <= |s| && r == s[|s| - |r|..]
    ensures r != [] ==> !IsTrimChar(r[0])
    ensures forall i :: 0 <= i < |s| - |r| ==> IsTrimChar(s[i])
  {
    if s != [] && IsTrimChar(s[0]) then TrimStart(s[1..]) else s
  }

  function TrimEnd(s: string): (r: string)
    ensures |r| <= |s| && r == s[..|r|]
    ensures r != [] ==> !IsTrimChar(r[|r| - 1])
    ensures forall i :: |r| <= i < |s| ==> IsTrimChar(s[i])
  {
    if s != [] && IsTrimChar(s[|s| - 1]) then TrimEnd(s[..|s| - 1]) else s
  }

  /** `trim($s)`. */
  function Trim(s: string): string
  {
    TrimEnd(TrimStart(s))
  }

  /** `trim` removes exactly the strippable characters at both ends: the
      result is the slice of `s` starting at `lead`, everything before and
      after it is strippable, and its own ends are not. */
  lemma TrimSlice(s: string) returns (lead: nat)
    ensures lead + |Trim(s)| <= |s| && Trim(s) == s[lead..lead + |Trim(s)|]
    ensures forall i :: 0 <= i < lead ==> IsTrimChar(s[i])
    ensures forall i :: lead + |Trim(s)| <= i < |s| ==> IsTrimChar(s[i])
    ensures Trim(s) != [] ==> !IsTrimChar(Trim(s)[0]) && !IsTrimChar(Trim(s)[|Trim(s)| - 1])
  {
    var t := TrimStart(s);
    lead := |s| - |t|;
    var r := TrimEnd(t);
    assert Trim(s) == r;
    assert t == s[lead..];
    assert r == t[..|r|];
    assert r == s[lead..lead + |r|];
    forall i | lead + |r| <= i < |s|
      ensures IsTrimChar(s[i])
    {
      assert |r| <= i - lead < |t|;
      assert s[i] == t[i - lead];
    }
  }

  lemma TrimIdempotent(s: string)
    ensures Trim(Trim(s)) == Trim(s)
  {
    var r := Trim(s);
    assert TrimStart(r) == r;
    assert TrimEnd(r) == r;
  }

  /* ----------------------------------------------------------------------
     UTF-8 well-formedness (htmlspecialchars with the 'UTF-8' charset)
     ---------------------------------------------------------------------- */

  predicate Between(c: char, lo: int, hi: int)
  {
    lo <= c as int <= hi
  }

  /** The length of the well-formed UTF-8 sequence at the start of `s`, or
      0 when it is ill-formed (overlong forms, surrogates and code points
      above U+10FFFF are ill-formed). */
  function SequenceLength(s: string): (n: nat)
    requires s != []
    ensures n <= |s|
  {
    var b := s[0] as int;
    if b < 0x80 then 1
    else if 0xC2 <= b <= 0xDF then
      if |s| >= 2 && Between(s[1], 0x80, 0xBF) then 2 else 0
    else if 0xE0 <= b <= 0xEF then
      var lo := if b == 0xE0 then 0xA0 else 0x80;
      var hi := if b == 0xED then 0x9F else 0xBF;
      if |s| >= 3 && Between(s[1], lo, hi) && Between(s[2], 0x80, 0xBF) then 3 else 0
    else if 0xF0 <= b <= 0xF4 then
      var lo := if b == 0xF0 then 0x90 else 0x80;
      var hi := if b == 0xF4 then 0x8F else 0xBF;
      if |s| >= 4 && Between(s[1], lo, hi) && Between(s[2], 0x80, 0xBF)
         && Between(s[3], 0x80, 0xBF) then 4 else 0
    else 0
  }

  predicate ValidUtf8(s: string)
    decreases |s|
  {
    s == [] || (SequenceLength(s) > 0 && ValidUtf8(s[SequenceLength(s)..]))
  }

  predicate IsAscii(s: string)
  {
    forall i :: 0 <= i < |s| ==> s[i] as int < 0x80
  }

  lemma {:induction false} AsciiIsUtf8(s: string)
    requires IsAscii(s)
    ensures ValidUtf8(s)
    decreases |s|
  {
    if s != [] {
      AsciiIsUtf8(s[1..]);
    }
  }

  /* ----------------------------------------------------------------------
     htmlspecialchars($s, ENT_QUOTES, 'UTF-8')
     ---------------------------------------------------------------------- */

  function EscapeChar(c: char): (r: string)
    ensures r != []
  {
    if c == '&' then "&amp;"
    else if c == '"' then "&quot;"
    else if c == '\'' then "&#039;"
    else if c == '<' then "&lt;"
    else if c == '>' then "&gt;"
    else [c]
  }

  function Escape(s: string): (r: string)
    ensures |r| >= |s|
  {
    if s == [] then [] else EscapeChar(s[0]) + Escape(s[1..])
  }

  /** `htmlspecialchars`: the escaped text, or "" when the input is not
      well-formed UTF-8 (no ENT_SUBSTITUTE flag is given). */
  function Htmlspecialchars(s: string): string
  {
    if ValidUtf8(s) then Escape(s) else ""
  }

  /** The inverse of `Escape` (what `htmlspecialchars_decode` does with
      ENT_QUOTES). */
  function Unescape(s: string): string
  {
    if s == [] then []
    else if s[0] != '&' then [s[0]] + Unescape(s[1..])
    else if |s| >= 5 && s[..5] == "&amp;" then "&" + Unescape(s[5..])
    else if |s| >= 6 && s[..6] == "&quot;" then "\"" + Unescape(s[6..])
    else if |s| >= 6 && s[..6] == "&#039;" then "'" + Unescape(s[6..])
    else if |s| >= 4 && s[..4] == "&lt;" then "<" + Unescape(s[4..])
    else if |s| >= 4 && s[..4] == "&gt;" then ">" + Unescape(s[4..])
    else [s[0]] + Unescape(s[1..])
  }

  /** Text in which every `&`, read from left to right, begins one of the
      five entities `Escape` writes, so that decoding finds no stray
      ampersand. */
  predicate WellEscaped(t: string)
  {
    if t == [] then true
    else if t[0] != '&' then WellEscaped(t[1..])
    else if |t| >= 5 && t[..5] == "&amp;" then WellEscaped(t[5..])
    else if |t| >= 6 && t[..6] == "&quot;" then WellEscaped(t[6..])
    else if |t| >= 6 && t[..6] == "&#039;" then WellEscaped(t[6..])
    else if |t| >= 4 && t[..4] == "&lt;" then WellEscaped(t[4..])
    else if |t| >= 4 && t[..4] == "&gt;" then WellEscaped(t[4..])
    else false
  }

  predicate NoMarkup(t: string)
  {
    forall i :: 0 <= i < |t| ==> !IsMarkup(t[i])
  }

  lemma UnescapeEscapeChar(c: char, t: string)
    ensures Unescape(EscapeChar(c) + t) == [c] + Unescape(t)
    ensures WellEscaped(EscapeChar(c) + t) == WellEscaped(t)
  {
    if c == '&' {
      UnescapeEntity("&amp;", c, t);
      WellEscapedEntity("&amp;", t);
    } else if c == '"' {
      UnescapeQuot(t);
    } else if c == '\'' {
      UnescapeApos(t);
    } else if c == '<' {
      UnescapeEntity("&lt;", c, t);
      WellEscapedEntity("&lt;", t);
    } else if c == '>' {
      UnescapeEntity("&gt;", c, t);
      WellEscapedEntity("&gt;", t);
    } else {
      var s := [c] + t;
      assert s[0] == c && s[1..] == t;
    }
  }

  /** An entity that the decoder tries first among those of its length. */
  lemma UnescapeEntity(e: string, c: char, t: string)
    requires (e == "&amp;" && c == '&') || (e == "&lt;" && c == '<') || (e == "&gt;" && c == '>')
    ensures Unescape(e + t) == [c] + Unescape(t)
  {
    var s := e + t;
    assert s[..|e|] == e && s[|e|..] == t;
    assert s[0] == '&';
    if e != "&amp;" {
      assert s[1] == e[1];
    }
  }

  lemma WellEscapedEntity(e: string, t: string)
    requires e == "&amp;" || e == "&lt;" || e == "&gt;"
    ensures WellEscaped(e + t) == WellEscaped(t)
  {
    var s := e + t;
    assert s[..|e|] == e && s[|e|..] == t;
    assert s[0] == '&';
    if e != "&amp;" {
      assert s[1] == e[1];
    }
  }

  lemma UnescapeQuot(t: string)
    ensures Unescape("&quot;" + t) == "\"" + Unescape(t)
    ensures WellEscaped("&quot;" + t) == WellEscaped(t)
  {
    var s := "&quot;" + t;
    assert s[..6] == "&quot;" && s[6..] == t;
    assert s[..5] != "&amp;" by { assert s[1] == 'q'; }
  }

  lemma UnescapeApos(t: string)
    ensures Unescape("&#039;" + t) == "'" + Unescape(t)
    ensures WellEscaped("&#039;" + t) == WellEscaped(t)
  {
    var s := "&#039;" + t;
    assert s[..6] == "&#039;" && s[6..] == t;
    assert s[..5] != "&amp;" && s[..6] != "&quot;" by { assert s[1] == '#'; }
  }

  /** Escaping loses nothing: decoding gives the text back. */
  lemma {:induction false} UnescapeEscape(s: string)
    ensures Unescape(Escape(s)) == s
  {
    if s != [] {
      UnescapeEscapeChar(s[0], Escape(s[1..]));
      UnescapeEscape(s[1..]);
      assert [s[0]] + s[1..] == s;
    }
  }

  predicate IsMarkup(c: char)
  {
    c == '<' || c == '>' || c == '"' || c == '\''
  }

  /** Escaped text holds no tag delimiter and no quote. */
  lemma {:induction false} EscapeNoMarkup(s: string)
    ensures forall i :: 0 <= i < |Escape(s)| ==> !IsMarkup(Escape(s)[i])
  {
    if s != [] {
      EscapeNoMarkup(s[1..]);
      var e, t := EscapeChar(s[0]), Escape(s[1..]);
      forall i | 0 <= i < |e + t|
        ensures !IsMarkup((e + t)[i])
      {
        if i >= |e| { assert (e + t)[i] == t[i - |e|]; }
      }
    }
  }

  /** Escaped text leaves no stray ampersand. */
  lemma {:induction false} EscapeWellEscaped(s: string)
    ensures WellEscaped(Escape(s))
  {
    if s != [] {
      UnescapeEscapeChar(s[0], Escape(s[1..]));
      EscapeWellEscaped(s[1..]);
    }
  }

  lemma EscapeCons(c: char, u: string)
    ensures Escape([c] + u) == EscapeChar(c) + Escape(u)
  {
    assert ([c] + u)[0] == c && ([c] + u)[1..] == u;
  }

  /** One step of `EscapeUnescape`: the first `n` characters of `t` decode
      to `c` and are what `c` escapes to. */
  lemma EscapeBack(t: string, n: nat, c: char)
    requires 0 < n <= |t| && t[..n] == EscapeChar(c)
    requires Unescape(t) == [c] + Unescape(t[n..])
    requires Escape(Unescape(t[n..])) == t[n..]
    ensures Escape(Unescape(t)) == t
  {
    EscapeCons(c, Unescape(t[n..]));
    assert t[..n] + t[n..] == t;
  }

  /** Decoding well-escaped text without markup and escaping it again gives
      the text back: `Escape` is onto such texts. */
  lemma {:induction false} EscapeUnescape(t: string)
    requires WellEscaped(t) && NoMarkup(t)
    ensures Escape(Unescape(t)) == t
    decreases |t|
  {
    if t == [] {
    } else if t[0] != '&' {
      assert NoMarkup(t[1..]) && !IsMarkup(t[0]);
      EscapeUnescape(t[1..]);
      EscapeBack(t, 1, t[0]);
    } else if |t| >= 5 && t[..5] == "&amp;" {
      assert NoMarkup(t[5..]);
      EscapeUnescape(t[5..]);
      EscapeBack(t, 5, '&');
    } else if |t| >= 6 && t[..6] == "&quot;" {
      assert NoMarkup(t[6..]);
      EscapeUnescape(t[6..]);
      EscapeBack(t, 6, '"');
    } else if |t| >= 6 && t[..6] == "&#039;" {
      assert NoMarkup(t[6..]);
      EscapeUnescape(t[6..]);
      EscapeBack(t, 6, '\'');
    } else if |t| >= 4 && t[..4] == "&lt;" {
      assert NoMarkup(t[4..]);
      EscapeUnescape(t[4..]);
      EscapeBack(t, 4, '<');
    } else {
      assert |t| >= 4 && t[..4] == "&gt;";
      assert NoMarkup(t[4..]);
      EscapeUnescape(t[4..]);
      EscapeBack(t, 4, '>');
    }
  }

  /** Two well-escaped texts without markup that decode to the same text
      are the same text. */
  lemma EscapedDetermined(t: string, u: string)
    requires WellEscaped(t) && NoMarkup(t)
    requires WellEscaped(u) && NoMarkup(u)
    requires Unescape(t) == Unescape(u)
    ensures t == u
  {
    EscapeUnescape(t);
    EscapeUnescape(u);
  }

  /* ----------------------------------------------------------------------
     Sanitizer::sanitize
     ---------------------------------------------------------------------- */

  /** `Sanitizer::sanitize($data)`: arrays are sanitized element by element
      with their keys kept, strings are trimmed and escaped and become null
      when nothing is left, other values are returned as they are. */
  function Sanitize(v: Value): (r: Value)
    ensures v.Arr? <==> r.Arr?
    ensures v.Arr? ==> Keys(r.entries) == Keys(v.entries)
    ensures !v.Arr? && !v.Str? ==> r == v
    ensures v.Str? ==> r == Null || (r.Str? && r.s != [])
  {
    match v
    case Arr(es) => Arr(seq(|es|, i requires 0 <= i < |es| => Entry(es[i].key, Sanitize(es[i].value))))
    case Str(s) =>
      var e := Htmlspecialchars(Trim(s));
      if e == [] then Null else Str(e)
    case _ => v
  }

  /** What a sanitized string means: null exactly when the trimmed text is
      empty or not UTF-8, otherwise a well-escaped text without markup that
      decodes to the trimmed input (by `EscapedDetermined`, the only such
      text). */
  lemma SanitizeString(s: string)
    ensures Sanitize(Str(s)) == Null <==> Trim(s) == [] || !ValidUtf8(Trim(s))
    ensures Sanitize(Str(s)).Str? ==>
      Unescape(Sanitize(Str(s)).s) == Trim(s)
      && WellEscaped(Sanitize(Str(s)).s)
      && NoMarkup(Sanitize(Str(s)).s)
  {
    var t := Trim(s);
    if ValidUtf8(t) {
      UnescapeEscape(t);
      EscapeNoMarkup(t);
      EscapeWellEscaped(t);
      if t != [] { assert |Escape(t)| > 0; }
    }
  }

  /** No string anywhere in a value, however deeply nested, is empty. */
  ghost predicate NoEmptyText(v: Value)
  {
    match v
    case Str(s) => s != []
    case Arr(es) => forall i :: 0 <= i < |es| ==> NoEmptyText(es[i].value)
    case _ => true
  }

  /** Sanitizing never leaves an empty string behind, at any depth. */
  lemma {:induction false} SanitizeNoEmptyText(v: Value)
    ensures NoEmptyText(Sanitize(v))
  {
    match v
    case Arr(es) =>
      var r := Sanitize(v);
      forall i | 0 <= i < |es|
        ensures NoEmptyText(r.entries[i].value)
      {
        SanitizeNoEmptyText(es[i].value);
      }
    case _ =>
  }

  lemma {:induction false} EscapeAppend(a: string, b: string)
    ensures Escape(a + b) == Escape(a) + Escape(b)
  {
    if a == [] {
      assert a + b == b;
    } else {
      assert (a + b)[1..] == a[1..] + b;
      EscapeAppend(a[1..], b);
    }
  }

  /** Text that `trim` leaves alone and that is ASCII sanitizes to its
      escaped form. */
  lemma SanitizeTrimmedAscii(t: string)
    requires t != [] && IsAscii(t)
    requires !IsTrimChar(t[0]) && !IsTrimChar(t[|t| - 1])
    ensures Sanitize(Str(t)) == Str(Escape(t))
  {
    assert TrimStart(t) == t;
    assert TrimEnd(t) == t;
    AsciiIsUtf8(t);
  }

  lemma {:induction false} EscapeUnchanged(s: string)
    requires forall i :: 0 <= i < |s| ==> EscapeChar(s[i]) == [s[i]]
    ensures Escape(s) == s
  {
    if s != [] {
      EscapeUnchanged(s[1..]);
      assert [s[0]] + s[1..] == s;
    }
  }

  /** Escaping text that starts with an ampersand lengthens it by at least
      the four bytes of `amp;`. */
  lemma EscapeGrows(t: string)
    requires t != [] && t[0] == '&'
    ensures |Escape(t)| >= |t| + 4
  {
    assert Escape(t) == EscapeChar(t[0]) + Escape(t[1..]);
  }

  /** Sanitizing is not idempotent: an ampersand is escaped again on every
      pass, so text holding one changes when it is sanitized a second time.
      The text is a parameter pinned by `requires`, so the solver unfolds
      the literal once instead of in each clause. */
  lemma SanitizeEscapesTwice(s: string)
    requires s == "&"
    ensures Sanitize(Str(s)).Str?
    ensures Sanitize(Sanitize(Str(s))) != Sanitize(Str(s))
  {
    SanitizeTrimmedAscii(s);
    var x := Escape(s);
    assert x == "&amp;" by {
      assert Escape(s) == EscapeChar(s[0]) + Escape(s[1..]);
      assert s[1..] == [];
    }
    SanitizeTrimmedAscii(x);
    EscapeGrows(x);
  }

  /* ----------------------------------------------------------------------
     Sanitizer::sanitizePhone
     ---------------------------------------------------------------------- */

  /** `preg_replace('/[^0-9]/', '', $s)`. */
  function KeepDigits(s: string): (r: string)
    ensures AllDigits(r) && |r| <= |s|
  {
    if s == [] then []
    else (if IsDigit(s[0]) then [s[0]] else []) + KeepDigits(s[1..])
  }

  lemma {:induction false} KeepDigitsOfDigits(s: string)
    requires AllDigits(s)
    ensures KeepDigits(s) == s
  {
    if s != [] {
      KeepDigitsOfDigits(s[1..]);
      assert [s[0]] + s[1..] == s;
    }
  }

  predicate IsPhoneNumber(s: string)
  {
    |s| == 9 && AllDigits(s)
  }

  /** `Sanitizer::sanitizePhone($phone)`: empty values give null; otherwise
      the digits of the text, when there are exactly nine of them, and null
      when there are not. An array that is not empty reaches `strlen` as an
      array, which is a `TypeError`. */
  function SanitizePhone(v: Value): (r: Outcome<Value>)
    ensures r.TypeError? <==> v.Arr? && v.entries != []
    ensures r.Done? ==> r.value == Null || (r.value.Str? && IsPhoneNumber(r.value.s))
    ensures !Truthy(v) ==> r == Done(Null)
  {
    if !Truthy(v) then Done(Null)
    else
      match StringParam(v)
      case TypeError => TypeError
      case Done(t) =>
        var d := KeepDigits(t);
        if |d| == 9 then Done(Str(d)) else Done(Null)
  }

  /** A nine-digit number is kept as it is, so cleaning a cleaned number
      changes nothing. */
  lemma SanitizePhoneKeeps(s: string)
    requires IsPhoneNumber(s)
    ensures SanitizePhone(Str(s)) == Done(Str(s))
    ensures SanitizePhone(SanitizePhone(Str(s)).value) == SanitizePhone(Str(s))
  {
    KeepDigitsOfDigits(s);
    assert s != "0" by { assert |"0"| == 1; }
  }

  lemma {:induction false} KeepDigitsAppend(a: string, b: string)
    ensures KeepDigits(a + b) == KeepDigits(a) + KeepDigits(b)
  {
    if a == [] {
      assert a + b == b;
    } else {
      assert (a + b)[1..] == a[1..] + b;
      KeepDigitsAppend(a[1..], b);
    }
  }

  lemma KeepDigitsSeparator(c: char, b: string)
    requires !IsDigit(c)
    ensures KeepDigits([c] + b) == KeepDigits(b)
  {
    assert ([c] + b)[1..] == b;
  }

  lemma SanitizePhoneOfText(s: string, p: string)
    requires s != [] && s != "0" && KeepDigits(s) == p
    ensures SanitizePhone(Str(s)) == (if |p| == 9 then Done(Str(p)) else Done(Null))
  {
  }

  /** A separator inside a nine-digit number is dropped. */
  lemma SanitizePhoneSeparator(p: string, i: nat, c: char)
    requires IsPhoneNumber(p) && i <= 9 && !IsDigit(c)
    ensures SanitizePhone(Str(p[..i] + [c] + p[i..])) == Done(Str(p))
  {
    var a, b := p[..i], p[i..];
    var s := a + [c] + b;
    assert s == a + ([c] + b);
    assert AllDigits(a) && AllDigits(b);
    KeepDigitsAppend(a, [c] + b);
    KeepDigitsSeparator(c, b);
    KeepDigitsOfDigits(a);
    KeepDigitsOfDigits(b);
    assert a + b == p;
    assert KeepDigits(s) == p;
    assert |s| == 10;
    assert s != "0";
    SanitizePhoneOfText(s, p);
  }

  /** A number written with the country code has twelve digits and is
      discarded entirely. */
  lemma SanitizePhoneCountryCode(p: string)
    requires IsPhoneNumber(p)
    ensures SanitizePhone(Str("+237 " + p)) == Done(Null)
  {
    var cc := "237";
    var s := "+237 " + p;
    assert s == ['+'] + (cc + ([' '] + p));
    KeepDigitsSeparator('+', cc + ([' '] + p));
    KeepDigitsAppend(cc, [' '] + p);
    KeepDigitsSeparator(' ', p);
    KeepDigitsOfDigits(cc);
    KeepDigitsOfDigits(p);
    assert s != "0" && s != [] by { assert |s| == 14; }
  }

  /** An integer (a JSON number in the request) with nine digits is kept as
      its decimal text. */
  lemma SanitizePhoneInteger(n: int)
    requires 100000000 <= n <= 999999999
    ensures SanitizePhone(Int(n)) == Done(Str(DecimalString(n)))
  {
    assert Pow10(8) == 100000000 && Pow10(9) == 1000000000 by {
      assert Pow10(4) == 10000;
    }
    NatDigitsLength(n, 8);
    KeepDigitsOfDigits(NatDigits(n));
  }

  /* ----------------------------------------------------------------------
     Sanitizer::sanitizeArray
     ---------------------------------------------------------------------- */

  predicate Kept(e: Entry)
  {
    e.value != Null && e.value != Str([])
  }

  /** `array_filter` with the callback of `sanitizeArray`: entries keep
      their keys and their order. */
  function KeepFilled(es: seq<Entry>): (r: seq<Entry>)
    ensures forall i :: 0 <= i < |r| ==> Kept(r[i]) && r[i] in es
    ensures forall e :: e in es && Kept(e) ==> e in r
  {
    if es == [] then []
    else (if Kept(es[0]) then [es[0]] else []) + KeepFilled(es[1..])
  }

  /** The positions of the entries `array_filter` keeps, in increasing
      order: exactly the kept positions, each once. */
  function KeptIndices(es: seq<Entry>): (idx: seq<nat>)
    ensures forall k :: 0 <= k < |idx| ==> idx[k] < |es| && Kept(es[idx[k]])
    ensures forall k, m :: 0 <= k < m < |idx| ==> idx[k] < idx[m]
    ensures forall j :: 0 <= j < |es| && Kept(es[j]) ==> j in idx
  {
    if es == [] then []
    else
      var n := |es| - 1;
      var init := es[..n];
      assert forall j :: 0 <= j < n ==> init[j] == es[j];
      KeptIndices(init) + (if Kept(es[n]) then [n] else [])
  }

  lemma {:induction false} KeepFilledAppend(a: seq<Entry>, b: seq<Entry>)
    ensures KeepFilled(a + b) == KeepFilled(a) + KeepFilled(b)
  {
    if a == [] {
      assert a + b == b;
    } else {
      assert (a + b)[1..] == a[1..] + b;
      KeepFilledAppend(a[1..], b);
    }
  }

  /** `array_filter` keeps order and multiplicity: entry `k` of the result
      is the input entry at the `k`-th kept position. */
  lemma {:induction false} KeepFilledOrder(es: seq<Entry>)
    ensures |KeepFilled(es)| == |KeptIndices(es)|
    ensures forall k :: 0 <= k < |KeptIndices(es)| ==> KeepFilled(es)[k] == es[KeptIndices(es)[k]]
  {
    if es != [] {
      var n := |es| - 1;
      var init := es[..n];
      KeepFilledOrder(init);
      assert es == init + [es[n]];
      KeepFilledAppend(init, [es[n]]);
      assert KeepFilled([es[n]]) == (if Kept(es[n]) then [es[n]] else []) by {
        assert [es[n]][1..] == [];
      }
      assert forall j :: 0 <= j < n ==> init[j] == es[j];
    }
  }

  /** `Sanitizer::sanitizeArray($array)`: null for anything but an array,
      otherwise the sanitized elements that are neither null nor empty. */
  function SanitizeArray(v: Value): (r: Value)
    ensures !v.Arr? <==> r == Null
    ensures r.Arr? ==> forall i :: 0 <= i < |r.entries| ==>
      r.entries[i].value != Null && r.entries[i] in Sanitize(v).entries
    ensures r.Arr? ==> forall i :: 0 <= i < |v.entries| && Sanitize(v.entries[i].value) != Null ==>
      Entry(v.entries[i].key, Sanitize(v.entries[i].value)) in r.entries
  {
    if !v.Arr? then Null
    else
      var s := Sanitize(v);
      assert forall i :: 0 <= i < |v.entries| ==> s.entries[i] == Entry(v.entries[i].key, Sanitize(v.entries[i].value));
      Arr(KeepFilled(s.entries))
  }

  /** `sanitizeArray` keeps the order and the multiplicity of the entries
      it keeps: entry `k` of the result is the sanitised input entry at the
      `k`-th position whose sanitised value is neither null nor "". */
  lemma SanitizeArrayOrder(v: Value)
    requires v.Arr?
    ensures var r := SanitizeArray(v);
      var idx := KeptIndices(Sanitize(v).entries);
      r.Arr? && |r.entries| == |idx| &&
      forall k :: 0 <= k < |idx| ==> r.entries[k] == Entry(v.entries[idx[k]].key, Sanitize(v.entries[idx[k]].value))
  {
    var s := Sanitize(v);
    KeepFilledOrder(s.entries);
    assert SanitizeArray(v) == Arr(KeepFilled(s.entries));
  }
}
