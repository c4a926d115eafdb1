/** `json_encode` / `json_decode($text, true)` as the program uses them: to
    keep a PHP array in one text column and to read it back. The text is a
    JSON-like notation (objects with explicit keys, quoted strings with `\`
    escapes, decimal integers, `null`, `true`, `false`); the exact characters
    PHP's encoder prints are not modelled, only that decoding gives back what
    was encoded and that text which is not an encoding decodes to nothing. */
module Json {
  import opened Php
  import Sanitizer

  /** String contents with `"` and `\` escaped by a backslash. */
  function Quote(s: string): string
  {
    if s == [] then []
    else (if s[0] == '"' || s[0] == '\\' then ['\\', s[0]] else [s[0]]) + Quote(s[1..])
  }

  function QuotedText(s: string): string
  {
    "\"" + Quote(s) + "\""
  }

  function KeyText(k: Key): string
  {
    match k
    case IntKey(i) => DecimalString(i)
    case StrKey(s) => QuotedText(s)
  }

  /** `json_encode($v)`. */
  function Encode(v: Value): string
    decreases v, 1
  {
    match v
    case Null => "null"
    case Bool(b) => if b then "true" else "false"
    case Int(i) => DecimalString(i)
    case Str(s) => QuotedText(s)
    case Arr(es) => if es == [] then "{}" else "{" + EncodeMembers(v, 0) + "}"
  }

  /** The members of array `v` from position `i` on, comma-separated. */
  function EncodeMembers(v: Value, i: nat): string
    requires v.Arr? && i < |v.entries|
    decreases v, 0, |v.entries| - i
  {
    var e := v.entries[i];
    KeyText(e.key) + ":" + Encode(e.value)
      + (if i + 1 < |v.entries| then "," + EncodeMembers(v, i + 1) else "")
  }

  /* ----------------------------------------------------------------------
     Decoding
     ---------------------------------------------------------------------- */

  /** The contents of a quoted string whose opening quote has been read, and
      the text after its closing quote. */
  function ParseQuoted(s: string): (r: Option<(string, string)>)
    ensures r.Some? ==> |r.value.1| < |s|
  {
    if s == [] then None
    else if s[0] == '"' then Some(([], s[1..]))
    else if s[0] == '\\' then
      if |s| < 2 then None
      else
        match ParseQuoted(s[2..])
        case None => None
        case Some((t, rest)) => Some(([s[1]] + t, rest))
    else
      match ParseQuoted(s[1..])
      case None => None
      case Some((t, rest)) => Some(([s[0]] + t, rest))
  }

  /** A run of decimal digits read as a number. */
  function ParseNat(s: string): (r: Option<(nat, string)>)
    ensures r.Some? ==> |r.value.1| < |s|
  {
    var ds := DigitRun(s);
    if ds == [] then None else Some((DigitsValue(ds), s[|ds|..]))
  }

  /** An optional minus sign and a run of decimal digits. */
  function ParseInt(s: string): (r: Option<(int, string)>)
    ensures r.Some? ==> |r.value.1| < |s|
  {
    if s != [] && s[0] == '-' then
      match ParseNat(s[1..])
      case None => None
      case Some((n, rest)) => var i: int := n; Some((-i, rest))
    else
      match ParseNat(s)
      case None => None
      case Some((n, rest)) => Some((n, rest))
  }

  function ParseKey(s: string): (r: Option<(Key, string)>)
    ensures r.Some? ==> |r.value.1| < |s|
  {
    if s != [] && s[0] == '"' then
      match ParseQuoted(s[1..])
      case None => None
      case Some((t, rest)) => Some((StrKey(t), rest))
    else
      match ParseInt(s)
      case None => None
      case Some((i, rest)) => Some((IntKey(i), rest))
  }

  /** `word` at the start of `s` read as the value `v`. */
  function ParseWord(s: string, word: string, v: Value): (r: Option<(Value, string)>)
    requires word != []
    ensures r.Some? ==> |r.value.1| < |s|
  {
    if |word| <= |s| && s[..|word|] == word then Some((v, s[|word|..])) else None
  }

  /** One value at the start of `s`, and the text after it. */
  function ParseValue(s: string): (r: Option<(Value, string)>)
    ensures r.Some? ==> |r.value.1| < |s|
    decreases |s|, 1
  {
    if s == [] then None
    else if s[0] == 'n' then ParseWord(s, "null", Null)
    else if s[0] == 't' then ParseWord(s, "true", Bool(true))
    else if s[0] == 'f' then ParseWord(s, "false", Bool(false))
    else if s[0] == '"' then
      match ParseQuoted(s[1..])
      case None => None
      case Some((t, rest)) => Some((Str(t), rest))
    else if s[0] == '{' then
      if |s| >= 2 && s[1] == '}' then Some((Arr([]), s[2..]))
      else
        match ParseMembers(s[1..])
        case None => None
        case Some((es, rest)) => Some((Arr(es), rest))
    else
      match ParseInt(s)
      case None => None
      case Some((i, rest)) => Some((Int(i), rest))
  }

  /** Comma-separated `key:value` members up to and including the closing
      brace of an object. */
  function ParseMembers(s: string): (r: Option<(seq<Entry>, string)>)
    ensures r.Some? ==> |r.value.1| < |s|
    decreases |s|, 0
  {
    match ParseKey(s)
    case None => None
    case Some((k, r1)) =>
      if r1 == [] || r1[0] != ':' then None
      else
        match ParseValue(r1[1..])
        case None => None
        case Some((v, r2)) =>
          if r2 != [] && r2[0] == ',' then
            match ParseMembers(r2[1..])
            case None => None
            case Some((es, r3)) => Some(([Entry(k, v)] + es, r3))
          else if r2 != [] && r2[0] == '}' then Some(([Entry(k, v)], r2[1..]))
          else None
  }

  /** `json_decode($text, true)`: the value when the whole text is one
      encoding, `None` (PHP's null) otherwise. */
  function Decode(s: string): Option<Value>
  {
    match ParseValue(s)
    case Some((v, rest)) => if rest == [] then Some(v) else None
    case None => None
  }

  /* ----------------------------------------------------------------------
     Round trip
     ---------------------------------------------------------------------- */

  lemma {:induction false} QuoteRoundTrip(t: string, rest: string)
    ensures ParseQuoted(Quote(t) + "\"" + rest) == Some((t, rest))
  {
    if t == [] {
      assert Quote(t) + "\"" + rest == "\"" + rest;
    } else {
      var head := if t[0] == '"' || t[0] == '\\' then ['\\', t[0]] else [t[0]];
      assert Quote(t) + "\"" + rest == head + (Quote(t[1..]) + "\"" + rest);
      QuoteRoundTrip(t[1..], rest);
      assert [t[0]] + t[1..] == t;
    }
  }

  predicate NoLeadingDigit(rest: string)
  {
    rest == [] || !IsDigit(rest[0])
  }

  lemma IntRoundTrip(i: int, rest: string)
    requires NoLeadingDigit(rest)
    ensures ParseInt(DecimalString(i) + rest) == Some((i, rest))
  {
    var n: nat := if i < 0 then -i else i;
    var ds := NatDigits(n);
    var s := DecimalString(i) + rest;
    NatRoundTrip(n, rest);
    if i < 0 {
      Regroup("-", ds, rest);
      assert s[1..] == ds + rest;
    } else {
      assert s == ds + rest;
      assert IsDigit(ds[0]);
    }
  }

  lemma NatRoundTrip(n: nat, rest: string)
    requires NoLeadingDigit(rest)
    ensures ParseNat(NatDigits(n) + rest) == Some((n, rest))
  {
    var ds := NatDigits(n);
    DigitRunOfDigits(ds, rest);
    NatDigitsValue(n);
    assert (ds + rest)[|ds|..] == rest;
  }

  lemma KeyRoundTrip(k: Key, rest: string)
    ensures ParseKey(KeyText(k) + ":" + rest) == Some((k, ":" + rest))
  {
    match k
    case IntKey(i) =>
      IntKeyRoundTrip(i, ":" + rest);
      Regroup(DecimalString(i), ":", rest);
    case StrKey(t) =>
      StrKeyRoundTrip(t, ":" + rest);
      Regroup(QuotedText(t), ":", rest);
  }

  lemma IntKeyRoundTrip(i: int, rest: string)
    requires NoLeadingDigit(rest)
    ensures ParseKey(DecimalString(i) + rest) == Some((IntKey(i), rest))
  {
    var s := DecimalString(i) + rest;
    IntRoundTrip(i, rest);
    assert s[0] == DecimalString(i)[0];
    assert s[0] != '"' by {
      if i >= 0 { assert IsDigit(NatDigits(i)[0]); }
    }
  }

  lemma StrKeyRoundTrip(t: string, rest: string)
    ensures ParseKey(QuotedText(t) + rest) == Some((StrKey(t), rest))
  {
    var s := QuotedText(t) + rest;
    assert s == "\"" + (Quote(t) + "\"" + rest);
    assert s[1..] == Quote(t) + "\"" + rest;
    QuoteRoundTrip(t, rest);
  }

  lemma WordRoundTrip(word: string, v: Value, rest: string)
    requires word != []
    ensures ParseWord(word + rest, word, v) == Some((v, rest))
  {
    assert (word + rest)[..|word|] == word;
    assert (word + rest)[|word|..] == rest;
  }

  /** Decoding an encoding gives back the encoded value and leaves the text
      that follows untouched. */
  lemma {:induction false} EncodeRoundTrip(v: Value, rest: string)
    requires NoLeadingDigit(rest)
    ensures ParseValue(Encode(v) + rest) == Some((v, rest))
    decreases v, 2
  {
    match v
    case Int(i) => IntValueRoundTrip(i, rest);
    case Arr(es) =>
      if es != [] {
        ObjectRoundTrip(v, rest);
      } else {
        EmptyObjectRoundTrip(rest);
      }
    case _ => ScalarRoundTrip(v, rest);
  }

  lemma ScalarRoundTrip(v: Value, rest: string)
    requires v.Null? || v.Bool? || v.Str?
    ensures ParseValue(Encode(v) + rest) == Some((v, rest))
  {
    match v
    case Null => WordRoundTrip("null", v, rest);
    case Bool(b) => WordRoundTrip(if b then "true" else "false", v, rest);
    case Str(t) =>
      QuoteRoundTrip(t, rest);
      assert (Encode(v) + rest)[1..] == Quote(t) + "\"" + rest;
  }

  lemma EmptyObjectRoundTrip(rest: string)
    ensures ParseValue(Encode(Arr([])) + rest) == Some((Arr([]), rest))
  {
    assert (Encode(Arr([])) + rest)[2..] == rest;
  }

  lemma IntValueRoundTrip(i: int, rest: string)
    requires NoLeadingDigit(rest)
    ensures ParseValue(DecimalString(i) + rest) == Some((Int(i), rest))
  {
    IntRoundTrip(i, rest);
    var s := DecimalString(i) + rest;
    assert s[0] == DecimalString(i)[0];
    DecimalStringFirst(i);
    ParseValueNumber(s);
  }

  lemma DecimalStringFirst(i: int)
    ensures DecimalString(i)[0] == '-' || IsDigit(DecimalString(i)[0])
  {
    if i >= 0 {
      assert IsDigit(NatDigits(i)[0]);
    }
  }

  /** Text that starts with a sign or a digit is read as a number. */
  lemma ParseValueNumber(s: string)
    requires s != [] && (s[0] == '-' || IsDigit(s[0]))
    ensures ParseValue(s) == match ParseInt(s) case None => None case Some((i, rest)) => Some((Int(i), rest))
  {
    assert s[0] != 'n' && s[0] != 't' && s[0] != 'f' && s[0] != '"' && s[0] != '{';
  }

  lemma {:induction false} ObjectRoundTrip(v: Value, rest: string)
    requires v.Arr? && v.entries != []
    requires NoLeadingDigit(rest)
    ensures ParseValue("{" + EncodeMembers(v, 0) + "}" + rest) == Some((v, rest))
    decreases v, 1
  {
    var t := EncodeMembers(v, 0) + "}" + rest;
    var s := "{" + t;
    assert s == "{" + EncodeMembers(v, 0) + "}" + rest;
    MembersRoundTrip(v, 0, rest);
    MembersFirst(v, 0);
    assert s[1..] == t;
    assert s[1] == t[0] == EncodeMembers(v, 0)[0];
    ParseValueObject(s, v.entries[0..], rest);
    SliceAll(v.entries);
  }

  /** Text that opens a non-empty object is read as its members. */
  lemma ParseValueObject(s: string, es: seq<Entry>, rest: string)
    requires |s| >= 2 && s[0] == '{' && s[1] != '}'
    requires ParseMembers(s[1..]) == Some((es, rest))
    ensures ParseValue(s) == Some((Arr(es), rest))
  {
  }

  lemma SliceAll<T>(xs: seq<T>)
    ensures xs[0..] == xs
  {
  }

  lemma MembersFirst(v: Value, i: nat)
    requires v.Arr? && i < |v.entries|
    ensures |EncodeMembers(v, i)| > 0 && EncodeMembers(v, i)[0] != '}'
  {
    var k := v.entries[i].key;
    KeyTextFirst(k);
    var rest := ":" + Encode(v.entries[i].value)
      + (if i + 1 < |v.entries| then "," + EncodeMembers(v, i + 1) else "");
    assert EncodeMembers(v, i) == KeyText(k) + rest;
  }

  lemma KeyTextFirst(k: Key)
    ensures |KeyText(k)| > 0 && KeyText(k)[0] != '}'
  {
    match k
    case IntKey(i) =>
      if i >= 0 { assert IsDigit(NatDigits(i)[0]); }
    case StrKey(_) =>
  }

  /** One `key:value` member followed by `tail` is read back, whatever
      follows. */
  lemma {:induction false} MemberRoundTrip(v: Value, e: Entry, tail: string)
    requires e < v
    requires tail != [] && (tail[0] == ',' || tail[0] == '}')
    ensures ParseKey(KeyText(e.key) + ":" + Encode(e.value) + tail)
         == Some((e.key, ":" + (Encode(e.value) + tail)))
    ensures ParseValue(Encode(e.value) + tail) == Some((e.value, tail))
    decreases v, 0, 0
  {
    var kt, et := KeyText(e.key), Encode(e.value);
    assert kt + ":" + et + tail == kt + ":" + (et + tail);
    KeyRoundTrip(e.key, et + tail);
    EncodeRoundTrip(e.value, tail);
  }

  /** `ParseMembers` after one member followed by a comma and members
      that are read back. */
  lemma MembersComma(s: string, k: Key, r1: string, x: Value, r2: string, es: seq<Entry>, r3: string)
    requires ParseKey(s) == Some((k, r1)) && r1 != [] && r1[0] == ':'
    requires ParseValue(r1[1..]) == Some((x, r2)) && r2 != [] && r2[0] == ','
    requires ParseMembers(r2[1..]) == Some((es, r3))
    ensures ParseMembers(s) == Some(([Entry(k, x)] + es, r3))
  {
  }

  /** `ParseMembers` after one member followed by the closing brace. */
  lemma MembersClose(s: string, k: Key, r1: string, x: Value, r2: string)
    requires ParseKey(s) == Some((k, r1)) && r1 != [] && r1[0] == ':'
    requires ParseValue(r1[1..]) == Some((x, r2)) && r2 != [] && r2[0] == '}'
    ensures ParseMembers(s) == Some(([Entry(k, x)], r2[1..]))
  {
  }

  /** How the text of the members from `i` on splits around member `i`. */
  lemma MembersShape(v: Value, i: nat, rest: string) returns (tail: string)
    requires v.Arr? && i < |v.entries|
    ensures EncodeMembers(v, i) + "}" + rest
         == KeyText(v.entries[i].key) + ":" + Encode(v.entries[i].value) + tail
    ensures tail != [] && (tail[0] == ',' || tail[0] == '}')
    ensures i + 1 < |v.entries| ==> tail[0] == ',' && tail[1..] == EncodeMembers(v, i + 1) + "}" + rest
    ensures i + 1 == |v.entries| ==> tail[0] == '}' && tail[1..] == rest
  {
    var more := if i + 1 < |v.entries| then "," + EncodeMembers(v, i + 1) else "";
    tail := more + "}" + rest;
    if i + 1 < |v.entries| {
      assert tail == "," + (EncodeMembers(v, i + 1) + "}" + rest);
    } else {
      assert tail == "}" + rest;
    }
  }

  lemma {:induction false} MembersRoundTrip(v: Value, i: nat, rest: string)
    requires v.Arr? && i < |v.entries|
    requires NoLeadingDigit(rest)
    ensures ParseMembers(EncodeMembers(v, i) + "}" + rest) == Some((v.entries[i..], rest))
    decreases v, 0, |v.entries| - i
  {
    var e := v.entries[i];
    var s := EncodeMembers(v, i) + "}" + rest;
    var tail := MembersShape(v, i, rest);
    MemberRoundTrip(v, e, tail);
    var r1 := ":" + (Encode(e.value) + tail);
    assert r1[1..] == Encode(e.value) + tail;
    assert Entry(e.key, e.value) == e;
    if i + 1 < |v.entries| {
      MembersRoundTrip(v, i + 1, rest);
      MembersComma(s, e.key, r1, e.value, tail, v.entries[i + 1..], rest);
      SliceCons(v.entries, i);
    } else {
      MembersClose(s, e.key, r1, e.value, tail);
      SliceCons(v.entries, i);
      assert [e] + v.entries[i + 1..] == [e];
    }
  }

  lemma SliceCons<T>(xs: seq<T>, i: nat)
    requires i < |xs|
    ensures xs[i..] == [xs[i]] + xs[i + 1..]
  {
  }

  /** `json_decode(json_encode($v), true)` gives `$v` back. */
  lemma DecodeEncode(v: Value)
    ensures Decode(Encode(v)) == Some(v)
  {
    EncodeRoundTrip(v, []);
    assert Encode(v) + [] == Encode(v);
  }

  /** A key `json_encode` can print: integer keys always, string keys when
      they are well-formed UTF-8. */
  predicate KeyClean(k: Key)
  {
    match k
    case IntKey(_) => true
    case StrKey(s) => Sanitizer.ValidUtf8(s)
  }

  /** Every string in `v`, keys included, is well-formed UTF-8. */
  predicate Utf8Clean(v: Value)
  {
    match v
    case Str(s) => Sanitizer.ValidUtf8(s)
    case Arr(es) => forall i :: 0 <= i < |es| ==> KeyClean(es[i].key) && Utf8Clean(es[i].value)
    case _ => true
  }

  /** `json_encode($v)` without flags: the text, or `false` (here `None`)
      when some string or key of `v` is not well-formed UTF-8. */
  function JsonEncode(v: Value): (r: Option<string>)
    ensures r.Some? <==> Utf8Clean(v)
    ensures r.Some? ==> Decode(r.value) == Some(v)
  {
    if Utf8Clean(v) then DecodeEncode(v); Some(Encode(v)) else None
  }

  /** One array key that is not UTF-8 is enough to make the encoding fail,
      whatever the values are. */
  lemma BadKeyFails(es: seq<Entry>, i: int)
    requires 0 <= i < |es| && es[i].key.StrKey? && !Sanitizer.ValidUtf8(es[i].key.s)
    ensures JsonEncode(Arr(es)) == None
  {
    assert !KeyClean(es[i].key);
  }

  /** The placeholder text the step router writes for empty fields is not
      an encoding, so it decodes to nothing. */
  lemma RasIsNotJson()
    ensures Decode("RAS") == None
  {
    assert ParseInt("RAS") == None by { assert DigitRun("RAS") == []; }
  }
}
