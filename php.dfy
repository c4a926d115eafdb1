/** The PHP values the request handlers work on, and the few PHP built-ins
    whose exact behaviour the handlers depend on.

    PHP strings are byte strings. Here a Dafny `char` stands for one byte, so a
    `string` is a byte string; the UTF-8 literals of the program (accented
    letters in messages, labels and enumerated values) are written out byte by
    byte with `\U{..}` escapes. PHP 8 semantics are modelled. */
module Php {

  datatype Option<+T> = None | Some(value: T)

  /** The result of a built-in that throws a `TypeError` on some argument
      types. A `TypeError` is an `Error`, not an `Exception`: nothing in the
      program catches it, so it ends the request with a fatal error. */
  datatype Outcome<+T> = Done(value: T) | TypeError

  /** Array keys: PHP normalises numeric string keys to integers, so the
      arrays of this model are expected to carry normalised keys. */
  datatype Key = IntKey(i: int) | StrKey(s: string)

  /** A PHP value. Floats and objects are not modelled. An array is an
      ordered sequence of key/value entries with distinct keys. */
  datatype Value =
    | Null
    | Bool(b: bool)
    | Int(i: int)
    | Str(s: string)
    | Arr(entries: seq<Entry>)

  datatype Entry = Entry(key: Key, value: Value)

  /* ----------------------------------------------------------------------
     Arrays
     ---------------------------------------------------------------------- */

  function Keys(es: seq<Entry>): (ks: seq<Key>)
    ensures |ks| == |es|
    ensures forall i :: 0 <= i < |es| ==> ks[i] == es[i].key
  {
    seq(|es|, i requires 0 <= i < |es| => es[i].key)
  }

  ghost predicate UniqueKeys(es: seq<Entry>)
  {
    forall i, j :: 0 <= i < j < |es| ==> es[i].key != es[j].key
  }

  /** The position of key `k` in `es`, or -1 when it is absent. */
  function IndexOf(es: seq<Entry>, k: Key): (r: int)
    ensures -1 <= r < |es|
    ensures r >= 0 ==> es[r].key == k && forall j :: 0 <= j < r ==> es[j].key != k
    ensures r < 0 <==> forall j :: 0 <= j < |es| ==> es[j].key != k
  {
    if es == [] then -1
    else if es[0].key == k then 0
    else
      var r := IndexOf(es[1..], k);
      if r < 0 then -1 else r + 1
  }

  /** Two entry lists with the same keys find every key at the same
      position. */
  lemma IndexOfSameKeys(a: seq<Entry>, b: seq<Entry>, k: Key)
    requires Keys(a) == Keys(b)
    ensures IndexOf(a, k) == IndexOf(b, k)
  {
    assert |a| == |Keys(a)| == |b|;
    assert forall j :: 0 <= j < |a| ==> a[j].key == Keys(a)[j] == Keys(b)[j] == b[j].key;
  }

  /** `$a[$k]` on an array: the value stored under `k`, if any. */
  function Lookup(es: seq<Entry>, k: Key): Option<Value>
  {
    var i := IndexOf(es, k);
    if i < 0 then None else Some(es[i].value)
  }

  /** `$a[$k] = $v`: overwrite in place when the key exists, else append. */
  function Put(es: seq<Entry>, k: Key, v: Value): (r: seq<Entry>)
    ensures Lookup(r, k) == Some(v)
    ensures forall k' :: k' != k ==> Lookup(r, k') == Lookup(es, k')
    ensures UniqueKeys(es) ==> UniqueKeys(r)
  {
    var i := IndexOf(es, k);
    if i < 0 then
      var r := es + [Entry(k, v)];
      IndexOfFirst(r, k, |es|);
      assert forall k' :: k' != k ==> IndexOf(r, k') == IndexOf(es, k') by {
        forall k' | k' != k ensures IndexOf(r, k') == IndexOf(es, k') {
          var j := IndexOf(es, k');
          if j >= 0 { IndexOfFirst(r, k', j); }
        }
      }
      r
    else
      var r := es[i := Entry(k, v)];
      IndexOfFirst(r, k, i);
      assert forall k' :: k' != k ==> IndexOf(r, k') == IndexOf(es, k') by {
        forall k' | k' != k ensures IndexOf(r, k') == IndexOf(es, k') {
          var j := IndexOf(es, k');
          if j >= 0 { IndexOfFirst(r, k', j); }
        }
      }
      r
  }

  /** Assigning the same value to the same key twice is assigning it once. */
  lemma PutTwice(es: seq<Entry>, k: Key, v: Value)
    ensures Put(Put(es, k, v), k, v) == Put(es, k, v)
  {
    var r := Put(es, k, v);
    var i := IndexOf(r, k);
    assert i >= 0 && r[i] == Entry(k, v);
    assert r[i := Entry(k, v)] == r;
  }

  /** The first position holding key `k` is where `IndexOf` finds it. */
  lemma IndexOfFirst(es: seq<Entry>, k: Key, i: int)
    requires 0 <= i < |es| && es[i].key == k
    requires forall j :: 0 <= j < i ==> es[j].key != k
    ensures IndexOf(es, k) == i
  {
    var r := IndexOf(es, k);
    assert r >= 0;
    assert !(r < i) && !(r > i);
  }

  /** A key is looked up in the first part of an array, then in the rest. */
  lemma LookupAppend(a: seq<Entry>, b: seq<Entry>, k: Key)
    ensures Lookup(a + b, k) == if Lookup(a, k).Some? then Lookup(a, k) else Lookup(b, k)
  {
    var i, j := IndexOf(a, k), IndexOf(b, k);
    if i >= 0 {
      IndexOfFirst(a + b, k, i);
    } else if j >= 0 {
      IndexOfFirst(a + b, k, |a| + j);
    } else {
      assert forall n :: 0 <= n < |a + b| ==> (a + b)[n].key != k by {
        forall n | 0 <= n < |a + b| ensures (a + b)[n].key != k {
          if n >= |a| { assert (a + b)[n] == b[n - |a|]; }
        }
      }
    }
  }

  /** `unset($a[$k])`. */
  function Remove(es: seq<Entry>, k: Key): (r: seq<Entry>)
    ensures Lookup(r, k) == None || !UniqueKeys(es)
    ensures |r| <= |es|
  {
    var i := IndexOf(es, k);
    if i < 0 then es
    else
      var r := es[..i] + es[i + 1..];
      assert UniqueKeys(es) ==> forall j :: 0 <= j < |r| ==> r[j].key != k by {
        if UniqueKeys(es) {
          forall j | 0 <= j < |r| ensures r[j].key != k {
            if j < i { assert r[j] == es[j]; } else { assert r[j] == es[j + 1]; }
          }
        }
      }
      r
  }

  /** `$v['field']` read with `??` or `isset`: only arrays have string
      offsets that can be set; on any other value the read gives nothing. */
  function Get(v: Value, field: string): Option<Value>
  {
    if v.Arr? then Lookup(v.entries, StrKey(field)) else None
  }

  /** `isset(...)`: present and not null. */
  predicate IsSet(o: Option<Value>)
  {
    o.Some? && o.value != Null
  }

  /** `$x ?? $default`. */
  function Coalesce(o: Option<Value>, default: Value): (r: Value)
    ensures IsSet(o) ==> r == o.value
    ensures !IsSet(o) ==> r == default
  {
    if IsSet(o) then o.value else default
  }

  /* ----------------------------------------------------------------------
     Truthiness and conversions
     ---------------------------------------------------------------------- */

  /** PHP truthiness; `empty($x)` is its negation. The falsy values are
      null, false, 0, "", "0" and the empty array. */
  predicate Truthy(v: Value)
  {
    match v
    case Null => false
    case Bool(b) => b
    case Int(i) => i != 0
    case Str(s) => s != "" && s != "0"
    case Arr(es) => es != []
  }

  function Digit(d: int): (c: char)
    requires 0 <= d < 10
    ensures IsDigit(c)
  {
    ('0' as int + d) as char
  }

  predicate IsDigit(c: char)
  {
    '0' <= c <= '9'
  }

  predicate AllDigits(s: string)
  {
    forall i :: 0 <= i < |s| ==> IsDigit(s[i])
  }

  /** The decimal digits of a natural number, most significant first. */
  function NatDigits(n: nat): (s: string)
    ensures |s| > 0 && AllDigits(s)
    ensures s[0] == '0' ==> n == 0
  {
    if n < 10 then [Digit(n)] else NatDigits(n / 10) + [Digit(n % 10)]
  }

  /** The text PHP gives an integer (`(string)$i`). */
  function DecimalString(i: int): (s: string)
    ensures |s| > 0
  {
    if i < 0 then "-" + NatDigits(-i) else NatDigits(i)
  }

  /** The number a run of decimal digits denotes. */
  function DigitsValue(ds: string): nat
    requires AllDigits(ds)
  {
    if ds == [] then 0
    else DigitsValue(ds[..|ds| - 1]) * 10 + (ds[|ds| - 1] as int - '0' as int)
  }

  lemma {:induction false} NatDigitsValue(n: nat)
    ensures DigitsValue(NatDigits(n)) == n
  {
    if n >= 10 {
      var ds := NatDigits(n);
      assert ds[..|ds| - 1] == NatDigits(n / 10);
      NatDigitsValue(n / 10);
    }
  }

  function Pow10(k: nat): (r: nat)
    ensures r >= 1
  {
    if k == 0 then 1 else 10 * Pow10(k - 1)
  }

  /** A number from 10^k up to 10^(k+1) has k + 1 digits. */
  lemma {:induction false} NatDigitsLength(n: nat, k: nat)
    requires Pow10(k) <= n < Pow10(k + 1)
    ensures |NatDigits(n)| == k + 1
  {
    if k > 0 {
      NatDigitsLength(n / 10, k - 1);
    } else {
      assert n < 10;
    }
  }


  /** The longest prefix of `s` made of decimal digits. */
  function DigitRun(s: string): (d: string)
    ensures d <= s && AllDigits(d)
    ensures |d| < |s| ==> !IsDigit(s[|d|])
  {
    if s != [] && IsDigit(s[0]) then [s[0]] + DigitRun(s[1..]) else []
  }

  lemma {:induction false} DigitRunOfDigits(ds: string, rest: string)
    requires AllDigits(ds)
    requires rest == [] || !IsDigit(rest[0])
    ensures DigitRun(ds + rest) == ds
  {
    if ds != [] {
      assert (ds + rest)[1..] == ds[1..] + rest;
      DigitRunOfDigits(ds[1..], rest);
    } else {
      assert ds + rest == rest;
    }
  }

  /** The value of a string parameter of a built-in function in PHP 8's
      coercive typing mode: scalars are converted to their text, null is
      read as "" (deprecated, not an error), an array is a `TypeError`. */
  function StringParam(v: Value): Outcome<string>
  {
    match v
    case Null => Done("")
    case Bool(b) => Done(if b then "1" else "")
    case Int(i) => Done(DecimalString(i))
    case Str(s) => Done(s)
    case Arr(_) => TypeError
  }

  /** A value interpolated into a double-quoted string or concatenated with
      `.`: an array becomes the text "Array" (with a warning). */
  function Interpolate(v: Value): string
  {
    match StringParam(v)
    case Done(t) => t
    case TypeError => "Array"
  }

  /** The whitespace PHP allows around a numeric string. */
  predicate IsNumericSpace(c: char)
  {
    c == ' ' || c == '\t' || c == '\n' || c == '\r' || c == '\U{0B}' || c == '\U{0C}'
  }

  function SkipNumericSpace(s: string): (r: string)
    ensures |r| <= |s| && r == s[|s| - |r|..]
    ensures r == [] || !IsNumericSpace(r[0])
  {
    if s != [] && IsNumericSpace(s[0]) then SkipNumericSpace(s[1..]) else s
  }

  /** A leading sign: the sign factor and what follows it. */
  function SplitSign(s: string): (r: (int, string))
    ensures r.0 == 1 || r.0 == -1
    ensures |r.1| <= |s|
  {
    if s != [] && s[0] == '-' then (-1, s[1..])
    else if s != [] && s[0] == '+' then (1, s[1..])
    else (1, s)
  }

  const IntMax: int := 0x7FFF_FFFF_FFFF_FFFF
  const IntMin: int := -0x8000_0000_0000_0000

  function Clamp(i: int): (r: int)
    ensures IntMin <= r <= IntMax
    ensures IntMin <= i <= IntMax ==> r == i
  {
    if i > IntMax then IntMax else if i < IntMin then IntMin else i
  }

  /** `(int)$s` for a string: leading whitespace, an optional sign and the
      longest run of digits; 0 when there are none; saturated to the 64-bit
      range. Strings in float notation ("1e3") are not modelled. */
  function StrToInt(s: string): int
  {
    var (sign, body) := SplitSign(SkipNumericSpace(s));
    Clamp(sign * DigitsValue(DigitRun(body)))
  }

  /** `(int)$v`. */
  function IntCast(v: Value): int
  {
    match v
    case Null => 0
    case Bool(b) => if b then 1 else 0
    case Int(i) => i
    case Str(s) => StrToInt(s)
    case Arr(es) => if es == [] then 0 else 1
  }

  predicate AllNumericSpace(s: string)
  {
    forall i :: 0 <= i < |s| ==> IsNumericSpace(s[i])
  }

  /** A numeric string in integer form, as PHP 8 recognises it: optional
      surrounding whitespace, an optional sign and at least one digit.
      Numeric strings in float notation are not modelled. */
  predicate IsIntNumeric(s: string)
  {
    var body := SplitSign(SkipNumericSpace(s)).1;
    var ds := DigitRun(body);
    |ds| > 0 && AllNumericSpace(body[|ds|..])
  }

  function NumericValue(s: string): int
  {
    var (sign, body) := SplitSign(SkipNumericSpace(s));
    sign * DigitsValue(DigitRun(body))
  }

  /** PHP 8 loose equality `$v == $s` between any value and a string. Two
      numeric strings compare as numbers; an integer and a non-numeric
      string compare as strings; a boolean compares with the truthiness of
      the string; null equals only the empty string; an array never equals a
      string. */
  predicate LooseEqualsStr(v: Value, s: string)
  {
    match v
    case Null => s == ""
    case Bool(b) => b == Truthy(Str(s))
    case Int(i) => if IsIntNumeric(s) then i == NumericValue(s) else DecimalString(i) == s
    case Str(t) => if IsIntNumeric(t) && IsIntNumeric(s) then NumericValue(t) == NumericValue(s) else t == s
    case Arr(_) => false
  }

  /** `in_array($v, $haystack)` (loose) over a list of strings. */
  predicate InArrayLoose(v: Value, haystack: seq<string>)
  {
    exists i :: 0 <= i < |haystack| && LooseEqualsStr(v, haystack[i])
  }

  /** `in_array($needle, $array)` (loose) for a string needle over the
      values of a PHP array. */
  predicate ArrayHasLoose(es: seq<Entry>, needle: string)
  {
    exists i :: 0 <= i < |es| && LooseEqualsStr(es[i].value, needle)
  }

  lemma LooseEqualsNonNumeric(v: Value, s: string)
    requires !IsIntNumeric(s) && s != "" && s != "0"
    ensures LooseEqualsStr(v, s) <==> v == Str(s) || v == Bool(true) || (v.Int? && DecimalString(v.i) == s)
  {
  }

  /** Regrouping a concatenation of three sequences. */
  lemma Regroup<T>(a: seq<T>, b: seq<T>, c: seq<T>)
    ensures a + b + c == a + (b + c)
  {
  }

  /** Regrouping a concatenation of five sequences. */
  lemma Regroup5<T>(a: seq<T>, b: seq<T>, c: seq<T>, d: seq<T>, e: seq<T>)
    ensures a + b + c + d + e == a + (b + c + d) + e
  {
  }
}
