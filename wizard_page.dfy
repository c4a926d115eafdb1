/** The server-side prologue of `consultation.php`, the wizard page: the
    one-time session initialisation, the CSRF token and the `resume` prefill
    of the form from the session. */
module WizardPage {
  import opened Php
  import opened Sessions

  /* ----------------------------------------------------------------------
     bin2hex
     ---------------------------------------------------------------------- */

  type Byte = x: int | 0 <= x < 256

  const HexDigits := "0123456789abcdef"

  predicate IsHexChar(c: char)
  {
    '0' <= c <= '9' || 'a' <= c <= 'f'
  }

  /** Lowercase hexadecimal text of even length. */
  predicate IsHexText(s: string)
  {
    |s| % 2 == 0 && forall i :: 0 <= i < |s| ==> IsHexChar(s[i])
  }

  /** The value of a lowercase hexadecimal digit. */
  function HexValue(c: char): (n: int)
    requires IsHexChar(c)
    ensures 0 <= n < 16 && HexDigits[n] == c
  {
    if c <= '9' then c as int - '0' as int else c as int - 'a' as int + 10
  }

  /** `bin2hex`: two lowercase hexadecimal digits per byte, high nibble
      first. */
  function Bin2Hex(bs: seq<Byte>): (r: string)
    ensures |r| == 2 * |bs| && IsHexText(r)
  {
    if bs == [] then []
    else [HexDigits[bs[0] / 16], HexDigits[bs[0] % 16]] + Bin2Hex(bs[1..])
  }

  /** `hex2bin` on lowercase hexadecimal text of even length. */
  function Hex2Bin(s: string): seq<Byte>
    requires IsHexText(s)
  {
    if s == [] then []
    else [HexValue(s[0]) * 16 + HexValue(s[1])] + Hex2Bin(s[2..])
  }

  /** The token text determines the random bytes it was made from. */
  lemma {:induction false} Hex2BinBin2Hex(bs: seq<Byte>)
    ensures Hex2Bin(Bin2Hex(bs)) == bs
  {
    if bs != [] {
      var s := Bin2Hex(bs);
      var hi, lo := HexDigits[bs[0] / 16], HexDigits[bs[0] % 16];
      assert s == [hi, lo] + Bin2Hex(bs[1..]);
      ByteHex(bs[0]);
      Hex2BinStep(hi, lo, Bin2Hex(bs[1..]), bs[0]);
      Hex2BinBin2Hex(bs[1..]);
      assert [bs[0]] + bs[1..] == bs;
    }
  }

  /** The first two digits are read as one byte. */
  lemma Hex2BinStep(hi: char, lo: char, rest: string, b: Byte)
    requires IsHexChar(hi) && IsHexChar(lo) && IsHexText(rest)
    requires HexValue(hi) * 16 + HexValue(lo) == b
    ensures IsHexText([hi, lo] + rest)
    ensures Hex2Bin([hi, lo] + rest) == [b] + Hex2Bin(rest)
  {
    var s := [hi, lo] + rest;
    assert s[0] == hi && s[1] == lo && s[2..] == rest;
  }

  /** A byte's two digits read back as the byte. */
  lemma ByteHex(b: Byte)
    ensures IsHexChar(HexDigits[b / 16]) && IsHexChar(HexDigits[b % 16])
    ensures HexValue(HexDigits[b / 16]) * 16 + HexValue(HexDigits[b % 16]) == b
  {
    HexDigitValue(b / 16);
    HexDigitValue(b % 16);
  }

  /** Each digit of the table reads back as its position. */
  lemma HexDigitValue(n: int)
    requires 0 <= n < 16
    ensures IsHexChar(HexDigits[n]) && HexValue(HexDigits[n]) == n
  {
    assert IsHexChar(HexDigits[n]);
    var m := HexValue(HexDigits[n]);
    assert HexDigits[m] == HexDigits[n];
  }

  /* ----------------------------------------------------------------------
     array_merge
     ---------------------------------------------------------------------- */

  /** The number of integer keys of an array. */
  function IntKeyCount(es: seq<Entry>): (n: nat)
    ensures n <= |es|
  {
    if es == [] then 0 else IntKeyCount(es[..|es| - 1]) + (if es[|es| - 1].key.IntKey? then 1 else 0)
  }

  /** One entry added by `array_merge`: an integer key is renumbered to the
      next position, a string key is assigned (overwriting an earlier
      one in place). */
  function MergeEntry(acc: seq<Entry>, e: Entry): seq<Entry>
  {
    if e.key.IntKey? then acc + [Entry(IntKey(IntKeyCount(acc)), e.value)] else Put(acc, e.key, e.value)
  }

  /** `array_merge` of the arrays whose entries are concatenated in `es`. */
  function MergeAll(es: seq<Entry>): seq<Entry>
  {
    if es == [] then [] else MergeEntry(MergeAll(es[..|es| - 1]), es[|es| - 1])
  }

  function ArrayMerge(a: seq<Entry>, b: seq<Entry>): seq<Entry>
  {
    MergeAll(a + b)
  }

  lemma IntKeyCountAppend(a: seq<Entry>, e: Entry)
    ensures IntKeyCount(a + [e]) == IntKeyCount(a) + (if e.key.IntKey? then 1 else 0)
  {
    assert (a + [e])[..|a|] == a;
  }

  /** A string key is looked up as in the merged arrays, the later value
      winning; integer keys do not disturb it. */
  lemma {:induction false} MergeStringKeys(es: seq<Entry>, k: string)
    requires UniqueKeys(es)
    ensures Lookup(MergeAll(es), StrKey(k)) == Lookup(es, StrKey(k))
  {
    if es != [] {
      var n := |es| - 1;
      var p, e := es[..n], es[n];
      assert UniqueKeys(p);
      MergeStringKeys(p, k);
      assert p + [e] == es;
      LookupAppend(p, [e], StrKey(k));
      if e.key.IntKey? {
        LookupAppend(MergeAll(p), [Entry(IntKey(IntKeyCount(MergeAll(p))), e.value)], StrKey(k));
      } else if e.key == StrKey(k) {
        assert Lookup(p, StrKey(k)) == None by {
          forall j | 0 <= j < |p| ensures p[j].key != StrKey(k) {
            assert p[j] == es[j];
          }
        }
      }
    }
  }

  /** The entries renumbered 0, 1, 2, ... in order. */
  function Renumbered(es: seq<Entry>): (r: seq<Entry>)
    ensures |r| == |es|
  {
    seq(|es|, i requires 0 <= i < |es| => Entry(IntKey(i), es[i].value))
  }

  predicate AllIntKeys(es: seq<Entry>)
  {
    forall i :: 0 <= i < |es| ==> es[i].key.IntKey?
  }

  /** Per-step snapshots keyed by step number come out of `array_merge`
      keyed 0, 1, 2, ... in the order they were first saved, whatever
      their step numbers. */
  lemma {:induction false} MergeRenumbers(es: seq<Entry>)
    requires AllIntKeys(es)
    ensures MergeAll(es) == Renumbered(es)
    ensures IntKeyCount(MergeAll(es)) == |es|
  {
    if es != [] {
      var n := |es| - 1;
      var p := es[..n];
      MergeRenumbers(p);
      IntKeyCountAppend(Renumbered(p), Entry(IntKey(n), es[n].value));
      assert Renumbered(p) + [Entry(IntKey(n), es[n].value)] == Renumbered(es);
    }
  }

  /* ----------------------------------------------------------------------
     The prologue
     ---------------------------------------------------------------------- */

  /** `isset($_GET['resume']) && $_GET['resume'] == '1'` (loose). */
  predicate ResumeRequested(resume: Option<Value>)
  {
    IsSet(resume) && LooseEqualsStr(resume.value, "1")
  }

  /** `array_merge($_SESSION['consultation_form_data'] ?? [],
      ['vaccination_calendar' => $_SESSION['vaccination_calendar'] ?? []])`;
      form data that is not an array makes `array_merge` throw. */
  function Prefill(data: SessionMap): Outcome<Value>
  {
    var fd := Coalesce(Read(data, FormData), Arr([]));
    var vd := Coalesce(Read(data, VaccinationCalendar), Arr([]));
    if fd.Arr? then Done(Arr(ArrayMerge(fd.entries, [Entry(StrKey(VaccinationCalendar), vd)]))) else TypeError
  }

  /** `$_SESSION['initialized'] = true` when it is not set. */
  function Marked(data: SessionMap): SessionMap
  {
    if !IsSet(Read(data, Initialized)) then data[Initialized := Bool(true)] else data
  }

  /** `if (empty($_SESSION['csrf_token'])) $_SESSION['csrf_token'] =
      bin2hex(random_bytes(32));`, shared by the wizard page and the
      vaccination page. */
  function EnsureToken(data: SessionMap, rnd: seq<Byte>): SessionMap
  {
    if !Truthy(Coalesce(Read(data, CsrfToken), Null)) then data[CsrfToken := Str(Bin2Hex(rnd))] else data
  }

  /** The session after the prologue, whether the session id was
      regenerated, and whether the prefill threw. */
  datatype PageResult = PageResult(session: SessionMap, regenerated: bool, crashed: bool)

  /** The prologue on the session, the 32 random bytes of `random_bytes(32)`
      and the `resume` query parameter. */
  function Prologue(data: SessionMap, rnd: seq<Byte>, resume: Option<Value>): PageResult
  {
    var regen := !IsSet(Read(data, Initialized));
    var d2 := EnsureToken(Marked(data), rnd);
    if ResumeRequested(resume) then
      match Prefill(d2)
      case TypeError => PageResult(d2, regen, true)
      case Done(p) => PageResult(d2[PrefillData := p], regen, false)
    else PageResult(d2, regen, false)
  }

  /* ----------------------------------------------------------------------
     Properties of the prologue
     ---------------------------------------------------------------------- */

  /** The session is marked initialised, and the id is regenerated exactly
      when it was not; an existing mark is left as it was. */
  lemma InitializedOnce(data: SessionMap, rnd: seq<Byte>, resume: Option<Value>)
    ensures Prologue(data, rnd, resume).regenerated <==> !IsSet(Read(data, Initialized))
    ensures IsSet(Read(Prologue(data, rnd, resume).session, Initialized))
    ensures IsSet(Read(data, Initialized)) ==> Prologue(data, rnd, resume).session[Initialized] == data[Initialized]
    ensures !Prologue(Prologue(data, rnd, resume).session, rnd, resume).regenerated
  {
  }

  /** A token that is set and not empty is kept; otherwise the new token is
      the 64 hexadecimal digits of the 32 random bytes, which is not empty,
      so ensuring the token again changes nothing. */
  lemma EnsureTokenOnce(data: SessionMap, rnd: seq<Byte>, rnd2: seq<Byte>)
    requires |rnd| == 32
    ensures var t := Coalesce(Read(data, CsrfToken), Null);
      var after := EnsureToken(data, rnd);
      CsrfToken in after && Truthy(after[CsrfToken]) &&
      (if Truthy(t) then after[CsrfToken] == t
       else after[CsrfToken] == Str(Bin2Hex(rnd)) && |Bin2Hex(rnd)| == 64 && Hex2Bin(Bin2Hex(rnd)) == rnd)
    ensures EnsureToken(EnsureToken(data, rnd), rnd2) == EnsureToken(data, rnd)
  {
    var t := Coalesce(Read(data, CsrfToken), Null);
    if !Truthy(t) {
      Hex2BinBin2Hex(rnd);
      var s := Bin2Hex(rnd);
      assert s != "" && s != "0" by { assert |s| == 64; }
    }
  }

  /** The prologue keeps a non-empty token and otherwise stores a fresh
      one; a second load keeps the token the first one left. */
  lemma TokenOnce(data: SessionMap, rnd: seq<Byte>, resume: Option<Value>, rnd2: seq<Byte>)
    requires |rnd| == 32
    ensures var t := Coalesce(Read(data, CsrfToken), Null);
      var after := Prologue(data, rnd, resume).session;
      CsrfToken in after &&
      (if Truthy(t) then after[CsrfToken] == t
       else after[CsrfToken] == Str(Bin2Hex(rnd)) && |Bin2Hex(rnd)| == 64 && Hex2Bin(Bin2Hex(rnd)) == rnd)
    ensures var after := Prologue(data, rnd, resume).session;
      Prologue(after, rnd2, resume).session[CsrfToken] == after[CsrfToken]
  {
    PrologueToken(data, rnd, resume);
    EnsureTokenOnce(Marked(data), rnd, rnd2);
    var after := Prologue(data, rnd, resume).session;
    PrologueToken(after, rnd2, resume);
  }

  /** The token the prologue leaves is the one the token step leaves. */
  lemma PrologueToken(data: SessionMap, rnd: seq<Byte>, resume: Option<Value>)
    ensures Read(Prologue(data, rnd, resume).session, CsrfToken) == Read(EnsureToken(Marked(data), rnd), CsrfToken)
    ensures Read(Marked(data), CsrfToken) == Read(data, CsrfToken)
  {
  }

  /** Without `resume=1` the prefill is left as it was. */
  lemma PrefillOnlyOnResume(data: SessionMap, rnd: seq<Byte>, resume: Option<Value>)
    requires !ResumeRequested(resume)
    ensures Read(Prologue(data, rnd, resume).session, PrefillData) == Read(data, PrefillData)
    ensures !Prologue(data, rnd, resume).crashed
  {
  }

  /** `resume` is compared loosely: any integer-form numeric string equal
      to 1 (such as "01" or " 1") resumes, and so does `true`. */
  lemma ResumeLoose(t: string)
    ensures ResumeRequested(Some(Str(t))) <==> IsIntNumeric(t) && NumericValue(t) == 1
    ensures ResumeRequested(Some(Bool(true)))
  {
    OneIsNumeric("1");
  }

  /** The text "1" is an integer-form numeric string of value 1. */
  lemma OneIsNumeric(one: string)
    requires one == ['1']
    ensures IsIntNumeric(one) && NumericValue(one) == 1
  {
    assert SkipNumericSpace(one) == one;
    assert SplitSign(one) == (1, one);
    assert DigitRun(one) == one by {
      assert one[1..] == [];
    }
    assert DigitsValue(one) == 1 by {
      assert one[..0] == [];
    }
    assert one[|one|..] == [];
  }

  /** On resume the prefill holds the session's checklist under
      `vaccination_calendar`, overriding a form field of that name, and
      every other named field of the form data. */
  lemma PrefillContents(data: SessionMap, k: string)
    requires Prefill(data).Done?
    requires FormData in data && data[FormData].Arr? ==> UniqueKeys(data[FormData].entries)
    ensures Lookup(Prefill(data).value.entries, StrKey(VaccinationCalendar)) ==
      Some(Coalesce(Read(data, VaccinationCalendar), Arr([])))
    ensures k != VaccinationCalendar ==>
      Lookup(Prefill(data).value.entries, StrKey(k)) == Get(Coalesce(Read(data, FormData), Arr([])), k)
  {
    var fd := Coalesce(Read(data, FormData), Arr([])).entries;
    var e := Entry(StrKey(VaccinationCalendar), Coalesce(Read(data, VaccinationCalendar), Arr([])));
    assert fd + [e] == (fd + [e])[..|fd|] + [e] && (fd + [e])[..|fd|] == fd;
    if k != VaccinationCalendar {
      assert UniqueKeys(fd);
      MergeStringKeys(fd, k);
      LookupAppend(MergeAll(fd), [], StrKey(k));
      assert Put(MergeAll(fd), e.key, e.value) == MergeAll(fd + [e]);
    }
  }

  /** When the form data holds only per-step snapshots, the prefill holds
      them renumbered from 0 in saving order, followed by the checklist. */
  lemma PrefillRenumbersSnapshots(data: SessionMap)
    requires FormData in data && data[FormData].Arr? && AllIntKeys(data[FormData].entries)
    ensures Prefill(data).Done?
    ensures Prefill(data).value.entries ==
      Renumbered(data[FormData].entries) + [Entry(StrKey(VaccinationCalendar), Coalesce(Read(data, VaccinationCalendar), Arr([])))]
  {
    var fd := data[FormData].entries;
    var e := Entry(StrKey(VaccinationCalendar), Coalesce(Read(data, VaccinationCalendar), Arr([])));
    assert (fd + [e])[..|fd|] == fd;
    MergeRenumbers(fd);
    assert IndexOf(Renumbered(fd), e.key) < 0 by {
      forall j | 0 <= j < |fd| ensures Renumbered(fd)[j].key != e.key {
      }
    }
  }

  /** The prologue on the session of the request; `regenerated` stands for
      `session_regenerate_id(true)`. */
  method Prepare(s: Session, rnd: seq<Byte>, resume: Option<Value>) returns (regenerated: bool, crashed: bool)
    modifies s
    ensures Prologue(old(s.data), rnd, resume) == PageResult(s.data, regenerated, crashed)
  {
    regenerated := false;
    crashed := false;
    if !IsSet(Read(s.data, Initialized)) {
      regenerated := true;
      s.Set(Initialized, Bool(true));
    }
    if !Truthy(Coalesce(Read(s.data, CsrfToken), Null)) {
      s.Set(CsrfToken, Str(Bin2Hex(rnd)));
    }
    if ResumeRequested(resume) {
      var p := Prefill(s.data);
      if p.TypeError? {
        crashed := true;
        return;
      }
      s.Set(PrefillData, p.value);
    }
  }
}
