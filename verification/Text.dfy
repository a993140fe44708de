/** Trimming and decimal numerals, as the backend uses them on config values. */
module Text {
  import opened Options

  predicate IsSpace(c: char) {
    c == ' ' || c == '\t' || c == '\n' || c == '\r' || c == 11 as char || c == 12 as char
  }

  /** Drops white space from both ends. */
  function Trim(s: string): (t: string)
    ensures t != "" ==> !IsSpace(t[0]) && !IsSpace(t[|t| - 1])
    ensures |t| <= |s|
  {
    if s == "" then ""
    else if IsSpace(s[0]) then Trim(s[1..])
    else if IsSpace(s[|s| - 1]) then Trim(s[..|s| - 1])
    else s
  }

  predicate Trimmed(s: string) {
    Trim(s) == s
  }

  lemma TrimTwice(s: string)
    ensures Trimmed(Trim(s))
  {
  }

  /** White space is the space and the control characters from tab to carriage return. */
  lemma SpacesAre(c: char)
    ensures IsSpace(c) <==> c as int == 32 || 9 <= c as int <= 13
  {
  }

  predicate Blank(s: string) {
    forall i | 0 <= i < |s| :: IsSpace(s[i])
  }

  lemma BlankAppend(a: string, b: string)
    ensures Blank(a + b) <==> Blank(a) && Blank(b)
  {
    assert forall i | 0 <= i < |a| :: (a + b)[i] == a[i];
    assert forall i | 0 <= i < |b| :: (a + b)[|a| + i] == b[i];
  }

  lemma NoBlanks()
    ensures Blank("")
  {
  }

  lemma BlankBefore(c: char, a: string)
    requires IsSpace(c) && Blank(a)
    ensures Blank([c] + a)
  {
  }

  lemma BlankAfter(a: string, c: char)
    requires Blank(a) && IsSpace(c)
    ensures Blank(a + [c])
  {
  }

  /** Trimming takes white space off both ends, and nothing else. */
  lemma {:induction false} TrimTakesBlanks(s: string) returns (a: string, b: string)
    ensures s == a + Trim(s) + b && Blank(a) && Blank(b)
    decreases |s|
  {
    hide Blank, IsSpace;
    a, b := "", "";
    NoBlanks();
    if s == "" {
    } else if IsSpace(s[0]) {
      a, b := TrimTakesBlanks(s[1..]);
      BlankBefore(s[0], a);
      a := [s[0]] + a;
    } else if IsSpace(s[|s| - 1]) {
      a, b := TrimTakesBlanks(s[..|s| - 1]);
      BlankAfter(b, s[|s| - 1]);
      b := b + [s[|s| - 1]];
    }
  }

  /** Text between blanks that neither begins nor ends with one is what trimming leaves. */
  lemma {:induction false} TrimFinds(a: string, t: string, b: string)
    requires Blank(a) && Blank(b)
    requires t != "" ==> !IsSpace(t[0]) && !IsSpace(t[|t| - 1])
    ensures Trim(a + t + b) == t
    decreases |a| + |b|
  {
    var s := a + t + b;
    if a != "" {
      assert s[1..] == a[1..] + t + b;
      TrimFinds(a[1..], t, b);
    } else if b != "" {
      assert s[..|s| - 1] == a + t + b[..|b| - 1];
      if t == "" {
        assert s[1..] == a + t + b[1..];
        TrimFinds(a, t, b[1..]);
      } else {
        TrimFinds(a, t, b[..|b| - 1]);
      }
    } else {
      assert s == t;
    }
  }

  lemma BlankIff(s: string)
    ensures Trim(s) == "" <==> Blank(s)
  {
    if Blank(s) {
      assert s + "" + "" == s;
      TrimFinds(s, "", "");
    } else {
      var a, b := TrimTakesBlanks(s);
      assert Trim(s) == "" ==> s == a + b;
      BlankAppend(a, b);
    }
  }

  /** A request field as the diffs see it: trimmed, and absent when blank. */
  function NonBlank(s: string): (r: Option<string>)
    ensures r.Some? ==> r.value != "" && Trimmed(r.value)
  {
    TrimTwice(s);
    if Trim(s) == "" then None else Some(Trim(s))
  }

  function Wanted(field: Option<string>): (r: Option<string>)
    ensures r.Some? ==> r.value != "" && Trimmed(r.value)
  {
    if field.None? then None else NonBlank(field.value)
  }

  // ── decimal numerals ───────────────────────────────────────────────────────

  type i32 = n: int | -0x8000_0000 <= n < 0x8000_0000
  type u32 = n: int | 0 <= n < 0x1_0000_0000

  predicate IsDigit(c: char) {
    '0' <= c <= '9'
  }

  function DigitValue(c: char): (d: nat)
    requires IsDigit(c)
    ensures d < 10
  {
    c as int - '0' as int
  }

  function Digit(d: nat): (c: char)
    requires d < 10
    ensures IsDigit(c) && DigitValue(c) == d
  {
    (d + '0' as int) as char
  }

  function PrintNat(n: nat): (s: string)
    ensures s != "" && AllDigits(s)
  {
    if n < 10 then [Digit(n)] else PrintNat(n / 10) + [Digit(n % 10)]
  }

  /** `to_string` of a machine integer. */
  function PrintInt(n: int): string {
    if n < 0 then "-" + PrintNat(-n) else PrintNat(n)
  }

  predicate AllDigits(s: string) {
    forall i | 0 <= i < |s| :: IsDigit(s[i])
  }

  /** The value of a non-empty digit string. */
  function DigitsValue(s: string): (v: int)
    requires AllDigits(s)
    ensures v >= 0
  {
    if s == "" then 0 else DigitsValue(s[..|s| - 1]) * 10 + DigitValue(s[|s| - 1])
  }

  /** Rust's integer `parse`: an optional sign, then at least one digit, and a range check. */
  function ParseInt(s: string, lo: int, hi: int): Option<int> {
    var negative := s != "" && s[0] == '-';
    var digits := if s != "" && ((s[0] == '-' && lo < 0) || s[0] == '+') then s[1..] else s;
    if digits == "" || !AllDigits(digits) then None
    else
      var v: int := if negative then -DigitsValue(digits) else DigitsValue(digits);
      if lo <= v < hi then Some(v) else None
  }

  function ParseI32(s: string): (r: Option<i32>) {
    ParseInt(s, -0x8000_0000, 0x8000_0000)
  }

  function ParseU64(s: string): (r: Option<int>) {
    ParseInt(s, 0, 0x1_0000_0000_0000_0000)
  }

  /** The numeral of a number, digit by digit. */
  lemma Numerals(n: nat, d: nat)
    requires d < 10
    ensures n > 0 ==> PrintInt(10 * n + d) == PrintInt(n) + ["0123456789"[d]]
    ensures PrintInt(d) == ["0123456789"[d]]
    ensures n > 0 ==> PrintInt(-(n as int)) == "-" + PrintInt(n)
  {
    assert Digit(d) == "0123456789"[d];
    assert n > 0 ==> (10 * n + d) / 10 == n && (10 * n + d) % 10 == d;
  }

  lemma {:induction false} PrintNatValue(n: nat)
    ensures DigitsValue(PrintNat(n)) == n
  {
    if n >= 10 {
      PrintNatValue(n / 10);
      assert PrintNat(n)[..|PrintNat(n)| - 1] == PrintNat(n / 10);
    } else {
      assert PrintNat(n)[..0] == "";
    }
  }

  lemma ParseDigits(digits: string, lo: int, hi: int)
    requires digits != "" && AllDigits(digits) && lo <= 0
    ensures Trimmed(digits) && Trimmed("-" + digits)
    ensures lo <= DigitsValue(digits) < hi ==> ParseInt(digits, lo, hi) == Some(DigitsValue(digits))
    ensures lo <= -DigitsValue(digits) < hi && lo < 0 ==>
              ParseInt("-" + digits, lo, hi) == Some(-DigitsValue(digits))
  {
    assert ("-" + digits)[1..] == digits;
    assert !IsSpace(digits[0]) && !IsSpace(digits[|digits| - 1]);
  }

  /** Printing then parsing an integer in range is the identity, also through the readers' `trim`. */
  lemma {:induction false} ParsePrint(n: int, lo: int, hi: int)
    requires lo <= n < hi && lo <= 0
    ensures ParseInt(PrintInt(n), lo, hi) == Some(n)
    ensures Trimmed(PrintInt(n))
  {
    var digits := PrintNat(if n < 0 then -n else n);
    PrintNatValue(if n < 0 then -n else n);
    ParseDigits(digits, lo, hi);
  }

  /** A plus sign or leading zeros may be written, a minus sign only before signed integers. */
  lemma ParseAccepts(n: nat, lo: int, hi: int)
    requires lo <= 0 && n < hi
    ensures ParseInt("+" + PrintInt(n), lo, hi) == Some(n)
    ensures ParseInt("0" + PrintInt(n), lo, hi) == Some(n)
    ensures lo == 0 ==> ParseInt("-" + PrintInt(n), lo, hi).None?
  {
    hide PrintNat, DigitsValue;
    var digits := PrintNat(n);
    PrintNatValue(n);
    assert ("+" + digits)[1..] == digits;
    assert lo == 0 ==> !IsDigit(("-" + digits)[0]);
    LeadingZero(digits);
  }

  /** Text with anything but digits after the sign is no integer. */
  lemma ParseRefuses(s: string, i: nat, lo: int, hi: int)
    requires s == "" || (i < |s| && !IsDigit(s[i]) && (i > 0 || (s[i] != '+' && s[i] != '-')))
    ensures ParseInt(s, lo, hi).None?
  {
    hide DigitsValue;
    assert s != "" && i > 0 ==> s[1..][i - 1] == s[i];
  }

  lemma {:induction false} LeadingZero(digits: string)
    requires AllDigits(digits)
    ensures DigitsValue("0" + digits) == DigitsValue(digits)
    decreases |digits|
  {
    if digits == "" {
      assert "0"[..0] == "";
    } else {
      var shorter := digits[..|digits| - 1];
      assert ("0" + digits)[..|digits|] == "0" + shorter;
      LeadingZero(shorter);
    }
  }

  /** Distinct numbers have distinct numerals, so distinct rules and vifs have distinct paths. */
  lemma PrintIntInjective(a: int, b: int)
    requires PrintInt(a) == PrintInt(b)
    ensures a == b
  {
    assert a < 0 <==> PrintInt(a)[0] == '-';
    assert b < 0 <==> PrintInt(b)[0] == '-';
    if a < 0 {
      assert PrintInt(a)[1..] == PrintNat(-a) && PrintInt(b)[1..] == PrintNat(-b);
      PrintNatValue(-a);
      PrintNatValue(-b);
    } else {
      PrintNatValue(a);
      PrintNatValue(b);
    }
  }
}
