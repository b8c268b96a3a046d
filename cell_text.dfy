/**
 * Turning the text of a cell into an integer. ParseInt is a decimal-literal
 * reading of Python's int() on a string: surrounding ASCII whitespace is
 * stripped, then an optional sign and one or more ASCII digits must remain.
 * ParseCell is the form's rule: an empty text is 0, anything else goes to
 * ParseInt.
 */
module CellText {
  import opened Wrappers

  /** The ASCII whitespace int() skips around a literal. */
  predicate IsSpace(c: char)
  {
    c == ' ' || c == '\t' || c == '\n' || c == '\r' || c == '\U{0B}' || c == '\U{0C}'
  }

  predicate IsDigit(c: char)
  {
    '0' <= c <= '9'
  }

  /** `s` is a non-empty run of decimal digits. */
  predicate IsDigits(s: string)
  {
    |s| > 0 && forall k :: 0 <= k < |s| ==> IsDigit(s[k])
  }

  function DigitValue(c: char): nat
    requires IsDigit(c)
  {
    (c as int) - ('0' as int)
  }

  function DigitChar(d: nat): char
    requires d < 10
  {
    (('0' as int) + d) as char
  }

  /** The value of a run of decimal digits, most significant first. */
  function DigitsValue(s: string): nat
    requires forall k :: 0 <= k < |s| ==> IsDigit(s[k])
  {
    if s == [] then 0 else 10 * DigitsValue(s[..|s| - 1]) + DigitValue(s[|s| - 1])
  }

  function TrimLeft(s: string): string
  {
    if |s| > 0 && IsSpace(s[0]) then TrimLeft(s[1..]) else s
  }

  function TrimRight(s: string): string
  {
    if |s| > 0 && IsSpace(s[|s| - 1]) then TrimRight(s[..|s| - 1]) else s
  }

  function Strip(s: string): string
  {
    TrimRight(TrimLeft(s))
  }

  /** Some(value) for an optional sign and ASCII digits between ASCII whitespace, None otherwise. */
  function ParseInt(s: string): Option<int>
  {
    var t := Strip(s);
    if |t| > 0 && (t[0] == '+' || t[0] == '-') then
      if IsDigits(t[1..]) then
        var magnitude: int := DigitsValue(t[1..]);
        Some(if t[0] == '-' then -magnitude else magnitude)
      else None
    else if IsDigits(t) then Some(DigitsValue(t))
    else None
  }

  /** The value of a cell's text: `int(value) if value else 0`. */
  function ParseCell(text: string): Option<int>
  {
    if text == "" then Some(0) else ParseInt(text)
  }

  /** The decimal digits of `n`, most significant first, without leading zeros. */
  function NatDigits(n: nat): string
  {
    if n < 10 then [DigitChar(n)] else NatDigits(n / 10) + [DigitChar(n % 10)]
  }

  /** The decimal text of `n`, as Python's str() writes an int. */
  function Render(n: int): string
  {
    if n < 0 then "-" + NatDigits(-n) else NatDigits(n)
  }

  // ---------------------------------------------------------------------
  // Lemmas
  // ---------------------------------------------------------------------

  lemma {:induction false} NatDigitsValue(n: nat)
    ensures IsDigits(NatDigits(n))
    ensures DigitsValue(NatDigits(n)) == n
  {
    if n >= 10 {
      NatDigitsValue(n / 10);
      var s := NatDigits(n / 10) + [DigitChar(n % 10)];
      assert s[..|s| - 1] == NatDigits(n / 10);
    }
  }

  /** Reading back the decimal text of any integer gives that integer. */
  lemma ParseIntRender(n: int)
    ensures ParseInt(Render(n)) == Some(n)
  {
    var d := if n < 0 then -n else n;
    NatDigitsValue(d);
    var s := Render(n);
    assert !IsSpace(s[0]) && !IsSpace(s[|s| - 1]);
    assert Strip(s) == s;
    if n < 0 {
      assert s[1..] == NatDigits(d);
    } else {
      assert IsDigit(s[0]);
    }
  }

  /** A cell holding the decimal text of `n` has the value `n`. */
  lemma ParseCellRender(n: int)
    ensures ParseCell(Render(n)) == Some(n)
  {
    ParseIntRender(n);
  }

  lemma {:induction false} TrimLeftAllSpace(s: string)
    requires forall k :: 0 <= k < |s| ==> IsSpace(s[k])
    ensures TrimLeft(s) == ""
  {
    if |s| > 0 {
      TrimLeftAllSpace(s[1..]);
    }
  }

  /**
   * Only the truly empty text counts as 0: a non-empty text of nothing but
   * whitespace is not an integer.
   */
  lemma ParseCellBlank(text: string)
    requires text != ""
    requires forall k :: 0 <= k < |text| ==> IsSpace(text[k])
    ensures ParseCell(text) == None
    ensures ParseCell("") == Some(0)
  {
    TrimLeftAllSpace(text);
  }

  /** A text that contains a character that is neither whitespace, digit nor sign is rejected. */
  lemma {:induction false} ParseIntRejects(s: string, k: nat)
    requires k < |s|
    requires !IsSpace(s[k]) && !IsDigit(s[k]) && s[k] != '+' && s[k] != '-'
    ensures ParseInt(s) == None
  {
    StripKeeps(s, k);
  }

  /** Stripping removes only whitespace: every other character stays in the stripped text. */
  lemma {:induction false} StripKeeps(s: string, k: nat)
    requires k < |s| && !IsSpace(s[k])
    ensures s[k] in Strip(s)
  {
    TrimLeftKeeps(s, k);
    var t := TrimLeft(s);
    var k' :| 0 <= k' < |t| && t[k'] == s[k];
    TrimRightKeeps(t, k');
  }

  lemma {:induction false} TrimLeftKeeps(s: string, k: nat)
    requires k < |s| && !IsSpace(s[k])
    ensures s[k] in TrimLeft(s)
  {
    if IsSpace(s[0]) {
      TrimLeftKeeps(s[1..], k - 1);
    }
  }

  lemma {:induction false} TrimRightKeeps(s: string, k: nat)
    requires k < |s| && !IsSpace(s[k])
    ensures s[k] in TrimRight(s)
  {
    if IsSpace(s[|s| - 1]) {
      TrimRightKeeps(s[..|s| - 1], k);
    }
  }
}
