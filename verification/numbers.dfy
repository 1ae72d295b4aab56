/** Decimal integers as they cross the CSV boundary: Python's `str(n)` on export and
    Python's `int(s)` on import, including the whitespace, sign and underscore rules of
    `int()`, and the `int(cell or 0)` / `except: 0` fallback the import applies. */
module Numbers {
  import opened Common
  import opened Text

  predicate IsDigit(c: char) {
    '0' <= c <= '9'
  }

  function DigitValue(c: char): (d: nat)
    requires IsDigit(c)
    ensures d < 10
  {
    c as int - '0' as int
  }

  function DigitChar(d: nat): (c: char)
    requires d < 10
    ensures IsDigit(c) && DigitValue(c) == d
  {
    ('0' as int + d) as char
  }

  /** The digit part `int()` accepts: ASCII digits, where single underscores may
      separate two digits. */
  predicate DigitGroup(s: string) {
    && s != [] && IsDigit(s[0]) && IsDigit(s[|s| - 1])
    && (forall i :: 0 <= i < |s| ==> IsDigit(s[i]) || s[i] == '_')
    && (forall i :: 0 <= i < |s| - 1 ==> s[i] == '_' ==> s[i + 1] != '_')
  }

  /** The value of a digit group, underscores ignored. */
  function DigitsValue(s: string): nat
    requires forall i :: 0 <= i < |s| ==> IsDigit(s[i]) || s[i] == '_'
  {
    if s == [] then 0
    else if s[|s| - 1] == '_' then DigitsValue(s[..|s| - 1])
    else 10 * DigitsValue(s[..|s| - 1]) + DigitValue(s[|s| - 1])
  }

  /** The blanks `int()` skips around a number. CPython maps non-ASCII whitespace to a
      space and then skips the ASCII whitespace " \t\n\v\f\r", so these are the
      characters `str.isspace()` accepts except the separators U+001C to U+001F, which
      `int()` keeps and then rejects. */
  predicate IntBlank(c: char) {
    IsSpace(c) && !('\U{1C}' <= c <= '\U{1F}')
  }

  function BlankLeft(s: string): (r: string)
    ensures |r| <= |s| && r == s[|s| - |r|..]
    ensures forall i :: 0 <= i < |s| - |r| ==> IntBlank(s[i])
    ensures r == [] || !IntBlank(r[0])
  {
    if s != [] && IntBlank(s[0]) then BlankLeft(s[1..]) else s
  }

  function BlankRight(s: string): (r: string)
    ensures |r| <= |s| && r == s[..|r|]
    ensures forall i :: |r| <= i < |s| ==> IntBlank(s[i])
    ensures r == [] || !IntBlank(r[|r| - 1])
  {
    if s != [] && IntBlank(s[|s| - 1]) then BlankRight(s[..|s| - 1]) else s
  }

  /** What `int()` looks at: its argument without the blanks around it. */
  function IntStrip(s: string): (r: string)
    ensures r == [] || (!IntBlank(r[0]) && !IntBlank(r[|r| - 1]))
  {
    BlankRight(BlankLeft(s))
  }

  /** Stripping blanks leaves a string without surrounding blanks unchanged. */
  lemma IntStripUnpadded(s: string)
    requires s == [] || (!IntBlank(s[0]) && !IntBlank(s[|s| - 1]))
    ensures IntStrip(s) == s
  {
    assert BlankLeft(s) == s;
    assert BlankRight(s) == s;
  }

  /** Python's `int(s)` for base 10: surrounding blanks are ignored, one optional sign,
      then a digit group; anything else raises, modelled as `None`. */
  function ParseInt(s: string): Option<int> {
    ParseStripped(IntStrip(s))
  }

  /** `int()` on a string already stripped of surrounding whitespace. */
  function ParseStripped(t: string): Option<int> {
    if t == [] then None
    else
      var negative := t[0] == '-';
      var body := if t[0] == '-' || t[0] == '+' then t[1..] else t;
      if DigitGroup(body) then
        var v: int := DigitsValue(body);
        Some(if negative then -v else v)
      else None
  }

  /** `int()` ignores the blanks around its argument: removing them first changes
      nothing. */
  lemma ParseIntIgnoresBlanks(s: string)
    ensures ParseInt(IntStrip(s)) == ParseInt(s)
  {
    IntStripUnpadded(IntStrip(s));
  }

  /** A separator U+001C to U+001F in front of a number makes `int()` raise, although
      `str.strip()` would remove it. */
  lemma ParseIntRejectsSeparator(c: char, s: string)
    requires '\U{1C}' <= c <= '\U{1F}'
    ensures IsSpace(c) && Strip([c] + s) == Strip(s)
    ensures ParseInt([c] + s) == None && IntCell(Some([c] + s)) == 0
  {
    var t := [c] + s;
    assert t[1..] == s;
    assert TrimLeft(t) == TrimLeft(s);
    assert !IntBlank(c);
    assert BlankLeft(t) == t;
    SeparatorFirst(IntStrip(t), c);
  }

  lemma SeparatorFirst(t: string, c: char)
    requires '\U{1C}' <= c <= '\U{1F}'
    requires t != [] && t[0] == c
    ensures ParseStripped(t) == None
  {
    assert !IsDigit(t[0]);
  }

  /** Python's `str(n)` for a non-negative integer. */
  function NatToString(n: nat): (r: string)
    ensures r != [] && IsDigit(r[0]) && IsDigit(r[|r| - 1])
    ensures forall i :: 0 <= i < |r| ==> IsDigit(r[i])
  {
    if n < 10 then [DigitChar(n)] else NatToString(n / 10) + [DigitChar(n % 10)]
  }

  /** Python's `str(n)`. */
  function IntToString(n: int): string {
    if n < 0 then "-" + NatToString(-n) else NatToString(n)
  }

  lemma {:induction false} NatToStringValue(n: nat)
    ensures DigitsValue(NatToString(n)) == n
  {
    var r := NatToString(n);
    if n >= 10 {
      NatToStringValue(n / 10);
      assert r[..|r| - 1] == NatToString(n / 10);
    }
  }

  /** What `str()` writes on export, `int()` reads back on import. */
  lemma IntRoundTrip(n: int)
    ensures ParseInt(IntToString(n)) == Some(n)
  {
    var m: nat := if n < 0 then -n else n;
    var digits := NatToString(m);
    NatToStringValue(m);
    assert DigitGroup(digits);
    var s := IntToString(n);
    if n < 0 {
      assert s[0] == '-' && s[1..] == digits;
      SignedDigitsParse(s, digits, true);
    } else {
      assert s == digits;
      SignedDigitsParse(s, digits, false);
    }
  }

  lemma SignedDigitsParse(s: string, digits: string, negative: bool)
    requires DigitGroup(digits)
    requires s == (if negative then "-" else "") + digits
    ensures ParseInt(s) == Some(if negative then 0 - DigitsValue(digits) else DigitsValue(digits) as int)
  {
    assert s[|s| - 1] == digits[|digits| - 1];
    assert s[0] == '-' || s[0] == digits[0];
    assert !IntBlank(s[|s| - 1]) && !IntBlank(s[0]);
    IntStripUnpadded(s);
    SignedDigitsValue(s, digits, negative);
  }

  lemma SignedDigitsValue(s: string, digits: string, negative: bool)
    requires DigitGroup(digits)
    requires s == (if negative then "-" else "") + digits
    ensures ParseStripped(s) == Some(if negative then 0 - DigitsValue(digits) else DigitsValue(digits) as int)
  {
    if negative {
      assert s[0] == '-' && s[1..] == digits;
    } else {
      assert s[0] == digits[0];
    }
  }

  /** The import's `int(row.get(col) or 0)` with `except: 0`: a missing or empty cell
      and a cell `int()` rejects both give 0. */
  function IntCell(cell: Option<string>): (v: int)
    ensures cell.Some? && cell.value != "" && ParseInt(cell.value).Some? ==> v == ParseInt(cell.value).value
    ensures v != 0 ==> cell.Some? && ParseInt(cell.value) == Some(v)
  {
    match cell
    case None => 0
    case Some(s) =>
      if s == "" then 0
      else match ParseInt(s)
           case None => 0
           case Some(v) => v
  }
}
