/** The text rt_vsnprintf (rt-thread/src/kservice.c) produces for a format and its arguments when there is
    room for all of it. */
module FormatSpec {

  /** A 32-bit argument word. */
  type Word = x: int | 0 <= x < 0x1_0000_0000

  datatype Text = NullText | CString(s: string)

  /** What va_arg yields for one argument, read as an integer or as a string. */
  datatype Arg = Arg(word: Word, text: Text)

  type Args = nat -> Arg

  datatype Flags = Flags(zeropad: bool, sign: bool, plus: bool, space: bool, left: bool, special: bool, large: bool)

  const NO_FLAGS := Flags(false, false, false, false, false, false, false)

  function SignedWord(w: Word): int {
    if w >= 0x8000_0000 then w - 0x1_0000_0000 else w
  }

  // ---------- numbers ----------

  /** The digit divide takes off: it knows base 10 and takes every other base for 16. */
  function LastDigit(n: nat, base: nat): (d: nat)
    ensures d < 16
  {
    if base == 10 then n % 10 else n % 16
  }

  function OtherDigits(n: nat, base: nat): (m: nat)
    ensures n > 0 ==> m < n
  {
    if base == 10 then n / 10 else n / 16
  }

  function DigitChar(d: nat, large: bool): char
    requires d < 16
  {
    (if large then "0123456789ABCDEF" else "0123456789abcdef")[d]
  }

  /** The digits of `n`, most significant first. */
  function Digits(n: nat, base: nat, large: bool): (s: string)
    ensures |s| > 0
  {
    var c := DigitChar(LastDigit(n, base), large);
    if OtherDigits(n, base) == 0 then [c] else Digits(OtherDigits(n, base), base, large) + [c]
  }

  function Repeat(c: char, n: int): (s: string)
    ensures |s| == if n > 0 then n else 0
  {
    if n <= 0 then "" else Repeat(c, n - 1) + [c]
  }

  function Max(a: int, b: int): int {
    if a > b then a else b
  }

  /** Magnitude and sign of a number: the sign is shown only for signed conversions. */
  function SignText(num: Word, f: Flags): string {
    if !f.sign then ""
    else if SignedWord(num) < 0 then "-"
    else if f.plus then "+"
    else if f.space then " "
    else ""
  }

  function Magnitude(num: Word, f: Flags): Word {
    if f.sign && SignedWord(num) < 0 then -SignedWord(num) else num
  }

  /** Zeros up to the precision, then the digits; a precision of 0 suppresses the digits. */
  function NumberBody(num: Word, base: nat, precision: int, f: Flags): string {
    var d := Digits(Magnitude(num, f), base, f.large);
    Repeat('0', precision - |d|) + if precision != 0 then d else ""
  }

  /** Width the body is taken to have; with precision 0 the suppressed digits count. */
  function BodyWidth(num: Word, base: nat, precision: int, f: Flags): nat {
    Max(precision, |Digits(Magnitude(num, f), base, f.large)|)
  }

  /** What precedes the body: the sign, before it blanks or behind it zeros, unless left justified. */
  function Front(sign: string, pad: int, f: Flags): string {
    if f.left then sign else if f.zeropad then sign + Repeat('0', pad) else Repeat(' ', pad) + sign
  }

  /** print_number: sign and body, padded to `width` on the left with blanks or zeros or on the right with blanks. */
  function NumberText(num: Word, base: nat, width: int, precision: int, f: Flags): string {
    var sign := SignText(num, f);
    var pad := width - BodyWidth(num, base, precision, f) - |sign|;
    Front(sign, pad, f) + NumberBody(num, base, precision, f) + Repeat(' ', if f.left then pad else 0)
  }

  // ---------- parsing a directive ----------

  /** Character `j` of a C string. */
  function CharAt(s: string, j: nat): char {
    if j < |s| then s[j] else '\0'
  }

  predicate IsDigit(c: char) {
    '0' <= c <= '9'
  }

  function ReadFlags(fmt: string, j: nat, f: Flags): (Flags, nat)
    decreases |fmt| - j
  {
    if j >= |fmt| then (f, j)
    else if fmt[j] == '-' then ReadFlags(fmt, j + 1, f.(left := true))
    else if fmt[j] == '+' then ReadFlags(fmt, j + 1, f.(plus := true))
    else if fmt[j] == ' ' then ReadFlags(fmt, j + 1, f.(space := true))
    else if fmt[j] == '#' then ReadFlags(fmt, j + 1, f.(special := true))
    else if fmt[j] == '0' then ReadFlags(fmt, j + 1, f.(zeropad := true))
    else (f, j)
  }

  /** skip_atoi */
  function Atoi(fmt: string, j: nat, i: nat): (nat, nat)
    decreases |fmt| - j
  {
    if j < |fmt| && IsDigit(fmt[j]) then Atoi(fmt, j + 1, i * 10 + (fmt[j] as int - '0' as int)) else (i, j)
  }

  /** A conversion: what stands between the percent sign and the conversion character at `at`. */
  datatype Directive = Directive(flags: Flags, width: int, precision: int, qualifier: char, at: nat, next: nat)

  function ReadWidth(fmt: string, j: nat, args: Args, k: nat, f: Flags): (int, Flags, nat, nat) {
    if IsDigit(CharAt(fmt, j)) then var (w, j') := Atoi(fmt, j, 0); (w, f, j', k)
    else if CharAt(fmt, j) == '*' then
      var w := SignedWord(args(k).word);
      if w < 0 then (-w, f.(left := true), j + 1, k + 1) else (w, f, j + 1, k + 1)
    else (-1, f, j, k)
  }

  function ReadPrecision(fmt: string, j: nat, args: Args, k: nat): (int, nat, nat) {
    if CharAt(fmt, j) != '.' then (-1, j, k)
    else if IsDigit(CharAt(fmt, j + 1)) then var (p, j') := Atoi(fmt, j + 1, 0); (p, j', k)
    else if CharAt(fmt, j + 1) == '*' then (Max(SignedWord(args(k).word), 0), j + 2, k + 1)
    else (0, j + 1, k)
  }

  function ReadQualifier(fmt: string, j: nat): (char, nat) {
    if CharAt(fmt, j) == 'h' || CharAt(fmt, j) == 'l' then (CharAt(fmt, j), j + 1) else ('\0', j)
  }

  function ReadDirective(fmt: string, j: nat, args: Args, k: nat): Directive {
    var (f, j1) := ReadFlags(fmt, j, NO_FLAGS);
    var (w, f2, j2, k2) := ReadWidth(fmt, j1, args, k, f);
    var (p, j3, k3) := ReadPrecision(fmt, j2, args, k2);
    var (q, j4) := ReadQualifier(fmt, j3);
    Directive(f2, w, p, q, j4, k3)
  }

  lemma {:induction false} AtoiAdvances(fmt: string, j: nat, i: nat)
    requires j <= |fmt|
    ensures j <= Atoi(fmt, j, i).1 <= |fmt|
    decreases |fmt| - j
  {
    if j < |fmt| && IsDigit(fmt[j]) { AtoiAdvances(fmt, j + 1, i * 10 + (fmt[j] as int - '0' as int)); }
  }

  lemma {:induction false} FlagsAdvance(fmt: string, j: nat, f: Flags)
    requires j <= |fmt|
    ensures j <= ReadFlags(fmt, j, f).1 <= |fmt|
    decreases |fmt| - j
  {
    if j < |fmt| {
      if fmt[j] == '-' { FlagsAdvance(fmt, j + 1, f.(left := true)); }
      else if fmt[j] == '+' { FlagsAdvance(fmt, j + 1, f.(plus := true)); }
      else if fmt[j] == ' ' { FlagsAdvance(fmt, j + 1, f.(space := true)); }
      else if fmt[j] == '#' { FlagsAdvance(fmt, j + 1, f.(special := true)); }
      else if fmt[j] == '0' { FlagsAdvance(fmt, j + 1, f.(zeropad := true)); }
    }
  }

  /** A directive is read forward and never past the end of the format. */
  lemma DirectiveAdvances(fmt: string, j: nat, args: Args, k: nat)
    requires j <= |fmt|
    ensures j <= ReadDirective(fmt, j, args, k).at <= |fmt|
  {
    FlagsAdvance(fmt, j, NO_FLAGS);
    var (f, j1) := ReadFlags(fmt, j, NO_FLAGS);
    AtoiAdvances(fmt, j1, 0);
    var (w, f2, j2, k2) := ReadWidth(fmt, j1, args, k, f);
    if j2 < |fmt| { AtoiAdvances(fmt, j2 + 1, 0); }
  }

  // ---------- conversions ----------

  function CharText(c: char, d: Directive): string {
    if d.flags.left then [c] + Repeat(' ', d.width - 1) else Repeat(' ', d.width - 1) + [c]
  }

  /** The string printed for a %s argument: a positive precision cuts it. */
  function Cut(t: Text, precision: int): string {
    var s := if t == NullText then "(NULL)" else t.s;
    if 0 < precision < |s| then s[..precision] else s
  }

  function StringText(t: Text, d: Directive): string {
    var s := Cut(t, d.precision);
    if d.flags.left then s + Repeat(' ', d.width - |s|) else Repeat(' ', d.width - |s|) + s
  }

  function PointerText(w: Word, d: Directive): string {
    if d.width == -1 then NumberText(w, 16, 8, d.precision, d.flags.(zeropad := true))
    else NumberText(w, 16, d.width, d.precision, d.flags)
  }

  /** The word after the conversions the qualifier asks for. */
  function Qualified(w: Word, qualifier: char, sign: bool): Word {
    if qualifier != 'h' then w
    else
      var h := w % 0x1_0000;
      if sign && h >= 0x8000 then h + 0xffff_0000 else h
  }

  function IntegerFlags(conv: char, f: Flags): Flags {
    f.(large := f.large || conv == 'X', sign := f.sign || conv == 'd' || conv == 'i')
  }

  function IntegerBase(conv: char): nat {
    if conv == 'o' then 8 else if conv == 'x' || conv == 'X' then 16 else 10
  }

  function IntegerText(w: Word, conv: char, d: Directive): string {
    var f := IntegerFlags(conv, d.flags);
    NumberText(Qualified(w, d.qualifier, f.sign), IntegerBase(conv), d.width, d.precision, f)
  }

  predicate IsInteger(conv: char) {
    conv == 'o' || conv == 'x' || conv == 'X' || conv == 'd' || conv == 'i' || conv == 'u'
  }

  /** Text of one directive and the number of the next argument. */
  function Convert(fmt: string, d: Directive, args: Args): (string, nat) {
    var conv := CharAt(fmt, d.at);
    if conv == 'c' then (CharText((args(d.next).word % 256) as char, d), d.next + 1)
    else if conv == 's' then (StringText(args(d.next).text, d), d.next + 1)
    else if conv == 'p' then (PointerText(args(d.next).word, d), d.next + 1)
    else if conv == '%' then ("%", d.next)
    else if IsInteger(conv) then (IntegerText(args(d.next).word, conv, d), d.next + 1)
    else if conv == '\0' then ("%", d.next)
    else ("%" + [conv], d.next)
  }

  /** The text for `fmt` from character `i` on, arguments from `k` on. */
  function Format(fmt: string, i: nat, args: Args, k: nat): string
    decreases |fmt| - i
  {
    if i >= |fmt| then ""
    else if fmt[i] != '%' then [fmt[i]] + Format(fmt, i + 1, args, k)
    else
      var d := ReadDirective(fmt, i + 1, args, k);
      DirectiveAdvances(fmt, i + 1, args, k);
      var (t, k') := Convert(fmt, d, args);
      if d.at >= |fmt| then t else t + Format(fmt, d.at + 1, args, k')
  }

  // ---------- what the text is ----------

  /** The number a string of decimal digits stands for. */
  function Value(s: string): int {
    if s == "" then 0 else Value(s[..|s| - 1]) * 10 + (s[|s| - 1] as int - '0' as int)
  }

  lemma {:induction false} DigitsValue(n: nat)
    ensures Value(Digits(n, 10, false)) == n
    ensures forall i :: 0 <= i < |Digits(n, 10, false)| ==> IsDigit(Digits(n, 10, false)[i])
    decreases n
  {
    if n / 10 == 0 {
      var s := [DigitChar(n, false)];
      assert s[..0] == "";
    } else {
      DigitsValue(n / 10);
      var t := Digits(n / 10, 10, false);
      var s := t + [DigitChar(n % 10, false)];
      assert s[..|s| - 1] == t;
    }
  }

  /** Reading a %d number back gives the signed argument. */
  lemma DecimalRoundTrip(num: Word)
    ensures var t := NumberText(num, 10, -1, -1, NO_FLAGS.(sign := true));
      && t != ""
      && (if t[0] == '-' then -Value(t[1..]) else Value(t)) == SignedWord(num)
  {
    var f := NO_FLAGS.(sign := true);
    var d := Digits(Magnitude(num, f), 10, false);
    DigitsValue(Magnitude(num, f));
    PlainNumber(SignText(num, f), d);
    var t := NumberText(num, 10, -1, -1, f);
    assert t == SignText(num, f) + d;
    if SignedWord(num) < 0 {
      assert t[1..] == d;
    } else {
      assert t == d && IsDigit(d[0]);
    }
  }

  lemma PlainNumber(sign: string, d: string)
    ensures "" + sign + ("" + d) + "" == sign + d
  {
    assert "" + sign == sign && "" + d == d;
  }

  /** A number is at least as wide as asked for, except that precision 0 leaves out the digits: the text has
      the width of the field without them. */
  lemma NumberWidth(num: Word, base: nat, width: int, precision: int, f: Flags)
    ensures var full := Max(width, |SignText(num, f)| + BodyWidth(num, base, precision, f));
      |NumberText(num, base, width, precision, f)| ==
        if precision != 0 then full else full - |Digits(Magnitude(num, f), base, f.large)|
  {
  }

  /** A 32-bit number never has more than 10 digits, so it fits the 16 characters print_number has for it. */
  lemma DigitsFit(n: Word, base: nat, large: bool)
    ensures |Digits(n, base, large)| <= 10
  {
    assert Pow10(10) == 10 * Pow10(9) == 100 * Pow10(8) == 1000 * Pow10(7) == 10000 * Pow10(6) == 100000 * Pow10(5);
    assert Pow10(5) == 10 * Pow10(4) == 100 * Pow10(3) == 1000 * Pow10(2) == 10000 * Pow10(1) == 100000;
    DigitsBound(n, base, large, 10);
  }

  function Pow10(k: nat): nat {
    if k == 0 then 1 else 10 * Pow10(k - 1)
  }

  lemma {:induction false} DigitsBound(n: nat, base: nat, large: bool, k: nat)
    requires k > 0 && n < Pow10(k)
    ensures |Digits(n, base, large)| <= k
  {
    assert Pow10(k) == 10 * Pow10(k - 1) && (k == 1 ==> n < 10);
    if OtherDigits(n, base) != 0 { DigitsBound(OtherDigits(n, base), base, large, k - 1); }
  }

  // ---------- what the text is not ----------

  /** A precision limits a string exactly when it is positive, or there is nothing to cut. */
  lemma CutsIff(t: Text, precision: int)
    requires precision >= 0
    ensures |Cut(t, precision)| <= precision <==> precision > 0 || t == CString("")
  {
  }

  /** `%.0s` of "a" is printed whole. */
  lemma NotCut(args: Args)
    requires args(0).text == CString("a")
    ensures Format("%.0s", 0, args, 0) == "a"
  {
    var d := ReadDirective("%.0s", 1, args, 0);
    assert ReadFlags("%.0s", 1, NO_FLAGS) == (NO_FLAGS, 1);
    assert Atoi("%.0s", 3, 0) == (0, 3);
    assert Atoi("%.0s", 2, 0) == (0, 3);
    assert d == Directive(NO_FLAGS, -1, 0, '\0', 3, 0);
    assert StringText(CString("a"), d) == Repeat(' ', -2) + "a" == "a";
    assert Convert("%.0s", d, args) == ("a", 1);
    assert Format("%.0s", 4, args, 1) == "";
  }

  /** The octal digits of `n`, most significant first. */
  function Octal(n: nat, large: bool): (s: string)
    ensures |s| > 0 && (n >= 8 ==> |s| > 1)
  {
    var c := DigitChar(n % 8, large);
    if n / 8 == 0 then [c] else Octal(n / 8, large) + [c]
  }

  /** Digits that read the same in base 16 and in base 8 stand for at least as much in base 16. */
  lemma {:induction false} HexAtLeast(m: nat, n: nat, large: bool)
    requires Digits(m, 8, large) == Octal(n, large)
    ensures m >= n
    decreases n
  {
    var s := Octal(n, large);
    SameDigit(m % 16, n % 8, large);
    assert Digits(m, 8, large)[|s| - 1] == DigitChar(m % 16, large);
    assert s[|s| - 1] == DigitChar(n % 8, large);
    if n / 8 != 0 {
      assert s[..|s| - 1] == Octal(n / 8, large);
      assert m / 16 != 0 && Digits(m, 8, large)[..|s| - 1] == Digits(m / 16, 8, large);
      HexAtLeast(m / 16, n / 8, large);
    }
  }

  lemma SameDigit(a: nat, b: nat, large: bool)
    requires a < 16 && b < 16
    ensures DigitChar(a, large) == DigitChar(b, large) <==> a == b
  {
  }

  /** The digits %o prints are octal digits only of a number below 8: every base but 10 is taken for 16. */
  lemma OctalIff(n: nat, large: bool)
    ensures Digits(n, IntegerBase('o'), large) == Octal(n, large) <==> n < 8
  {
    if n >= 8 && Digits(n, 8, large) == Octal(n, large) {
      var s := Octal(n, large);
      assert s[..|s| - 1] == Octal(n / 8, large);
      assert n / 16 != 0;
      assert Digits(n, 8, large)[..|s| - 1] == Digits(n / 16, 8, large);
      assert n / 16 < n / 8;
      HexAtLeast(n / 16, n / 8, large);
    }
  }

  /** A format without a percent sign is printed as it is. */
  lemma {:induction false} PlainText(fmt: string, i: nat, args: Args, k: nat)
    requires '%' !in fmt && i <= |fmt|
    ensures Format(fmt, i, args, k) == fmt[i..]
    decreases |fmt| - i
  {
    if i < |fmt| {
      assert fmt[i] in fmt;
      PlainText(fmt, i + 1, args, k);
    }
  }
}
