/** rt_vsnprintf and print_number (rt-thread/src/kservice.c): every character is counted, and stored as long as
    there is room. */
module Format {
  import opened FormatSpec

  /** The output buffer: `str` is the next position, `end` the first that must not be written. */
  class Output {
    const buf: array<char>
    const end: nat
    var str: nat
    ghost var text: string
    ghost const start: seq<char>

    /** The text so far is counted in full, stored up to `end`, and nothing else has been touched. */
    ghost predicate Valid()
      reads this, buf
    {
      && end <= buf.Length == |start| && str == |text|
      && forall i :: 0 <= i < buf.Length ==> buf[i] == if i < end && i < str then text[i] else start[i]
    }

    constructor (b: array<char>, size: nat)
      requires size <= b.Length
      ensures Valid() && buf == b && end == size && text == "" && start == b[..]
    {
      buf, end, str, text, start := b, size, 0, "", b[..];
    }

    /** if (str < end) *str = c; ++ str; */
    method Put(c: char)
      requires Valid()
      modifies this, buf
      ensures Valid() && text == old(text) + [c]
    {
      if str < end {
        buf[str] := c;
      }
      str := str + 1;
      text := text + [c];
    }

    /** while (n-- > 0) for one character. */
    method Fill(c: char, n: int)
      requires Valid()
      modifies this, buf
      ensures Valid() && text == old(text) + Repeat(c, n)
    {
      var i := 0;
      assert text + Repeat(c, 0) == text;
      while i < n
        invariant Valid() && i >= 0 && (if n > 0 then i <= n else i == 0) && text == old(text) + Repeat(c, i)
      {
        Put(c);
        i := i + 1;
        assert old(text) + Repeat(c, i) == old(text) + Repeat(c, i - 1) + [c];
      }
      SameRepeat(c, i, n);
    }

    /** A loop over the characters of a string. */
    method Copy(s: string)
      requires Valid()
      modifies this, buf
      ensures Valid() && text == old(text) + s
    {
      var i := 0;
      while i < |s|
        invariant Valid() && 0 <= i <= |s| && text == old(text) + s[..i]
      {
        Put(s[i]);
        i := i + 1;
        assert s[..i] == s[..i - 1] + [s[i - 1]];
      }
      assert s[..i] == s;
    }

    /** %c */
    method PutChar(c: char, d: Directive)
      requires Valid()
      modifies this, buf
      ensures Valid() && text == old(text) + CharText(c, d)
    {
      ghost var t := text;
      if !d.flags.left {
        Fill(' ', d.width - 1);
      }
      Put(c);
      Cat(t, Repeat(' ', d.width - 1), [c]);
      Cat(t, [c], Repeat(' ', d.width - 1));
      if d.flags.left {
        Fill(' ', d.width - 1);
      }
    }

    /** %s */
    method PutString(a: Text, d: Directive)
      requires Valid()
      modifies this, buf
      ensures Valid() && text == old(text) + StringText(a, d)
    {
      ghost var t := text;
      var s := if a == NullText then "(NULL)" else a.s;
      var len := |s|;
      if d.precision > 0 && len > d.precision {
        len := d.precision;
      }
      if !d.flags.left {
        Fill(' ', d.width - len);
      }
      Copy(s[..len]);
      Cat(t, Repeat(' ', d.width - len), s[..len]);
      Cat(t, s[..len], Repeat(' ', d.width - len));
      if d.flags.left {
        Fill(' ', d.width - len);
      }
      assert s[..len] == Cut(a, d.precision);
    }

    /** The integer conversions: base, sign and case, and what the qualifier does to the argument. */
    method PutInteger(w: Word, conv: char, d: Directive)
      requires Valid() && IsInteger(conv)
      modifies this, buf
      ensures Valid() && text == old(text) + IntegerText(w, conv, d)
    {
      var base, flags := Setup(conv, d.flags);
      var num := Narrow(w, d.qualifier, flags.sign);
      PrintNumber(num, base, d.width, d.precision, flags);
    }

    /** print_number. The digits are found from the last to the first in a temporary array. */
    method PrintNumber(num: Word, base: nat, s: int, precision: int, f: Flags)
      requires Valid()
      modifies this, buf
      ensures Valid() && text == old(text) + NumberText(num, base, s, precision, f)
    {
      var sign := SignText(num, f);
      var n: nat := Magnitude(num, f);
      var tmp := new char[16];
      var i := ReverseDigits(n, base, f.large, tmp);
      ghost var d := Digits(n, base, f.large);
      ghost var t0 := text;
      var prec := if i > precision then i else precision;
      var size := PutFront(s - prec, sign, f);
      ghost var t1 := text;
      PutBody(tmp, i, prec - i, precision, d);
      ghost var t2 := text;
      Fill(' ', size);
      Printed(t0, t1, t2, text, num, base, s, precision, f, size);
    }

    /** Blanks, sign and zeros in front of the digits. */
    method PutFront(size: int, sign: string, f: Flags) returns (left: int)
      requires Valid() && |sign| <= 1
      modifies this, buf
      ensures Valid() && text == old(text) + Front(sign, size - |sign|, f)
      ensures if f.left then left == size - |sign| else left < 0
    {
      ghost var t := text;
      left := PutLead(size, sign, f);
      left := PutSign(left, sign, f);
      Cat(t, "", sign);
      Cat(t, "", sign + Repeat('0', size - |sign|));
      Cat(t, Repeat(' ', size - |sign|), sign);
      Cat(sign, "", "");
    }

    /** The zeros up to the precision, and the digits unless the precision is 0. */
    method PutBody(tmp: array<char>, n: nat, zeros: int, precision: int, ghost d: string)
      requires Valid() && n == |d| <= tmp.Length && tmp != buf
      requires zeros == precision - n || (zeros == 0 && precision <= n)
      requires tmp[..n] == Backwards(d)
      modifies this, buf
      ensures Valid() && text == old(text) + (Repeat('0', precision - n) + if precision != 0 then d else "")
    {
      ghost var t := text;
      Fill('0', zeros);
      SameRepeat('0', zeros, precision - n);
      ghost var z := Repeat('0', zeros);
      Cat(t, z, d);
      Cat(t, z, "");
      if precision != 0 {
        PutBackwards(tmp, n, d);
      }
    }

    /** Blanks in front of a number that is neither left justified nor padded with zeros. */
    method PutLead(size: int, sign: string, f: Flags) returns (left: int)
      requires Valid() && |sign| <= 1
      modifies this, buf
      ensures Valid() && text == old(text) + if f.zeropad || f.left then "" else Repeat(' ', size - |sign|)
      ensures if f.zeropad || f.left then left == size else left < 0
    {
      left := size;
      if !f.zeropad && !f.left {
        if sign != "" && left > 0 {
          left := left - 1;
        }
        Fill(' ', left);
        SameRepeat(' ', left, size - |sign|);
        left := if left > 0 then -1 else left - 1;
      }
    }

    /** The sign, and the padding behind it unless the number is left justified. */
    method PutSign(size: int, sign: string, f: Flags) returns (left: int)
      requires Valid() && (f.zeropad || f.left || size < 0)
      modifies this, buf
      ensures Valid() && text == old(text) + (sign + if f.zeropad && !f.left then Repeat('0', size - |sign|) else "")
      ensures if f.left then left == size - |sign| else left < 0
    {
      var c := if f.zeropad && !f.left then '0' else ' ';
      ghost var t := text;
      Copy(sign);
      left := size - |sign|;
      Cat(t, sign, Repeat(c, left));
      Cat(t, sign, "");
      if !f.left {
        Fill(c, left);
        left := if left > 0 then -1 else left - 1;
      }
    }

    /** Taking digits off the low end until nothing is left. */
    method ReverseDigits(num: Word, base: nat, large: bool, tmp: array<char>) returns (i: nat)
      requires tmp.Length == 16 && tmp != buf
      modifies tmp
      ensures i == |Digits(num, base, large)| <= 16 && tmp[..i] == Backwards(Digits(num, base, large))
    {
      var n: nat := num;
      DigitsFit(num, base, large);
      BackwardsLength(Digits(num, base, large));
      Peel(n, base, large);
      tmp[0] := DigitChar(LastDigit(n, base), large);
      n := OtherDigits(n, base);
      i := 1;
      while n != 0
        invariant 1 <= i && i + |Remaining(n, base, large)| <= 10
        invariant Backwards(Digits(num, base, large)) == tmp[..i] + Remaining(n, base, large)
        decreases n
      {
        Peel(n, base, large);
        PeelOff(tmp[..i], DigitChar(LastDigit(n, base), large), Remaining(OtherDigits(n, base), base, large));
        StoreDigit(tmp, i, DigitChar(LastDigit(n, base), large));
        n := OtherDigits(n, base);
        i := i + 1;
      }
    }

    method StoreDigit(tmp: array<char>, i: nat, c: char)
      requires i < tmp.Length
      modifies tmp
      ensures tmp[..i + 1] == old(tmp[..i]) + [c]
    {
      tmp[i] := c;
    }

    /** The digits from the temporary array, last one first. */
    method PutBackwards(tmp: array<char>, n: nat, ghost d: string)
      requires Valid() && n == |d| <= tmp.Length && tmp != buf && tmp[..n] == Backwards(d)
      modifies this, buf
      ensures Valid() && text == old(text) + d
    {
      var i := n;
      while i > 0
        invariant Valid() && 0 <= i <= n && text == old(text) + d[..n - i] && tmp[..n] == Backwards(d)
      {
        i := i - 1;
        BackwardsAt(d, i);
        assert tmp[i] == tmp[..n][i];
        Put(tmp[i]);
        assert d[..n - i] == d[..n - i - 1] + [d[n - 1 - i]];
      }
      assert d[..n] == d;
    }
  }

  /** Base and flags of the integer conversions. */
  method Setup(conv: char, f: Flags) returns (base: nat, flags: Flags)
    requires IsInteger(conv)
    ensures base == IntegerBase(conv) && flags == IntegerFlags(conv, f)
  {
    base, flags := 10, f;
    match conv {
      case 'o' => base := 8;
      case 'X' =>
        flags := flags.(large := true);
        base := 16;
      case 'x' => base := 16;
      case 'd' => flags := flags.(sign := true);
      case 'i' => flags := flags.(sign := true);
      case _ =>
    }
  }

  /** The casts to 16 bits for the qualifier h. */
  method Narrow(w: Word, qualifier: char, sign: bool) returns (num: Word)
    ensures num == Qualified(w, qualifier, sign)
  {
    num := w;
    if qualifier == 'h' {
      num := w % 0x1_0000;
      if sign && num >= 0x8000 {
        num := num + 0xffff_0000;
      }
    }
  }

  // ---------- reading a directive ----------

  method ScanFlags(fmt: string, j: nat) returns (f: Flags, at: nat)
    requires j <= |fmt|
    ensures (f, at) == ReadFlags(fmt, j, NO_FLAGS) && at <= |fmt|
  {
    f, at := NO_FLAGS, j;
    while at < |fmt|
      invariant j <= at <= |fmt| && ReadFlags(fmt, at, f) == ReadFlags(fmt, j, NO_FLAGS)
    {
      if fmt[at] == '-' {
        f := f.(left := true);
      } else if fmt[at] == '+' {
        f := f.(plus := true);
      } else if fmt[at] == ' ' {
        f := f.(space := true);
      } else if fmt[at] == '#' {
        f := f.(special := true);
      } else if fmt[at] == '0' {
        f := f.(zeropad := true);
      } else {
        break;
      }
      at := at + 1;
    }
  }

  /** skip_atoi */
  method SkipAtoi(fmt: string, j: nat) returns (i: nat, at: nat)
    requires j <= |fmt|
    ensures (i, at) == Atoi(fmt, j, 0) && at <= |fmt|
  {
    i, at := 0, j;
    while at < |fmt| && IsDigit(fmt[at])
      invariant at <= |fmt| && Atoi(fmt, at, i) == Atoi(fmt, j, 0)
    {
      i := i * 10 + (fmt[at] as int - '0' as int);
      at := at + 1;
    }
  }

  /** Flags, width, precision and qualifier. */
  method ScanDirective(fmt: string, j: nat, args: Args, k: nat) returns (d: Directive)
    requires j <= |fmt| && '\0' !in fmt
    ensures d == ReadDirective(fmt, j, args, k) && d.at <= |fmt|
  {
    var flags, at := ScanFlags(fmt, j);
    var width, precision, qualifier, next := -1, -1, '\0', k;
    if IsDigit(CharAt(fmt, at)) {
      width, at := SkipAtoi(fmt, at);
    } else if CharAt(fmt, at) == '*' {
      at := at + 1;
      width, next := SignedWord(args(next).word), next + 1;
      if width < 0 {
        width := -width;
        flags := flags.(left := true);
      }
    }
    if CharAt(fmt, at) == '.' {
      at := at + 1;
      if IsDigit(CharAt(fmt, at)) {
        precision, at := SkipAtoi(fmt, at);
      } else if CharAt(fmt, at) == '*' {
        at := at + 1;
        precision, next := SignedWord(args(next).word), next + 1;
      }
      if precision < 0 {
        precision := 0;
      }
    }
    if CharAt(fmt, at) == 'h' || CharAt(fmt, at) == 'l' {
      qualifier := CharAt(fmt, at);
      at := at + 1;
    }
    d := Directive(flags, width, precision, qualifier, at, next);
  }

  // ---------- the whole format ----------

  /** The case distinction on the conversion character; the number of the next argument. */
  method PutConversion(out: Output, fmt: string, d: Directive, args: Args) returns (next: nat)
    requires out.Valid() && d.at <= |fmt| && '\0' !in fmt
    modifies out, out.buf
    ensures out.Valid() && out.text == old(out.text) + Convert(fmt, d, args).0 && next == Convert(fmt, d, args).1
  {
    var conv := CharAt(fmt, d.at);
    next := d.next;
    if conv == 'c' {
      out.PutChar((args(next).word % 256) as char, d);
      next := next + 1;
    } else if conv == 's' {
      out.PutString(args(next).text, d);
      next := next + 1;
    } else if conv == 'p' {
      var width, flags := d.width, d.flags;
      if width == -1 {
        width, flags := 8, flags.(zeropad := true);
      }
      out.PrintNumber(args(next).word, 16, width, d.precision, flags);
      next := next + 1;
    } else if conv == '%' {
      out.Put('%');
    } else if IsInteger(conv) {
      out.PutInteger(args(next).word, conv, d);
      next := next + 1;
    } else {
      ghost var t := out.text;
      out.Put('%');
      if d.at < |fmt| {
        out.Put(conv);
        Cat(t, "%", [conv]);
      }
    }
  }

  /** rt_vsnprintf: the result is the length of the whole text; of a buffer of `size` > 0 characters the first
      characters get as much of the text as fits before a final NUL, and nothing else changes. */
  method VsnPrintf(buf: array<char>, size: nat, fmt: string, args: Args) returns (n: nat)
    requires size <= buf.Length && '\0' !in fmt
    modifies buf
    ensures var text := FormatSpec.Format(fmt, 0, args, 0);
      && n == |text|
      && (size == 0 ==> buf[..] == old(buf[..]))
      && (size > 0 ==>
           var m := if n < size then n else size - 1;
           && buf[..m] == text[..m] && buf[m] == '\0'
           && forall i :: m < i < buf.Length ==> buf[i] == old(buf[i]))
  {
    var out := new Output(buf, size);
    var i, k := 0, 0;
    while i < |fmt|
      invariant out.Valid() && out.buf == buf && out.end == size && out.start == old(buf[..]) && fresh(out)
      invariant FormatSpec.Format(fmt, 0, args, 0) == out.text + FormatSpec.Format(fmt, i, args, k)
      decreases |fmt| + 1 - i
    {
      i, k := Step(out, fmt, i, args, k);
    }
    n := out.str;
    Cat(out.text, "", "");
    Terminate(out);
  }

  /** One round of the loop: a plain character, or a directive. */
  method Step(out: Output, fmt: string, i: nat, args: Args, k: nat) returns (i': nat, k': nat)
    requires out.Valid() && i < |fmt| && '\0' !in fmt
    modifies out, out.buf
    ensures out.Valid() && i < i' <= |fmt| + 1
    ensures old(out.text) + FormatSpec.Format(fmt, i, args, k) == out.text + FormatSpec.Format(fmt, i', args, k')
  {
    ghost var t := out.text;
    if fmt[i] != '%' {
      out.Put(fmt[i]);
      i', k' := i + 1, k;
      Cat(t, [fmt[i]], FormatSpec.Format(fmt, i', args, k'));
    } else {
      DirectiveAdvances(fmt, i + 1, args, k);
      DirectiveStep(fmt, i, args, k);
      var d := ScanDirective(fmt, i + 1, args, k);
      k' := PutConversion(out, fmt, d, args);
      i' := d.at + 1;
      Cat(t, Convert(fmt, d, args).0, FormatSpec.Format(fmt, i', args, k'));
    }
  }

  lemma DirectiveStep(fmt: string, i: nat, args: Args, k: nat)
    requires i < |fmt| && fmt[i] == '%'
    ensures var d := ReadDirective(fmt, i + 1, args, k);
      var (t, k') := Convert(fmt, d, args);
      FormatSpec.Format(fmt, i, args, k) == t + FormatSpec.Format(fmt, d.at + 1, args, k')
  {
    Cat(Convert(fmt, ReadDirective(fmt, i + 1, args, k), args).0, "", "");
  }

  /** The final NUL. */
  method Terminate(out: Output)
    requires out.Valid()
    modifies out.buf
    ensures var n, size, buf := |out.text|, out.end, out.buf;
      && (size == 0 ==> buf[..] == out.start)
      && (size > 0 ==>
           var m := if n < size then n else size - 1;
           && buf[..m] == out.text[..m] && buf[m] == '\0'
           && forall i :: m < i < buf.Length ==> buf[i] == out.start[i])
  {
    if out.end > 0 {
      if out.str < out.end {
        out.buf[out.str] := '\0';
      } else {
        out.buf[out.end - 1] := '\0';
      }
    }
  }

  ghost function Backwards(s: string): string {
    if s == "" then "" else [s[|s| - 1]] + Backwards(s[..|s| - 1])
  }

  lemma {:induction false} BackwardsLength(s: string)
    ensures |Backwards(s)| == |s|
  {
    if s != "" { BackwardsLength(s[..|s| - 1]); }
  }

  lemma {:induction false} BackwardsAt(s: string, k: nat)
    requires k < |s|
    ensures |Backwards(s)| == |s| && Backwards(s)[k] == s[|s| - 1 - k]
  {
    BackwardsLength(s);
    if k > 0 { BackwardsAt(s[..|s| - 1], k - 1); }
  }

  /** The digits still to be found, last one first. */
  ghost function Remaining(n: nat, base: nat, large: bool): string {
    if n == 0 then "" else Backwards(Digits(n, base, large))
  }

  lemma Peel(n: nat, base: nat, large: bool)
    ensures Backwards(Digits(n, base, large)) == [DigitChar(LastDigit(n, base), large)] +
      Remaining(OtherDigits(n, base), base, large)
  {
    var c, m := DigitChar(LastDigit(n, base), large), OtherDigits(n, base);
    if m == 0 {
      assert [c][..0] == "";
    } else {
      var e := Digits(m, base, large);
      assert (e + [c])[..|e|] == e;
    }
  }

  lemma PeelOff(a: string, c: char, b: string)
    ensures a + ([c] + b) == (a + [c]) + b
  {
  }

  lemma SameRepeat(c: char, m: int, n: int)
    requires m == n || (m <= 0 && n <= 0)
    ensures Repeat(c, m) == Repeat(c, n)
  {
  }

  lemma Cat(a: string, b: string, c: string)
    ensures (a + b) + c == a + (b + c) && a + "" == a && "" + a == a
  {
    assert (a + b) + c == a + (b + c) && a + "" == a && "" + a == a;
  }

  lemma Parts(num: Word, base: nat, s: int, precision: int, f: Flags, pad: int)
    requires pad == s - BodyWidth(num, base, precision, f) - |SignText(num, f)|
    ensures NumberText(num, base, s, precision, f)
      == Front(SignText(num, f), pad, f) + NumberBody(num, base, precision, f) + Repeat(' ', if f.left then pad else 0)
  {
  }

  /** The text before a number, after its front, after its body, and after the `left` spaces behind it. */
  lemma Printed(t0: string, t1: string, t2: string, t3: string, num: Word, base: nat, s: int, precision: int, f: Flags,
                left: int)
    requires var pad := s - BodyWidth(num, base, precision, f) - |SignText(num, f)|;
      t1 == t0 + Front(SignText(num, f), pad, f) && if f.left then left == pad else left < 0
    requires t2 == t1 + NumberBody(num, base, precision, f) && t3 == t2 + Repeat(' ', left)
    ensures t3 == t0 + NumberText(num, base, s, precision, f)
  {
    var pad := s - BodyWidth(num, base, precision, f) - |SignText(num, f)|;
    SameRepeat(' ', left, if f.left then pad else 0);
    Parts(num, base, s, precision, f, pad);
    Join(t0, Front(SignText(num, f), pad, f), NumberBody(num, base, precision, f), Repeat(' ', left));
  }

  lemma Join(t: string, a: string, b: string, c: string)
    ensures t + a + b + c == t + (a + b + c)
  {
  }
}
