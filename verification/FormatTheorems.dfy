/** What the conversions of rt_vsnprintf print, said of the text for a whole format: how the parts of a directive are
    read, what the number or string printed stands for, and where it stands. */
module FormatTheorems {
  import opened FormatSpec

  // ---------- directives as they are spelled ----------

  /** The parts of a directive behind the percent sign. */
  datatype Spelled = Spelled(flags: string, width: string, precision: string, qualifier: string, conv: char)

  predicate IsFlag(c: char) {
    c == '-' || c == '+' || c == ' ' || c == '#' || c == '0'
  }

  predicate Digital(s: string) {
    forall i :: 0 <= i < |s| ==> IsDigit(s[i])
  }

  predicate IsConversion(c: char) {
    c == 'c' || c == 's' || c == 'p' || c == '%' || IsInteger(c)
  }

  /** Any flags, no width or a decimal one or a star, no precision or a decimal one or a star, h or l or neither. */
  predicate WellSpelled(p: Spelled) {
    && (forall i :: 0 <= i < |p.flags| ==> IsFlag(p.flags[i]))
    && (p.width == "*" || (Digital(p.width) && (p.width != "" ==> p.width[0] != '0')))
    && (p.precision == "" || p.precision == ".*" || (p.precision[0] == '.' && Digital(p.precision[1..])))
    && (p.qualifier == "" || p.qualifier == "h" || p.qualifier == "l")
    && IsConversion(p.conv)
  }

  function Spell(p: Spelled): string {
    "%" + (p.flags + (p.width + (p.precision + (p.qualifier + [p.conv]))))
  }

  /** Arguments a star takes. */
  function Star(s: string, star: string): nat {
    if s == star then 1 else 0
  }

  /** The number of the argument that is converted. */
  function ValueAt(p: Spelled, k: nat): nat {
    k + Star(p.width, "*") + Star(p.precision, ".*")
  }

  function Width(p: Spelled, args: Args, k: nat): int {
    if p.width == "" then -1
    else if p.width == "*" then var w := SignedWord(args(k).word); if w < 0 then -w else w
    else Value(p.width)
  }

  function Precision(p: Spelled, args: Args, k: nat): int {
    if p.precision == "" then -1
    else if p.precision == ".*" then Max(SignedWord(args(k + Star(p.width, "*")).word), 0)
    else Value(p.precision[1..])
  }

  /** Aligned to the left: by a minus sign, or a negative star. */
  predicate ToTheLeft(p: Spelled, args: Args, k: nat) {
    '-' in p.flags || (p.width == "*" && SignedWord(args(k).word) < 0)
  }

  function Qualifier(p: Spelled): char {
    if p.qualifier == "" then '\0' else p.qualifier[0]
  }

  function Asked(p: Spelled, args: Args, k: nat): Flags {
    Flags('0' in p.flags, false, '+' in p.flags, ' ' in p.flags, ToTheLeft(p, args, k), '#' in p.flags, false)
  }

  // ---------- reading a directive ----------

  function Joined(f: Flags, fl: string): Flags {
    f.(zeropad := f.zeropad || '0' in fl, plus := f.plus || '+' in fl, space := f.space || ' ' in fl,
       left := f.left || '-' in fl, special := f.special || '#' in fl)
  }

  lemma {:induction false} FlagsRead(fmt: string, j: nat, n: nat, f: Flags)
    requires j <= n < |fmt| && !IsFlag(fmt[n]) && forall i :: j <= i < n ==> IsFlag(fmt[i])
    ensures ReadFlags(fmt, j, f) == (Joined(f, fmt[j..n]), n)
    decreases n - j
  {
    if j < n {
      assert fmt[j..n] == [fmt[j]] + fmt[j + 1..n];
      FlagsRead(fmt, j + 1, n, Joined(f, [fmt[j]]));
    }
  }

  lemma {:induction false} AtoiRead(fmt: string, j: nat, m: nat, n: nat, i: nat)
    requires j <= m <= n <= |fmt| && Digital(fmt[j..n]) && (n < |fmt| ==> !IsDigit(fmt[n])) && i == Value(fmt[j..m])
    ensures Atoi(fmt, m, i) == (Value(fmt[j..n]), n)
    decreases n - m
  {
    if m < n {
      assert fmt[j..n][m - j] == fmt[m];
      assert fmt[j..m + 1][..m - j] == fmt[j..m];
      AtoiRead(fmt, j, m + 1, n, i * 10 + (fmt[m] as int - '0' as int));
    }
  }

  /** `part` stands in `fmt` from `j` on. */
  predicate Stands(fmt: string, j: nat, part: string) {
    j + |part| <= |fmt| && fmt[j..j + |part|] == part
  }

  ghost predicate ReadsWidth(fmt: string, j: nat, args: Args, k: nat, f: Flags, w: int, f': Flags, n: nat, k': nat) {
    ReadWidth(fmt, j, args, k, f) == (w, f', n, k')
  }

  ghost predicate ReadsPrecision(fmt: string, j: nat, args: Args, k: nat, r: int, n: nat, k': nat) {
    ReadPrecision(fmt, j, args, k) == (r, n, k')
  }

  ghost predicate ReadsQualifier(fmt: string, j: nat, q: char, n: nat) {
    ReadQualifier(fmt, j) == (q, n)
  }

  ghost predicate ReadsFlags(fmt: string, j: nat, f: Flags, n: nat) {
    ReadFlags(fmt, j, NO_FLAGS) == (f, n)
  }

  lemma WidthRead(fmt: string, j: nat, p: Spelled, args: Args, k: nat, f: Flags)
    requires WellSpelled(p) && Stands(fmt, j, p.width) && j + |p.width| < |fmt|
    requires var c := fmt[j + |p.width|]; !IsDigit(c) && c != '*'
    ensures ReadsWidth(fmt, j, args, k, f, Width(p, args, k),
                       f.(left := f.left || (p.width == "*" && SignedWord(args(k).word) < 0)), j + |p.width|,
                       k + Star(p.width, "*"))
  {
    if p.width == "*" {
      assert fmt[j] == fmt[j..j + 1][0];
    } else if p.width != "" {
      assert fmt[j] == fmt[j..j + |p.width|][0];
      assert fmt[j..j] == "";
      AtoiRead(fmt, j, j, j + |p.width|, 0);
    }
  }

  lemma PrecisionRead(fmt: string, j: nat, p: Spelled, args: Args, k: nat)
    requires WellSpelled(p) && Stands(fmt, j, p.precision) && j + |p.precision| < |fmt|
    requires var c := fmt[j + |p.precision|]; !IsDigit(c) && c != '*' && c != '.'
    ensures ReadsPrecision(fmt, j, args, k + Star(p.width, "*"), Precision(p, args, k), j + |p.precision|,
                           ValueAt(p, k))
  {
    if p.precision != "" {
      var n := j + |p.precision|;
      assert fmt[j] == fmt[j..n][0];
      if p.precision == ".*" {
        assert fmt[j + 1] == fmt[j..n][1];
      } else {
        assert fmt[j + 1..n] == p.precision[1..];
        assert fmt[j + 1..j + 1] == "";
        if j + 1 < n { assert fmt[j + 1] == p.precision[1..][0]; }
        AtoiRead(fmt, j + 1, j + 1, n, 0);
      }
    }
  }

  /** The parts of a directive stand behind each other from `a` on. */
  ghost predicate PartsAt(fmt: string, a: nat, p: Spelled) {
    var b := a + |p.flags|; var c := b + |p.width|; var d := c + |p.precision|; var e := d + |p.qualifier|;
    && Stands(fmt, a, p.flags) && Stands(fmt, b, p.width) && Stands(fmt, c, p.precision) && Stands(fmt, d, p.qualifier)
    && e < |fmt| && fmt[e] == p.conv
  }

  /** Where the parts of a directive stand. */
  lemma PartsStand(fmt: string, pre: string, p: Spelled, rest: string)
    requires fmt == pre + Spell(p) + rest
    ensures Stands(fmt, |pre|, "%") && PartsAt(fmt, |pre| + 1, p)
  {
    Behead(fmt, pre, Spell(p), rest);
    FiveStand(fmt, |pre|, p.flags, p.width, p.precision, p.qualifier, p.conv, rest);
  }

  lemma Behead(fmt: string, pre: string, s: string, rest: string)
    requires fmt == pre + s + rest
    ensures fmt[|pre|..] == s + rest
  {
  }

  lemma FiveStand(fmt: string, j: nat, fl: string, w: string, pr: string, q: string, conv: char, rest: string)
    requires j <= |fmt| && fmt[j..] == "%" + (fl + (w + (pr + (q + [conv])))) + rest
    ensures var a := j + 1; var b := a + |fl|; var c := b + |w|; var d := c + |pr|; var e := d + |q|;
      && Stands(fmt, j, "%") && Stands(fmt, a, fl) && Stands(fmt, b, w) && Stands(fmt, c, pr) && Stands(fmt, d, q)
      && e < |fmt| && fmt[e] == conv
  {
    Peel(fmt, j, "%", fl + (w + (pr + (q + [conv]))), rest);
    Peel(fmt, j + 1, fl, w + (pr + (q + [conv])), rest);
    Peel(fmt, j + 1 + |fl|, w, pr + (q + [conv]), rest);
    Peel(fmt, j + 1 + |fl| + |w|, pr, q + [conv], rest);
    Peel(fmt, j + 1 + |fl| + |w| + |pr|, q, [conv], rest);
  }

  lemma Peel(fmt: string, j: nat, part: string, tail: string, rest: string)
    requires j <= |fmt| && fmt[j..] == part + tail + rest
    ensures Stands(fmt, j, part) && fmt[j + |part|..] == tail + rest
    ensures tail != "" ==> j + |part| < |fmt| && fmt[j + |part|] == tail[0]
  {
    assert fmt[j..][..|part|] == part && fmt[j..][|part|..] == tail + rest;
  }

  /** The first characters behind the flags, the width, the precision and the qualifier. */
  lemma FirstChars(fmt: string, a: nat, p: Spelled)
    requires WellSpelled(p) && PartsAt(fmt, a, p)
    ensures var b := a + |p.flags|; var c := b + |p.width|; var d := c + |p.precision|;
      && !IsFlag(fmt[b]) && !IsDigit(fmt[c]) && fmt[c] != '*'
      && !IsDigit(fmt[d]) && fmt[d] != '*' && fmt[d] != '.'
      && ReadsQualifier(fmt, d, Qualifier(p), d + |p.qualifier|)
  {
    var b := a + |p.flags|;
    var c := b + |p.width|;
    var d := c + |p.precision|;
    QualifierRead(fmt, d, p);
    if p.precision != "" { FirstOf(fmt, c, p.precision); }
    if p.width != "" { FirstOf(fmt, b, p.width); }
  }

  lemma QualifierRead(fmt: string, d: nat, p: Spelled)
    requires WellSpelled(p) && Stands(fmt, d, p.qualifier)
    requires d + |p.qualifier| < |fmt| && fmt[d + |p.qualifier|] == p.conv
    ensures !IsFlag(fmt[d]) && !IsDigit(fmt[d]) && fmt[d] != '*' && fmt[d] != '.'
    ensures ReadsQualifier(fmt, d, Qualifier(p), d + |p.qualifier|)
  {
    if p.qualifier != "" { FirstOf(fmt, d, p.qualifier); }
  }

  lemma FirstOf(fmt: string, j: nat, part: string)
    requires Stands(fmt, j, part) && part != ""
    ensures fmt[j] == part[0]
  {
    assert fmt[j] == fmt[j..j + |part|][0];
  }

  lemma AllFlags(fmt: string, a: nat, p: Spelled)
    requires WellSpelled(p) && Stands(fmt, a, p.flags) && a + |p.flags| < |fmt| && !IsFlag(fmt[a + |p.flags|])
    ensures ReadsFlags(fmt, a, Joined(NO_FLAGS, p.flags), a + |p.flags|)
  {
    var b := a + |p.flags|;
    forall i | a <= i < b ensures IsFlag(fmt[i]) { assert fmt[i] == fmt[a..b][i - a]; }
    FlagsRead(fmt, a, b, NO_FLAGS);
  }

  /** Any directive is read as it is spelled. */
  lemma DirectiveRead(fmt: string, pre: string, p: Spelled, rest: string, args: Args, k: nat)
    requires WellSpelled(p) && fmt == pre + Spell(p) + rest
    ensures ReadDirective(fmt, |pre| + 1, args, k) ==
      Directive(Asked(p, args, k), Width(p, args, k), Precision(p, args, k), Qualifier(p), |pre| + |Spell(p)| - 1,
                ValueAt(p, k))
  {
    PartsStand(fmt, pre, p, rest);
    PartsInOrder(fmt, |pre| + 1, p, args, k);
  }

  lemma PartsInOrder(fmt: string, a: nat, p: Spelled, args: Args, k: nat)
    requires WellSpelled(p) && PartsAt(fmt, a, p)
    ensures ReadDirective(fmt, a, args, k) ==
      Directive(Asked(p, args, k), Width(p, args, k), Precision(p, args, k), Qualifier(p), a + |Spell(p)| - 2,
                ValueAt(p, k))
  {
    var b := a + |p.flags|;
    var c := b + |p.width|;
    var d := c + |p.precision|;
    PartsRead(fmt, a, p, args, k);
    OrderRead(fmt, a, p, args, k, b, c, d, d + |p.qualifier|);
  }

  /** The parts of a directive are read one after the other. */
  ghost predicate ReadInOrder(fmt: string, a: nat, p: Spelled, args: Args, k: nat, b: nat, c: nat, d: nat, e: nat) {
    && ReadsFlags(fmt, a, Joined(NO_FLAGS, p.flags), b)
    && ReadsWidth(fmt, b, args, k, Joined(NO_FLAGS, p.flags), Width(p, args, k), Asked(p, args, k), c,
                  k + Star(p.width, "*"))
    && ReadsPrecision(fmt, c, args, k + Star(p.width, "*"), Precision(p, args, k), d, ValueAt(p, k))
    && ReadsQualifier(fmt, d, Qualifier(p), e)
  }

  lemma PartsRead(fmt: string, a: nat, p: Spelled, args: Args, k: nat)
    requires WellSpelled(p) && PartsAt(fmt, a, p)
    ensures var b := a + |p.flags|; var c := b + |p.width|; var d := c + |p.precision|;
      ReadInOrder(fmt, a, p, args, k, b, c, d, d + |p.qualifier|)
  {
    var b := a + |p.flags|;
    FirstChars(fmt, a, p);
    AllFlags(fmt, a, p);
    WidthRead(fmt, b, p, args, k, Joined(NO_FLAGS, p.flags));
    PrecisionRead(fmt, b + |p.width|, p, args, k);
  }

  lemma OrderRead(fmt: string, a: nat, p: Spelled, args: Args, k: nat, b: nat, c: nat, d: nat, e: nat)
    requires ReadInOrder(fmt, a, p, args, k, b, c, d, e)
    ensures ReadDirective(fmt, a, args, k) ==
      Directive(Asked(p, args, k), Width(p, args, k), Precision(p, args, k), Qualifier(p), e, ValueAt(p, k))
  {
    InOrder(fmt, a, args, k, Joined(NO_FLAGS, p.flags), b, Width(p, args, k), Asked(p, args, k), c,
            k + Star(p.width, "*"), Precision(p, args, k), d, ValueAt(p, k), Qualifier(p), e);
  }

  lemma InOrder(fmt: string, a: nat, args: Args, k: nat, f: Flags, b: nat, w: int, f': Flags, c: nat, k': nat, r: int,
                d: nat, k'': nat, q: char, e: nat)
    requires ReadsFlags(fmt, a, f, b) && ReadsWidth(fmt, b, args, k, f, w, f', c, k')
    requires ReadsPrecision(fmt, c, args, k', r, d, k'') && ReadsQualifier(fmt, d, q, e)
    ensures ReadDirective(fmt, a, args, k) == Directive(f', w, r, q, e, k'')
  {
  }

  // ---------- directives in turn ----------

  /** The directive at `i` is read as `d`, and prints `t`. */
  ghost predicate ReadsAs(fmt: string, i: nat, args: Args, k: nat, d: Directive) {
    ReadDirective(fmt, i + 1, args, k) == d
  }

  ghost predicate Converts(fmt: string, d: Directive, args: Args, t: string, k': nat) {
    Convert(fmt, d, args) == (t, k')
  }

  ghost predicate Prints(fmt: string, i: nat, args: Args, k: nat, text: string) {
    Format(fmt, i, args, k) == text
  }

  /** `rest` is the text of the format behind character `at`. */
  ghost predicate Behind(fmt: string, at: nat, args: Args, k: nat, rest: string) {
    if at < |fmt| then Prints(fmt, at + 1, args, k, rest) else rest == ""
  }

  /** One directive and the rest of the format. */
  lemma DirectiveAt(fmt: string, i: nat, d: Directive, t: string, k': nat, rest: string, args: Args, k: nat)
    requires i < |fmt| && fmt[i] == '%' && ReadsAs(fmt, i, args, k, d) && Converts(fmt, d, args, t, k')
    requires Behind(fmt, d.at, args, k', rest)
    ensures Prints(fmt, i, args, k, t + rest)
  {
    DirectiveAdvances(fmt, i + 1, args, k);
    AddNothing(t);
  }

  lemma AddNothing(s: string)
    ensures s + "" == s
  {
  }

  /** Text of the format from character `j` on is the text of the rest of the format by itself. */
  ghost predicate Shifted(pre: string, fmt: string, j: nat, args: Args, k: nat) {
    Format(pre + fmt, |pre| + j, args, k) == Format(fmt, j, args, k)
  }

  lemma {:induction false} Shift(pre: string, fmt: string, j: nat, args: Args, k: nat)
    requires j <= |fmt|
    ensures Shifted(pre, fmt, j, args, k)
    decreases |fmt| - j
  {
    if j < |fmt| {
      if fmt[j] != '%' {
        Shift(pre, fmt, j + 1, args, k);
        ShiftPlain(pre, fmt, j, args, k);
      } else {
        var d, t, k' := DirectiveThere(fmt, j, args, k);
        if d.at < |fmt| { Shift(pre, fmt, d.at + 1, args, k'); }
        ShiftDirective(pre, fmt, j, d, t, k', args, k);
      }
    }
  }

  lemma DirectiveThere(fmt: string, j: nat, args: Args, k: nat) returns (d: Directive, t: string, k': nat)
    requires j < |fmt|
    ensures ReadsAs(fmt, j, args, k, d) && j < d.at <= |fmt| && Converts(fmt, d, args, t, k')
  {
    d := ReadDirective(fmt, j + 1, args, k);
    DirectiveAdvances(fmt, j + 1, args, k);
    t, k' := Convert(fmt, d, args).0, Convert(fmt, d, args).1;
  }

  lemma ShiftPlain(pre: string, fmt: string, j: nat, args: Args, k: nat)
    requires j < |fmt| && fmt[j] != '%' && Shifted(pre, fmt, j + 1, args, k)
    ensures Shifted(pre, fmt, j, args, k)
  {
    assert (pre + fmt)[|pre| + j] == fmt[j];
  }

  lemma ShiftDirective(pre: string, fmt: string, j: nat, d: Directive, t: string, k': nat, args: Args, k: nat)
    requires j < |fmt| && fmt[j] == '%' && ReadsAs(fmt, j, args, k, d) && Converts(fmt, d, args, t, k')
    requires d.at < |fmt| ==> Shifted(pre, fmt, d.at + 1, args, k')
    ensures Shifted(pre, fmt, j, args, k)
  {
    var rest := if d.at < |fmt| then Format(fmt, d.at + 1, args, k') else "";
    DirectiveAt(fmt, j, d, t, k', rest, args, k);
    BehindShift(pre, fmt, d.at, args, k', rest);
    ShiftedAt(pre, fmt, j, d, t, k', rest, args, k);
    SameText(pre, fmt, j, args, k, t + rest);
  }

  lemma ShiftedAt(pre: string, fmt: string, j: nat, d: Directive, t: string, k': nat, rest: string, args: Args, k: nat)
    requires Starts(fmt, j) && ReadsAs(fmt, j, args, k, d) && Converts(fmt, d, args, t, k')
    requires Behind(pre + fmt, |pre| + d.at, args, k', rest)
    ensures Prints(pre + fmt, |pre| + j, args, k, t + rest)
  {
    ThereShift(pre, fmt, j, d, t, k', args, k);
    PrintsThere(pre + fmt, |pre| + j, d.(at := |pre| + d.at), |pre| + d.at, t, k', rest, args, k);
  }

  lemma PrintsThere(fmt: string, i: nat, d: Directive, at: nat, t: string, k': nat, rest: string, args: Args, k: nat)
    requires Starts(fmt, i) && ReadsAs(fmt, i, args, k, d) && Converts(fmt, d, args, t, k')
    requires d.at == at && Behind(fmt, at, args, k', rest)
    ensures Prints(fmt, i, args, k, t + rest)
  {
    DirectiveAt(fmt, i, d, t, k', rest, args, k);
  }

  /** A directive starts at `i`. */
  ghost predicate Starts(fmt: string, i: nat) {
    i < |fmt| && fmt[i] == '%'
  }

  lemma ThereShift(pre: string, fmt: string, j: nat, d: Directive, t: string, k': nat, args: Args, k: nat)
    requires Starts(fmt, j) && ReadsAs(fmt, j, args, k, d) && Converts(fmt, d, args, t, k')
    ensures Starts(pre + fmt, |pre| + j) && ReadsAs(pre + fmt, |pre| + j, args, k, d.(at := |pre| + d.at))
    ensures Converts(pre + fmt, d.(at := |pre| + d.at), args, t, k')
  {
    DirectiveShift(pre, fmt, j + 1, args, k);
    ConvertShift(pre, fmt, d, args);
  }

  lemma SameText(pre: string, fmt: string, j: nat, args: Args, k: nat, text: string)
    requires Prints(fmt, j, args, k, text) && Prints(pre + fmt, |pre| + j, args, k, text)
    ensures Shifted(pre, fmt, j, args, k)
  {
  }

  lemma BehindShift(pre: string, fmt: string, at: nat, args: Args, k: nat, rest: string)
    requires Behind(fmt, at, args, k, rest)
    requires at < |fmt| ==> Shifted(pre, fmt, at + 1, args, k)
    ensures Behind(pre + fmt, |pre| + at, args, k, rest)
  {
  }

  lemma DirectiveShift(pre: string, fmt: string, j: nat, args: Args, k: nat)
    requires j <= |fmt|
    ensures var d := ReadDirective(fmt, j, args, k);
      ReadDirective(pre + fmt, |pre| + j, args, k) == d.(at := |pre| + d.at)
  {
    FlagsShift(pre, fmt, j, NO_FLAGS);
    FlagsAdvance(fmt, j, NO_FLAGS);
    var (f, b) := ReadFlags(fmt, j, NO_FLAGS);
    WidthShift(pre, fmt, b, args, k, f);
    var (w, f', c, k') := ReadWidth(fmt, b, args, k, f);
    PrecisionShift(pre, fmt, c, args, k');
    var (r, d, k'') := ReadPrecision(fmt, c, args, k');
    CharShift(pre, fmt, d);
    CharShift(pre, fmt, d + 1);
    var (q, e) := ReadQualifier(fmt, d);
    InOrder(pre + fmt, |pre| + j, args, k, f, |pre| + b, w, f', |pre| + c, k', r, |pre| + d, k'', q, |pre| + e);
  }

  lemma ConvertShift(pre: string, fmt: string, d: Directive, args: Args)
    ensures Convert(pre + fmt, d.(at := |pre| + d.at), args) == Convert(fmt, d, args)
  {
    CharShift(pre, fmt, d.at);
  }

  lemma CharShift(pre: string, fmt: string, j: nat)
    ensures CharAt(pre + fmt, |pre| + j) == CharAt(fmt, j)
  {
  }

  lemma WidthShift(pre: string, fmt: string, j: nat, args: Args, k: nat, f: Flags)
    requires j <= |fmt|
    ensures var (w, g, n, k') := ReadWidth(fmt, j, args, k, f);
      ReadWidth(pre + fmt, |pre| + j, args, k, f) == (w, g, |pre| + n, k') && n <= |fmt|
  {
    CharShift(pre, fmt, j);
    AtoiShift(pre, fmt, j, 0);
    AtoiAdvances(fmt, j, 0);
  }

  lemma PrecisionShift(pre: string, fmt: string, j: nat, args: Args, k: nat)
    requires j <= |fmt|
    ensures var (w, n, k') := ReadPrecision(fmt, j, args, k);
      ReadPrecision(pre + fmt, |pre| + j, args, k) == (w, |pre| + n, k')
  {
    CharShift(pre, fmt, j);
    CharShift(pre, fmt, j + 1);
    if j < |fmt| { AtoiShift(pre, fmt, j + 1, 0); }
  }

  lemma {:induction false} FlagsShift(pre: string, fmt: string, j: nat, f: Flags)
    requires j <= |fmt|
    ensures var (g, n) := ReadFlags(fmt, j, f); ReadFlags(pre + fmt, |pre| + j, f) == (g, |pre| + n)
    decreases |fmt| - j
  {
    if j < |fmt| {
      if fmt[j] == '-' { FlagsShift(pre, fmt, j + 1, f.(left := true)); }
      else if fmt[j] == '+' { FlagsShift(pre, fmt, j + 1, f.(plus := true)); }
      else if fmt[j] == ' ' { FlagsShift(pre, fmt, j + 1, f.(space := true)); }
      else if fmt[j] == '#' { FlagsShift(pre, fmt, j + 1, f.(special := true)); }
      else if fmt[j] == '0' { FlagsShift(pre, fmt, j + 1, f.(zeropad := true)); }
    }
  }

  lemma {:induction false} AtoiShift(pre: string, fmt: string, j: nat, i: nat)
    requires j <= |fmt|
    ensures var (v, n) := Atoi(fmt, j, i); Atoi(pre + fmt, |pre| + j, i) == (v, |pre| + n)
    decreases |fmt| - j
  {
    if j < |fmt| && IsDigit(fmt[j]) { AtoiShift(pre, fmt, j + 1, i * 10 + (fmt[j] as int - '0' as int)); }
  }

  /** Text of one directive, the arguments from `k` on. */
  function Printed(p: Spelled, args: Args, k: nat): string {
    Format(Spell(p), 0, args, k)
  }

  /** The number of the argument the next directive begins with. */
  function NextArg(p: Spelled, k: nat): nat {
    ValueAt(p, k) + if p.conv == '%' then 0 else 1
  }

  function AsRead(p: Spelled, args: Args, k: nat): Directive {
    Directive(Asked(p, args, k), Width(p, args, k), Precision(p, args, k),
              Qualifier(p), |Spell(p)| - 1, ValueAt(p, k))
  }

  lemma SameConversion(p: Spelled, fmt: string, args: Args, k: nat) returns (t: string)
    requires WellSpelled(p) && |Spell(p)| <= |fmt| && fmt[|Spell(p)| - 1] == p.conv
    ensures Converts(fmt, AsRead(p, args, k), args, t, NextArg(p, k))
    ensures Converts(Spell(p), AsRead(p, args, k), args, t, NextArg(p, k))
  {
    assert Spell(p)[|Spell(p)| - 1] == p.conv;
    t := Convert(fmt, AsRead(p, args, k), args).0;
  }

  /** Any directive at the front of a format is read as it is spelled. */
  lemma FrontRead(p: Spelled, rest: string, args: Args, k: nat)
    requires WellSpelled(p)
    ensures ReadsAs(Spell(p) + rest, 0, args, k, AsRead(p, args, k))
    ensures (Spell(p) + rest)[0] == '%' && (Spell(p) + rest)[|Spell(p)| - 1] == p.conv
  {
    assert Spell(p) + rest == "" + Spell(p) + rest;
    DirectiveRead(Spell(p) + rest, "", p, rest, args, k);
  }

  lemma Alone(p: Spelled, args: Args, k: nat) returns (t: string)
    requires WellSpelled(p)
    ensures Printed(p, args, k) == t && Converts(Spell(p), AsRead(p, args, k), args, t, NextArg(p, k))
  {
    AddNothing(Spell(p));
    FrontRead(p, "", args, k);
    t := SameConversion(p, Spell(p), args, k);
    EndBehind(Spell(p), |Spell(p)| - 1, args, NextArg(p, k));
    DirectiveAt(Spell(p), 0, AsRead(p, args, k), t, NextArg(p, k), "", args, k);
    PrintsAlone(p, args, k, t);
  }

  lemma PrintsAlone(p: Spelled, args: Args, k: nat, t: string)
    requires Prints(Spell(p), 0, args, k, t + "")
    ensures Printed(p, args, k) == t
  {
    AddNothing(t);
  }

  lemma EndBehind(fmt: string, at: nat, args: Args, k: nat)
    requires at + 1 >= |fmt|
    ensures Behind(fmt, at, args, k, "")
  {
  }

  /** Each directive prints what it prints by itself, and takes the next arguments: those for its stars, and one to
      convert unless it is %%. */
  lemma InTurn(p: Spelled, rest: string, args: Args, k: nat)
    requires WellSpelled(p)
    ensures Format(Spell(p) + rest, 0, args, k) == Printed(p, args, k) + Format(rest, 0, args, NextArg(p, k))
  {
    FollowedBy(p, rest, args, k, Printed(p, args, k), Format(rest, 0, args, NextArg(p, k)));
  }

  lemma FollowedBy(p: Spelled, rest: string, args: Args, k: nat, t: string, r: string)
    requires WellSpelled(p) && t == Printed(p, args, k) && Prints(rest, 0, args, NextArg(p, k), r)
    ensures Prints(Spell(p) + rest, 0, args, k, t + r)
  {
    FrontRead(p, rest, args, k);
    var t' := SameConversion(p, Spell(p) + rest, args, k);
    var t'' := Alone(p, args, k);
    RestBehind(Spell(p), rest, args, NextArg(p, k), r);
    DirectiveAt(Spell(p) + rest, 0, AsRead(p, args, k), t', NextArg(p, k), r, args, k);
  }

  lemma RestBehind(pre: string, rest: string, args: Args, k: nat, r: string)
    requires pre != "" && Prints(rest, 0, args, k, r)
    ensures Behind(pre + rest, |pre| - 1, args, k, r)
  {
    Shift(pre, rest, 0, args, k);
    if rest == "" { assert pre + rest == pre; }
  }

  // ---------- numbers ----------

  function DigitOf(c: char): int {
    if 'a' <= c <= 'f' then c as int - 'a' as int + 10
    else if 'A' <= c <= 'F' then c as int - 'A' as int + 10
    else c as int - '0' as int
  }

  /** One more digit in base 10 or 16. */
  function NextValue(v: int, d: int, base: nat): int {
    if base == 10 then 10 * v + d else 16 * v + d
  }

  /** The number the digits stand for in base 10 or 16. */
  function ValueIn(s: string, base: nat): int {
    if s == "" then 0 else NextValue(ValueIn(s[..|s| - 1], base), DigitOf(s[|s| - 1]), base)
  }

  /** A digit of the base, in the case asked for. */
  predicate IsDigitIn(c: char, base: nat, large: bool) {
    IsDigit(c) || (base == 16 && if large then 'A' <= c <= 'F' else 'a' <= c <= 'f')
  }

  /** Digits of the base without leading zeros. */
  ghost predicate IsNumeral(s: string, base: nat, large: bool) {
    && s != "" && (s[0] == '0' ==> s == "0")
    && forall i :: 0 <= i < |s| ==> IsDigitIn(s[i], base, large)
  }

  lemma {:induction false} DigitsNumeral(n: nat, base: nat, large: bool)
    ensures var b := if base == 10 then 10 else 16;
      IsNumeral(Digits(n, base, large), b, large) && ValueIn(Digits(n, base, large), b) == n
    ensures Digits(n, base, large) == "0" <==> n == 0
    decreases n
  {
    var b := if base == 10 then 10 else 16;
    var m, d := OtherDigits(n, base), LastDigit(n, base);
    OneDigit(d, base, large);
    if m != 0 {
      DigitsNumeral(m, base, large);
      OneMore(Digits(m, base, large), DigitChar(d, large), b, large);
    }
  }

  lemma OneDigit(d: nat, base: nat, large: bool)
    requires d < 16 && (base == 10 ==> d < 10)
    ensures var b, c := if base == 10 then 10 else 16, DigitChar(d, large);
      DigitOf(c) == d && IsNumeral([c], b, large) && ValueIn([c], b) == d && ([c] == "0" <==> d == 0)
  {
    assert [DigitChar(d, large)][..0] == "";
  }

  lemma OneMore(t: string, c: char, base: nat, large: bool)
    requires IsNumeral(t, base, large) && t != "0" && IsDigitIn(c, base, large)
    ensures IsNumeral(t + [c], base, large) && ValueIn(t + [c], base) == NextValue(ValueIn(t, base), DigitOf(c), base)
    ensures t + [c] != "0"
  {
    assert (t + [c])[..|t|] == t;
  }

  /** The parts of the text of a number. */
  datatype Layout = Layout(lead: nat, sign: string, zeros: nat, digits: string, trail: nat)

  function Laid(l: Layout): string {
    Repeat(' ', l.lead) + l.sign + Repeat('0', l.zeros) + l.digits + Repeat(' ', l.trail)
  }

  ghost predicate IsText(t: string, l: Layout) {
    t == Laid(l)
  }

  /** The digits are a numeral of the number `m`. */
  ghost predicate StandsFor(d: string, base: nat, large: bool, m: nat) {
    IsNumeral(d, base, large) && ValueIn(d, base) == m
  }

  /** The text is a number of magnitude `m` behind its sign, as wide as asked for: blanks on the left, or zeros behind
      the sign, or blanks on the right; and with as many digits as the precision asks for. */
  ghost predicate IsNumberText(t: string, sign: string, m: nat, base: nat, large: bool, width: int, precision: int,
                               left: bool, zeropad: bool) {
    exists l :: LaidAs(t, l, sign, m, base, large, width, precision, left, zeropad)
  }

  ghost predicate LaidAs(t: string, l: Layout, sign: string, m: nat, base: nat, large: bool, width: int,
                         precision: int, left: bool, zeropad: bool) {
    && IsText(t, l) && l.sign == sign && StandsFor(l.digits, base, large, m)
    && |t| == Max(width, |sign| + Max(precision, |l.digits|))
    && (left || zeropad ==> l.lead == 0) && (!left ==> l.trail == 0)
    && (left || !zeropad ==> l.zeros == Max(0, precision - |l.digits|))
  }

  lemma {:induction false} RepeatAdds(c: char, a: int, b: int)
    requires a >= 0
    ensures Repeat(c, a) + Repeat(c, b) == Repeat(c, if b > 0 then a + b else a)
  {
    if b > 0 { RepeatAdds(c, a, b - 1); }
  }

  /** The parts of a number `pad` characters narrower than its field. */
  function LayoutOf(sign: string, pad: int, zeros: int, d: string, f: Flags): Layout {
    var n, z := Max(0, pad), Max(0, zeros);
    Layout(if f.left || f.zeropad then 0 else n, sign, if !f.left && f.zeropad then n + z else z, d,
           if f.left then n else 0)
  }

  /** How much narrower than its field a number is. */
  function Padding(num: Word, base: nat, width: int, precision: int, f: Flags): int {
    width - BodyWidth(num, base, precision, f) - |SignText(num, f)|
  }

  function DigitsFor(num: Word, base: nat, f: Flags): string {
    Digits(Magnitude(num, f), base, f.large)
  }

  lemma NumberLaid(num: Word, base: nat, width: int, precision: int, f: Flags, t: string)
    requires precision != 0 && t == NumberText(num, base, width, precision, f)
    ensures IsNumberText(t, SignText(num, f), Magnitude(num, f), if base == 10 then 10 else 16, f.large, width,
                         precision, f.left, f.zeropad)
  {
    var b := if base == 10 then 10 else 16;
    DigitsStand(num, base, f);
    NumberIsLaid(num, base, width, precision, f, t);
    IsLaid(t, SignText(num, f), Magnitude(num, f), b, width, precision, Padding(num, base, width, precision, f),
           DigitsFor(num, base, f), f);
  }

  lemma DigitsStand(num: Word, base: nat, f: Flags)
    ensures StandsFor(DigitsFor(num, base, f), if base == 10 then 10 else 16, f.large, Magnitude(num, f))
  {
    DigitsNumeral(Magnitude(num, f), base, f.large);
  }

  /** The text of a number is the layout of its parts. */
  lemma NumberIsLaid(num: Word, base: nat, width: int, precision: int, f: Flags, t: string)
    requires precision != 0 && t == NumberText(num, base, width, precision, f)
    ensures var sign, d := SignText(num, f), DigitsFor(num, base, f);
      && IsText(t, LayoutOf(sign, Padding(num, base, width, precision, f), precision - |d|, d, f))
      && |t| == Max(width, |sign| + Max(precision, |d|))
  {
    var sign, d := SignText(num, f), DigitsFor(num, base, f);
    NumberWidth(num, base, width, precision, f);
    FrontLaid(sign, Padding(num, base, width, precision, f), precision - |d|, d, f);
  }

  lemma IsLaid(t: string, sign: string, m: nat, base: nat, width: int, precision: int, pad: int, d: string, f: Flags)
    requires IsText(t, LayoutOf(sign, pad, precision - |d|, d, f)) && StandsFor(d, base, f.large, m)
    requires |t| == Max(width, |sign| + Max(precision, |d|))
    ensures IsNumberText(t, sign, m, base, f.large, width, precision, f.left, f.zeropad)
  {
    assert LaidAs(t, LayoutOf(sign, pad, precision - |d|, d, f), sign, m, base, f.large, width, precision, f.left,
                  f.zeropad);
  }

  lemma FrontLaid(sign: string, pad: int, zeros: int, d: string, f: Flags)
    ensures Front(sign, pad, f) + (Repeat('0', zeros) + d) + Repeat(' ', if f.left then pad else 0) ==
      Laid(LayoutOf(sign, pad, zeros, d, f))
  {
    var n, z := Max(0, pad), Max(0, zeros);
    SameRepeat('0', zeros, z);
    SameRepeat(' ', pad, n);
    SameRepeat('0', pad, n);
    RepeatAdds('0', n, z);
    Assembled(sign, n, z, d, f);
  }

  lemma SameRepeat(c: char, m: int, n: int)
    requires m == n || (m <= 0 && n <= 0)
    ensures Repeat(c, m) == Repeat(c, n)
  {
  }

  lemma Assembled(sign: string, n: nat, z: nat, d: string, f: Flags)
    requires Repeat('0', n) + Repeat('0', z) == Repeat('0', if z > 0 then n + z else n)
    ensures Front(sign, n, f) + (Repeat('0', z) + d) + Repeat(' ', if f.left then n else 0) ==
      Laid(Layout(if f.left || f.zeropad then 0 else n, sign, if !f.left && f.zeropad then n + z else z, d,
                  if f.left then n else 0))
  {
    if f.left {
    } else if f.zeropad {
      assert sign + Repeat('0', n) + (Repeat('0', z) + d) == sign + (Repeat('0', n) + Repeat('0', z)) + d;
    } else {
    }
  }

  /** What an integer argument stands for: 16 bits of it for h, else all 32, two's complement for d and i. */
  function Meant(w: Word, p: Spelled): int {
    var m := if p.qualifier == "h" then 0x1_0000 else 0x1_0000_0000;
    if (p.conv == 'd' || p.conv == 'i') && w % m >= m / 2 then w % m - m else w % m
  }

  function SignFor(p: Spelled, v: int): string {
    if p.conv != 'd' && p.conv != 'i' then ""
    else if v < 0 then "-"
    else if '+' in p.flags then "+"
    else if ' ' in p.flags then " "
    else ""
  }

  function Abs(v: int): nat {
    if v < 0 then -v else v
  }

  /** The base a number is printed in: %o is printed in base 16 too. */
  function BaseFor(conv: char): nat {
    if conv == 'd' || conv == 'i' || conv == 'u' then 10 else 16
  }

  lemma MeantParts(w: Word, p: Spelled, f: Flags)
    requires WellSpelled(p) && IsInteger(p.conv) && !f.sign && f.plus == ('+' in p.flags) && f.space == (' ' in p.flags)
    ensures var g := IntegerFlags(p.conv, f);
      var num := Qualified(w, Qualifier(p), g.sign);
      SignText(num, g) == SignFor(p, Meant(w, p)) && Magnitude(num, g) == Abs(Meant(w, p))
  {
  }

  /** Every integer conversion, with any flags, width, precision but 0 and qualifier, prints the number its argument
      stands for, signed for d and i only, in its base and case, where the flags and the width ask for it. */
  lemma IntegerPrinted(p: Spelled, args: Args, k: nat)
    requires WellSpelled(p) && IsInteger(p.conv) && Precision(p, args, k) != 0
    ensures var v := Meant(args(ValueAt(p, k)).word, p);
      IsNumberText(Printed(p, args, k), SignFor(p, v), Abs(v), BaseFor(p.conv), p.conv == 'X', Width(p, args, k),
                   Precision(p, args, k), ToTheLeft(p, args, k), '0' in p.flags)
  {
    var t := Alone(p, args, k);
    var d := AsRead(p, args, k);
    var f := IntegerFlags(p.conv, d.flags);
    var w := args(d.next).word;
    MeantParts(w, p, d.flags);
    IntegerConverts(p, args, k, t);
    NumberLaid(Qualified(w, d.qualifier, f.sign), IntegerBase(p.conv), d.width, d.precision, f, t);
  }

  lemma IntegerConverts(p: Spelled, args: Args, k: nat, t: string)
    requires WellSpelled(p) && IsInteger(p.conv) && Converts(Spell(p), AsRead(p, args, k), args, t, NextArg(p, k))
    ensures t == IntegerText(args(ValueAt(p, k)).word, p.conv, AsRead(p, args, k))
  {
    assert Spell(p)[|Spell(p)| - 1] == p.conv;
  }

  /** With precision 0 the digits are left out; sign and blanks or zeros stay. */
  lemma DigitsLeftOut(p: Spelled, args: Args, k: nat)
    requires WellSpelled(p) && IsInteger(p.conv) && Precision(p, args, k) == 0
    ensures exists l ::
      && Printed(p, args, k) == Laid(l) && l.digits == "" && l.sign == SignFor(p, Meant(args(ValueAt(p, k)).word, p))
      && (ToTheLeft(p, args, k) ==> l.lead == 0 && l.zeros == 0) && (!ToTheLeft(p, args, k) ==> l.trail == 0)
      && ('0' in p.flags ==> l.lead == 0) && ('0' !in p.flags ==> l.zeros == 0)
  {
    var t := Alone(p, args, k);
    var d := AsRead(p, args, k);
    var f := IntegerFlags(p.conv, d.flags);
    var num := Qualified(args(d.next).word, d.qualifier, f.sign);
    MeantParts(args(d.next).word, p, d.flags);
    IntegerConverts(p, args, k, t);
    var sign, ds := SignText(num, f), Digits(Magnitude(num, f), IntegerBase(p.conv), f.large);
    var pad := d.width - BodyWidth(num, IntegerBase(p.conv), 0, f) - |sign|;
    FrontLaid(sign, pad, -|ds|, "", f);
    assert t == Laid(LayoutOf(sign, pad, -|ds|, "", f));
  }

  /** %p prints the address in base 16, by default with 8 digits. */
  lemma PointerPrinted(p: Spelled, args: Args, k: nat)
    requires WellSpelled(p) && p.conv == 'p' && Precision(p, args, k) != 0
    ensures IsNumberText(Printed(p, args, k), "", args(ValueAt(p, k)).word, 16, false,
                         if p.width == "" then 8 else Width(p, args, k), Precision(p, args, k),
                         ToTheLeft(p, args, k), '0' in p.flags || p.width == "")
  {
    var t := Alone(p, args, k);
    var d := AsRead(p, args, k);
    var w := args(d.next).word;
    assert Spell(p)[|Spell(p)| - 1] == p.conv;
    NotMinusOne(p, args, k);
    if d.width == -1 {
      NumberLaid(w, 16, 8, d.precision, d.flags.(zeropad := true), t);
    } else {
      NumberLaid(w, 16, d.width, d.precision, d.flags, t);
    }
  }

  lemma NotMinusOne(p: Spelled, args: Args, k: nat)
    requires WellSpelled(p)
    ensures Width(p, args, k) >= -1 && (Width(p, args, k) == -1 <==> p.width == "")
  {
    if p.width != "*" { ValueNatural(p.width); }
  }

  lemma {:induction false} ValueNatural(s: string)
    requires Digital(s)
    ensures Value(s) >= 0
  {
    if s != "" { ValueNatural(s[..|s| - 1]); }
  }

  // ---------- reading a number back ----------

  function SkipBlanks(s: string): string {
    if s != "" && s[0] == ' ' then SkipBlanks(s[1..]) else s
  }

  function DropBlanks(s: string): string {
    if s != "" && s[|s| - 1] == ' ' then DropBlanks(s[..|s| - 1]) else s
  }

  /** The number written in `t`: blanks around it, a sign in front of it. */
  function ReadInt(t: string, base: nat): int {
    var s := DropBlanks(SkipBlanks(t));
    if s == "" then 0
    else if s[0] == '-' then -ValueIn(s[1..], base)
    else if s[0] == '+' then ValueIn(s[1..], base)
    else ValueIn(s, base)
  }

  lemma {:induction false} SkipAll(n: nat, s: string)
    requires s != "" && s[0] != ' '
    ensures SkipBlanks(Repeat(' ', n) + s) == s
    decreases n
  {
    var t := Repeat(' ', n) + s;
    if n > 0 {
      RepeatAdds(' ', 1, n - 1);
      assert Repeat(' ', 1) == " ";
      assert t[1..] == Repeat(' ', n - 1) + s;
      SkipAll(n - 1, s);
    } else {
      assert t == s;
    }
  }

  lemma {:induction false} DropAll(s: string, n: nat)
    requires s != "" && s[|s| - 1] != ' '
    ensures DropBlanks(s + Repeat(' ', n)) == s
    decreases n
  {
    var t := s + Repeat(' ', n);
    if n > 0 {
      assert t[..|t| - 1] == s + Repeat(' ', n - 1);
      DropAll(s, n - 1);
    } else {
      assert t == s;
    }
  }

  lemma {:induction false} ZerosInFront(n: nat, s: string, base: nat)
    ensures ValueIn(Repeat('0', n) + s, base) == ValueIn(s, base)
    decreases |s|, n
  {
    var t := Repeat('0', n) + s;
    if s != "" {
      assert t[..|t| - 1] == Repeat('0', n) + s[..|s| - 1];
      ZerosInFront(n, s[..|s| - 1], base);
    } else if n > 0 {
      assert t[..|t| - 1] == Repeat('0', n - 1) + "";
      ZerosInFront(n - 1, "", base);
    }
  }

  lemma Trimmed(n: nat, s: string, m: nat)
    requires s != "" && s[0] != ' ' && s[|s| - 1] != ' '
    ensures DropBlanks(SkipBlanks(Repeat(' ', n) + (s + Repeat(' ', m)))) == s
  {
    SkipAll(n, s + Repeat(' ', m));
    DropAll(s, m);
  }

  /** Where the blanks around a number end. */
  lemma LaidAround(l: Layout)
    ensures var s := Repeat('0', l.zeros) + l.digits;
      Laid(l) == if l.sign == " " then Repeat(' ', l.lead + 1) + (s + Repeat(' ', l.trail))
                 else Repeat(' ', l.lead) + (l.sign + s + Repeat(' ', l.trail))
  {
    if l.sign == " " {
      RepeatAdds(' ', l.lead, 1);
      assert Repeat(' ', 1) == " ";
    }
  }

  /** The text of a number reads back to the number. */
  lemma LaidReads(l: Layout, base: nat, large: bool)
    requires IsNumeral(l.digits, base, large)
    requires l.sign == "" || l.sign == "-" || l.sign == "+" || l.sign == " "
    ensures ReadInt(Laid(l), base) == if l.sign == "-" then -ValueIn(l.digits, base) else ValueIn(l.digits, base)
  {
    var body := Repeat('0', l.zeros) + l.digits;
    ZerosInFront(l.zeros, l.digits, base);
    BodyEnds(l.zeros, l.digits, base, large);
    LaidAround(l);
    if l.sign == " " {
      Trimmed(l.lead + 1, body, l.trail);
    } else {
      Trimmed(l.lead, l.sign + body, l.trail);
      SignedReads(l.sign, body);
    }
  }

  lemma SignedReads(sign: string, body: string)
    requires body != "" && |sign| <= 1
    ensures (sign + body)[|sign|..] == body && (sign + body)[0] == if sign == "" then body[0] else sign[0]
    ensures sign == "" ==> sign + body == body
  {
  }

  lemma BodyEnds(n: nat, d: string, base: nat, large: bool)
    requires IsNumeral(d, base, large)
    ensures var s := Repeat('0', n) + d;
      s != "" && s[|s| - 1] != ' ' && s[0] != ' ' && s[0] != '-' && s[0] != '+'
  {
    if n > 0 { ZerosOnly('0', n, 0); }
  }

  lemma {:induction false} ZerosOnly(c: char, n: nat, i: nat)
    requires i < n
    ensures Repeat(c, n)[i] == c
  {
    if i < n - 1 { ZerosOnly(c, n - 1, i); }
  }

  /** Reading the text of an integer conversion gives the number its argument stands for. */
  lemma ReadsBack(p: Spelled, args: Args, k: nat)
    requires WellSpelled(p) && IsInteger(p.conv) && Precision(p, args, k) != 0
    ensures ReadInt(Printed(p, args, k), BaseFor(p.conv)) == Meant(args(ValueAt(p, k)).word, p)
  {
    var v := Meant(args(ValueAt(p, k)).word, p);
    IntegerPrinted(p, args, k);
    NumberReads(Printed(p, args, k), SignFor(p, v), v, BaseFor(p.conv), p.conv == 'X', Width(p, args, k),
                Precision(p, args, k), ToTheLeft(p, args, k), '0' in p.flags);
  }

  lemma NumberReads(t: string, sign: string, v: int, base: nat, large: bool, width: int, precision: int, left: bool,
                    zeropad: bool)
    requires IsNumberText(t, sign, Abs(v), base, large, width, precision, left, zeropad)
    requires sign == "" || sign == "-" || sign == "+" || sign == " "
    requires sign == "-" <==> v < 0
    ensures ReadInt(t, base) == v
  {
    var l :| LaidAs(t, l, sign, Abs(v), base, large, width, precision, left, zeropad);
    LaidReads(l, base, large);
  }

  // ---------- strings and characters ----------

  /** %s prints the string, or as much of it as a positive precision allows, at the right end of its field, or at the
      left end if it is aligned to the left; for NULL it prints (NULL). */
  lemma StringPrinted(p: Spelled, args: Args, k: nat)
    requires WellSpelled(p) && p.conv == 's'
    ensures var a, n := args(ValueAt(p, k)).text, Precision(p, args, k);
      var s := if a == NullText then "(NULL)" else a.s;
      var m := if 0 < n < |s| then n else |s|;
      var blanks := Repeat(' ', Width(p, args, k) - m);
      Printed(p, args, k) == if ToTheLeft(p, args, k) then s[..m] + blanks else blanks + s[..m]
  {
    var t := Alone(p, args, k);
    assert Spell(p)[|Spell(p)| - 1] == p.conv;
    var a := args(ValueAt(p, k)).text;
    var s := if a == NullText then "(NULL)" else a.s;
    assert s[..|s|] == s;
  }

  /** So does %c with the low byte of its argument. */
  lemma CharPrinted(p: Spelled, args: Args, k: nat)
    requires WellSpelled(p) && p.conv == 'c'
    ensures var c, blanks := (args(ValueAt(p, k)).word % 256) as char, Repeat(' ', Width(p, args, k) - 1);
      Printed(p, args, k) == if ToTheLeft(p, args, k) then [c] + blanks else blanks + [c]
  {
    var t := Alone(p, args, k);
    assert Spell(p)[|Spell(p)| - 1] == p.conv;
  }

  /** %% prints a percent sign, whatever stands between. */
  lemma PercentPrinted(p: Spelled, args: Args, k: nat)
    requires WellSpelled(p) && p.conv == '%'
    ensures Printed(p, args, k) == "%"
  {
    var t := Alone(p, args, k);
    assert Spell(p)[|Spell(p)| - 1] == p.conv;
  }

  /** The plain conversions. */
  lemma PlainConversions(args: Args)
    ensures ReadInt(Format("%d", 0, args, 0), 10) == ReadInt(Format("%i", 0, args, 0), 10) == SignedWord(args(0).word)
    ensures ReadInt(Format("%u", 0, args, 0), 10) == args(0).word
    ensures ReadInt(Format("%x", 0, args, 0), 16) == ReadInt(Format("%X", 0, args, 0), 16) == args(0).word
  {
    PlainConversion('d', args);
    PlainConversion('i', args);
    PlainConversion('u', args);
    PlainConversion('x', args);
    PlainConversion('X', args);
  }

  lemma PlainConversion(conv: char, args: Args)
    requires IsInteger(conv)
    ensures ReadInt(Format(['%', conv], 0, args, 0), BaseFor(conv)) ==
      if conv == 'd' || conv == 'i' then SignedWord(args(0).word) else args(0).word
  {
    var p := Spelled("", "", "", "", conv);
    PlainParts(p, conv, args);
    ReadsBack(p, args, 0);
    PlainSpelling(p, conv, args);
  }

  lemma PlainParts(p: Spelled, conv: char, args: Args)
    requires p == Spelled("", "", "", "", conv) && IsInteger(conv)
    ensures WellSpelled(p) && Precision(p, args, 0) == -1 && ValueAt(p, 0) == 0
    ensures Meant(args(0).word, p) == if conv == 'd' || conv == 'i' then SignedWord(args(0).word) else args(0).word
  {
  }

  lemma PlainSpelling(p: Spelled, conv: char, args: Args)
    requires p == Spelled("", "", "", "", conv)
    ensures Printed(p, args, 0) == Format(['%', conv], 0, args, 0)
  {
    assert Spell(p) == ['%', conv];
  }
}
