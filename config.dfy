/**
 * The daemon's configuration file and readConfigFile: the first line of
 * the file as `fgets` reads it into a 100-character buffer, scanned with
 * `sscanf(str, "%*s %d%*c %*s %d", &config[0], &config[1])`. The intended
 * contents are one line `sec: <seconds>, usec <microseconds>`; a file that
 * cannot be opened or has no line gives the defaults 30 s and 1 us, and a
 * field the scan cannot convert keeps the value the entry had before.
 */
module Config {
  import opened Opt

  /**
   * SBUF_SIZE: `fgets` stores at most 99 characters and the terminating NUL.
   * Throughout this module one `char` stands for one byte of the file, so the
   * lengths and the white-space class are those of the C library on bytes.
   */
  const BufferSize: nat := 100
  const DefaultSeconds: int := 30
  const DefaultMicros: int := 1

  // ---------------------------------------------------------------------
  // Character classes (the C locale)
  // ---------------------------------------------------------------------

  /** `isspace`: blank, tab, newline, vertical tab, form feed, carriage return. */
  predicate IsSpace(c: char) { c == ' ' || '\t' <= c <= '\r' }
  predicate NotSpace(c: char) { !IsSpace(c) }
  predicate IsDigit(c: char) { '0' <= c <= '9' }
  predicate NotNewline(c: char) { c != '\n' }
  predicate NotNul(c: char) { c != '\0' }

  /** The length of the longest prefix of `s` whose characters all satisfy `p`. */
  function Leading(s: string, p: char -> bool): (n: nat)
    ensures n <= |s|
  {
    if |s| > 0 && p(s[0]) then 1 + Leading(s[1..], p) else 0
  }

  /** Every character of the prefix satisfies `p`, and the one after it does not. */
  lemma {:induction false} LeadingSpan(s: string, p: char -> bool)
    ensures forall i :: 0 <= i < Leading(s, p) ==> p(s[i])
    ensures Leading(s, p) < |s| ==> !p(s[Leading(s, p)])
  {
    if |s| > 0 && p(s[0]) {
      LeadingSpan(s[1..], p);
      forall i | 0 < i < Leading(s, p)
        ensures p(s[i])
      {
        assert s[i] == s[1..][i - 1];
      }
    }
  }

  /** The two properties of LeadingSpan determine the prefix. */
  lemma LeadingIs(s: string, p: char -> bool, n: nat)
    requires n <= |s| && (forall i :: 0 <= i < n ==> p(s[i])) && (n < |s| ==> !p(s[n]))
    ensures Leading(s, p) == n
  {
    LeadingSpan(s, p);
  }

  // ---------------------------------------------------------------------
  // fgets(str, 100, fp)
  // ---------------------------------------------------------------------

  /**
   * What `fgets(str, SBUF_SIZE, fp)` leaves in `str` for a file holding
   * `text`: the characters up to and including the first newline, but no
   * more than 99 of them; None (a NULL return) when the file is empty.
   */
  function FirstLine(text: string): (line: Option<string>)
    ensures line.Some? <==> text != []
    ensures line.Some? ==> 0 < |line.value| < BufferSize && line.value <= text
  {
    if text == [] then None
    else
      var n := Leading(text, NotNewline);
      var len := if n < |text| then n + 1 else n;
      Some(text[..if len < BufferSize then len else BufferSize - 1])
  }

  /**
   * Only the first line counts, and of it only the first 99 characters: a
   * line that ends in its only newline, or fills the buffer, is read the
   * same whatever follows it.
   */
  lemma FirstLineOnly(line: string, rest: string)
    requires 0 < |line| < BufferSize
    requires forall i :: 0 <= i < |line| - 1 ==> line[i] != '\n'
    requires line[|line| - 1] == '\n' || |line| == BufferSize - 1
    ensures FirstLine(line + rest) == Some(line)
  {
    var text := line + rest;
    var n := Leading(text, NotNewline);
    if line[|line| - 1] == '\n' {
      LeadingIs(text, NotNewline, |line| - 1);
    } else {
      LeadingSpan(text, NotNewline);
      assert forall i :: 0 <= i < |line| ==> NotNewline(text[i]);
    }
    assert text[..|line|] == line;
  }

  /** The string `sscanf` sees: the buffer up to its first NUL. */
  function UpToNul(line: string): (s: string)
    ensures s <= line
    ensures forall i :: 0 <= i < |s| ==> s[i] != '\0'
    ensures |s| < |line| ==> line[|s|] == '\0'
  {
    LeadingSpan(line, NotNul);
    line[..Leading(line, NotNul)]
  }

  // ---------------------------------------------------------------------
  // The directives of "%*s %d%*c %*s %d"
  // ---------------------------------------------------------------------

  /** White space skipped, as a blank directive and the `%d`/`%s` conversions do. */
  function SkipSpace(s: string): (r: string)
  {
    s[Leading(s, IsSpace)..]
  }

  /** `%*s`: white space, then at least one other character, all discarded; None at the end of the input. */
  function SkipWord(s: string): (r: Option<string>)
  {
    var t := SkipSpace(s);
    if t == [] then None else Some(t[Leading(t, NotSpace)..])
  }

  /** `%*c`: exactly one character, white space included, discarded; None at the end of the input. */
  function SkipChar(s: string): (r: Option<string>)
    ensures r.Some? <==> s != []
    ensures r.Some? ==> r.value == s[1..]
  {
    if s == [] then None else Some(s[1..])
  }

  /** An integer a `%d` conversion produced, and the input left after it. */
  datatype Scanned = Scanned(value: int, rest: string)

  function DigitValue(c: char): nat
  {
    if IsDigit(c) then c as int - '0' as int else 0
  }

  /** The value of a string of decimal digits, most significant first. */
  function DigitsValue(ds: string): nat
  {
    if ds == [] then 0 else DigitsValue(ds[..|ds| - 1]) * 10 + DigitValue(ds[|ds| - 1])
  }

  /** Digits at the front of `u`, read in base 10; None when `u` does not start with a digit. */
  function ScanUnsigned(u: string): (r: Option<Scanned>)
  {
    var n := Leading(u, IsDigit);
    if n == 0 then None else Some(Scanned(DigitsValue(u[..n]), u[n..]))
  }

  /** An optional `+` or `-`, then digits. */
  function ScanSigned(t: string): (r: Option<Scanned>)
  {
    if t != [] && (t[0] == '+' || t[0] == '-') then
      match ScanUnsigned(t[1..])
      case None => None
      case Some(u) => Some(if t[0] == '-' then u.(value := -u.value) else u)
    else ScanUnsigned(t)
  }

  /**
   * `%d`: white space, an optional sign and at least one decimal digit, read
   * in base 10; None (a matching failure) when no digit follows.
   */
  function ScanInt(s: string): (r: Option<Scanned>)
  {
    ScanSigned(SkipSpace(s))
  }

  /** What the scan assigned: each field only when its conversion succeeded. */
  datatype Fields = Fields(sec: Option<int>, usec: Option<int>)

  /**
   * `sscanf(s, "%*s %d%*c %*s %d", ...)`. The blanks before `%d` and `%*s`
   * change nothing, since both conversions skip white space themselves; the
   * scan stops at the first directive that fails.
   */
  function ScanConfig(s: string): (f: Fields)
    ensures f.sec.None? ==> f.usec.None?
  {
    match SkipWord(s)
    case None => Fields(None, None)
    case Some(s1) =>
      match ScanInt(s1)
      case None => Fields(None, None)
      case Some(sec) =>
        var usec :=
          match SkipChar(sec.rest)
          case None => None
          case Some(s2) =>
            match SkipWord(s2)
            case None => None
            case Some(s3) =>
              match ScanInt(s3)
              case None => None
              case Some(u) => Some(u.value);
        Fields(Some(sec.value), usec)
  }

  /** The new value of an entry: the converted field, or the old value when the field was not assigned. */
  function Assign(field: Option<int>, prior: int): int
  {
    if field.Some? then field.value else prior
  }

  /**
   * The two entries of `config` after readConfigFile, for a file holding
   * `file` (None when `fopen` fails) and the entries' values before.
   */
  function ConfigAfter(file: Option<string>, config: seq<int>): (r: seq<int>)
    requires |config| == 2
    ensures |r| == 2
  {
    var line := if file.Some? then FirstLine(file.value) else None;
    if line.None? then [DefaultSeconds, DefaultMicros]
    else
      var f := ScanConfig(UpToNul(line.value));
      [Assign(f.sec, config[0]), Assign(f.usec, config[1])]
  }

  /** readConfigFile: scan the first line into `config`, or store the defaults. */
  method ReadConfigFile(file: Option<string>, config: array<int>)
    requires config.Length == 2
    modifies config
    ensures config[..] == ConfigAfter(file, old(config[..]))
  {
    var line := if file.Some? then FirstLine(file.value) else None;
    if line.Some? {
      var fields := ScanConfig(UpToNul(line.value));
      if fields.sec.Some? {
        config[0] := fields.sec.value;
      }
      if fields.usec.Some? {
        config[1] := fields.usec.value;
      }
    } else {
      config[0] := DefaultSeconds;
      config[1] := DefaultMicros;
    }
  }

  // ---------------------------------------------------------------------
  // Properties
  // ---------------------------------------------------------------------

  /** A missing or empty file gives 30 s and 1 us, whatever the entries held. */
  lemma ConfigDefaults(file: Option<string>, config: seq<int>)
    requires |config| == 2
    requires file.None? || file.value == []
    ensures ConfigAfter(file, config) == [DefaultSeconds, DefaultMicros]
  {
  }

  /**
   * Reading the same file twice stores what reading it once does: a field
   * the scan converts is overwritten with the same value, and one it does
   * not convert keeps the value the first read left.
   */
  lemma ConfigIdempotent(file: Option<string>, config: seq<int>)
    requires |config| == 2
    ensures ConfigAfter(file, ConfigAfter(file, config)) == ConfigAfter(file, config)
  {
  }

  /** A first line without a digit converts no field: both entries keep their values. */
  lemma ConfigWithoutDigits(text: string, config: seq<int>)
    requires |config| == 2 && text != []
    requires forall i :: 0 <= i < |text| ==> !IsDigit(text[i])
    ensures ConfigAfter(Some(text), config) == config
  {
    var line := UpToNul(FirstLine(text).value);
    assert forall i :: 0 <= i < |line| ==> !IsDigit(line[i]) by {
      assert forall i :: 0 <= i < |line| ==> line[i] == text[i];
    }
    var t := SkipSpace(line);
    if t != [] {
      var s1 := t[Leading(t, NotSpace)..];
      assert SkipWord(line) == Some(s1);
      NoDigitNoInt(s1);
    }
  }

  lemma NoDigitNoInt(s: string)
    requires forall i :: 0 <= i < |s| ==> !IsDigit(s[i])
    ensures ScanInt(s).None?
  {
    var k := Leading(s, IsSpace);
    var t := s[k..];
    if t != [] {
      assert t[0] == s[k];
      if 1 < |t| {
        assert t[1..][0] == s[k + 1];
      }
    }
  }

  // ---------------------------------------------------------------------
  // The line the documentation asks for, and reading it back
  // ---------------------------------------------------------------------

  function DigitChar(d: nat): (c: char)
    requires d < 10
    ensures IsDigit(c) && DigitValue(c) == d
  {
    ('0' as int + d) as char
  }

  /** A natural number in decimal, as `printf("%d")` writes it. */
  function Decimal(n: nat): (s: string)
    ensures s != [] && forall i :: 0 <= i < |s| ==> IsDigit(s[i])
  {
    if n < 10 then [DigitChar(n)] else Decimal(n / 10) + [DigitChar(n % 10)]
  }

  lemma {:induction false} DecimalValue(n: nat)
    ensures DigitsValue(Decimal(n)) == n
  {
    if n >= 10 {
      DecimalValue(n / 10);
      var s := Decimal(n);
      assert s[..|s| - 1] == Decimal(n / 10);
    }
  }

  /** An integer in decimal with a leading minus sign when negative. */
  function FormatInt(v: int): (s: string)
    ensures s != [] && (s[0] == '-' || IsDigit(s[0]))
    ensures forall i :: 0 <= i < |s| ==> s[i] == '-' || IsDigit(s[i])
    ensures forall i :: 1 <= i < |s| ==> IsDigit(s[i])
    ensures s[0] == '-' <==> v < 0
    ensures s[0] == '-' ==> |s| >= 2
  {
    if v < 0 then "-" + Decimal(-v) else Decimal(v)
  }

  /** White space before a character that is not white space is skipped exactly. */
  lemma SkipSpaceOf(space: string, t: string)
    requires forall i :: 0 <= i < |space| ==> IsSpace(space[i])
    requires t == [] || !IsSpace(t[0])
    ensures SkipSpace(space + t) == t
  {
    LeadingIs(space + t, IsSpace, |space|);
  }

  /** Digits followed by a non-digit are read as their value. */
  lemma ScanUnsignedOf(digits: string, rest: string)
    requires digits != [] && forall i :: 0 <= i < |digits| ==> IsDigit(digits[i])
    requires rest == [] || !IsDigit(rest[0])
    ensures ScanUnsigned(digits + rest) == Some(Scanned(DigitsValue(digits), rest))
  {
    var u := digits + rest;
    LeadingIs(u, IsDigit, |digits|);
    assert u[..|digits|] == digits;
    assert u[|digits|..] == rest;
  }

  /** A sign and digits as `%d` writes them are read back as the value. */
  lemma ScanSignedFormatted(v: int, rest: string)
    requires rest == [] || !IsDigit(rest[0])
    ensures ScanSigned(FormatInt(v) + rest) == Some(Scanned(v, rest))
  {
    if v < 0 {
      ScanNegativeFormatted(v, rest);
    } else {
      DecimalValue(v);
      ScanUnsignedOf(Decimal(v), rest);
    }
  }

  lemma ScanNegativeFormatted(v: int, rest: string)
    requires v < 0 && (rest == [] || !IsDigit(rest[0]))
    ensures ScanSigned("-" + Decimal(-v) + rest) == Some(Scanned(v, rest))
  {
    var d := Decimal(-v);
    DecimalValue(-v);
    ScanUnsignedOf(d, rest);
    var t := "-" + d + rest;
    assert t[0] == '-' && t[1..] == d + rest;
    assert ScanUnsigned(t[1..]) == Some(Scanned(-v, rest));
  }

  /** `%d` reads back what `%d` writes, after any white space and up to the first non-digit. */
  lemma ScanFormatted(space: string, v: int, rest: string)
    requires forall i :: 0 <= i < |space| ==> IsSpace(space[i])
    requires rest == [] || !IsDigit(rest[0])
    ensures ScanInt(space + (FormatInt(v) + rest)) == Some(Scanned(v, rest))
  {
    SkipSpaceOf(space, FormatInt(v) + rest);
    ScanSignedFormatted(v, rest);
  }

  /** `%*s` discards one word and the white space before it. */
  lemma SkipWordOf(space: string, word: string, rest: string)
    requires forall i :: 0 <= i < |space| ==> IsSpace(space[i])
    requires word != [] && forall i :: 0 <= i < |word| ==> !IsSpace(word[i])
    requires rest == [] || IsSpace(rest[0])
    ensures SkipWord(space + (word + rest)) == Some(rest)
  {
    SkipSpaceOf(space, word + rest);
    LeadingIs(word + rest, NotSpace, |word|);
    assert (word + rest)[|word|..] == rest;
  }

  /** The documented line, `sec: <seconds>, usec <microseconds> `, as `echo` writes it. */
  function ConfigLine(sec: int, usec: int): string
  {
    "sec: " + FormatInt(sec) + ", usec " + FormatInt(usec) + " \n"
  }

  /** The documented line, split where the directives of the scan meet. */
  lemma ConfigLineParts(a: string, b: string)
    ensures "sec: " + a + ", usec " + b + " \n"
      == "sec:" + (" " + (a + ("," + (" " + ("usec" + (" " + (b + " \n")))))))
  {
  }

  /** The first `%*s` of the scan takes `sec:` off the documented line. */
  lemma ConfigLineFirstWord(sec: int, usec: int)
    ensures SkipWord(ConfigLine(sec, usec))
      == Some(" " + (FormatInt(sec) + ("," + (" " + ("usec" + (" " + (FormatInt(usec) + " \n")))))))
  {
    var a, b := FormatInt(sec), FormatInt(usec);
    var s1 := " " + (a + ("," + (" " + ("usec" + (" " + (b + " \n"))))));
    ConfigLineParts(a, b);
    SkipWordOf([], "sec:", s1);
    assert [] + ("sec:" + s1) == ConfigLine(sec, usec);
  }

  /** The second `%*s` takes `usec` off what follows the comma. */
  lemma ConfigLineSecondWord(b: string)
    ensures SkipWord(" " + ("usec" + (" " + (b + " \n")))) == Some(" " + (b + " \n"))
  {
    SkipWordOf(" ", "usec", " " + (b + " \n"));
  }

  /** The scan converts both fields when every directive succeeds. */
  lemma ScanConfigOf(s: string, s1: string, sec: Scanned, s2: string, s3: string, usec: Scanned)
    requires SkipWord(s) == Some(s1) && ScanInt(s1) == Some(sec) && SkipChar(sec.rest) == Some(s2)
    requires SkipWord(s2) == Some(s3) && ScanInt(s3) == Some(usec)
    ensures ScanConfig(s) == Fields(Some(sec.value), Some(usec.value))
  {
  }

  /** Scanning the documented line gives back both numbers. */
  lemma ScanConfigLine(sec: int, usec: int)
    ensures ScanConfig(ConfigLine(sec, usec)) == Fields(Some(sec), Some(usec))
  {
    var a, b := FormatInt(sec), FormatInt(usec);
    var s3 := " " + (b + " \n");
    var s2 := " " + ("usec" + s3);
    var s1 := " " + (a + ("," + s2));
    ConfigLineFirstWord(sec, usec);
    ScanFormatted(" ", sec, "," + s2);
    ConfigLineSecondWord(b);
    ScanFormatted(" ", usec, " \n");
    ScanConfigOf(ConfigLine(sec, usec), s1, Scanned(sec, "," + s2), s2, s3, Scanned(usec, " \n"));
  }

  /**
   * Writing the documented line into the file and reading the file back
   * stores exactly the two numbers, whatever the file holds after that line
   * and whatever the entries held before, as long as the line fits the buffer.
   */
  lemma ConfigReadBack(sec: int, usec: int, rest: string, config: seq<int>)
    requires |config| == 2
    requires |ConfigLine(sec, usec)| < BufferSize
    ensures ConfigAfter(Some(ConfigLine(sec, usec) + rest), config) == [sec, usec]
  {
    var line := ConfigLine(sec, usec);
    var a, b := FormatInt(sec), FormatInt(usec);
    assert forall i :: 0 <= i < |line| - 1 ==> line[i] != '\n' && line[i] != '\0' by {
      assert line == "sec: " + a + ", usec " + b + " " + "\n";
      var front := "sec: " + a + ", usec " + b + " ";
      assert line[..|line| - 1] == front;
      assert forall i :: 0 <= i < |front| ==> front[i] != '\n' && front[i] != '\0';
    }
    FirstLineOnly(line, rest);
    LeadingIs(line, NotNul, |line|);
    assert UpToNul(line) == line;
    ScanConfigLine(sec, usec);
  }

  /** The first `%*s` takes `sec:` off a line that stops after the seconds. */
  lemma SecondsLineFirstWord(a: string)
    ensures SkipWord("sec: " + a + "\n") == Some(" " + (a + "\n"))
  {
    var s1 := " " + (a + "\n");
    SkipWordOf([], "sec:", s1);
    assert [] + ("sec:" + s1) == "sec: " + a + "\n";
  }

  /** Scanning a line that stops after the seconds converts only the first field. */
  lemma ScanSecondsOnly(sec: int)
    ensures ScanConfig("sec: " + FormatInt(sec) + "\n") == Fields(Some(sec), None)
  {
    var a := FormatInt(sec);
    var s1 := " " + (a + "\n");
    SecondsLineFirstWord(a);
    ScanFormatted(" ", sec, "\n");
    ScanConfigFirstOnly("sec: " + a + "\n", s1, Scanned(sec, "\n"));
  }

  /** The scan converts only the seconds when nothing but the newline follows them. */
  lemma ScanConfigFirstOnly(s: string, s1: string, sec: Scanned)
    requires SkipWord(s) == Some(s1) && ScanInt(s1) == Some(sec) && sec.rest == "\n"
    ensures ScanConfig(s) == Fields(Some(sec.value), None)
  {
    assert SkipChar(sec.rest) == Some([]);
  }

  /**
   * A line that stops after the seconds converts only the first field: the
   * microseconds entry keeps the value it had.
   */
  lemma ConfigSecondsOnly(sec: int, config: seq<int>)
    requires |config| == 2
    requires |"sec: " + FormatInt(sec)| < BufferSize - 1
    ensures ConfigAfter(Some("sec: " + FormatInt(sec) + "\n"), config) == [sec, config[1]]
  {
    var a := FormatInt(sec);
    var line := "sec: " + a + "\n";
    assert forall i :: 0 <= i < |line| - 1 ==> line[i] != '\n' && line[i] != '\0' by {
      assert line[..|line| - 1] == "sec: " + a;
    }
    FirstLineOnly(line, []);
    assert line + [] == line;
    LeadingIs(line, NotNul, |line|);
    ScanSecondsOnly(sec);
  }
}
