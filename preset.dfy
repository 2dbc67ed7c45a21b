/**
 * The preset record (`save_preset`, `load_preset`) and its validation at
 * start-up. The record is one line of text, `<colour index>,<brightness>`,
 * where the brightness is written the way Python prints a float. Brightness
 * is in integer hundredths throughout.
 */
module Preset {
  import opened Wrappers
  import opened Lighting

  datatype Preset = Preset(colourIdx: int, brightness: int)

  const FALLBACK_COLOUR: int := 0
  const FALLBACK_BRIGHTNESS: int := 20

  /** What `load_preset` returns when anything goes wrong: (0, 0.2). */
  const FALLBACK: Preset := Preset(FALLBACK_COLOUR, FALLBACK_BRIGHTNESS)

  // ---------------------------------------------------------------- characters

  predicate IsDigit(c: char) {
    '0' <= c <= '9'
  }

  /** The characters CircuitPython's `str.strip` removes: space, tab, newline, carriage return, vertical tab, form feed. */
  predicate IsSpace(c: char) {
    c == ' ' || c == '\t' || c == '\n' || c == '\r' || c == '\U{0B}' || c == '\U{0C}'
  }

  predicate AllDigits(s: string) {
    forall i :: 0 <= i < |s| ==> IsDigit(s[i])
  }

  /** Characters a printed number is made of. */
  predicate NumeralText(s: string) {
    forall i :: 0 <= i < |s| ==> IsDigit(s[i]) || s[i] == '-' || s[i] == '.'
  }

  function DigitChar(d: nat): (c: char)
    requires d < 10
    ensures IsDigit(c) && c as int - '0' as int == d
  {
    ('0' as int + d) as char
  }

  function DigitValue(c: char): (d: nat)
    requires IsDigit(c)
    ensures d < 10 && DigitChar(d) == c
  {
    c as int - '0' as int
  }

  // ---------------------------------------------------------------- printing

  /** Decimal digits of `n`, most significant first, without leading zeros. */
  function Digits(n: nat): (s: string)
    ensures |s| > 0 && AllDigits(s)
    ensures n > 0 ==> s[0] != '0'
    decreases n
  {
    if n < 10 then [DigitChar(n)] else Digits(n / 10) + [DigitChar(n % 10)]
  }

  /** Python's `str` of an int. */
  function IntText(i: int): (s: string)
    ensures |s| > 0 && NumeralText(s) && '.' !in s
    ensures s[0] == '-' <==> i < 0
    ensures IsDigit(s[|s| - 1])
  {
    if i < 0 then "-" + Digits(-i) else Digits(i)
  }

  /** Fraction digits of a float with `f` hundredths: one digit unless the second is needed. */
  function FractionText(f: nat): (s: string)
    requires f < 100
    ensures 1 <= |s| <= 2 && AllDigits(s)
  {
    if f % 10 == 0 then [DigitChar(f / 10)] else [DigitChar(f / 10), DigitChar(f % 10)]
  }

  function DecimalText(m: nat): (s: string)
    ensures |s| > 0 && NumeralText(s) && IsDigit(s[0]) && IsDigit(s[|s| - 1])
  {
    Digits(m / 100) + "." + FractionText(m % 100)
  }

  /** Python's `str` of the float with `b` hundredths (0.05, 0.45, 1.0, ...). */
  function BrightnessText(b: int): (s: string)
    ensures |s| > 0 && NumeralText(s)
    ensures s[0] == '-' <==> b < 0
    ensures IsDigit(s[|s| - 1])
  {
    if b < 0 then "-" + DecimalText(-b) else DecimalText(b)
  }

  /** The line `save_preset` writes: `<idx>,<brightness>` and a newline. */
  function PresetRecord(idx: int, brightness: int): (line: string)
    ensures |line| > 1 && line[|line| - 1] == '\n'
    ensures forall i :: 0 <= i < |line| - 1 ==> line[i] != '\n'
  {
    var a, b := IntText(idx), BrightnessText(brightness);
    var line := a + "," + b + "\n";
    assert forall i :: 0 <= i < |line| - 1 ==> line[i] != '\n' by {
      forall i | 0 <= i < |line| - 1 ensures line[i] != '\n' {
        if i < |a| {
          assert line[i] == a[i];
        } else if i > |a| {
          assert line[i] == b[i - |a| - 1];
        }
      }
    }
    line
  }

  // ---------------------------------------------------------------- reading

  /** `readline`: the text up to and including the first newline. */
  function ReadLine(text: string): string
  {
    if text == [] then []
    else if text[0] == '\n' then "\n"
    else [text[0]] + ReadLine(text[1..])
  }

  function StripStart(s: string): string
  {
    if |s| > 0 && IsSpace(s[0]) then StripStart(s[1..]) else s
  }

  function StripEnd(s: string): string
  {
    if |s| > 0 && IsSpace(s[|s| - 1]) then StripEnd(s[..|s| - 1]) else s
  }

  /** `str.strip`: no white space left at either end. */
  function Strip(s: string): (r: string)
  {
    StripEnd(StripStart(s))
  }

  /** `str.split(sep)`: the pieces between separators; always at least one. */
  function Split(s: string, sep: char): (pieces: seq<string>)
    ensures |pieces| > 0
  {
    if s == [] then [""]
    else
      var rest := Split(s[1..], sep);
      if s[0] == sep then [""] + rest else [[s[0]] + rest[0]] + rest[1..]
  }

  /** An optional sign in front of the text of a number. */
  datatype Signed = Signed(negative: bool, body: string)

  function SplitSign(t: string): Signed {
    if |t| > 0 && (t[0] == '-' || t[0] == '+') then Signed(t[0] == '-', t[1..]) else Signed(false, t)
  }

  function Negate(negative: bool, v: int): int {
    if negative then -v else v
  }

  /** The value of a string of decimal digits. */
  function Value(s: string): nat
    requires AllDigits(s)
  {
    if s == [] then 0 else Value(s[..|s| - 1]) * 10 + DigitValue(s[|s| - 1])
  }

  function ParseNat(t: string): Option<int> {
    if |t| > 0 && AllDigits(t) then Some(Value(t)) else None
  }

  /** Python's `int()` on a field: surrounding space, an optional sign, ASCII digits. */
  function ParseInt(s: string): (r: Option<int>)
    ensures r.Some? <==>
              var t := Strip(s);
              |t| > 0 && (AllDigits(t) || ((t[0] == '-' || t[0] == '+') && |t| > 1 && AllDigits(t[1..])))
    ensures r.Some? && r.value < 0 ==> Strip(s)[0] == '-'
  {
    var signed := SplitSign(Strip(s));
    match ParseNat(signed.body)
    case None => None
    case Some(v) => Some(Negate(signed.negative, v))
  }

  /** Digits with an optional decimal point and at most two fraction digits, in hundredths. */
  function ParseDecimal(t: string): Option<int> {
    var parts := Split(t, '.');
    if |parts| == 1 then
      if |t| > 0 && AllDigits(t) then Some(Value(t) * 100) else None
    else if |parts| == 2 then
      var whole, fraction := parts[0], parts[1];
      if AllDigits(whole) && AllDigits(fraction) && |whole| + |fraction| > 0 && |fraction| <= 2 then
        Some(Value(whole) * 100 + (if |fraction| == 1 then Value(fraction) * 10 else Value(fraction)))
      else None
    else None
  }

  /** Python's `float()` on the brightness field, for values with whole hundredths. */
  function ParseBrightness(s: string): Option<int> {
    var signed := SplitSign(Strip(s));
    match ParseDecimal(signed.body)
    case None => None
    case Some(v) => Some(Negate(signed.negative, v))
  }

  /**
   * `load_preset`: `None` is a file that cannot be opened. The first line is
   * stripped and split on commas; anything but exactly two fields that parse
   * gives the fallback.
   */
  function LoadPreset(file: Option<string>): (p: Preset)
    ensures file.None? ==> p == FALLBACK
  {
    match file
    case None => FALLBACK
    case Some(text) =>
      var fields := Split(Strip(ReadLine(text)), ',');
      if |fields| != 2 then FALLBACK
      else
        match (ParseInt(fields[0]), ParseBrightness(fields[1]))
        case (Some(idx), Some(brightness)) => Preset(idx, brightness)
        case _ => FALLBACK
  }

  // ---------------------------------------------------------------- lemmas

  lemma {:induction false} DigitsValue(n: nat)
    ensures Value(Digits(n)) == n
    decreases n
  {
    if n >= 10 {
      DigitsValue(n / 10);
      var s := Digits(n);
      assert s[..|s| - 1] == Digits(n / 10);
    }
  }

  lemma {:induction false} ReadLineStopsAtNewline(line: string, rest: string)
    requires forall i :: 0 <= i < |line| ==> line[i] != '\n'
    ensures ReadLine(line + "\n" + rest) == line + "\n"
  {
    if line != [] {
      assert (line + "\n" + rest)[1..] == line[1..] + "\n" + rest;
      ReadLineStopsAtNewline(line[1..], rest);
    }
  }

  /** A last line without a newline is read whole. */
  lemma {:induction false} ReadLineNoNewline(line: string)
    requires forall i :: 0 <= i < |line| ==> line[i] != '\n'
    ensures ReadLine(line) == line
  {
    if line != [] {
      ReadLineNoNewline(line[1..]);
    }
  }

  /** Text that neither starts nor ends with white space, followed by a newline, strips to itself. */
  lemma StripNewline(s: string)
    requires |s| > 0 && !IsSpace(s[0]) && !IsSpace(s[|s| - 1])
    ensures Strip(s) == s
    ensures Strip(s + "\n") == s
  {
    var t := s + "\n";
    assert StripStart(t) == t;
    assert t[..|t| - 1] == s;
    assert StripEnd(t) == StripEnd(s);
  }

  lemma {:induction false} SplitWithout(s: string, sep: char)
    requires forall i :: 0 <= i < |s| ==> s[i] != sep
    ensures Split(s, sep) == [s]
  {
    if s != [] {
      SplitWithout(s[1..], sep);
      assert [s[0]] + s[1..] == s;
    }
  }

  lemma {:induction false} SplitAtFirst(a: string, sep: char, b: string)
    requires forall i :: 0 <= i < |a| ==> a[i] != sep
    ensures Split(a + [sep] + b, sep) == [a] + Split(b, sep)
  {
    if a == [] {
      assert ([sep] + b)[1..] == b;
    } else {
      assert (a + [sep] + b)[1..] == a[1..] + [sep] + b;
      SplitAtFirst(a[1..], sep, b);
      assert [a[0]] + a[1..] == a;
    }
  }

  lemma IntTextParses(i: int)
    ensures ParseInt(IntText(i)) == Some(i)
  {
    var s := IntText(i);
    StripNewline(s);
    DigitsValue(if i < 0 then -i else i);
    if i < 0 {
      assert s[1..] == Digits(-i);
    }
  }

  lemma FractionTextValue(f: nat)
    requires f < 100
    ensures (var s := FractionText(f); (if |s| == 1 then Value(s) * 10 else Value(s)) == f)
  {
    var s := FractionText(f);
    if |s| == 1 {
      assert s[..0] == [];
    } else {
      assert s[..1][..0] == [] && s[..1] == [s[0]];
      assert Value(s[..1]) == f / 10;
      assert Value(s) == (f / 10) * 10 + f % 10;
    }
  }

  lemma DecimalTextParses(m: nat)
    ensures ParseDecimal(DecimalText(m)) == Some(m)
  {
    var whole, fraction := Digits(m / 100), FractionText(m % 100);
    assert DecimalText(m) == whole + ['.'] + fraction;
    SplitAtFirst(whole, '.', fraction);
    SplitWithout(fraction, '.');
    DigitsValue(m / 100);
    FractionTextValue(m % 100);
  }

  lemma BrightnessTextParses(b: int)
    ensures ParseBrightness(BrightnessText(b)) == Some(b)
  {
    var s := BrightnessText(b);
    StripNewline(s);
    var m := if b < 0 then -b else b;
    assert SplitSign(Strip(s)) == Signed(b < 0, DecimalText(m));
    DecimalTextParses(m);
  }

  /** The first line of a saved record, stripped and split at commas, is the index text and the brightness text. */
  lemma SavedRecordFields(idx: int, brightness: int, rest: string)
    ensures Split(Strip(ReadLine(PresetRecord(idx, brightness) + rest)), ',') == [IntText(idx), BrightnessText(brightness)]
  {
    var first, second := IntText(idx), BrightnessText(brightness);
    var line := first + [','] + second;
    assert PresetRecord(idx, brightness) + rest == line + "\n" + rest;
    FirstLineStrips(line, rest);
    SplitAtFirst(first, ',', second);
    SplitWithout(second, ',');
  }

  /**
   * Loading what `save_preset` wrote gives back the saved pair, whatever
   * follows the first line.
   */
  lemma LoadSaved(idx: int, brightness: int, rest: string)
    ensures LoadPreset(Some(PresetRecord(idx, brightness) + rest)) == Preset(idx, brightness)
  {
    SavedRecordFields(idx, brightness, rest);
    IntTextParses(idx);
    BrightnessTextParses(brightness);
  }

  /** A first line without a comma, an empty file or a missing file all load as the fallback. */
  lemma LoadWithoutComma(text: string)
    requires ',' !in Strip(ReadLine(text))
    ensures LoadPreset(Some(text)) == FALLBACK
    ensures LoadPreset(Some("")) == FALLBACK && LoadPreset(None) == FALLBACK
  {
    SplitWithout(Strip(ReadLine(text)), ',');
  }

  /** Text that neither starts nor ends with white space. */
  predicate Trimmed(s: string) {
    |s| > 0 && !IsSpace(s[0]) && !IsSpace(s[|s| - 1])
  }

  /**
   * A first line that strips to three comma-separated fields loads as the
   * fallback, whatever white space or line ending surrounds it.
   */
  lemma LoadExtraField(text: string, a: string, b: string, c: string)
    requires ',' !in a && ',' !in b
    requires Strip(ReadLine(text)) == a + [','] + b + [','] + c
    ensures LoadPreset(Some(text)) == FALLBACK
  {
    assert a + [','] + b + [','] + c == a + [','] + (b + [','] + c);
    SplitAtFirst(a, ',', b + [','] + c);
    SplitAtFirst(b, ',', c);
  }

  /**
   * A first line that strips to two fields loads as the fallback as soon as
   * the index is not an integer or the brightness is not a number.
   */
  lemma LoadUnparsableField(text: string, a: string, b: string)
    requires ',' !in a && ',' !in b
    requires Strip(ReadLine(text)) == a + [','] + b
    requires ParseInt(a).None? || ParseBrightness(b).None?
    ensures LoadPreset(Some(text)) == FALLBACK
  {
    SplitAtFirst(a, ',', b);
    SplitWithout(b, ',');
  }
  /** In particular, a trimmed first line with three fields, followed by a newline. */
  lemma LoadExtraFieldLine(a: string, b: string, c: string, rest: string)
    requires ',' !in a && ',' !in b
    requires var line := a + [','] + b + [','] + c; '\n' !in line && Trimmed(line)
    ensures LoadPreset(Some(a + [','] + b + [','] + c + "\n" + rest)) == FALLBACK
  {
    FirstLineStrips(a + [','] + b + [','] + c, rest);
    LoadExtraField(a + [','] + b + [','] + c + "\n" + rest, a, b, c);
  }

  /** In particular, a trimmed first line with two fields, followed by a newline. */
  lemma LoadUnparsableFieldLine(a: string, b: string, rest: string)
    requires ',' !in a && ',' !in b
    requires var line := a + [','] + b; '\n' !in line && Trimmed(line)
    requires ParseInt(a).None? || ParseBrightness(b).None?
    ensures LoadPreset(Some(a + [','] + b + "\n" + rest)) == FALLBACK
  {
    FirstLineStrips(a + [','] + b, rest);
    LoadUnparsableField(a + [','] + b + "\n" + rest, a, b);
  }

  /** A trimmed line followed by a newline is what load_preset reads and strips, whatever comes after it. */
  lemma FirstLineStrips(line: string, rest: string)
    requires '\n' !in line && Trimmed(line)
    ensures Strip(ReadLine(line + "\n" + rest)) == line
  {
    ReadLineStopsAtNewline(line, rest);
    StripNewline(line);
  }

  /** The same with a Windows line ending: `strip` drops the carriage return too. */
  lemma FirstLineStripsCrLf(line: string, rest: string)
    requires '\n' !in line && Trimmed(line)
    ensures Strip(ReadLine(line + "\r\n" + rest)) == line
  {
    var crlf := line + "\r";
    var t := crlf + "\n";
    assert line + "\r\n" + rest == crlf + "\n" + rest;
    ReadLineStopsAtNewline(crlf, rest);
    StripNewline(line);
    assert StripStart(t) == t;
    assert t[..|t| - 1] == crlf && crlf[..|crlf| - 1] == line;
    assert StripEnd(t) == StripEnd(crlf) == StripEnd(line);
  }

  /** `1,0.5,2` has a field too many. */
  lemma LoadExtraFieldExample()
    ensures LoadPreset(Some("1,0.5,2\n")) == FALLBACK
  {
    assert "1,0.5,2\n" == "1" + [','] + "0.5" + [','] + "2" + "\n" + "";
    LoadExtraFieldLine("1", "0.5", "2", "");
  }

  /** The same record with a Windows line ending. */
  lemma LoadExtraFieldCrLf()
    ensures LoadPreset(Some("1,0.5,2\r\n")) == FALLBACK
  {
    var line := "1" + [','] + "0.5" + [','] + "2";
    assert "1,0.5,2\r\n" == line + "\r\n" + "";
    FirstLineStripsCrLf(line, "");
    LoadExtraField("1,0.5,2\r\n", "1", "0.5", "2");
  }

  /** The same record as a last line without a newline. */
  lemma LoadExtraFieldUnterminated()
    ensures LoadPreset(Some("1,0.5,2")) == FALLBACK
  {
    var line := "1,0.5,2";
    ReadLineNoNewline(line);
    StripNewline(line);
    LoadExtraField(line, "1", "0.5", "2");
  }

  /** A word for the index does not parse. */
  lemma LoadWordIndexExample()
    ensures LoadPreset(Some("one,0.5\n")) == FALLBACK
  {
    assert "one,0.5\n" == "one" + [','] + "0.5" + "\n" + "";
    assert Strip("one") == "one" by { StripNewline("one"); }
    LoadUnparsableFieldLine("one", "0.5", "");
  }

  /** A lower-case word is no brightness. */
  lemma WordIsNotBrightness(word: string)
    requires Trimmed(word) && forall i :: 0 <= i < |word| ==> 'a' <= word[i] <= 'z'
    ensures ParseBrightness(word).None?
  {
    StripNewline(word);
    assert SplitSign(Strip(word)) == Signed(false, word);
    SplitWithout(word, '.');
    assert !IsDigit(word[0]);
  }

  /** A word for the brightness does not parse. */
  lemma LoadWordBrightnessExample()
    ensures LoadPreset(Some("1,bright\n")) == FALLBACK
  {
    var word := "bright";
    WordIsNotBrightness(word);
    assert "1,bright\n" == "1" + [','] + word + "\n" + "";
    LoadUnparsableFieldLine("1", word, "");
  }

  // ---------------------------------------------------------------- start-up

  /**
   * The start-up range check: an index outside the palette becomes 0 and a
   * brightness outside [0.05, 1.0] becomes 0.2; in-range values are kept.
   */
  function ValidatePreset(p: Preset, n: nat): (r: Preset)
    requires n > 0
    ensures InPalette(r.colourIdx, n) && InBrightnessRange(r.brightness)
    ensures r.colourIdx == (if InPalette(p.colourIdx, n) then p.colourIdx else FALLBACK_COLOUR)
    ensures r.brightness == (if InBrightnessRange(p.brightness) then p.brightness else FALLBACK_BRIGHTNESS)
  {
    Preset(if InPalette(p.colourIdx, n) then p.colourIdx else FALLBACK_COLOUR,
           if InBrightnessRange(p.brightness) then p.brightness else FALLBACK_BRIGHTNESS)
  }

  /**
   * The start-up check as the source is written: `COLOUR` and `BRIGHTNESS`
   * are assigned inside `main`, so they are locals of `main` bound only on
   * the in-range branches, and the pixel set-up that reads both raises a
   * local-variable-before-assignment error otherwise. `None` stands for
   * that crash.
   */
  function StartupAsWritten(p: Preset, n: nat): (r: Option<Preset>)
    requires n > 0
    ensures r.Some? ==> r.value == ValidatePreset(p, n)
    ensures r.None? <==> ValidatePreset(p, n) != p
  {
    var colourBound := InPalette(p.colourIdx, n);
    var brightnessBound := InBrightnessRange(p.brightness);
    if colourBound && brightnessBound then Some(p) else None
  }

  /**
   * A record holding brightness 5.0 loads as (0, 5.0): the range check as
   * written crashes on it, the intended fallback gives (0, 0.2).
   */
  lemma StartupCrashesOnBrightRecord(n: nat)
    requires n > 0
    ensures LoadPreset(Some("0,5.0\n")) == Preset(0, 500)
    ensures StartupAsWritten(LoadPreset(Some("0,5.0\n")), n) == None
    ensures ValidatePreset(LoadPreset(Some("0,5.0\n")), n) == Preset(0, FALLBACK_BRIGHTNESS)
  {
    assert IntText(0) == "0";
    assert BrightnessText(500) == "5.0";
    var record := PresetRecord(0, 500);
    assert record == "0,5.0\n";
    LoadSaved(0, 500, "");
    assert record + "" == record;
  }

  // ---------------------------------------------------------------- the file

  /** The durable record `preset.txt`; `writes` is the history of what was saved. */
  class PresetFile {
    var content: Option<string>
    ghost var writes: seq<string>

    constructor (content: Option<string>)
      ensures this.content == content && writes == []
    {
      this.content := content;
      writes := [];
    }

    /** save_preset: overwrite the record with one line. */
    method Save(idx: int, brightness: int)
      modifies this
      ensures content == Some(PresetRecord(idx, brightness))
      ensures writes == old(writes) + [PresetRecord(idx, brightness)]
    {
      content := Some(PresetRecord(idx, brightness));
      writes := writes + [PresetRecord(idx, brightness)];
    }

    /** load_preset: the pair the record holds, or the fallback. */
    method Load() returns (p: Preset)
      ensures p == LoadPreset(content)
      ensures content.None? ==> p == FALLBACK
    {
      p := LoadPreset(content);
    }
  }
}
