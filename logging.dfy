/**
  * `logger.py`: the `VideoAgent` logger. Its one handler writes every record
  * to standard output as `[time] [VideoAgent] [LEVEL] message`, the time in
  * the `%Y-%m-%d %H:%M:%S` format. The clock is an input of each record.
  */
module Logging {
  import opened Text

  /** A wall-clock time to the second. */
  datatype Clock = Clock(year: nat, month: nat, day: nat, hour: nat, minute: nat, second: nat)

  /** The two levels the core uses. */
  datatype Level = Info | Error

  function LevelName(l: Level): string {
    match l
    case Info => "INFO"
    case Error => "ERROR"
  }

  /** `n` in decimal, with leading zeros up to `width` digits (`%m`, `%Y`, ...). */
  function Padded(n: nat, width: nat): (s: string)
    ensures AllDigits(s) && |s| >= width
  {
    var d := Decimal(n);
    if |d| >= width then d else seq(width - |d|, _ => '0') + d
  }

  /** `datefmt='%Y-%m-%d %H:%M:%S'`. */
  function AscTime(t: Clock): string {
    Padded(t.year, 4) + "-" + (Padded(t.month, 2) + "-" + (Padded(t.day, 2) + " "
    + (Padded(t.hour, 2) + ":" + (Padded(t.minute, 2) + ":" + Padded(t.second, 2)))))
  }

  /** The name `setup_logger` gives the logger by default. */
  const LoggerName := "VideoAgent"

  /** What the record's formatter puts before the message. */
  function Header(t: Clock, level: Level): string {
    "[" + AscTime(t) + "] [" + LoggerName + "] [" + LevelName(level) + "] "
  }

  /** One record as the handler writes it, without its newline. */
  function Format(t: Clock, level: Level, message: string): string {
    Header(t, level) + message
  }

  /**
    * The header is made of digits, brackets, separators, the logger name and
    * the level: it holds no capital `D` and no newline, so whatever a reader
    * of the output looks for that starts with `D` can only start in the
    * message.
    */
  lemma HeaderPlain(t: Clock, level: Level)
    ensures 'D' !in Header(t, level) && '\n' !in Header(t, level)
  {
    AscTimePlain(t);
    var a, n, l := AscTime(t), LoggerName, LevelName(level);
    assert 'D' !in n && '\n' !in n;
    assert 'D' !in l && '\n' !in l;
    assert Header(t, level) == "[" + a + "] [" + n + "] [" + l + "] ";
  }

  lemma AscTimePlain(t: Clock)
    ensures 'D' !in AscTime(t) && '\n' !in AscTime(t)
  {
    var y, mo, d := Padded(t.year, 4), Padded(t.month, 2), Padded(t.day, 2);
    var h, mi, sec := Padded(t.hour, 2), Padded(t.minute, 2), Padded(t.second, 2);
    PaddedPlain(t.year, 4);
    PaddedPlain(t.month, 2);
    PaddedPlain(t.day, 2);
    PaddedPlain(t.hour, 2);
    PaddedPlain(t.minute, 2);
    PaddedPlain(t.second, 2);
    var r := mi + ":" + sec;
    assert 'D' !in r && '\n' !in r;
    r := h + ":" + r;
    assert 'D' !in r && '\n' !in r;
    r := d + " " + r;
    assert 'D' !in r && '\n' !in r;
    r := mo + "-" + r;
    assert 'D' !in r && '\n' !in r;
    assert AscTime(t) == y + "-" + r;
  }

  lemma PaddedPlain(n: nat, width: nat)
    ensures 'D' !in Padded(n, width) && '\n' !in Padded(n, width)
  {
    var p := Padded(n, width);
    assert forall k :: 0 <= k < |p| ==> IsDigit(p[k]);
  }

  // ---- the time stamp read back -------------------------------------------

  function Pow10(w: nat): nat {
    if w == 0 then 1 else 10 * Pow10(w - 1)
  }

  /** A number below `10^w` has at most `w` digits. */
  lemma {:induction false} DecimalFits(n: nat, w: nat)
    requires 1 <= w && n < Pow10(w)
    ensures |Decimal(n)| <= w
    decreases w
  {
    assert Pow10(1) == 10;
    if n >= 10 {
      DecimalFits(n / 10, w - 1);
    }
  }

  lemma {:induction false} ZerosValue(z: string)
    requires forall k :: 0 <= k < |z| ==> z[k] == '0'
    ensures AllDigits(z) && DecimalValue(z) == 0
    decreases |z|
  {
    if z != [] {
      ZerosValue(z[..|z| - 1]);
    }
  }

  /** Leading zeros do not change the value of a digit string. */
  lemma {:induction false} LeadingZeros(z: string, d: string)
    requires AllDigits(d) && forall k :: 0 <= k < |z| ==> z[k] == '0'
    ensures AllDigits(z + d) && DecimalValue(z + d) == DecimalValue(d)
    decreases |d|
  {
    if d == [] {
      assert z + d == z;
      ZerosValue(z);
    } else {
      var s := z + d;
      assert s[..|s| - 1] == z + d[..|d| - 1];
      LeadingZeros(z, d[..|d| - 1]);
    }
  }

  /** A field of `w` digits holding a number below `10^w` is exactly `w` wide and reads back as that number. */
  lemma PaddedFits(n: nat, w: nat)
    requires 1 <= w && n < Pow10(w)
    ensures |Padded(n, w)| == w && DecimalValue(Padded(n, w)) == n
  {
    var d := Decimal(n);
    DecimalFits(n, w);
    DecimalRoundTrip(n);
    if |d| < w {
      LeadingZeros(seq(w - |d|, _ => '0'), d);
    }
  }

  /** The characters `i` to `j` of `a` are digits that read as `v`. */
  predicate Reads(a: string, i: nat, j: nat, v: nat) {
    i <= j <= |a| && AllDigits(a[i..j]) && DecimalValue(a[i..j]) == v
  }

  /** A field read inside `rest` is read at the same place shifted by `|pre|` inside `pre + rest`. */
  lemma ReadsShift(pre: string, rest: string, i: nat, j: nat, v: nat)
    requires Reads(rest, i, j, v)
    ensures Reads(pre + rest, |pre| + i, |pre| + j, v)
  {
    assert (pre + rest)[|pre| + i..|pre| + j] == rest[i..j];
  }

  /** The digits at the front of `f + [c] + rest`, then the separator, then the rest. */
  lemma Peel(f: string, c: char, rest: string, v: nat)
    requires AllDigits(f) && DecimalValue(f) == v
    ensures var s := f + [c] + rest;
            && Reads(s, 0, |f|, v) && s[|f|] == c && s[|f| + 1..] == rest
  {
    var s := f + [c] + rest;
    assert s[0..|f|] == f;
  }

  /** A digit field of width `w` reading as `v`. */
  predicate DigitsOf(f: string, w: nat, v: nat) {
    |f| == w && AllDigits(f) && DecimalValue(f) == v
  }

  /** `%M:%S`. */
  lemma MinuteSecond(mi: string, sec: string, vmi: nat, vsec: nat)
    requires DigitsOf(mi, 2, vmi) && DigitsOf(sec, 2, vsec)
    ensures var r := mi + ":" + sec;
            && |r| == 5 && r[2] == ':' && Reads(r, 0, 2, vmi) && Reads(r, 3, 5, vsec)
  {
    assert Reads(sec, 0, 2, vsec) by { assert sec[0..2] == sec; }
    Peel(mi, ':', sec, vmi);
    ReadsShift(mi + ":", sec, 0, 2, vsec);
  }

  /** `%H:%M:%S`, given `%M:%S` as `r`. */
  lemma HourOn(h: string, r: string, vh: nat, vmi: nat, vsec: nat)
    requires DigitsOf(h, 2, vh)
    requires |r| == 5 && r[2] == ':' && Reads(r, 0, 2, vmi) && Reads(r, 3, 5, vsec)
    ensures var q := h + ":" + r;
            && |q| == 8 && q[2] == ':' && q[5] == ':'
            && Reads(q, 0, 2, vh) && Reads(q, 3, 5, vmi) && Reads(q, 6, 8, vsec)
  {
    Peel(h, ':', r, vh);
    ReadsShift(h + ":", r, 0, 2, vmi);
    ReadsShift(h + ":", r, 3, 5, vsec);
  }

  /** `%d %H:%M:%S`, given `%H:%M:%S` as `r`. */
  lemma DayOn(d: string, r: string, vd: nat, vh: nat, vmi: nat, vsec: nat)
    requires DigitsOf(d, 2, vd)
    requires |r| == 8 && r[2] == ':' && r[5] == ':'
    requires Reads(r, 0, 2, vh) && Reads(r, 3, 5, vmi) && Reads(r, 6, 8, vsec)
    ensures var q := d + " " + r;
            && |q| == 11 && q[2] == ' ' && q[5] == ':' && q[8] == ':'
            && Reads(q, 0, 2, vd) && Reads(q, 3, 5, vh) && Reads(q, 6, 8, vmi) && Reads(q, 9, 11, vsec)
  {
    Peel(d, ' ', r, vd);
    ReadsShift(d + " ", r, 0, 2, vh);
    ReadsShift(d + " ", r, 3, 5, vmi);
    ReadsShift(d + " ", r, 6, 8, vsec);
  }

  /** `%m-%d %H:%M:%S`, given `%d %H:%M:%S` as `r`. */
  lemma MonthOn(mo: string, r: string, vmo: nat, vd: nat, vh: nat, vmi: nat, vsec: nat)
    requires DigitsOf(mo, 2, vmo)
    requires |r| == 11 && r[2] == ' ' && r[5] == ':' && r[8] == ':'
    requires Reads(r, 0, 2, vd) && Reads(r, 3, 5, vh) && Reads(r, 6, 8, vmi) && Reads(r, 9, 11, vsec)
    ensures var q := mo + "-" + r;
            && |q| == 14 && q[2] == '-' && q[5] == ' ' && q[8] == ':' && q[11] == ':'
            && Reads(q, 0, 2, vmo) && Reads(q, 3, 5, vd) && Reads(q, 6, 8, vh)
            && Reads(q, 9, 11, vmi) && Reads(q, 12, 14, vsec)
  {
    Peel(mo, '-', r, vmo);
    ReadsShift(mo + "-", r, 0, 2, vd);
    ReadsShift(mo + "-", r, 3, 5, vh);
    ReadsShift(mo + "-", r, 6, 8, vmi);
    ReadsShift(mo + "-", r, 9, 11, vsec);
  }

  /** The whole `%Y-%m-%d %H:%M:%S`, given `%m-%d %H:%M:%S` as `r`. */
  lemma YearOn(y: string, r: string, c: Clock)
    requires DigitsOf(y, 4, c.year)
    requires |r| == 14 && r[2] == '-' && r[5] == ' ' && r[8] == ':' && r[11] == ':'
    requires Reads(r, 0, 2, c.month) && Reads(r, 3, 5, c.day) && Reads(r, 6, 8, c.hour)
    requires Reads(r, 9, 11, c.minute) && Reads(r, 12, 14, c.second)
    ensures StampOf(y + "-" + r, c)
  {
    Peel(y, '-', r, c.year);
    ReadsShift(y + "-", r, 0, 2, c.month);
    ReadsShift(y + "-", r, 3, 5, c.day);
    ReadsShift(y + "-", r, 6, 8, c.hour);
    ReadsShift(y + "-", r, 9, 11, c.minute);
    ReadsShift(y + "-", r, 12, 14, c.second);
  }

  /** `a` is a 19-character `%Y-%m-%d %H:%M:%S` stamp whose fields read as `c`. */
  predicate StampOf(a: string, c: Clock) {
    && |a| == 19
    && a[4] == '-' && a[7] == '-' && a[10] == ' ' && a[13] == ':' && a[16] == ':'
    && Reads(a, 0, 4, c.year) && Reads(a, 5, 7, c.month) && Reads(a, 8, 10, c.day)
    && Reads(a, 11, 13, c.hour) && Reads(a, 14, 16, c.minute) && Reads(a, 17, 19, c.second)
  }

  /**
    * For a clock whose fields fit their widths, the `%Y-%m-%d %H:%M:%S` stamp
    * is 19 characters with its separators in fixed places, and each field
    * reads back as the clock's own value.
    */
  lemma AscTimeLayout(t: Clock)
    requires t.year < 10000 && t.month < 100 && t.day < 100
    requires t.hour < 100 && t.minute < 100 && t.second < 100
    ensures StampOf(AscTime(t), t)
  {
    assert Pow10(2) == 100 && Pow10(4) == 10000;
    PaddedFits(t.year, 4);
    PaddedFits(t.month, 2);
    PaddedFits(t.day, 2);
    PaddedFits(t.hour, 2);
    PaddedFits(t.minute, 2);
    PaddedFits(t.second, 2);
    var y, mo, d := Padded(t.year, 4), Padded(t.month, 2), Padded(t.day, 2);
    var h, mi, sec := Padded(t.hour, 2), Padded(t.minute, 2), Padded(t.second, 2);
    MinuteSecond(mi, sec, t.minute, t.second);
    HourOn(h, mi + ":" + sec, t.hour, t.minute, t.second);
    DayOn(d, h + ":" + (mi + ":" + sec), t.day, t.hour, t.minute, t.second);
    MonthOn(mo, d + " " + (h + ":" + (mi + ":" + sec)), t.month, t.day, t.hour, t.minute, t.second);
    YearOn(y, mo + "-" + (d + " " + (h + ":" + (mi + ":" + sec))), t);
  }

  /**
    * A record is `[`, the 19-character stamp, `] [VideoAgent] [`, the level
    * name and `] `, then the message as given: each part sits at a fixed
    * place, so the message is what follows the header.
    */
  lemma FormatLayout(t: Clock, level: Level, message: string)
    requires t.year < 10000 && t.month < 100 && t.day < 100
    requires t.hour < 100 && t.minute < 100 && t.second < 100
    ensures var line, n := Format(t, level, message), |LevelName(level)|;
            && |Header(t, level)| == 38 + n && |line| == 38 + n + |message|
            && line[0] == '[' && line[1..20] == AscTime(t) && line[20..36] == "] [" + LoggerName + "] ["
            && line[36..36 + n] == LevelName(level) && line[36 + n..38 + n] == "] "
            && line[38 + n..] == message
  {
    AscTimeLayout(t);
    RecordParts(AscTime(t), LevelName(level), message);
  }

  /** The parts of a record, over any 19-character stamp `a` and level name `l`. */
  lemma RecordParts(a: string, l: string, m: string)
    requires |a| == 19
    ensures var line, n := "[" + a + "] [" + LoggerName + "] [" + l + "] " + m, |l|;
            && |line| == 38 + n + |m|
            && line[0] == '[' && line[1..20] == a && line[20..36] == "] [" + LoggerName + "] ["
            && line[36..36 + n] == l && line[36 + n..38 + n] == "] "
            && line[38 + n..] == m
  {
    var mid := "] [" + LoggerName + "] [";
    assert |mid| == 16;
    var p := "[" + a + mid;
    assert "[" + a + "] [" + LoggerName + "] [" == p;
    assert p[1..20] == a && p[20..36] == mid;
    var q := p + l + "] ";
    assert q[..36] == p && q[36..36 + |l|] == l && q[36 + |l|..] == "] ";
  }
}
