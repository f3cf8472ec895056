/** Twelve-hour time labels ("09:15 AM") as the availability handlers and
    schedule.js write them, and their reading back into a 24-hour clock as
    `toTs` (customer.js, fleet.js) and the same-day slot filter of
    schedule.js do it: `[time, suf] = s.split(' ')`,
    `[h, m] = time.split(':').map(Number)`, then PM with h < 12 adds 12 and
    12 AM becomes 0. */
module ClockLabels {
  import opened Common
  import opened Decimal
  import Records

  /** Hour on a 12-hour dial as server.js and mainServer.js compute it:
      `h === 12 ? 12 : (h > 12 ? h - 12 : h)`. */
  function ServerHour12(h: nat): nat {
    if h == 12 then 12 else if h > 12 then h - 12 else h
  }

  /** Hour on a 12-hour dial as schedule.js computes it: `(h % 12) || 12`. */
  function ClientHour12(h: nat): nat {
    if h % 12 == 0 then 12 else h % 12
  }

  /** `h < 12 ? 'AM' : 'PM'`. */
  function Suffix(h: int): string {
    if h < 12 then "AM" else "PM"
  }

  /** `${pad2(hour12)}:${pad2(minute)} ${suffix}`. */
  function Label(hour12: nat, minute: nat, suffix: string): string {
    Pad2(hour12) + ":" + Pad2(minute) + " " + suffix
  }

  /** For a dial hour and a minute below 100 a label is two digits, a
      colon, two digits, a space and the suffix. */
  lemma LabelShape(hour12: nat, minute: nat, suffix: string)
    requires hour12 < 100 && minute < 100
    ensures var r := Label(hour12, minute, suffix);
            |r| == 6 + |suffix| && r[2] == ':' && r[5] == ' ' && r[6..] == suffix
            && AllDigits(r[..2]) && AllDigits(r[3..5])
  {
    Pad2Exact(hour12);
    Pad2Exact(minute);
    var r := Label(hour12, minute, suffix);
    assert r[..2] == Pad2(hour12) && r[3..5] == Pad2(minute) && r[6..] == suffix;
  }

  lemma Pad2Zero()
    ensures Pad2(0) == "00"
  {
    var r := Pad2(0);
    assert NatText(0) == "0";
    assert |r| == 2 && r[1..] == "0" && r[0] == '0';
    assert r == [r[0]] + r[1..];
  }

  lemma Pad2Exact(n: nat)
    ensures n < 100 ==> |Pad2(n)| == 2 && AllDigits(Pad2(n))
  {
    if n < 100 {
      Pad2RoundTrip(n);
    }
  }

  // ---- reading a label back ---------------------------------------------

  /** `s.split(c)`: the pieces between the occurrences of `c`. */
  function Split(s: string, c: char): (ps: seq<string>)
    ensures |ps| >= 1
    decreases |s|
  {
    var k := Run(s, x => x != c);
    if k == |s| then [s] else [s[..k]] + Split(s[k + 1..], c)
  }

  lemma SplitNone(a: string, c: char)
    requires c !in a
    ensures Split(a, c) == [a]
  {
    var k := Run(a, x => x != c);
    assert k == |a|;
  }

  lemma SplitWithout(a: string, c: char)
    ensures c !in a ==> Split(a, c) == [a]
  {
    if c !in a {
      SplitNone(a, c);
    }
  }

  lemma SplitAt(a: string, c: char, b: string)
    requires c !in a
    ensures Split(a + [c] + b, c) == [a] + Split(b, c)
  {
    var s := a + [c] + b;
    assert forall i :: 0 <= i < |a| ==> s[i] == a[i];
    assert s[|a|] == c;
    var k := Run(s, x => x != c);
    assert k == |a|;
    assert s[..k] == a && s[k + 1..] == b;
  }

  /** `Number(piece)` for the pieces a time label splits into: the text
      reading of `Records.NumberText`, and NaN (`None`) for `undefined`. */
  function NumberOf(piece: Option<string>): Option<int> {
    match piece
    case None => None
    case Some(p) => Records.NumberText(p)
  }

  function Piece(ps: seq<string>, i: nat): Option<string> {
    if i < |ps| then Some(ps[i]) else None
  }

  /** A label read as `[time, suf] = s.split(' ')` and
      `[h, m] = time.split(':').map(Number)`; NaN and `undefined` are `None`. */
  datatype Clock = Clock(hour: Option<int>, minute: Option<int>, suffix: Option<string>)

  /** A text without a space has no suffix, and one without a colon
      either has no minute (`undefined`, hence NaN) and is read whole as
      the hour. */
  function ParseClock(s: string): (c: Clock)
    ensures ' ' !in s ==> c.suffix == None
    ensures ' ' !in s && ':' !in s ==> c.minute == None && c.hour == Records.NumberText(s)
  {
    SplitWithout(s, ' ');
    SplitWithout(s, ':');
    var parts := Split(s, ' ');
    var hm := Split(parts[0], ':');
    Clock(NumberOf(Piece(hm, 0)), NumberOf(Piece(hm, 1)), Piece(parts, 1))
  }

  /** The 12-hour to 24-hour rule of `toTs`: PM with h < 12 adds 12,
      12 AM becomes 0, every other hour is kept. */
  function To24(h: int, suffix: Option<string>): (r: int)
    ensures 1 <= h <= 12 && suffix == Some("AM") ==> 0 <= r < 12
    ensures 1 <= h <= 12 && suffix == Some("PM") ==> 12 <= r < 24
    ensures suffix != Some("AM") && suffix != Some("PM") ==> r == h
  {
    if suffix == Some("PM") && h < 12 then h + 12
    else if suffix == Some("AM") && h == 12 then 0
    else h
  }

  /** Minute of the day a read clock stands for; `None` when it is NaN. */
  function ClockMinute(c: Clock): Option<int> {
    if c.hour.Some? && c.minute.Some? then Some(To24(c.hour.value, c.suffix) * 60 + c.minute.value)
    else None
  }

  /** Minute of the day a label stands for. */
  function MinuteOfDay(s: string): Option<int> {
    ClockMinute(ParseClock(s))
  }

  // ---- round trip --------------------------------------------------------

  lemma NumberOfDigits(s: string)
    requires |s| >= 1 && AllDigits(s)
    ensures NumberOf(Some(s)) == Some(Value(s))
  {
    assert IsDigit(s[0]) && IsDigit(s[|s| - 1]);
    VisibleNotSpace(s[0]);
    VisibleNotSpace(s[|s| - 1]);
    TrimUnchanged(s);
  }

  lemma DigitsNoChar(s: string, c: char)
    requires AllDigits(s) && !IsDigit(c)
    ensures c !in s
  {
    forall i | 0 <= i < |s| ensures s[i] != c { assert IsDigit(s[i]); }
  }

  /** "HH:MM" has no space and splits at the colon into its two parts. */
  lemma TimeParts(hh: string, mm: string)
    requires |hh| == 2 && |mm| == 2 && AllDigits(hh) && AllDigits(mm)
    ensures ' ' !in hh + [':'] + mm
    ensures Split(hh + [':'] + mm, ':') == [hh, mm]
  {
    assert hh + [':'] + mm == [hh[0], hh[1], ':', mm[0], mm[1]];
    assert IsDigit(hh[0]) && IsDigit(hh[1]) && IsDigit(mm[0]) && IsDigit(mm[1]);
    DigitsNoChar(hh, ':');
    DigitsNoChar(mm, ':');
    SplitAt(hh, ':', mm);
    SplitNone(mm, ':');
  }

  /** `Number` reads a leading minus: "-" and a run of digits is the
      negated value. */
  lemma NumberOfNegative(t: string)
    requires |t| >= 2 && t[0] == '-' && AllDigits(t[1..])
    ensures NumberOf(Some(t)) == Some(0 - Value(t[1..]))
  {
    assert IsDigit(t[1..][|t| - 2]);
    VisibleNotSpace('-');
    VisibleNotSpace(t[|t| - 1]);
    TrimUnchanged(t);
    assert !IsDigit(t[0]);
  }

  lemma SignedNoChar(h: string, c: char)
    requires |h| >= 1 && h[0] == '-' && AllDigits(h[1..]) && c != '-' && !IsDigit(c)
    ensures c !in h
  {
    forall i | 1 <= i < |h| ensures h[i] != c { assert h[i] == h[1..][i - 1]; }
  }

  /** "-D:MM" has no space and splits at the colon into its two parts. */
  lemma SignedTimeParts(h: string, mm: string)
    requires |h| >= 2 && h[0] == '-' && AllDigits(h[1..])
    requires |mm| == 2 && AllDigits(mm)
    ensures ' ' !in h + [':'] + mm
    ensures Split(h + [':'] + mm, ':') == [h, mm]
  {
    SignedNoChar(h, ':');
    SignedNoChar(h, ' ');
    DigitsNoChar(mm, ':');
    DigitsNoChar(mm, ' ');
    SplitAt(h, ':', mm);
    SplitNone(mm, ':');
  }

  /** "-D:MM SUF" reads as the negative hour -D, the minute and the suffix. */
  lemma SignedShape(h: string, mm: string, suffix: string)
    requires |h| >= 2 && h[0] == '-' && AllDigits(h[1..])
    requires |mm| == 2 && AllDigits(mm) && ' ' !in suffix
    ensures ParseClock(h + ":" + mm + " " + suffix)
            == Clock(Some(0 - Value(h[1..])), Some(Value(mm)), Some(suffix))
  {
    var time := h + [':'] + mm;
    SignedTimeParts(h, mm);
    assert h + ":" + mm + " " + suffix == time + [' '] + suffix;
    SplitAt(time, ' ', suffix);
    SplitNone(suffix, ' ');
    NumberOfNegative(h);
    NumberOfDigits(mm);
  }

  /** `Number` reads a sign, and the PM rule then adds 12 to the negative
      hour: "-3:00 PM" reads as hour -3 and stands for 9:00. */
  lemma SignedHour(s: string)
    requires s == "-3:00 PM"
    ensures ParseClock(s) == Clock(Some(-3), Some(0), Some("PM"))
    ensures MinuteOfDay(s) == Some(9 * 60)
  {
    assert s == "-3" + ":" + "00" + " " + "PM";
    assert "-3"[1..] == "3";
    assert Value("3") == 3 && Value("00") == 0;
    SignedShape("-3", "00", "PM");
    MinuteOfClock(s, Clock(Some(-3), Some(0), Some("PM")));
    SignedClockMinute(3, 0);
  }

  lemma MinuteOfClock(s: string, c: Clock)
    requires ParseClock(s) == c
    ensures MinuteOfDay(s) == ClockMinute(c)
  {
  }

  lemma SignedClockMinute(d: nat, m: int)
    ensures ClockMinute(Clock(Some(0 - d), Some(m), Some("PM"))) == Some((12 - d) * 60 + m)
  {
  }

  /** Any text of the shape "HH:MM SUF" reads back as its three parts. */
  lemma ParseShape(hh: string, mm: string, suffix: string)
    requires |hh| == 2 && |mm| == 2 && AllDigits(hh) && AllDigits(mm) && ' ' !in suffix
    ensures ParseClock(hh + ":" + mm + " " + suffix)
            == Clock(Some(Value(hh)), Some(Value(mm)), Some(suffix))
  {
    var time := hh + [':'] + mm;
    TimeParts(hh, mm);
    assert hh + ":" + mm + " " + suffix == time + [' '] + suffix;
    SplitAt(time, ' ', suffix);
    SplitNone(suffix, ' ');
    NumberOfDigits(hh);
    NumberOfDigits(mm);
  }

  /** A label written for `hour12`, `minute` and a suffix without spaces reads
      back as exactly those three values. */
  lemma ParseLabel(hour12: nat, minute: nat, suffix: string)
    requires hour12 < 100 && minute < 100 && ' ' !in suffix
    ensures ParseClock(Label(hour12, minute, suffix))
            == Clock(Some(hour12), Some(minute), Some(suffix))
  {
    Pad2RoundTrip(hour12);
    Pad2RoundTrip(minute);
    ParseShape(Pad2(hour12), Pad2(minute), suffix);
  }

  /** The 24-hour reading inverts the 12-hour writing of schedule.js for
      every hour of the day. */
  lemma ClientLabelRoundTrip(h: nat, m: nat)
    requires h < 24 && m < 60
    ensures MinuteOfDay(Label(ClientHour12(h), m, Suffix(h))) == Some(h * 60 + m)
  {
    LabelRoundTrip(h, ClientHour12(h), m);
  }

  lemma LabelRoundTrip(h: nat, h12: nat, m: nat)
    requires h < 24 && m < 60 && h12 == ClientHour12(h)
    ensures MinuteOfDay(Label(h12, m, Suffix(h))) == Some(h * 60 + m)
  {
    ParseLabel(h12, m, Suffix(h));
    ClientClockMinute(h, m);
  }

  lemma ClientClockMinute(h: nat, m: nat)
    requires h < 24
    ensures ClockMinute(Clock(Some(ClientHour12(h)), Some(m), Some(Suffix(h)))) == Some(h * 60 + m)
  {
  }

  /** The hour schedule.js writes, read back with its suffix, is the hour
      it was written for. */
  lemma To24OfClientHour(h: nat)
    requires h < 24
    ensures To24(ClientHour12(h), Some(Suffix(h))) == h
  {
  }

  /** The availability handlers and schedule.js put the same number on
      the dial for every hour from 1 to 23 (they differ only at midnight,
      0 against 12). */
  lemma ServerHourAgrees(h: nat)
    requires 1 <= h < 24
    ensures ServerHour12(h) == ClientHour12(h)
  {
  }

  /** So the labels of the availability handlers read back as the time
      they were written for. */
  lemma ServerLabelRoundTrip(h: nat, m: nat)
    requires 1 <= h < 24 && m < 60
    ensures MinuteOfDay(Label(ServerHour12(h), m, Suffix(h))) == Some(h * 60 + m)
  {
    ServerHourAgrees(h);
    LabelRoundTrip(h, ServerHour12(h), m);
  }

  /** Conversely, reading a 12-hour hour with its AM/PM suffix and writing
      it again gives back the same dial hour and suffix. */
  lemma To24Inverse(h12: int, suffix: string)
    requires 1 <= h12 <= 12 && (suffix == "AM" || suffix == "PM")
    ensures 0 <= To24(h12, Some(suffix)) < 24
    ensures ClientHour12(To24(h12, Some(suffix))) == h12
    ensures Suffix(To24(h12, Some(suffix))) == suffix
  {
  }
}
