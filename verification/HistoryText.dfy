/**
The text of a timestamp: the protocol's shape of an RFC 3339 date-time (section 5.6), and the history
position of the text.
*/
module HistoryText {
  import opened Protocol
  import opened History
  import opened HistoryOrder

  // ---------------------------------------------------------------- numbers of fixed width

  predicate IsDigit(c: char) {
    '0' <= c <= '9'
  }

  function DigitOf(n: nat): char
    requires n < 10
  {
    "0123456789"[n]
  }

  function ValueOf(c: char): nat
    requires IsDigit(c)
  {
    (c as int) - ('0' as int)
  }

  function Pad(n: nat, width: nat): (t: string)
    ensures |t| == width
  {
    if width == 0 then "" else Pad(n / 10, width - 1) + [DigitOf(n % 10)]
  }

  function Power(width: nat): nat {
    if width == 0 then 1 else 10 * Power(width - 1)
  }

  /** The number a text of digits spells. */
  function Number(t: string): Option<nat> {
    if t == "" then Some(0)
    else
      var before, c := Number(t[..|t| - 1]), t[|t| - 1];
      if before.Some? && IsDigit(c) then Some(before.value * 10 + ValueOf(c)) else None
  }

  lemma DigitValue(n: nat)
    requires n < 10
    ensures IsDigit(DigitOf(n)) && ValueOf(DigitOf(n)) == n
  {
  }

  lemma ValueDigit(c: char)
    requires IsDigit(c)
    ensures ValueOf(c) < 10 && DigitOf(ValueOf(c)) == c
  {
  }

  lemma {:induction false} NumberPad(n: nat, width: nat)
    requires n < Power(width)
    ensures Number(Pad(n, width)) == Some(n)
  {
    if width > 0 {
      NumberPad(n / 10, width - 1);
      DigitValue(n % 10);
      assert Pad(n, width)[..width - 1] == Pad(n / 10, width - 1);
    }
  }

  lemma {:induction false} PadNumber(t: string)
    requires Number(t).Some?
    ensures Number(t).value < Power(|t|) && Pad(Number(t).value, |t|) == t
  {
    if t != "" {
      var before, c := t[..|t| - 1], t[|t| - 1];
      PadNumber(before);
      ValueDigit(c);
      assert t == before + [c];
      var n, v := Number(before).value, ValueOf(c);
      assert Number(t).value == n * 10 + v;
      hide Number, ValueOf;
      PadNext(n, v, |before|);
      PowerNext(n, v, |before|);
    }
  }

  lemma PadNext(n: nat, v: nat, width: nat)
    requires v < 10
    ensures Pad(n * 10 + v, width + 1) == Pad(n, width) + [DigitOf(v)]
  {
    assert (n * 10 + v) / 10 == n && (n * 10 + v) % 10 == v;
    hide DigitOf;
  }

  lemma PowerNext(n: nat, v: nat, width: nat)
    requires v < 10 && n < Power(width)
    ensures n * 10 + v < Power(width + 1)
  {
  }

  // ---------------------------------------------------------------- fields

  datatype Taken = Taken(value: nat, rest: string)

  /** A number of a fixed width and what follows it. */
  function Field(t: string, width: nat): Option<Taken> {
    if |t| < width || Number(t[..width]).None? then None else Some(Taken(Number(t[..width]).value, t[width..]))
  }

  /** A number of a fixed width up to a mark, and what follows the mark. */
  function Marked(t: string, width: nat, mark: char): Option<Taken> {
    var f := Field(t, width);
    if f.None? || f.value.rest == "" || f.value.rest[0] != mark then None else Some(Taken(f.value.value, f.value.rest[1..]))
  }

  lemma FieldExact(t: string, width: nat, n: nat, rest: string)
    ensures Field(t, width) == Some(Taken(n, rest)) <==> n < Power(width) && t == Pad(n, width) + rest
  {
    if Field(t, width) == Some(Taken(n, rest)) {
      PadNumber(t[..width]);
      assert t == t[..width] + t[width..];
    }
    if n < Power(width) && t == Pad(n, width) + rest {
      NumberPad(n, width);
      assert t[..width] == Pad(n, width) && t[width..] == rest;
    }
  }

  lemma MarkedExact(t: string, width: nat, mark: char, n: nat, rest: string)
    ensures Marked(t, width, mark) == Some(Taken(n, rest)) <==> n < Power(width) && t == Pad(n, width) + ([mark] + rest)
  {
    hide Field, Pad, Power;
    if Marked(t, width, mark) == Some(Taken(n, rest)) {
      var f := Field(t, width).value;
      FieldExact(t, width, f.value, f.rest);
      assert f.rest == [mark] + rest;
    }
    if n < Power(width) && t == Pad(n, width) + ([mark] + rest) {
      FieldExact(t, width, n, [mark] + rest);
      assert ([mark] + rest)[1..] == rest;
    }
  }

  // ---------------------------------------------------------------- fraction and zone

  /** The leading digits of a text. */
  function Digits(t: string): seq<nat> {
    if t == "" || !IsDigit(t[0]) then [] else [ValueOf(t[0])] + Digits(t[1..])
  }

  predicate Decimal(fraction: seq<nat>) {
    forall i | 0 <= i < |fraction| :: fraction[i] < 10
  }

  function DigitText(fraction: seq<nat>): (t: string)
    requires Decimal(fraction)
    ensures |t| == |fraction|
  {
    seq(|fraction|, i requires 0 <= i < |fraction| => DigitOf(fraction[i]))
  }

  lemma {:induction false} DigitsAt(t: string)
    ensures |Digits(t)| <= |t|
    ensures forall i | 0 <= i < |Digits(t)| :: IsDigit(t[i]) && Digits(t)[i] == ValueOf(t[i])
    ensures |Digits(t)| < |t| ==> !IsDigit(t[|Digits(t)|])
  {
    if t != "" && IsDigit(t[0]) {
      var rest := t[1..];
      DigitsAt(rest);
      assert Digits(t) == [ValueOf(t[0])] + Digits(rest);
      hide Digits;
      forall i | 0 < i < |Digits(t)| ensures IsDigit(t[i]) && Digits(t)[i] == ValueOf(t[i]) { assert rest[i - 1] == t[i]; }
    }
  }

  lemma DigitsLength(t: string)
    ensures |Digits(t)| <= |t| && Decimal(Digits(t))
    ensures t == DigitText(Digits(t)) + t[|Digits(t)|..]
    ensures t[|Digits(t)|..] == "" || !IsDigit(t[|Digits(t)|])
  {
    DigitsAt(t);
    hide Digits;
    var n := |Digits(t)|;
    forall i | 0 <= i < n ensures Digits(t)[i] < 10 && DigitOf(Digits(t)[i]) == t[i] { ValueDigit(t[i]); }
    assert DigitText(Digits(t)) == t[..n];
    assert t == t[..n] + t[n..];
  }

  lemma {:induction false} DigitsOfText(fraction: seq<nat>, rest: string)
    requires Decimal(fraction)
    requires rest == "" || !IsDigit(rest[0])
    ensures Digits(DigitText(fraction) + rest) == fraction
    decreases |fraction|
  {
    if fraction == [] {
      assert DigitText(fraction) + rest == rest;
    } else {
      DigitsOfText(fraction[1..], rest);
      DigitValue(fraction[0]);
      var t := DigitText(fraction) + rest;
      assert t[0] == DigitOf(fraction[0]) && t[1..] == DigitText(fraction[1..]) + rest;
      assert fraction == [fraction[0]] + fraction[1..];
    }
  }

  datatype Zone = Zone(west: bool, hour: nat, minute: nat)

  function ZoneOf(t: string): Option<Zone> {
    if t == "Z" then Some(Zone(false, 0, 0))
    else if t == "" || (t[0] != '+' && t[0] != '-') then None
    else
      var hour := Marked(t[1..], 2, ':');
      if hour.None? then None
      else
        var minute := Field(hour.value.rest, 2);
        if minute.None? || minute.value.rest != "" then None
        else Some(Zone(t[0] == '-', hour.value.value, minute.value.value))
  }

  function ZoneText(z: Zone, zulu: bool): string {
    if zulu then "Z" else [if z.west then '-' else '+'] + (Pad(z.hour, 2) + ([':'] + Pad(z.minute, 2)))
  }

  /** Whether a zone can be written with a Z. */
  predicate Zulu(z: Zone, zulu: bool) {
    zulu ==> z == Zone(false, 0, 0)
  }

  lemma PowerTwo()
    ensures Power(2) == 100 && Power(4) == 10000
  {
    assert Power(1) == 10;
    assert Power(3) == 1000;
  }

  lemma OffsetExact(t: string, z: Zone)
    requires t != "" && t != "Z"
    ensures ZoneOf(t) == Some(z) <==> z.hour < 100 && z.minute < 100 && t == ZoneText(z, false)
  {
    PowerTwo();
    hide Pad, Field, Marked, Power;
    var rest := t[1..];
    assert t == [t[0]] + rest;
    if ZoneOf(t) == Some(z) {
      var hour := Marked(rest, 2, ':').value;
      MarkedExact(rest, 2, ':', hour.value, hour.rest);
      FieldExact(hour.rest, 2, z.minute, "");
      assert Pad(z.minute, 2) + "" == Pad(z.minute, 2);
    }
    if z.hour < 100 && z.minute < 100 && t == ZoneText(z, false) {
      assert t[0] == if z.west then '-' else '+';
      assert rest == Pad(z.hour, 2) + ([':'] + Pad(z.minute, 2));
      MarkedExact(rest, 2, ':', z.hour, Pad(z.minute, 2));
      FieldExact(Pad(z.minute, 2), 2, z.minute, "");
      assert Pad(z.minute, 2) + "" == Pad(z.minute, 2);
    }
  }

  lemma ZoneExact(t: string, z: Zone)
    ensures ZoneOf(t) == Some(z) <==>
              z.hour < 100 && z.minute < 100 && exists zulu :: Zulu(z, zulu) && t == ZoneText(z, zulu)
  {
    if t == "Z" {
      assert Zulu(Zone(false, 0, 0), true) && t == ZoneText(Zone(false, 0, 0), true);
      forall zulu | Zulu(z, zulu) && t == ZoneText(z, zulu) ensures zulu {}
    } else if t != "" {
      OffsetExact(t, z);
      if ZoneOf(t) == Some(z) { assert Zulu(z, false) && t == ZoneText(z, false); }
    }
  }

  lemma ZoneStarts(z: Zone, zulu: bool)
    ensures ZoneText(z, zulu) != "" && !IsDigit(ZoneText(z, zulu)[0]) && ZoneText(z, zulu)[0] != '.'
  {
  }

  datatype Tail = Tail(fraction: seq<nat>, zone: Zone)

  /** At most nine digits of a fraction, then the zone. */
  function TailOf(t: string): Option<Tail> {
    if t != "" && t[0] == '.' then
      var fraction := Digits(t[1..]);
      DigitsLength(t[1..]);
      var zone := ZoneOf(t[1 + |fraction|..]);
      if 1 <= |fraction| <= 9 && zone.Some? then Some(Tail(fraction, zone.value)) else None
    else
      var zone := ZoneOf(t);
      if zone.Some? then Some(Tail([], zone.value)) else None
  }

  function TailText(tail: Tail, zulu: bool): string
    requires Decimal(tail.fraction)
  {
    (if tail.fraction == [] then "" else "." + DigitText(tail.fraction)) + ZoneText(tail.zone, zulu)
  }

  predicate TailShaped(tail: Tail) {
    |tail.fraction| <= 9 && Decimal(tail.fraction) && tail.zone.hour < 100 && tail.zone.minute < 100
  }

  lemma FractionReads(t: string, tail: Tail)
    requires t != "" && t[0] == '.' && TailOf(t) == Some(tail)
    ensures TailShaped(tail) && tail.fraction != [] && exists zulu :: Zulu(tail.zone, zulu) && t == TailText(tail, zulu)
  {
    var rest := t[1..];
    assert t == "." + rest;
    DigitsLength(rest);
    hide ZoneOf, ZoneText, Digits, DigitText;
    ZoneExact(rest[|tail.fraction|..], tail.zone);
    var zulu :| Zulu(tail.zone, zulu) && rest[|tail.fraction|..] == ZoneText(tail.zone, zulu);
    assert t == TailText(tail, zulu);
  }

  lemma Assembled(a: string, b: string)
    ensures ("." + a) + b == "." + (a + b) && ("." + (a + b))[1..] == a + b && (a + b)[|a|..] == b
  {
  }

  lemma FractionWritten(t: string, tail: Tail, zulu: bool)
    requires TailShaped(tail) && tail.fraction != [] && Zulu(tail.zone, zulu) && t == TailText(tail, zulu)
    ensures t != "" && t[0] == '.' && TailOf(t) == Some(tail)
  {
    var digits, zone := DigitText(tail.fraction), ZoneText(tail.zone, zulu);
    Assembled(digits, zone);
    ZoneStarts(tail.zone, zulu);
    DigitsOfText(tail.fraction, zone);
    hide ZoneOf, ZoneText, Digits, DigitText, Zulu;
    ZoneExact(zone, tail.zone);
    assert t[1..] == digits + zone && t[1..][|tail.fraction|..] == zone;
    assert t[1 + |tail.fraction|..] == t[1..][|tail.fraction|..];
  }

  lemma FractionExact(t: string, tail: Tail)
    requires t != "" && t[0] == '.'
    ensures TailOf(t) == Some(tail) <==>
              TailShaped(tail) && tail.fraction != [] && exists zulu :: Zulu(tail.zone, zulu) && t == TailText(tail, zulu)
  {
    hide TailOf, TailText, Zulu;
    if TailOf(t) == Some(tail) { FractionReads(t, tail); }
    if TailShaped(tail) && tail.fraction != [] && exists zulu :: Zulu(tail.zone, zulu) && t == TailText(tail, zulu) {
      var zulu :| Zulu(tail.zone, zulu) && t == TailText(tail, zulu);
      FractionWritten(t, tail, zulu);
    }
  }

  lemma PlainExact(t: string, tail: Tail)
    requires t == "" || t[0] != '.'
    ensures TailOf(t) == Some(tail) <==>
              TailShaped(tail) && exists zulu :: Zulu(tail.zone, zulu) && t == TailText(tail, zulu)
  {
    hide ZoneOf, ZoneText, Digits, DigitText;
    ZoneExact(t, tail.zone);
    if TailOf(t) == Some(tail) {
      var zulu :| Zulu(tail.zone, zulu) && t == ZoneText(tail.zone, zulu);
      assert "" + ZoneText(tail.zone, zulu) == ZoneText(tail.zone, zulu);
      assert t == TailText(tail, zulu);
    }
    if TailShaped(tail) && exists zulu :: Zulu(tail.zone, zulu) && t == TailText(tail, zulu) {
      var zulu :| Zulu(tail.zone, zulu) && t == TailText(tail, zulu);
      ZoneStarts(tail.zone, zulu);
      assert tail.fraction == [];
      assert "" + ZoneText(tail.zone, zulu) == ZoneText(tail.zone, zulu);
    }
  }

  lemma TailExact(t: string, tail: Tail)
    ensures TailOf(t) == Some(tail) <==>
              TailShaped(tail) && exists zulu :: Zulu(tail.zone, zulu) && t == TailText(tail, zulu)
  {
    hide TailOf, ZoneText, DigitText;
    if t != "" && t[0] == '.' {
      FractionExact(t, tail);
      forall zulu | TailShaped(tail) && Zulu(tail.zone, zulu) && t == TailText(tail, zulu) ensures tail.fraction != [] {
        ZoneStarts(tail.zone, zulu);
        assert "" + ZoneText(tail.zone, zulu) == ZoneText(tail.zone, zulu);
      }
    } else {
      PlainExact(t, tail);
    }
  }

  // ---------------------------------------------------------------- the whole text

  datatype Clock = Clock(hour: nat, minute: nat, second: nat)

  datatype Day = Day(year: nat, month: nat, day: nat)

  function DayOf(t: string): Option<(Day, string)> {
    var year := Marked(t, 4, '-');
    if year.None? then None
    else
      var month := Marked(year.value.rest, 2, '-');
      if month.None? then None
      else
        var day := Marked(month.value.rest, 2, 'T');
        if day.None? then None else Some((Day(year.value.value, month.value.value, day.value.value), day.value.rest))
  }

  function DayText(d: Day, rest: string): string {
    Pad(d.year, 4) + (['-'] + (Pad(d.month, 2) + (['-'] + (Pad(d.day, 2) + (['T'] + rest)))))
  }

  function ClockOf(t: string): Option<(Clock, string)> {
    var hour := Marked(t, 2, ':');
    if hour.None? then None
    else
      var minute := Marked(hour.value.rest, 2, ':');
      if minute.None? then None
      else
        var second := Field(minute.value.rest, 2);
        if second.None? then None else Some((Clock(hour.value.value, minute.value.value, second.value.value), second.value.rest))
  }

  function ClockText(c: Clock, rest: string): string {
    Pad(c.hour, 2) + ([':'] + (Pad(c.minute, 2) + ([':'] + (Pad(c.second, 2) + rest))))
  }

  lemma DayExact(t: string, d: Day, rest: string)
    ensures DayOf(t) == Some((d, rest)) <==> d.year < 10000 && d.month < 100 && d.day < 100 && t == DayText(d, rest)
  {
    PowerTwo();
    hide Pad, Power, Marked;
    if DayOf(t) == Some((d, rest)) {
      var year := Marked(t, 4, '-').value;
      var month := Marked(year.rest, 2, '-').value;
      MarkedExact(t, 4, '-', year.value, year.rest);
      MarkedExact(year.rest, 2, '-', month.value, month.rest);
      MarkedExact(month.rest, 2, 'T', d.day, rest);
    }
    if d.year < 10000 && d.month < 100 && d.day < 100 && t == DayText(d, rest) {
      var last := Pad(d.day, 2) + (['T'] + rest);
      var middle := Pad(d.month, 2) + (['-'] + last);
      MarkedExact(t, 4, '-', d.year, middle);
      MarkedExact(middle, 2, '-', d.month, last);
      MarkedExact(last, 2, 'T', d.day, rest);
    }
  }

  lemma ClockExact(t: string, c: Clock, rest: string)
    ensures ClockOf(t) == Some((c, rest)) <==> c.hour < 100 && c.minute < 100 && c.second < 100 && t == ClockText(c, rest)
  {
    PowerTwo();
    hide Pad, Power, Marked, Field;
    if ClockOf(t) == Some((c, rest)) {
      var hour := Marked(t, 2, ':').value;
      var minute := Marked(hour.rest, 2, ':').value;
      MarkedExact(t, 2, ':', hour.value, hour.rest);
      MarkedExact(hour.rest, 2, ':', minute.value, minute.rest);
      FieldExact(minute.rest, 2, c.second, rest);
    }
    if c.hour < 100 && c.minute < 100 && c.second < 100 && t == ClockText(c, rest) {
      var last := Pad(c.second, 2) + rest;
      var middle := Pad(c.minute, 2) + ([':'] + last);
      MarkedExact(t, 2, ':', c.hour, middle);
      MarkedExact(middle, 2, ':', c.minute, last);
      FieldExact(last, 2, c.second, rest);
    }
  }

  /** The fields of a text of the protocol's shape; nothing for any other text. */
  function Parse(t: string): Option<Stamp> {
    var day := DayOf(t);
    if day.None? then None
    else
      var clock := ClockOf(day.value.1);
      if clock.None? then None
      else
        var tail := TailOf(clock.value.1);
        if tail.None? then None else Some(Joined(day.value.0, clock.value.0, tail.value))
  }

  function Joined(d: Day, c: Clock, tail: Tail): Stamp {
    Stamp(d.year, d.month, d.day, c.hour, c.minute, c.second, tail.fraction, tail.zone.west, tail.zone.hour, tail.zone.minute)
  }

  function TailIn(s: Stamp): Tail {
    Tail(s.fraction, Zone(s.west, s.offsetHour, s.offsetMinute))
  }

  /** The text that writes the fields, its zone as a Z or as an offset. */
  function TextOf(s: Stamp, zulu: bool): string
    requires Shaped(s)
  {
    assert forall i | 0 <= i < |s.fraction| :: s.fraction[i] in s.fraction;
    DayText(Day(s.year, s.month, s.day), ClockText(Clock(s.hour, s.minute, s.second), TailText(TailIn(s), zulu)))
  }

  lemma ShapedFraction(s: Stamp)
    ensures (forall d | d in s.fraction :: d < 10) <==> Decimal(s.fraction)
  {
    assert forall i | 0 <= i < |s.fraction| :: s.fraction[i] in s.fraction;
  }

  /**
   * The parser reads exactly the texts that write well-shaped fields: each text has one reading, and
   * fields have one text, but that a zone of zero may also be written as a Z.
   */
  lemma ParseExact(t: string, s: Stamp)
    ensures Parse(t) == Some(s) <==> Shaped(s) && exists zulu :: Zulu(TailIn(s).zone, zulu) && t == TextOf(s, zulu)
  {
    hide DayOf, ClockOf, TailOf, DayText, ClockText, TailText, ZoneText;
    ShapedFraction(s);
    if Parse(t) == Some(s) {
      var day := DayOf(t).value;
      var clock := ClockOf(day.1).value;
      DayExact(t, day.0, day.1);
      ClockExact(day.1, clock.0, clock.1);
      TailExact(clock.1, TailIn(s));
      var zulu :| Zulu(TailIn(s).zone, zulu) && clock.1 == TailText(TailIn(s), zulu);
      assert t == TextOf(s, zulu);
    }
    if Shaped(s) && exists zulu :: Zulu(TailIn(s).zone, zulu) && t == TextOf(s, zulu) {
      var zulu :| Zulu(TailIn(s).zone, zulu) && t == TextOf(s, zulu);
      var d, c, tail := Day(s.year, s.month, s.day), Clock(s.hour, s.minute, s.second), TailText(TailIn(s), zulu);
      DayExact(t, d, ClockText(c, tail));
      ClockExact(ClockText(c, tail), c, tail);
      TailExact(tail, TailIn(s));
    }
  }

  // ---------------------------------------------------------------- the position of a text

  /** A text the history accepts. */
  predicate Accepted(t: string) {
    Parse(t).Some? && HistoryInstant(Parse(t).value).Some?
  }

  /** The history position of a text; zero for one that is refused before it gets a place. */
  function Instant(t: string): Position {
    if Accepted(t) then HistoryInstant(Parse(t).value).value else Position(0, 0)
  }

  /** The moment of UTC an accepted text names. */
  function MomentOf(t: string): Moment
    requires Accepted(t)
  {
    Utc(Parse(t).value)
  }

  /** History order of texts is UTC calendar order of the moments they name. */
  lemma TextIsCalendar(a: string, b: string)
    requires Accepted(a) && Accepted(b)
    ensures InstantBefore(Instant(a), Instant(b)) <==> MomentBefore(MomentOf(a), MomentOf(b))
    ensures Instant(a) == Instant(b) <==> MomentOf(a) == MomentOf(b)
  {
    hide Parse, HistoryInstant, Utc, MomentBefore, InstantBefore;
    ParseExact(a, Parse(a).value);
    ParseExact(b, Parse(b).value);
    HistoryIsCalendar(Parse(a).value, Parse(b).value);
  }
}
