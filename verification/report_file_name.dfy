/**
 The name of the saved report: "blackduck-summary-" followed by the local time
 of saving in the .NET custom format "yyyy-MM-dd-HHmmss" and ".xlsx". The clock
 is an input: the time arrives as a record of calendar fields.
 */
module ReportFileName {
  import opened Wrappers
  import opened Decimal

  /** The calendar fields of a `DateTime`, hour on the 24-hour clock. */
  datatype Timestamp = Timestamp(year: int, month: int, day: int, hour: int, minute: int, second: int)

  /** The ranges a `DateTime` guarantees for its fields, in the Gregorian
      calendar. "yyyy" formats the year in the current culture's calendar; the
      model assumes a Gregorian one (a Thai Buddhist calendar adds 543). */
  predicate ValidTimestamp(t: Timestamp) {
    && 1 <= t.year <= 9999
    && 1 <= t.month <= 12
    && 1 <= t.day <= 31
    && 0 <= t.hour <= 23
    && 0 <= t.minute <= 59
    && 0 <= t.second <= 59
  }

  const Prefix := "blackduck-summary-"
  const Extension := ".xlsx"
  const StampLength := 17

  /** "yyyy-MM-dd-HHmmss": every field zero-padded, the year to 4 digits, the rest to 2. */
  function Stamp(t: Timestamp): (s: string)
    requires ValidTimestamp(t)
    ensures |s| == StampLength && AllDigits(s[..4]) && s[4] == '-' && s[7] == '-' && s[10] == '-'
    ensures s[..4] == Pad(t.year, 4) && s[5..7] == Pad(t.month, 2) && s[8..10] == Pad(t.day, 2)
    ensures s[11..13] == Pad(t.hour, 2) && s[13..15] == Pad(t.minute, 2) && s[15..] == Pad(t.second, 2)
  {
    PadLength(t.year, 4);
    PadLength(t.month, 2);
    PadLength(t.day, 2);
    PadLength(t.hour, 2);
    PadLength(t.minute, 2);
    PadLength(t.second, 2);
    var y, mo, d := Pad(t.year, 4), Pad(t.month, 2), Pad(t.day, 2);
    var h, mi, se := Pad(t.hour, 2), Pad(t.minute, 2), Pad(t.second, 2);
    StampFields(y, mo, d, h, mi, se);
    y + "-" + mo + "-" + d + "-" + h + mi + se
  }

  /** Where each field of a stamp lies once the fields have their fixed widths. */
  lemma {:induction false} StampFields(y: string, mo: string, d: string, h: string, mi: string, se: string)
    requires |y| == 4 && |mo| == 2 && |d| == 2 && |h| == 2 && |mi| == 2 && |se| == 2
    ensures var s := y + "-" + mo + "-" + d + "-" + h + mi + se;
      && |s| == StampLength && s[4] == '-' && s[7] == '-' && s[10] == '-'
      && s[..4] == y && s[5..7] == mo && s[8..10] == d
      && s[11..13] == h && s[13..15] == mi && s[15..] == se
  {
    var s := y + "-" + mo + "-" + d + "-" + h + mi + se;
    var front := y + "-" + mo + "-" + d + "-";
    assert s == front + (h + mi + se);
    assert s[..4] == y;
    assert s[5..7] == mo;
    assert s[8..10] == d;
    assert s[11..13] == h;
    assert s[13..15] == mi;
    assert s[15..] == se;
  }

  /** The file name of a report saved at time `t`. */
  function FileName(t: Timestamp): (name: string)
    requires ValidTimestamp(t)
    ensures |name| == |Prefix| + StampLength + |Extension|
    ensures name[..|Prefix|] == Prefix
    ensures name[|Prefix| .. |Prefix| + StampLength] == Stamp(t)
    ensures name[|Prefix| + StampLength ..] == Extension
  {
    Prefix + Stamp(t) + Extension
  }

  /** Reads the calendar fields back from a 17-character stamp. */
  function ParseStamp(s: string): Option<Timestamp> {
    if |s| == StampLength && s[4] == '-' && s[7] == '-' && s[10] == '-'
       && AllDigits(s[..4]) && AllDigits(s[5..7]) && AllDigits(s[8..10])
       && AllDigits(s[11..13]) && AllDigits(s[13..15]) && AllDigits(s[15..])
    then
      var t := Timestamp(Value(s[..4]), Value(s[5..7]), Value(s[8..10]),
                         Value(s[11..13]), Value(s[13..15]), Value(s[15..]));
      if ValidTimestamp(t) then Some(t) else None
    else None
  }

  /** Reads the time of saving back from a report file name. */
  function ParseFileName(name: string): Option<Timestamp> {
    if |name| == |Prefix| + StampLength + |Extension|
       && name[..|Prefix|] == Prefix
       && name[|Prefix| + StampLength ..] == Extension
    then ParseStamp(name[|Prefix| .. |Prefix| + StampLength])
    else None
  }

  /** The time of saving can be read back from the file name. */
  lemma {:induction false} ParseFileNameOfFileName(t: Timestamp)
    requires ValidTimestamp(t)
    ensures ParseFileName(FileName(t)) == Some(t)
  {
    var s := Stamp(t);
    ValueOfPad(t.year, 4);
    ValueOfPad(t.month, 2);
    ValueOfPad(t.day, 2);
    ValueOfPad(t.hour, 2);
    ValueOfPad(t.minute, 2);
    ValueOfPad(t.second, 2);
    assert ParseStamp(s) == Some(t);
  }

  /** Every name that reads back as a time is the file name of that time:
      distinct times give distinct names and nothing else parses. */
  lemma {:induction false} FileNameOfParseFileName(name: string, t: Timestamp)
    requires ParseFileName(name) == Some(t)
    ensures ValidTimestamp(t) && FileName(t) == name
  {
    var s := name[|Prefix| .. |Prefix| + StampLength];
    StampOfParseStamp(s, t);
    assert name == name[..|Prefix|] + s + name[|Prefix| + StampLength ..];
  }

  /** Every stamp that reads back as a time is the stamp of that time. */
  lemma {:induction false} StampOfParseStamp(s: string, t: Timestamp)
    requires ParseStamp(s) == Some(t)
    ensures ValidTimestamp(t) && Stamp(t) == s
  {
    PadOfValue(s[..4]);
    PadOfValue(s[5..7]);
    PadOfValue(s[8..10]);
    PadOfValue(s[11..13]);
    PadOfValue(s[13..15]);
    PadOfValue(s[15..]);
    var u := Stamp(t);
    StampJoin(s);
    StampJoin(u);
    assert u[..4] == s[..4] && u[5..7] == s[5..7] && u[8..10] == s[8..10];
    assert u[11..13] == s[11..13] && u[13..15] == s[13..15] && u[15..] == s[15..];
  }

  /** A stamp-shaped string is its fields joined by the three dashes. */
  lemma {:induction false} StampJoin(s: string)
    requires |s| == StampLength && s[4] == '-' && s[7] == '-' && s[10] == '-'
    ensures s == s[..4] + "-" + s[5..7] + "-" + s[8..10] + "-" + s[11..13] + s[13..15] + s[15..]
  {
    assert s[..4] + "-" + s[5..7] + "-" + s[8..10] + "-" == s[..11];
    assert s[11..13] + s[13..15] + s[15..] == s[11..];
  }
}
