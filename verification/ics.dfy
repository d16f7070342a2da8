/** `generateICS` (lib/booking-utils.ts): a confirmed booking as a
    one-event iCalendar document (RFC 5545), fifteen content lines joined
    by CRLF. The creation stamp, which the source takes from the clock, is
    a parameter: the ISO string `new Date().toISOString()` returned. No
    folding of long lines and no escaping of TEXT values takes place. */
module Ics {

  import opened Nullable
  import opened Text
  import opened Clock
  import opened CivilDate
  import opened BookingTypes
  import opened Availability

  const UidDomain: string := "@ohboyconsultancy.com"
  const DefaultDescription: string := "Discovery session with Ohboy Consultancy"
  const ProductId: string := "-//Ohboy Consultancy//Booking//EN"
  const Organizer: string := "mailto:aravind@ohboyconsultancy.com"

  /** The properties the serialiser writes; BEGIN and END delimit the
      calendar and the event components. */
  datatype Property =
    | Begin | End | Version | ProdId | DtStart | DtEnd | DtStamp
    | Uid | Summary | Description | OrganizerProperty | Attendee | Status

  /** The property's name as it appears in the file. */
  function PropertyName(p: Property): (name: string)
    ensures |name| > 0 && ':' !in name && '\r' !in name
  {
    match p
    case Begin => "BEGIN"
    case End => "END"
    case Version => "VERSION"
    case ProdId => "PRODID"
    case DtStart => "DTSTART"
    case DtEnd => "DTEND"
    case DtStamp => "DTSTAMP"
    case Uid => "UID"
    case Summary => "SUMMARY"
    case Description => "DESCRIPTION"
    case OrganizerProperty => "ORGANIZER"
    case Attendee => "ATTENDEE"
    case Status => "STATUS"
  }

  /** The property a name stands for, if any: the partner of
      `PropertyName`. */
  function PropertyNamed(name: string): (p: Option<Property>)
    ensures p.Some? ==> PropertyName(p.value) == name
  {
    if name == "BEGIN" then Some(Begin)
    else if name == "END" then Some(End)
    else if name == "VERSION" then Some(Version)
    else if name == "PRODID" then Some(ProdId)
    else if name == "DTSTART" then Some(DtStart)
    else if name == "DTEND" then Some(DtEnd)
    else if name == "DTSTAMP" then Some(DtStamp)
    else if name == "UID" then Some(Uid)
    else if name == "SUMMARY" then Some(Summary)
    else if name == "DESCRIPTION" then Some(Description)
    else if name == "ORGANIZER" then Some(OrganizerProperty)
    else if name == "ATTENDEE" then Some(Attendee)
    else if name == "STATUS" then Some(Status)
    else None
  }

  /** Every property's name reads back as that property, so no two
      properties share a name. */
  lemma PropertyNameRoundTrip(p: Property)
    ensures PropertyNamed(PropertyName(p)) == Some(p)
  {
  }

  lemma PropertyNameInjective(p: Property, q: Property)
    ensures PropertyName(p) == PropertyName(q) <==> p == q
  {
    PropertyNameRoundTrip(p);
    PropertyNameRoundTrip(q);
  }

  /** A content line `NAME:value` (section 3.1 of RFC 5545, without
      parameters). Every line the serialiser writes has this shape. */
  datatype ContentLine = ContentLine(property: Property, value: string)

  function Render(line: ContentLine): string {
    PropertyName(line.property) + ":" + line.value
  }

  function RenderAll(lines: seq<ContentLine>): (texts: seq<string>)
    ensures |texts| == |lines|
    ensures forall i :: 0 <= i < |lines| ==> texts[i] == Render(lines[i])
  {
    seq(|lines|, i requires 0 <= i < |lines| => Render(lines[i]))
  }

  /** The UTC DATE-TIME of section 3.3.5 of RFC 5545 as the serialiser
      builds it: every "-" of the date removed, "T", the first ":" of the
      time removed, then "00Z" (zero seconds, UTC). */
  function UtcDateTime(date: string, time: string): string {
    RemoveAll(date, '-') + "T" + RemoveFirst(time, ':') + "00Z"
  }

  /** DTSTAMP: every "-" and ":" of the ISO time removed, cut at the first
      ".", then "Z". */
  function Stamp(nowIso: string): string {
    Before(RemoveAll(RemoveAll(nowIso, '-'), ':'), '.') + "Z"
  }

  /** DESCRIPTION: the booking's description, or the default when it is
      empty (JavaScript `||` on a string). */
  function DescriptionOf(b: Booking): (d: string)
    ensures b.description != "" ==> d == b.description
    ensures b.description == "" ==> d == DefaultDescription
  {
    if b.description == "" then DefaultDescription else b.description
  }

  /** The fifteen content lines of the document, in order. */
  function EventLines(b: Booking, stamp: string): (lines: seq<ContentLine>)
    ensures |lines| == 15
  {
    seq(15, i requires 0 <= i < 15 => EventLine(b, stamp, i))
  }

  /** Line `i` of the document, in the order the serialiser writes them. */
  function EventLine(b: Booking, stamp: string, i: nat): ContentLine
    requires i < 15
  {
    if i == 0 then ContentLine(Begin, "VCALENDAR")
    else if i == 1 then ContentLine(Version, "2.0")
    else if i == 2 then ContentLine(ProdId, ProductId)
    else if i == 3 then ContentLine(Begin, "VEVENT")
    else if i == 4 then ContentLine(DtStart, UtcDateTime(b.date, b.start_time))
    else if i == 5 then ContentLine(DtEnd, UtcDateTime(b.date, b.end_time))
    else if i == 6 then ContentLine(DtStamp, stamp)
    else if i == 7 then ContentLine(Uid, b.id + UidDomain)
    else if i == 8 then ContentLine(Summary, "Discovery Session - " + b.client_name)
    else if i == 9 then ContentLine(Description, DescriptionOf(b))
    else if i == 10 then ContentLine(OrganizerProperty, Organizer)
    else if i == 11 then ContentLine(Attendee, "mailto:" + b.client_email)
    else if i == 12 then ContentLine(Status, "CONFIRMED")
    else if i == 13 then ContentLine(End, "VEVENT")
    else ContentLine(End, "VCALENDAR")
  }


  /** `generateICS(booking)` with the clock reading `nowIso`. */
  function GenerateICS(b: Booking, nowIso: string): string {
    Join(RenderAll(EventLines(b, Stamp(nowIso))), CRLF)
  }

  // ---- Reading a document back --------------------------------------------

  /** The line is `name:` followed by anything. */
  predicate HasName(line: string, name: string) {
    |name| + 1 <= |line| && line[..|name| + 1] == name + ":"
  }

  /** A reader's lookup: the value of the first line named `name`. */
  function PropertyValue(lines: seq<string>, name: string): Option<string> {
    if |lines| == 0 then None
    else if HasName(lines[0], name) then Some(lines[0][|name| + 1..])
    else PropertyValue(lines[1..], name)
  }

  /** The same lookup on structured lines. */
  function FirstValue(lines: seq<ContentLine>, p: Property): Option<string> {
    if |lines| == 0 then None
    else if lines[0].property == p then Some(lines[0].value)
    else FirstValue(lines[1..], p)
  }

  /** A rendered line has name `name` iff its property is called `name`,
      because no property name holds a colon. */
  lemma HasNameRendered(line: ContentLine, name: string)
    requires ':' !in name
    ensures HasName(Render(line), name) <==> PropertyName(line.property) == name
  {
    var own := PropertyName(line.property);
    var text := Render(line);
    var k := |own|;
    assert text[..k] == own;
    assert text[k] == ':';
    if own == name {
      assert text[..|name| + 1] == name + ":";
    } else if |name| < k {
      assert text[|name|] == own[|name|];
      HasNameAt(text, name, |name|);
    } else if |name| > k {
      HasNameAt(text, name, k);
    } else {
      var j :| 0 <= j < k && own[j] != name[j];
      assert text[j] == own[j];
      HasNameAt(text, name, j);
    }
  }

  /** A line named `name` carries `name + ":"` at its start, character by
      character. */
  lemma HasNameAt(line: string, name: string, j: nat)
    requires j <= |name| && j < |line|
    ensures HasName(line, name) ==> line[j] == (name + ":")[j]
  {
    if HasName(line, name) {
      assert line[..|name| + 1][j] == line[j];
    }
  }

  /** Reading the rendered lines by a property's name gives what the
      structured lookup gives. */
  lemma {:induction false} ReadRendered(lines: seq<ContentLine>, p: Property)
    ensures PropertyValue(RenderAll(lines), PropertyName(p)) == FirstValue(lines, p)
    decreases |lines|
  {
    if |lines| > 0 {
      var name := PropertyName(p);
      HasNameRendered(lines[0], name);
      PropertyNameInjective(lines[0].property, p);
      var texts := RenderAll(lines);
      assert texts[1..] == RenderAll(lines[1..]);
      if lines[0].property == p {
        assert Render(lines[0])[|name| + 1..] == lines[0].value;
      } else {
        ReadRendered(lines[1..], p);
      }
    }
  }

  /** The parts of a DATE-TIME read back into the booking's formats. */
  datatype DateTimeFields = DateTimeFields(date: string, time: string, seconds: string)

  predicate DigitsBetween(s: string, lo: nat, hi: nat)
    requires lo <= hi <= |s|
  {
    forall i :: lo <= i < hi ==> IsDigit(s[i])
  }

  /** A reader for the 16-character UTC DATE-TIME form "YYYYMMDDTHHMMSSZ". */
  function ParseUtcDateTime(s: string): (r: Option<DateTimeFields>)
    ensures r.Some? ==> ValidDateFormat(r.value.date) && WellFormedTime(r.value.time)
    ensures r.Some? ==> |r.value.seconds| == 2 && AllDigits(r.value.seconds)
    ensures r.Some? <==> |s| == 16 && DigitsBetween(s, 0, 8) && s[8] == 'T' && DigitsBetween(s, 9, 15) && s[15] == 'Z'
  {
    if |s| == 16 && DigitsBetween(s, 0, 8) && s[8] == 'T' && DigitsBetween(s, 9, 15) && s[15] == 'Z' then
      Some(DateTimeFields(s[..4] + "-" + s[4..6] + "-" + s[6..8], s[9..11] + ":" + s[11..13], s[13..15]))
    else None
  }

  /** The pieces of a "YYYY-MM-DD" put back together. */
  lemma DateParts(date: string)
    requires ValidDateFormat(date)
    ensures date[..4] + "-" + date[5..7] + "-" + date[8..] == date
    ensures '-' !in date[..4] && '-' !in date[5..7] && '-' !in date[8..]
    ensures |date[..4]| == 4 && AllDigits(date[..4])
    ensures |date[5..7]| == 2 && AllDigits(date[5..7])
    ensures |date[8..]| == 2 && AllDigits(date[8..])
  {
  }

  /** The pieces of an "HH:MM" put back together. */
  lemma TimeParts(time: string)
    requires WellFormedTime(time)
    ensures time[..2] + ":" + time[3..] == time
    ensures ':' !in time[..2] && ':' !in time[3..]
    ensures |time[..2]| == 2 && AllDigits(time[..2])
    ensures |time[3..]| == 2 && AllDigits(time[3..])
  {
  }

  /** The compact date "YYYYMMDD" of a "YYYY-MM-DD". */
  lemma CompactDate(date: string)
    requires ValidDateFormat(date)
    ensures RemoveAll(date, '-') == date[..4] + date[5..7] + date[8..]
  {
    DateParts(date);
    var y, m, d := date[..4], date[5..7], date[8..];
    assert date == y + ['-'] + m + ['-'] + d;
    RemoveAllSeparators(y, m, d, '-');
  }

  /** The compact time "HHMM" of a "HH:MM". */
  lemma CompactTime(time: string)
    requires WellFormedTime(time)
    ensures RemoveFirst(time, ':') == time[..2] + time[3..]
  {
    TimeParts(time);
    assert time == time[..2] + [':'] + time[3..];
    RemoveFirstSplits(time[..2], time[3..], ':');
  }

  /** Reading a DATE-TIME assembled from its digit groups gives the groups
      back in the booking's formats. */
  lemma ParseParts(y: string, m: string, d: string, h: string, n: string, sec: string)
    requires |y| == 4 && |m| == 2 && |d| == 2 && |h| == 2 && |n| == 2 && |sec| == 2
    requires AllDigits(y) && AllDigits(m) && AllDigits(d) && AllDigits(h) && AllDigits(n) && AllDigits(sec)
    ensures ParseUtcDateTime(y + m + d + "T" + h + n + sec + "Z") ==
      Some(DateTimeFields(y + "-" + m + "-" + d, h + ":" + n, sec))
  {
    var ymd := y + m + d;
    var hns := h + n + sec;
    var s := y + m + d + "T" + h + n + sec + "Z";
    assert s == ymd + "T" + hns + "Z";
    assert s[..8] == ymd && s[9..15] == hns;
    assert s[..4] == y && s[4..6] == m && s[6..8] == d;
    assert s[9..11] == h && s[11..13] == n && s[13..15] == sec;
    assert DigitsBetween(s, 0, 8) by {
      forall i | 0 <= i < 8 ensures IsDigit(s[i]) {
        assert s[i] == ymd[i];
      }
    }
    assert DigitsBetween(s, 9, 15) by {
      forall i | 9 <= i < 15 ensures IsDigit(s[i]) {
        assert s[i] == hns[i - 9];
      }
    }
  }

  /** The DATE-TIME written for a "YYYY-MM-DD" and an "HH:MM". */
  lemma UtcDateTimeShape(date: string, time: string)
    requires ValidDateFormat(date) && WellFormedTime(time)
    ensures UtcDateTime(date, time) == date[..4] + date[5..7] + date[8..] + "T" + time[..2] + time[3..] + "00" + "Z"
  {
    CompactDate(date);
    CompactTime(time);
    var ymd := date[..4] + date[5..7] + date[8..];
    var hn := time[..2] + time[3..];
    assert UtcDateTime(date, time) == ymd + "T" + hn + "00Z";
    assert ymd + "T" + hn + "00Z" == date[..4] + date[5..7] + date[8..] + "T" + time[..2] + time[3..] + "00" + "Z";
  }

  /** DTSTART and DTEND round-trip: reading the DATE-TIME back gives the
      date and the time it was written from, with zero seconds. */
  lemma UtcDateTimeRoundTrip(date: string, time: string)
    requires ValidDateFormat(date) && WellFormedTime(time)
    ensures ParseUtcDateTime(UtcDateTime(date, time)) == Some(DateTimeFields(date, time, "00"))
  {
    UtcDateTimeShape(date, time);
    DateParts(date);
    TimeParts(time);
    ParseParts(date[..4], date[5..7], date[8..], time[..2], time[3..], "00");
  }

  /** And the other way: whatever the reader accepts with zero seconds is
      what the serialiser writes for the fields it reads. */
  lemma ParseUtcDateTimeInverse(s: string)
    requires ParseUtcDateTime(s).Some? && ParseUtcDateTime(s).value.seconds == "00"
    ensures UtcDateTime(ParseUtcDateTime(s).value.date, ParseUtcDateTime(s).value.time) == s
  {
    var f := ParseUtcDateTime(s).value;
    UtcDateTimeShape(f.date, f.time);
    ParsedGroups(s);
    DateTimeLayout(s);
  }

  /** The reader's date and time, with their separators taken out again,
      are the digit groups they were read from. */
  lemma ParsedGroups(s: string)
    requires ParseUtcDateTime(s).Some?
    ensures var f := ParseUtcDateTime(s).value;
      && f.date[..4] + f.date[5..7] + f.date[8..] == s[..8]
      && f.time[..2] + f.time[3..] == s[9..13]
      && f.seconds == s[13..15]
  {
    var f := ParseUtcDateTime(s).value;
    assert f.date[..4] == s[..4] && f.date[5..7] == s[4..6] && f.date[8..] == s[6..8];
    assert f.time[..2] == s[9..11] && f.time[3..] == s[11..13];
  }

  /** A 16-character DATE-TIME is its date digits, "T", its hour and minute
      digits, its seconds and "Z". */
  lemma DateTimeLayout(s: string)
    requires |s| == 16 && s[8] == 'T' && s[13..15] == "00" && s[15] == 'Z'
    ensures s == s[..8] + "T" + s[9..13] + "00" + "Z"
  {
  }

  /** What `Stamp` does to "YYYY-MM-DD" "T" "HH:MM" ":" SS "." mmm "Z": the
      dashes and colons go, the fraction is cut off, "Z" is put back. */
  lemma StampPieces(day: string, time: string, sec: string, millis: string)
    requires ValidDateFormat(day) && WellFormedTime(time)
    requires |sec| == 2 && AllDigits(sec) && |millis| == 3 && AllDigits(millis)
    ensures Stamp(day + "T" + time + ":" + sec + "." + millis + "Z") ==
      day[..4] + day[5..7] + day[8..] + "T" + time[..2] + time[3..] + sec + "Z"
  {
    var ymd := day[..4] + day[5..7] + day[8..];
    StampDashes(day, time, sec, millis);
    StampColons(ymd, time, sec, millis);
    StampKeptHasNoDot(day, time, sec);
    StampFraction(ymd + "T" + time[..2] + time[3..] + sec, millis);
  }

  /** What is kept before the fraction is digits and a "T". */
  lemma StampKeptHasNoDot(day: string, time: string, sec: string)
    requires ValidDateFormat(day) && WellFormedTime(time) && AllDigits(sec)
    ensures '.' !in day[..4] + day[5..7] + day[8..] + "T" + time[..2] + time[3..] + sec
  {
    DateParts(day);
    TimeParts(time);
  }

  /** Removing the dashes of an ISO time touches only its date. */
  lemma StampDashes(day: string, time: string, sec: string, millis: string)
    requires ValidDateFormat(day) && WellFormedTime(time)
    requires AllDigits(sec) && AllDigits(millis)
    ensures RemoveAll(day + "T" + time + ":" + sec + "." + millis + "Z", '-') ==
      day[..4] + day[5..7] + day[8..] + "T" + time + ":" + sec + "." + millis + "Z"
  {
    var p1 := day + "T";
    var p2 := p1 + time;
    var p3 := p2 + ":";
    var p4 := p3 + sec;
    var p5 := p4 + ".";
    var p6 := p5 + millis;
    RemoveAllKeepsLast(p6, "Z", '-');
    RemoveAllKeepsLast(p5, millis, '-');
    RemoveAllKeepsLast(p4, ".", '-');
    RemoveAllKeepsLast(p3, sec, '-');
    RemoveAllKeepsLast(p2, ":", '-');
    TimeHasNoDash(time);
    RemoveAllKeepsLast(p1, time, '-');
    RemoveAllKeepsLast(day, "T", '-');
    CompactDate(day);
  }

  lemma TimeHasNoDash(time: string)
    requires WellFormedTime(time)
    ensures '-' !in time
  {
    TimeParts(time);
  }

  /** Removing the colons of what is left joins hours and minutes and drops
      the colon before the seconds. */
  lemma StampColons(ymd: string, time: string, sec: string, millis: string)
    requires WellFormedTime(time)
    requires ':' !in ymd && AllDigits(sec) && AllDigits(millis)
    ensures RemoveAll(ymd + "T" + time + ":" + sec + "." + millis + "Z", ':') ==
      ymd + "T" + time[..2] + time[3..] + sec + "." + millis + "Z"
  {
    var q1 := ymd + "T";
    var q2 := q1 + time;
    var q3 := q2 + ":";
    var q4 := q3 + sec;
    var q5 := q4 + ".";
    var q6 := q5 + millis;
    RemoveAllKeepsLast(q6, "Z", ':');
    RemoveAllKeepsLast(q5, millis, ':');
    RemoveAllKeepsLast(q4, ".", ':');
    RemoveAllKeepsLast(q3, sec, ':');
    RemoveAllDropsLast(q2, ":", ':');
    RemoveAllAppend(q1, time, ':');
    TimeParts(time);
    assert time == time[..2] + [':'] + time[3..];
    RemoveAllSeparator(time[..2], time[3..], ':');
    AppendAssoc(q1, time[..2], time[3..]);
  }

  /** Cutting at the fraction's dot and putting the "Z" back. */
  lemma StampFraction(kept: string, millis: string)
    requires '.' !in kept
    ensures Before(kept + "." + millis + "Z", '.') + "Z" == kept + "Z"
  {
    var r5 := kept + ".";
    BeforeIgnoresTail(r5 + millis, "Z", '.');
    BeforeIgnoresTail(r5, millis, '.');
    BeforeLast(kept, ".", '.');
  }

  /** The stamp of a `toISOString` value "YYYY-MM-DDTHH:MM:SS.mmmZ" is the
      DATE-TIME of that instant to the second. */
  lemma StampOfIso(day: string, n: nat, sec: string, millis: string)
    requires ValidDateFormat(day) && n < 1440
    requires |sec| == 2 && AllDigits(sec) && |millis| == 3 && AllDigits(millis)
    ensures ParseUtcDateTime(Stamp(NowIso(day, n, sec, millis))) == Some(DateTimeFields(day, FromMinutes(n), sec))
  {
    var time := FromMinutes(n);
    ToMinutesFromMinutes(n);
    StampPieces(day, time, sec, millis);
    DateParts(day);
    TimeParts(time);
    ParseParts(day[..4], day[5..7], day[8..], time[..2], time[3..], sec);
  }

  // ---- The document as a whole ----------------------------------------------

  /** None of the text the document is built from holds a CR, so the CRLF
      separators are the only ones a reader finds. */
  predicate NoCr(b: Booking, nowIso: string) {
    && '\r' !in b.date && '\r' !in b.start_time && '\r' !in b.end_time
    && '\r' !in b.id && '\r' !in b.client_name && '\r' !in b.client_email
    && '\r' !in b.description && '\r' !in nowIso
  }

  predicate LineNoCr(line: ContentLine) {
    '\r' !in line.value
  }

  lemma RenderNoCr(line: ContentLine)
    requires LineNoCr(line)
    ensures '\r' !in Render(line)
  {
  }

  /** The constants the serialiser writes hold no CR. */
  lemma ConstantsNoCr()
    ensures '\r' !in ProductId && '\r' !in Organizer
    ensures '\r' !in UidDomain && '\r' !in DefaultDescription
  {
    ProductIdNoCr();
    OrganizerNoCr();
    UidDomainNoCr();
    DefaultDescriptionNoCr();
  }

  lemma ProductIdNoCr()
    ensures '\r' !in ProductId
  {
  }

  lemma OrganizerNoCr()
    ensures '\r' !in Organizer
  {
  }

  lemma UidDomainNoCr()
    ensures '\r' !in UidDomain
  {
  }

  lemma DefaultDescriptionNoCr()
    ensures '\r' !in DefaultDescription
  {
  }

  /** Nor do the literal values and value prefixes. */
  lemma LiteralValuesNoCr()
    ensures '\r' !in "VCALENDAR" && '\r' !in "VEVENT" && '\r' !in "2.0" && '\r' !in "CONFIRMED"
    ensures '\r' !in "Discovery Session - " && '\r' !in "mailto:"
    ensures '\r' !in "T" && '\r' !in "00Z" && '\r' !in "Z"
  {
  }

  /** The DATE-TIME values hold no CR when their sources hold none. */
  lemma DateTimesNoCr(b: Booking, nowIso: string)
    requires NoCr(b, nowIso)
    ensures '\r' !in UtcDateTime(b.date, b.start_time) && '\r' !in UtcDateTime(b.date, b.end_time)
    ensures '\r' !in Stamp(nowIso)
  {
    LiteralValuesNoCr();
    RemoveAllKeepsOut(b.date, '-', '\r');
    RemoveFirstKeepsOut(b.start_time, ':', '\r');
    RemoveFirstKeepsOut(b.end_time, ':', '\r');
    RemoveAllKeepsOut(nowIso, '-', '\r');
    RemoveAllKeepsOut(RemoveAll(nowIso, '-'), ':', '\r');
  }

  /** The fifteen lines one by one. */
  lemma EventLinesAt(b: Booking, stamp: string)
    ensures var lines := EventLines(b, stamp);
      && lines[0] == ContentLine(Begin, "VCALENDAR")
      && lines[1] == ContentLine(Version, "2.0")
      && lines[2] == ContentLine(ProdId, ProductId)
      && lines[3] == ContentLine(Begin, "VEVENT")
      && lines[4] == ContentLine(DtStart, UtcDateTime(b.date, b.start_time))
      && lines[5] == ContentLine(DtEnd, UtcDateTime(b.date, b.end_time))
      && lines[6] == ContentLine(DtStamp, stamp)
      && lines[7] == ContentLine(Uid, b.id + UidDomain)
      && lines[8] == ContentLine(Summary, "Discovery Session - " + b.client_name)
      && lines[9] == ContentLine(Description, DescriptionOf(b))
      && lines[10] == ContentLine(OrganizerProperty, Organizer)
      && lines[11] == ContentLine(Attendee, "mailto:" + b.client_email)
      && lines[12] == ContentLine(Status, "CONFIRMED")
      && lines[13] == ContentLine(End, "VEVENT")
      && lines[14] == ContentLine(End, "VCALENDAR")
  {
  }

  /** Every content line of the event is free of CR. */
  lemma EventLinesNoCr(b: Booking, nowIso: string)
    requires NoCr(b, nowIso)
    ensures forall i :: 0 <= i < 15 ==> LineNoCr(EventLines(b, Stamp(nowIso))[i])
  {
    var lines := EventLines(b, Stamp(nowIso));
    ConstantsNoCr();
    LiteralValuesNoCr();
    DateTimesNoCr(b, nowIso);
    EventLinesAt(b, Stamp(nowIso));
    forall i | 0 <= i < 15
      ensures LineNoCr(lines[i])
    {
      assert i in {0, 1, 2, 3, 4, 5, 6, 7, 8, 9, 10, 11, 12, 13, 14};
    }
  }

  /** A reader splitting the document on CRLF gets the fifteen rendered
      content lines back, in order. */
  lemma IcsLines(b: Booking, nowIso: string)
    requires NoCr(b, nowIso)
    ensures SplitCrlf(GenerateICS(b, nowIso)) == RenderAll(EventLines(b, Stamp(nowIso)))
  {
    var lines := EventLines(b, Stamp(nowIso));
    var texts := RenderAll(lines);
    EventLinesNoCr(b, nowIso);
    forall i | 0 <= i < |texts|
      ensures '\r' !in texts[i]
    {
      RenderNoCr(lines[i]);
    }
    SplitJoinCrlf(texts);
  }

  /** Where the BEGIN and END lines stand: the calendar opens first, the
      event opens fourth, closes fourteenth, and the calendar closes last. */
  lemma DelimiterPositions(b: Booking, stamp: string)
    ensures var lines := EventLines(b, stamp);
      && (forall i :: 0 <= i < 15 ==> (lines[i].property == Begin <==> i == 0 || i == 3))
      && (forall i :: 0 <= i < 15 ==> (lines[i].property == End <==> i == 13 || i == 14))
  {
    var lines := EventLines(b, stamp);
    EventLinesAt(b, stamp);
    forall i | 0 <= i < 15
      ensures lines[i].property == Begin <==> i == 0 || i == 3
      ensures lines[i].property == End <==> i == 13 || i == 14
    {
      assert i in {0, 1, 2, 3, 4, 5, 6, 7, 8, 9, 10, 11, 12, 13, 14};
    }
  }

  /** The envelope: one calendar holding one event, the document opening
      with BEGIN:VCALENDAR and closing with END:VCALENDAR (no CRLF after
      the last line), and BEGIN and END lines only at the four places the
      serialiser puts them. */
  lemma IcsEnvelope(b: Booking, nowIso: string)
    requires NoCr(b, nowIso)
    ensures var lines := SplitCrlf(GenerateICS(b, nowIso));
      && |lines| == 15
      && lines[0] == "BEGIN:VCALENDAR" && lines[3] == "BEGIN:VEVENT"
      && lines[13] == "END:VEVENT" && lines[14] == "END:VCALENDAR"
      && (forall i :: 0 <= i < 15 ==> (HasName(lines[i], "BEGIN") <==> i == 0 || i == 3))
      && (forall i :: 0 <= i < 15 ==> (HasName(lines[i], "END") <==> i == 13 || i == 14))
    ensures "BEGIN:VCALENDAR" <= GenerateICS(b, nowIso)
    ensures var doc := GenerateICS(b, nowIso); |doc| >= 13 && doc[|doc| - 13..] == "END:VCALENDAR"
  {
    var texts := RenderAll(EventLines(b, Stamp(nowIso)));
    IcsLines(b, nowIso);
    EventDelimiters(b, Stamp(nowIso));
    JoinEnds(texts, CRLF);
  }

  /** The same on the rendered lines, before joining. */
  lemma EventDelimiters(b: Booking, stamp: string)
    ensures var texts := RenderAll(EventLines(b, stamp));
      && |texts| == 15
      && texts[0] == "BEGIN:VCALENDAR" && texts[3] == "BEGIN:VEVENT"
      && texts[13] == "END:VEVENT" && texts[14] == "END:VCALENDAR"
      && (forall i :: 0 <= i < 15 ==> (HasName(texts[i], "BEGIN") <==> i == 0 || i == 3))
      && (forall i :: 0 <= i < 15 ==> (HasName(texts[i], "END") <==> i == 13 || i == 14))
  {
    var texts := RenderAll(EventLines(b, stamp));
    DelimiterTexts(b, stamp);
    forall i | 0 <= i < 15
      ensures HasName(texts[i], "BEGIN") <==> i == 0 || i == 3
      ensures HasName(texts[i], "END") <==> i == 13 || i == 14
    {
      DelimiterName(b, stamp, i);
    }
  }

  /** The four delimiter lines as text. */
  lemma DelimiterTexts(b: Booking, stamp: string)
    ensures var texts := RenderAll(EventLines(b, stamp));
      && texts[0] == "BEGIN:VCALENDAR" && texts[3] == "BEGIN:VEVENT"
      && texts[13] == "END:VEVENT" && texts[14] == "END:VCALENDAR"
  {
    var lines := EventLines(b, stamp);
    assert lines[0] == ContentLine(Begin, "VCALENDAR") && lines[3] == ContentLine(Begin, "VEVENT");
    assert lines[13] == ContentLine(End, "VEVENT") && lines[14] == ContentLine(End, "VCALENDAR");
    DelimiterRenders();
  }

  /** The delimiter lines rendered. */
  lemma DelimiterRenders()
    ensures Render(ContentLine(Begin, "VCALENDAR")) == "BEGIN:VCALENDAR"
    ensures Render(ContentLine(Begin, "VEVENT")) == "BEGIN:VEVENT"
    ensures Render(ContentLine(End, "VEVENT")) == "END:VEVENT"
    ensures Render(ContentLine(End, "VCALENDAR")) == "END:VCALENDAR"
  {
  }

  /** Line `i` is named BEGIN, or END, exactly at the delimiter positions. */
  lemma DelimiterName(b: Booking, stamp: string, i: nat)
    requires i < 15
    ensures var texts := RenderAll(EventLines(b, stamp));
      && (HasName(texts[i], "BEGIN") <==> i == 0 || i == 3)
      && (HasName(texts[i], "END") <==> i == 13 || i == 14)
  {
    var line := EventLines(b, stamp)[i];
    DelimiterPositions(b, stamp);
    HasNameRendered(line, PropertyName(Begin));
    HasNameRendered(line, PropertyName(End));
    PropertyNameInjective(line.property, Begin);
    PropertyNameInjective(line.property, End);
  }

  /** The first structured line with property `p` is the one at `i`. */
  lemma FirstValueAt(lines: seq<ContentLine>, p: Property, i: nat)
    requires i < |lines| && lines[i].property == p
    requires forall j :: 0 <= j < i ==> lines[j].property != p
    ensures FirstValue(lines, p) == Some(lines[i].value)
    decreases i
  {
    if i > 0 {
      FirstValueAt(lines[1..], p, i - 1);
    }
  }

  /** Reading the rendered lines by the name of the property at `i`, when
      no earlier line has that property. */
  lemma ReadAt(lines: seq<ContentLine>, p: Property, i: nat)
    requires i < |lines| && lines[i].property == p
    requires forall j :: 0 <= j < i ==> lines[j].property != p
    ensures PropertyValue(RenderAll(lines), PropertyName(p)) == Some(lines[i].value)
  {
    ReadRendered(lines, p);
    FirstValueAt(lines, p, i);
  }

  /** What a reader looks up in the document: every property the
      serialiser writes other than BEGIN and END, read back by name, gives
      the event's value for it (`EventValue`). */
  lemma IcsProperties(b: Booking, nowIso: string)
    requires NoCr(b, nowIso)
    ensures forall p | p != Begin && p != End ::
      PropertyValue(SplitCrlf(GenerateICS(b, nowIso)), PropertyName(p)) == Some(EventValue(b, Stamp(nowIso), p))
  {
    IcsLines(b, nowIso);
    forall p | p != Begin && p != End
      ensures PropertyValue(RenderAll(EventLines(b, Stamp(nowIso))), PropertyName(p)) == Some(EventValue(b, Stamp(nowIso), p))
    {
      ReadEventProperty(b, Stamp(nowIso), p);
    }
  }

  /** The value the event gives each property other than BEGIN and END. */
  function EventValue(b: Booking, stamp: string, p: Property): string
    requires p != Begin && p != End
  {
    match p
    case Version => "2.0"
    case ProdId => ProductId
    case DtStart => UtcDateTime(b.date, b.start_time)
    case DtEnd => UtcDateTime(b.date, b.end_time)
    case DtStamp => stamp
    case Uid => b.id + UidDomain
    case Summary => "Discovery Session - " + b.client_name
    case Description => DescriptionOf(b)
    case OrganizerProperty => Organizer
    case Attendee => "mailto:" + b.client_email
    case Status => "CONFIRMED"
  }

  /** Every property other than BEGIN and END appears on exactly one line,
      and a reader finds the event's value for it by name. */
  lemma ReadEventProperty(b: Booking, stamp: string, p: Property)
    requires p != Begin && p != End
    ensures PropertyValue(RenderAll(EventLines(b, stamp)), PropertyName(p)) == Some(EventValue(b, stamp, p))
  {
    var i := match p
      case Version => 1 case ProdId => 2 case DtStart => 4 case DtEnd => 5
      case DtStamp => 6 case Uid => 7 case Summary => 8 case Description => 9
      case OrganizerProperty => 10 case Attendee => 11 case Status => 12;
    ReadEventLine(b, stamp, i);
    EventLinesAt(b, stamp);
  }

  /** Lines 1, 2 and 4 to 12 each hold the only line of their property,
      so a reader finds their values by name. */
  lemma ReadEventLine(b: Booking, stamp: string, i: nat)
    requires i in {1, 2, 4, 5, 6, 7, 8, 9, 10, 11, 12}
    ensures var lines := EventLines(b, stamp);
      PropertyValue(RenderAll(lines), PropertyName(lines[i].property)) == Some(lines[i].value)
  {
    var lines := EventLines(b, stamp);
    EventLinesAt(b, stamp);
    forall j | 0 <= j < i
      ensures lines[j].property != lines[i].property
    {
      assert j in {0, 1, 2, 3, 4, 5, 6, 7, 8, 9, 10, 11};
    }
    ReadAt(lines, lines[i].property, i);
  }

  /** The booking's date and times survive the trip through the calendar
      file: DTSTART and DTEND read back as the booking's date, its start and
      end times, and zero seconds. */
  lemma IcsTimesRoundTrip(b: Booking, nowIso: string)
    requires NoCr(b, nowIso)
    requires ValidDateFormat(b.date) && WellFormedTime(b.start_time) && WellFormedTime(b.end_time)
    ensures var lines := SplitCrlf(GenerateICS(b, nowIso));
      && PropertyValue(lines, "DTSTART").Some?
      && ParseUtcDateTime(PropertyValue(lines, "DTSTART").value) == Some(DateTimeFields(b.date, b.start_time, "00"))
      && PropertyValue(lines, "DTEND").Some?
      && ParseUtcDateTime(PropertyValue(lines, "DTEND").value) == Some(DateTimeFields(b.date, b.end_time, "00"))
  {
    IcsProperties(b, nowIso);
    assert PropertyName(DtStart) == "DTSTART" && PropertyName(DtEnd) == "DTEND";
    UtcDateTimeRoundTrip(b.date, b.start_time);
    UtcDateTimeRoundTrip(b.date, b.end_time);
  }

  /** The DTSTAMP line carries the stamp made from the clock reading. */
  lemma IcsStamp(b: Booking, nowIso: string)
    requires NoCr(b, nowIso)
    ensures PropertyValue(SplitCrlf(GenerateICS(b, nowIso)), "DTSTAMP") == Some(Stamp(nowIso))
  {
    IcsProperties(b, nowIso);
    assert PropertyName(DtStamp) == "DTSTAMP";
  }

  /** DTSTAMP reads back as the clock's date and time to the second. */
  lemma IcsStampRoundTrip(b: Booking, day: string, n: nat, sec: string, millis: string)
    requires ValidDateFormat(day) && n < 1440
    requires |sec| == 2 && AllDigits(sec) && |millis| == 3 && AllDigits(millis)
    requires NoCr(b, NowIso(day, n, sec, millis))
    ensures var lines := SplitCrlf(GenerateICS(b, NowIso(day, n, sec, millis)));
      && PropertyValue(lines, "DTSTAMP").Some?
      && ParseUtcDateTime(PropertyValue(lines, "DTSTAMP").value) == Some(DateTimeFields(day, FromMinutes(n), sec))
  {
    IcsStamp(b, NowIso(day, n, sec, millis));
    StampOfIso(day, n, sec, millis);
  }

  /** Only the fields the serialiser reads matter: the status, the
      client's timezone and the creation time do not reach the file. */
  lemma IcsIgnores(b: Booking, nowIso: string, status: BookingStatus, timezone: string, createdAt: string)
    ensures GenerateICS(b.(status := status, timezone := timezone, created_at := createdAt), nowIso) == GenerateICS(b, nowIso)
  {
    assert EventLines(b.(status := status, timezone := timezone, created_at := createdAt), Stamp(nowIso)) == EventLines(b, Stamp(nowIso));
  }
}
