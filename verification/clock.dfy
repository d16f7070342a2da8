/** Times of day as the availability endpoint handles them: zero-padded
    24-hour "HH:MM" strings on the outside, minutes since midnight inside
    (`toMinutes` / `fromMinutes` in app/api/availability/route.ts). */
module Clock {

  import opened Text

  /** A "HH:MM" string as the endpoint receives it: the first five
      characters of a Postgres `time` value, or a literal of the default
      schedule. Two digits, a colon, two digits. */
  predicate WellFormedTime(t: string) {
    |t| == 5 && IsDigit(t[0]) && IsDigit(t[1]) && t[2] == ':' && IsDigit(t[3]) && IsDigit(t[4])
  }

  /** A well-formed time whose minute field is below 60: the only strings
      `fromMinutes` produces (for hours below 100). */
  predicate CanonicalTime(t: string) {
    WellFormedTime(t) && MinuteField(t) < 60
  }

  /** Hours and minutes of a well-formed "HH:MM": `Number` of each side of
      `time.split(":")`, a two-digit decimal. */
  function HourField(t: string): (h: nat)
    requires WellFormedTime(t)
    ensures h < 100
  {
    DigitValue(t[0]) * 10 + DigitValue(t[1])
  }

  function MinuteField(t: string): (m: nat)
    requires WellFormedTime(t)
    ensures m < 100
  {
    DigitValue(t[3]) * 10 + DigitValue(t[4])
  }

  /** `toMinutes`: minutes since midnight of a "HH:MM" string. */
  function ToMinutes(t: string): (mins: nat)
    requires WellFormedTime(t)
    ensures mins == HourField(t) * 60 + MinuteField(t)
    ensures CanonicalTime(t) ==> mins < 6000 && mins % 60 == MinuteField(t)
  {
    HourField(t) * 60 + MinuteField(t)
  }

  /** `fromMinutes`: the hour `floor(mins / 60)` and the minute `mins % 60`,
      each as a decimal string left-padded with "0" to two characters,
      joined by a colon. Hours of 100 and more print with three or more
      digits, as JavaScript's `padStart` does not truncate. */
  function FromMinutes(mins: nat): string
  {
    PadStart(NatToString(mins / 60), 2, '0') + ":" + PadStart(NatToString(mins % 60), 2, '0')
  }

  /** The two-character zero-padded decimal of a number below 100. */
  function Two(n: nat): (s: string)
    requires n < 100
    ensures |s| == 2 && IsDigit(s[0]) && IsDigit(s[1])
    ensures DigitValue(s[0]) * 10 + DigitValue(s[1]) == n
  {
    [Digit(n / 10), Digit(n % 10)]
  }

  /** Below 100 hours, `fromMinutes` writes exactly five characters: the two
      hour digits, a colon and the two minute digits. */
  lemma FromMinutesDigits(mins: nat)
    requires mins < 6000
    ensures FromMinutes(mins) == Two(mins / 60) + ":" + Two(mins % 60)
  {
    Pad2Digits(mins / 60);
    Pad2Digits(mins % 60);
  }

  /** `toMinutes(fromMinutes(m)) == m` below 100 hours, and what
      `fromMinutes` writes there is a canonical "HH:MM". */
  lemma ToMinutesFromMinutes(mins: nat)
    requires mins < 6000
    ensures CanonicalTime(FromMinutes(mins))
    ensures ToMinutes(FromMinutes(mins)) == mins
  {
    FromMinutesDigits(mins);
    TimeOfFields(mins / 60, mins % 60);
  }

  /** The fields of the string built from an hour and a minute. */
  lemma TimeOfFields(h: nat, m: nat)
    requires h < 100 && m < 60
    ensures CanonicalTime(Two(h) + ":" + Two(m))
    ensures HourField(Two(h) + ":" + Two(m)) == h
    ensures MinuteField(Two(h) + ":" + Two(m)) == m
  {
    var t := Two(h) + ":" + Two(m);
    assert t[0] == Two(h)[0] && t[1] == Two(h)[1] && t[2] == ':';
    assert t[3] == Two(m)[0] && t[4] == Two(m)[1];
  }

  /** Quotient and remainder of `q * 10 + r` and `q * 60 + r`. */
  lemma DivMod10(q: nat, r: nat)
    requires r < 10
    ensures (q * 10 + r) / 10 == q && (q * 10 + r) % 10 == r
  {
  }

  lemma DivMod60(q: nat, r: nat)
    requires r < 60
    ensures (q * 60 + r) / 60 == q && (q * 60 + r) % 60 == r
  {
  }

  /** `fromMinutes(toMinutes(t)) == t` for every canonical "HH:MM". */
  lemma FromMinutesToMinutes(t: string)
    requires CanonicalTime(t)
    ensures FromMinutes(ToMinutes(t)) == t
  {
    var h, m := HourField(t), MinuteField(t);
    DivMod60(h, m);
    FromMinutesDigits(h * 60 + m);
    TwoFields(t);
  }

  /** A canonical "HH:MM" is what `fromMinutes` writes for exactly one
      minute count: the one `toMinutes` reads from it. */
  lemma TimeNamesMinute(t: string, m: nat)
    requires CanonicalTime(t) && m < 6000
    ensures t == FromMinutes(m) <==> ToMinutes(t) == m
  {
    FromMinutesToMinutes(t);
    ToMinutesFromMinutes(m);
  }

  /** A canonical "HH:MM" is the padded hour, a colon and the padded minute. */
  lemma TwoFields(t: string)
    requires CanonicalTime(t)
    ensures Two(HourField(t)) + ":" + Two(MinuteField(t)) == t
  {
    DivMod10(DigitValue(t[0]), DigitValue(t[1]));
    DivMod10(DigitValue(t[3]), DigitValue(t[4]));
  }

  /** Digits compare as the numbers they stand for. */
  lemma DigitOrder(a: nat, b: nat)
    requires a < 10 && b < 10
    ensures Digit(a) < Digit(b) <==> a < b
    ensures Digit(a) == Digit(b) <==> a == b
  {
  }

  /** Two-digit strings compare as the numbers they stand for. */
  lemma TwoOrder(a: nat, b: nat)
    requires a < 100 && b < 100
    ensures LexLess(Two(a), Two(b)) <==> a < b
    ensures Two(a) == Two(b) <==> a == b
  {
    DigitOrder(a / 10, b / 10);
    DigitOrder(a % 10, b % 10);
    LexLessAppend([Digit(a / 10)], [Digit(a % 10)], [Digit(b / 10)], [Digit(b % 10)]);
    LexLessChar(Digit(a / 10), Digit(b / 10));
    LexLessChar(Digit(a % 10), Digit(b % 10));
    assert Two(a) == [Digit(a / 10)] + [Digit(a % 10)];
    assert Two(b) == [Digit(b / 10)] + [Digit(b % 10)];
  }

  /** "HH:MM" strings built from fields compare as the minutes they encode. */
  lemma FieldsOrder(h: nat, m: nat, h': nat, m': nat)
    requires h < 100 && m < 60 && h' < 100 && m' < 60
    ensures LexLess(Two(h) + ":" + Two(m), Two(h') + ":" + Two(m')) <==> h * 60 + m < h' * 60 + m'
    ensures Two(h) + ":" + Two(m) == Two(h') + ":" + Two(m') <==> h * 60 + m == h' * 60 + m'
  {
    TwoOrder(h, h');
    TwoOrder(m, m');
    assert Two(h) + ":" + Two(m) == Two(h) + (":" + Two(m));
    assert Two(h') + ":" + Two(m') == Two(h') + (":" + Two(m'));
    LexLessAppend(Two(h), ":" + Two(m), Two(h'), ":" + Two(m'));
    LexLessAppend(":", Two(m), ":", Two(m'));
    LexLessIrreflexive(":");
    if Two(h) + ":" + Two(m) == Two(h') + ":" + Two(m') {
      assert (Two(h) + ":" + Two(m))[..2] == Two(h);
      assert (Two(h') + ":" + Two(m'))[..2] == Two(h');
      assert (Two(h) + ":" + Two(m))[3..] == Two(m);
      assert (Two(h') + ":" + Two(m'))[3..] == Two(m');
    }
  }

  /** The string order of "HH:MM" strings written by `fromMinutes` is the
      numeric order of the minutes they encode, so comparing the strings
      (as the block and past checks do) compares the times. */
  lemma FromMinutesOrder(a: nat, b: nat)
    requires a < 6000 && b < 6000
    ensures LexLess(FromMinutes(a), FromMinutes(b)) <==> a < b
    ensures LexLe(FromMinutes(a), FromMinutes(b)) <==> a <= b
  {
    FromMinutesDigits(a);
    FromMinutesDigits(b);
    FieldsOrder(a / 60, a % 60, b / 60, b % 60);
  }
}
