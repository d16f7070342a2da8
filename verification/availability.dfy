/** The availability endpoint (`GET /api/availability?date=YYYY-MM-DD`,
    app/api/availability/route.ts): the date guard, the choice between the
    database's weekly rules and the default schedule, and the slot loop,
    lifted into the pure generator `GenerateSlots`. */
module Availability {

  import opened Nullable
  import opened Text
  import opened Clock
  import opened CivilDate
  import opened BookingTypes

  /** Every slot is one hour long. */
  const SlotDurationMinutes: nat := 60

  const InvalidDateMessage: string := "Invalid date format. Use YYYY-MM-DD."

  /** A rule's or a booking's time range once the endpoint has cut the
      database values to "HH:MM". */
  datatype Window = Window(start_time: string, end_time: string)

  /** A blocked range as the endpoint reads it: either time may be null. */
  datatype BlockWindow = BlockWindow(start_time: Option<string>, end_time: Option<string>)

  /** A generated slot: UTC ISO start and end, and whether it can be booked. */
  datatype Slot = Slot(start: string, end: string, available: bool)

  /** The generator's precondition on rules: both times are "HH:MM". */
  predicate RulesWellFormed(rules: seq<Window>) {
    forall i :: 0 <= i < |rules| ==> WellFormedTime(rules[i].start_time) && WellFormedTime(rules[i].end_time)
  }

  /** `DEFAULT_RULES[dayOfWeek]`: 09:00 to 17:00 from Sunday (0) to Thursday
      (4), nothing on Friday and Saturday. */
  function DefaultRule(dow: int): Option<Window> {
    if 0 <= dow <= 4 then Some(Window("09:00", "17:00")) else None
  }

  /** The UTC ISO instant `${dateStr}T${hhmm}:00Z`. */
  function IsoAt(date: string, hhmm: string): string {
    date + "T" + hhmm + ":00Z"
  }

  /** `isBooked`: some booking starts at exactly this "HH:MM"; the
      booking's end time plays no part. */
  predicate IsBooked(bookings: seq<Window>, slotStart: string) {
    exists b :: b in bookings && b.start_time == slotStart
  }

  /** One block's test in `isBlocked`. A null or empty start time (falsy in
      JavaScript) blocks the whole day; otherwise the block must start no
      later and end no earlier than the slot, compared as strings. A null end
      time compares false with any string, so such a block blocks nothing. */
  predicate BlockCovers(b: BlockWindow, slotStart: string, slotEnd: string) {
    match b.start_time
    case None => true
    case Some(st) =>
      st == "" || (b.end_time.Some? && LexLe(st, slotStart) && LexLe(slotEnd, b.end_time.value))
  }

  predicate IsBlocked(blocks: seq<BlockWindow>, slotStart: string, slotEnd: string) {
    exists b :: b in blocks && BlockCovers(b, slotStart, slotEnd)
  }

  /** `isPast`: the slot's ISO start sorts before the current ISO time. */
  predicate IsPast(slotStartIso: string, now: string) {
    LexLess(slotStartIso, now)
  }

  /** The slot that one turn of the loop pushes for the minute `mins`. */
  function SlotAt(date: string, mins: nat, bookings: seq<Window>, blocks: seq<BlockWindow>, now: string): Slot {
    var startStr := FromMinutes(mins);
    var endStr := FromMinutes(mins + SlotDurationMinutes);
    var startIso := IsoAt(date, startStr);
    Slot(startIso, IsoAt(date, endStr),
      !IsBooked(bookings, startStr) && !IsBlocked(blocks, startStr, endStr) && !IsPast(startIso, now))
  }

  /** How many whole hours fit between two minute counts (none when the
      window is empty or reversed). */
  function WholeSlots(startMins: int, endMins: int): nat {
    if endMins - startMins >= 0 then (endMins - startMins) / 60 else 0
  }

  /** The values `currentMins` takes at each turn of the inner loop, from
      `cur` while a whole hour still fits before `end`. */
  function RuleMinutes(cur: nat, end: int): (ms: seq<nat>)
    ensures |ms| == WholeSlots(cur, end)
    ensures |ms| == 0 || cur + |ms| * 60 <= end
    ensures end - (cur + |ms| * 60) < 60
    decreases end - cur
  {
    if cur + SlotDurationMinutes <= end then [cur] + RuleMinutes(cur + SlotDurationMinutes, end) else []
  }

  /** The k-th turn starts k hours after the window does: consecutive hours,
      no gap, no overlap. */
  lemma {:induction false} RuleMinutesAt(cur: nat, end: int, k: nat)
    requires k < |RuleMinutes(cur, end)|
    ensures RuleMinutes(cur, end)[k] == cur + k * 60
    ensures RuleMinutes(cur, end)[k] + 60 <= end
    decreases k
  {
    if k > 0 {
      RuleMinutesAt(cur + SlotDurationMinutes, end, k - 1);
    }
  }

  /** The slots starting at each of the minutes `ms`, in order. */
  function SlotsOn(date: string, ms: seq<nat>, bookings: seq<Window>, blocks: seq<BlockWindow>, now: string): (slots: seq<Slot>)
    ensures |slots| == |ms|
  {
    seq(|ms|, i requires 0 <= i < |ms| => SlotAt(date, ms[i], bookings, blocks, now))
  }

  lemma SlotsOnIndex(date: string, ms: seq<nat>, bookings: seq<Window>, blocks: seq<BlockWindow>, now: string, idx: nat)
    requires idx < |ms|
    ensures SlotsOn(date, ms, bookings, blocks, now)[idx] == SlotAt(date, ms[idx], bookings, blocks, now)
  {
  }

  lemma SlotsOnAppend(date: string, a: seq<nat>, b: seq<nat>, bookings: seq<Window>, blocks: seq<BlockWindow>, now: string)
    ensures SlotsOn(date, a + b, bookings, blocks, now) == SlotsOn(date, a, bookings, blocks, now) + SlotsOn(date, b, bookings, blocks, now)
  {
  }

  /** Pushing the slot of minute `m` extends the list of minutes by `m`. */
  lemma PushSlot(date: string, before: seq<Slot>, ms: seq<nat>, m: nat, bookings: seq<Window>, blocks: seq<BlockWindow>, now: string,
                 slots: seq<Slot>, slot: Slot)
    requires slots == before + SlotsOn(date, ms, bookings, blocks, now)
    requires [slot] == SlotsOn(date, [m], bookings, blocks, now)
    ensures slots + [slot] == before + SlotsOn(date, ms + [m], bookings, blocks, now)
  {
    SlotsOnAppend(date, ms, [m], bookings, blocks, now);
  }

  /** The starting minutes of every slot, rule after rule. */
  function ScheduleMinutes(rules: seq<Window>): seq<nat>
    requires RulesWellFormed(rules)
  {
    if |rules| == 0 then []
    else RuleMinutes(ToMinutes(rules[0].start_time), ToMinutes(rules[0].end_time)) + ScheduleMinutes(rules[1..])
  }

  /** The generator: for each rule in order, one slot per whole hour of its
      window. */
  function GenerateSlots(date: string, rules: seq<Window>, bookings: seq<Window>, blocks: seq<BlockWindow>, now: string): (slots: seq<Slot>)
    requires RulesWellFormed(rules)
  {
    SlotsOn(date, ScheduleMinutes(rules), bookings, blocks, now)
  }

  /** Rules are processed independently: the minutes of two lists of rules
      are those of the first followed by those of the second. */
  lemma {:induction false} ScheduleMinutesAppend(r1: seq<Window>, r2: seq<Window>)
    requires RulesWellFormed(r1) && RulesWellFormed(r2)
    ensures RulesWellFormed(r1 + r2)
    ensures ScheduleMinutes(r1 + r2) == ScheduleMinutes(r1) + ScheduleMinutes(r2)
    decreases |r1|
  {
    if |r1| > 0 {
      assert (r1 + r2)[1..] == r1[1..] + r2;
      ScheduleMinutesAppend(r1[1..], r2);
    } else {
      assert r1 + r2 == r2;
    }
  }

  /** The slots of two lists of rules are the slots of the first list
      followed by the slots of the second: rules are concatenated in order. */
  lemma GenerateSlotsAppend(date: string, r1: seq<Window>, r2: seq<Window>, bookings: seq<Window>, blocks: seq<BlockWindow>, now: string)
    requires RulesWellFormed(r1) && RulesWellFormed(r2)
    ensures RulesWellFormed(r1 + r2)
    ensures GenerateSlots(date, r1 + r2, bookings, blocks, now) ==
      GenerateSlots(date, r1, bookings, blocks, now) + GenerateSlots(date, r2, bookings, blocks, now)
  {
    ScheduleMinutesAppend(r1, r2);
    SlotsOnAppend(date, ScheduleMinutes(r1), ScheduleMinutes(r2), bookings, blocks, now);
  }

  /** Appending one rule appends its hours. */
  lemma OneRuleSchedule(rules: seq<Window>, rule: Window)
    requires RulesWellFormed(rules)
    requires WellFormedTime(rule.start_time) && WellFormedTime(rule.end_time)
    ensures RulesWellFormed(rules + [rule])
    ensures ScheduleMinutes(rules + [rule]) == ScheduleMinutes(rules) + RuleMinutes(ToMinutes(rule.start_time), ToMinutes(rule.end_time))
  {
    ScheduleMinutesAppend(rules, [rule]);
    assert [rule][1..] == [];
  }

  /** The number of slots the rules yield in all. */
  function TotalSlots(rules: seq<Window>): nat
    requires RulesWellFormed(rules)
  {
    if |rules| == 0 then 0
    else WholeSlots(ToMinutes(rules[0].start_time), ToMinutes(rules[0].end_time)) + TotalSlots(rules[1..])
  }

  /** Each rule yields `max(0, floor((end - start) / 60))` slots, so the
      output has as many slots as the rules' whole hours added up. */
  lemma {:induction false} GenerateSlotsCount(date: string, rules: seq<Window>, bookings: seq<Window>, blocks: seq<BlockWindow>, now: string)
    requires RulesWellFormed(rules)
    ensures |GenerateSlots(date, rules, bookings, blocks, now)| == TotalSlots(rules)
    decreases |rules|
  {
    if |rules| > 0 {
      GenerateSlotsCount(date, rules[1..], bookings, blocks, now);
    }
  }

  /** Where each starting minute sits: the k-th hour of rule j comes after
      the hours of rules 0..j-1 and starts k hours after rule j does. */
  lemma ScheduleMinutesIndex(rules: seq<Window>, j: nat, k: nat)
    requires RulesWellFormed(rules)
    requires j < |rules|
    requires k < WholeSlots(ToMinutes(rules[j].start_time), ToMinutes(rules[j].end_time))
    ensures RulesWellFormed(rules[..j])
    ensures |ScheduleMinutes(rules[..j])| + k < |ScheduleMinutes(rules)|
    ensures ScheduleMinutes(rules)[|ScheduleMinutes(rules[..j])| + k] == ToMinutes(rules[j].start_time) + k * 60
  {
    assert rules == rules[..j] + rules[j..];
    ScheduleMinutesAppend(rules[..j], rules[j..]);
    var rest := rules[j..];
    assert rest[0] == rules[j];
    var s, e := ToMinutes(rules[j].start_time), ToMinutes(rules[j].end_time);
    RuleMinutesAt(s, e, k);
    assert ScheduleMinutes(rest) == RuleMinutes(s, e) + ScheduleMinutes(rest[1..]);
  }

  /** The minute `m` starts a whole hour of the rule's window, on the
      rule's hourly grid. */
  predicate OnRuleGrid(rule: Window, m: int)
    requires WellFormedTime(rule.start_time) && WellFormedTime(rule.end_time)
  {
    var s := ToMinutes(rule.start_time);
    s <= m && m + 60 <= ToMinutes(rule.end_time) && (m - s) % 60 == 0
  }

  /** Every starting minute lies on the grid of one of the rules. */
  lemma {:induction false} ScheduleMinutesOnGrid(rules: seq<Window>, i: nat)
    requires RulesWellFormed(rules)
    requires i < |ScheduleMinutes(rules)|
    ensures exists j :: 0 <= j < |rules| && OnRuleGrid(rules[j], ScheduleMinutes(rules)[i])
    decreases |rules|
  {
    var first := RuleMinutes(ToMinutes(rules[0].start_time), ToMinutes(rules[0].end_time));
    ScheduleMinutesSplit(rules, i);
    if i < |first| {
      RuleMinutesOnGrid(rules[0], i);
      assert OnRuleGrid(rules[0], ScheduleMinutes(rules)[i]);
    } else {
      ScheduleMinutesOnGrid(rules[1..], i - |first|);
      var j :| 0 <= j < |rules[1..]| && OnRuleGrid(rules[1..][j], ScheduleMinutes(rules[1..])[i - |first|]);
      assert rules[1..][j] == rules[j + 1];
      assert OnRuleGrid(rules[j + 1], ScheduleMinutes(rules)[i]);
    }
  }

  /** A starting minute comes from the first rule or from the rest. */
  lemma ScheduleMinutesSplit(rules: seq<Window>, i: nat)
    requires RulesWellFormed(rules)
    requires i < |ScheduleMinutes(rules)|
    ensures RulesWellFormed(rules[1..])
    ensures var first := RuleMinutes(ToMinutes(rules[0].start_time), ToMinutes(rules[0].end_time));
      && (i < |first| ==> ScheduleMinutes(rules)[i] == first[i])
      && (i >= |first| ==> ScheduleMinutes(rules)[i] == ScheduleMinutes(rules[1..])[i - |first|])
  {
  }

  /** Every minute of one rule's inner loop is on the rule's grid. */
  lemma RuleMinutesOnGrid(rule: Window, i: nat)
    requires WellFormedTime(rule.start_time) && WellFormedTime(rule.end_time)
    requires i < |RuleMinutes(ToMinutes(rule.start_time), ToMinutes(rule.end_time))|
    ensures OnRuleGrid(rule, RuleMinutes(ToMinutes(rule.start_time), ToMinutes(rule.end_time))[i])
  {
    var start := ToMinutes(rule.start_time);
    RuleMinutesAt(start, ToMinutes(rule.end_time), i);
    assert RuleMinutes(start, ToMinutes(rule.end_time))[i] - start == i * 60;
    WholeHours(i);
  }

  lemma WholeHours(k: int)
    ensures (k * 60) % 60 == 0
  {
  }

  /** What every generated slot is: the hour starting at a minute on the
      grid of one of the rules, and nothing else. */
  lemma GeneratedSlotOnGrid(date: string, rules: seq<Window>, bookings: seq<Window>, blocks: seq<BlockWindow>, now: string, i: nat)
    requires RulesWellFormed(rules)
    requires i < |GenerateSlots(date, rules, bookings, blocks, now)|
    ensures exists j, m: nat ::
      0 <= j < |rules| && OnRuleGrid(rules[j], m) &&
      GenerateSlots(date, rules, bookings, blocks, now)[i] == SlotAt(date, m, bookings, blocks, now)
  {
    var m := ScheduleMinutes(rules)[i];
    ScheduleMinutesOnGrid(rules, i);
    var j :| 0 <= j < |rules| && OnRuleGrid(rules[j], m);
    SlotsOnIndex(date, ScheduleMinutes(rules), bookings, blocks, now, i);
  }

  /** One turn of the inner loop moves its minute from what is left to what
      is done. */
  lemma RuleMinutesStep(visited: seq<nat>, start: nat, cur: nat, end: int)
    requires visited + RuleMinutes(cur, end) == RuleMinutes(start, end)
    requires cur + SlotDurationMinutes <= end
    ensures (visited + [cur]) + RuleMinutes(cur + SlotDurationMinutes, end) == RuleMinutes(start, end)
  {
    assert RuleMinutes(cur, end) == [cur] + RuleMinutes(cur + SlotDurationMinutes, end);
    assert (visited + [cur]) + RuleMinutes(cur + SlotDurationMinutes, end) ==
      visited + ([cur] + RuleMinutes(cur + SlotDurationMinutes, end));
  }

  /** The body of the inner loop: the slot of the hour starting at
      `currentMins`, available unless booked, blocked or past. */
  method BuildSlot(date: string, currentMins: nat, bookings: seq<Window>, blocks: seq<BlockWindow>, now: string)
    returns (slot: Slot)
    ensures [slot] == SlotsOn(date, [currentMins], bookings, blocks, now)
    ensures ValidDateFormat(date) && currentMins + 60 < 6000 ==>
      && Slice(slot.start, 11, 16) == FromMinutes(currentMins)
      && Slice(slot.end, 11, 16) == FromMinutes(currentMins + 60)
    ensures (forall b :: b in blocks ==> BlockWellFormed(b)) && currentMins + 60 < 6000 ==>
      (slot.available <==>
        && (forall b :: b in bookings && CanonicalTime(b.start_time) ==> ToMinutes(b.start_time) != currentMins)
        && (forall b :: b in blocks ==> !CoversMinutes(b, currentMins))
        && !LexLess(slot.start, now))
  {
    var slotStartStr := FromMinutes(currentMins);
    var slotEndStr := FromMinutes(currentMins + SlotDurationMinutes);
    var slotStartIso := date + "T" + slotStartStr + ":00Z";
    var slotEndIso := date + "T" + slotEndStr + ":00Z";
    var isBooked := IsBooked(bookings, slotStartStr);
    var isBlocked := IsBlocked(blocks, slotStartStr, slotEndStr);
    var isPast := LexLess(slotStartIso, now);
    slot := Slot(slotStartIso, slotEndIso, !isBooked && !isBlocked && !isPast);
    assert slot == SlotAt(date, currentMins, bookings, blocks, now);
    SlotAtMeaning(date, currentMins, bookings, blocks, now);
  }

  /** `SlotSpan` and `SlotAvailableIff` together, each under its own
      conditions. */
  lemma SlotAtMeaning(date: string, m: nat, bookings: seq<Window>, blocks: seq<BlockWindow>, now: string)
    ensures var slot := SlotAt(date, m, bookings, blocks, now);
      ValidDateFormat(date) && m + 60 < 6000 ==>
        && Slice(slot.start, 11, 16) == FromMinutes(m)
        && Slice(slot.end, 11, 16) == FromMinutes(m + 60)
    ensures var slot := SlotAt(date, m, bookings, blocks, now);
      (forall b :: b in blocks ==> BlockWellFormed(b)) && m + 60 < 6000 ==>
        (slot.available <==>
          && (forall b :: b in bookings && CanonicalTime(b.start_time) ==> ToMinutes(b.start_time) != m)
          && (forall b :: b in blocks ==> !CoversMinutes(b, m))
          && !LexLess(slot.start, now))
  {
    if ValidDateFormat(date) && m + 60 < 6000 {
      SlotSpan(date, m, bookings, blocks, now);
    }
    if (forall b :: b in blocks ==> BlockWellFormed(b)) && m + 60 < 6000 {
      SlotAvailableIff(date, m, bookings, blocks, now);
      assert SlotAt(date, m, bookings, blocks, now).start == IsoAt(date, FromMinutes(m));
    }
  }

  /** The inner loop of the source for one rule: from the rule's start,
      while a whole hour fits before its end, push the slot of that hour. */
  method PushRuleSlots(date: string, startMins: nat, endMins: nat, bookings: seq<Window>, blocks: seq<BlockWindow>, now: string, before: seq<Slot>)
    returns (slots: seq<Slot>)
    ensures slots == before + SlotsOn(date, RuleMinutes(startMins, endMins), bookings, blocks, now)
  {
    ghost var visited: seq<nat> := [];
    slots := before;
    var currentMins := startMins;
    while currentMins + SlotDurationMinutes <= endMins
      invariant visited + RuleMinutes(currentMins, endMins) == RuleMinutes(startMins, endMins)
      invariant slots == before + SlotsOn(date, visited, bookings, blocks, now)
      decreases endMins - currentMins
    {
      var slot := BuildSlot(date, currentMins, bookings, blocks, now);
      PushSlot(date, before, visited, currentMins, bookings, blocks, now, slots, slot);
      slots := slots + [slot];
      RuleMinutesStep(visited, startMins, currentMins, endMins);
      visited := visited + [currentMins];
      currentMins := currentMins + SlotDurationMinutes;
    }
    assert RuleMinutes(currentMins, endMins) == [];
    assert visited == RuleMinutes(startMins, endMins);
  }

  /** The loop of the source: for each rule in order, run the inner loop
      over its window. The result is the generator's output. */
  method GenerateSlotsLoop(date: string, rules: seq<Window>, bookings: seq<Window>, blocks: seq<BlockWindow>, now: string)
    returns (slots: seq<Slot>)
    requires RulesWellFormed(rules)
    ensures slots == GenerateSlots(date, rules, bookings, blocks, now)
  {
    slots := [];
    var i := 0;
    while i < |rules|
      invariant 0 <= i <= |rules|
      invariant RulesWellFormed(rules[..i])
      invariant slots == SlotsOn(date, ScheduleMinutes(rules[..i]), bookings, blocks, now)
    {
      var rule := rules[i];
      var currentMins := ToMinutes(rule.start_time);
      var endMins := ToMinutes(rule.end_time);
      ghost var before := slots;
      slots := PushRuleSlots(date, currentMins, endMins, bookings, blocks, now, slots);
      OneRuleSchedule(rules[..i], rule);
      SlotsOnAppend(date, ScheduleMinutes(rules[..i]), RuleMinutes(currentMins, endMins), bookings, blocks, now);
      assert rules[..i + 1] == rules[..i] + [rule];
      i := i + 1;
    }
    assert rules[..|rules|] == rules;
  }

  // ---- What one slot says -------------------------------------------------

  /** The "HH:MM" at characters 11..16 of a slot's ISO start is the hour
      the slot starts at, and that of its end is one hour later: every slot
      is exactly 60 minutes long. */
  lemma SlotSpan(date: string, m: nat, bookings: seq<Window>, blocks: seq<BlockWindow>, now: string)
    requires ValidDateFormat(date)
    requires m + 60 < 6000
    ensures Slice(SlotAt(date, m, bookings, blocks, now).start, 11, 16) == FromMinutes(m)
    ensures Slice(SlotAt(date, m, bookings, blocks, now).end, 11, 16) == FromMinutes(m + 60)
    ensures var startTime := Slice(SlotAt(date, m, bookings, blocks, now).start, 11, 16);
      var endTime := Slice(SlotAt(date, m, bookings, blocks, now).end, 11, 16);
      CanonicalTime(startTime) && CanonicalTime(endTime) && ToMinutes(endTime) == ToMinutes(startTime) + 60
  {
    var slot := SlotAt(date, m, bookings, blocks, now);
    assert slot.start == IsoAt(date, FromMinutes(m));
    assert slot.end == IsoAt(date, FromMinutes(m + 60));
    IsoAtTime(date, m);
    IsoAtTime(date, m + 60);
    ToMinutesFromMinutes(m);
    ToMinutesFromMinutes(m + 60);
  }

  /** Characters 11..16 of `IsoAt(date, fromMinutes(m))` are `fromMinutes(m)`. */
  lemma IsoAtTime(date: string, m: nat)
    requires ValidDateFormat(date)
    requires m < 6000
    ensures |IsoAt(date, FromMinutes(m))| == 20
    ensures Slice(IsoAt(date, FromMinutes(m)), 11, 16) == FromMinutes(m)
  {
    FromMinutesDigits(m);
    var iso := IsoAt(date, FromMinutes(m));
    assert iso[11..16] == FromMinutes(m);
  }

  /** `isBooked` in terms of minutes: the slot at minute `m` is booked iff
      some booking's start is a canonical "HH:MM" naming that minute. A
      start such as "9:00" or "09:60" matches no slot. */
  lemma BookedIff(bookings: seq<Window>, m: nat)
    requires m < 6000
    ensures IsBooked(bookings, FromMinutes(m)) <==>
      exists b :: b in bookings && CanonicalTime(b.start_time) && ToMinutes(b.start_time) == m
  {
    ToMinutesFromMinutes(m);
    if exists b :: b in bookings && CanonicalTime(b.start_time) && ToMinutes(b.start_time) == m {
      var b :| b in bookings && CanonicalTime(b.start_time) && ToMinutes(b.start_time) == m;
      FromMinutesToMinutes(b.start_time);
    }
  }

  /** The times of a block once cut to "HH:MM": a present, non-empty start
      and a present end are canonical times. */
  predicate BlockWellFormed(b: BlockWindow) {
    && (b.start_time.Some? && b.start_time.value != "" ==> CanonicalTime(b.start_time.value))
    && (b.end_time.Some? ==> CanonicalTime(b.end_time.value))
  }

  /** A reference for the block test in minutes: a block with a null or
      empty start covers the whole day; otherwise it covers the hour from
      `m` iff it has an end and the hour lies within [start, end]. */
  predicate CoversMinutes(b: BlockWindow, m: int)
    requires BlockWellFormed(b)
  {
    match b.start_time
    case None => true
    case Some(st) =>
      st == "" || (b.end_time.Some? && ToMinutes(st) <= m && m + 60 <= ToMinutes(b.end_time.value))
  }

  /** The string test of `isBlocked` on one block agrees with the minute
      reference, because zero-padded times sort as the minutes they encode. */
  lemma BlockCoversIff(b: BlockWindow, m: nat)
    requires BlockWellFormed(b)
    requires m + 60 < 6000
    ensures BlockCovers(b, FromMinutes(m), FromMinutes(m + 60)) <==> CoversMinutes(b, m)
  {
    if b.start_time.Some? && b.start_time.value != "" && b.end_time.Some? {
      var st, en := b.start_time.value, b.end_time.value;
      FromMinutesToMinutes(st);
      FromMinutesToMinutes(en);
      FromMinutesOrder(ToMinutes(st), m);
      FromMinutesOrder(m + 60, ToMinutes(en));
    }
  }

  /** `isBlocked` in terms of minutes. */
  lemma BlockedIff(blocks: seq<BlockWindow>, m: nat)
    requires forall b :: b in blocks ==> BlockWellFormed(b)
    requires m + 60 < 6000
    ensures IsBlocked(blocks, FromMinutes(m), FromMinutes(m + 60)) <==>
      exists b :: b in blocks && CoversMinutes(b, m)
  {
    forall b | b in blocks
      ensures BlockCovers(b, FromMinutes(m), FromMinutes(m + 60)) <==> CoversMinutes(b, m)
    {
      BlockCoversIff(b, m);
    }
  }

  /** `new Date().toISOString()` for an instant in the years 0 to 9999: the
      date, "T", the "HH:MM" of the minute, ":", two digits of seconds, ".",
      three digits of milliseconds, "Z". */
  function NowIso(day: string, minute: nat, sec: string, millis: string): (iso: string)
    requires ValidDateFormat(day) && minute < 1440
    requires |sec| == 2 && |millis| == 3
    ensures |iso| == 24
    ensures Slice(iso, 0, 10) == day && Slice(iso, 11, 16) == FromMinutes(minute)
  {
    FromMinutesDigits(minute);
    IsoLayout(day, FromMinutes(minute), sec, millis);
    day + "T" + FromMinutes(minute) + ":" + sec + "." + millis + "Z"
  }

  /** Where the date and the time sit in an ISO string. */
  lemma IsoLayout(day: string, time: string, sec: string, millis: string)
    requires |day| == 10 && |time| == 5 && |sec| == 2 && |millis| == 3
    ensures var iso := day + "T" + time + ":" + sec + "." + millis + "Z";
      |iso| == 24 && iso[0..10] == day && iso[11..16] == time
  {
    var iso := day + "T" + time + ":" + sec + "." + millis + "Z";
    assert iso[11..16] == time;
  }

  /** Two digits sort after "00" unless they are "00". */
  lemma ZerosFirst(sec: string)
    requires |sec| == 2 && AllDigits(sec)
    ensures LexLess("00", sec) <==> sec != "00"
  {
    LexLessTotal("00", sec);
  }

  /** The past test compares strings of different shapes: the slot's start
      ends in ":00Z" and the current time in ":SS.mmmZ". A slot is past iff
      its date is earlier, or the date is the same and its minute is
      earlier, or it is the current minute and the seconds are past "00".
      During the first second of its own minute a slot is not yet past. */
  lemma SlotPastIff(date: string, m: nat, day: string, n: nat, sec: string, millis: string)
    requires ValidDateFormat(date) && ValidDateFormat(day)
    requires m < 6000 && n < 1440
    requires |sec| == 2 && AllDigits(sec) && |millis| == 3
    ensures IsPast(IsoAt(date, FromMinutes(m)), NowIso(day, n, sec, millis)) <==>
      LexLess(date, day) || (date == day && (m < n || (m == n && sec != "00")))
  {
    FromMinutesDigits(m);
    FromMinutesDigits(n);
    FromMinutesOrder(m, n);
    FromMinutesOrder(n, m);
    IsoCompare(date, FromMinutes(m), day, FromMinutes(n), sec, millis);
  }

  /** The comparison behind the past test on strings of the two shapes. */
  lemma IsoCompare(date: string, a: string, day: string, b: string, sec: string, millis: string)
    requires |date| == |day| && |a| == |b|
    requires |sec| == 2 && AllDigits(sec)
    ensures LexLess(date + "T" + a + ":00Z", day + "T" + b + ":" + sec + "." + millis + "Z") <==>
      LexLess(date, day) || (date == day && (LexLess(a, b) || (a == b && sec != "00")))
  {
    var tailN := sec + ("." + millis + "Z");
    IsoShapes(date, a, day, b, sec, millis);
    IsoCompareNested(date, a, day, b, "T", ":", "00" + "Z", tailN);
    assert !LexLess("Z", "." + millis + "Z");
    ZerosFirst(sec);
  }

  /** The two strings regrouped from the right. */
  lemma IsoShapes(date: string, a: string, day: string, b: string, sec: string, millis: string)
    ensures date + "T" + a + ":00Z" == date + ("T" + (a + (":" + ("00" + "Z"))))
    ensures day + "T" + b + ":" + sec + "." + millis + "Z" == day + ("T" + (b + (":" + (sec + ("." + millis + "Z")))))
  {
    assert ":00Z" == ":" + ("00" + "Z");
  }

  /** Comparing field by field: date, "T", time, ":", then the seconds. */
  lemma IsoCompareNested(date: string, a: string, day: string, b: string, t: string, c: string, z: string, tailN: string)
    requires |date| == |day| && |a| == |b|
    ensures LexLess(date + (t + (a + (c + z))), day + (t + (b + (c + tailN)))) <==>
      LexLess(date, day) || (date == day && (LexLess(a, b) || (a == b && LexLess(z, tailN))))
  {
    LexLessAppend(date, t + (a + (c + z)), day, t + (b + (c + tailN)));
    LexLessSamePrefix(t, a + (c + z), b + (c + tailN));
    LexLessAppend(a, c + z, b, c + tailN);
    LexLessSamePrefix(c, z, tailN);
  }

  /** The availability flag in terms of minutes: a slot is available iff
      no booking starts at its minute, no block covers its hour, and its
      start does not sort before the current time. */
  lemma SlotAvailableIff(date: string, m: nat, bookings: seq<Window>, blocks: seq<BlockWindow>, now: string)
    requires forall b :: b in blocks ==> BlockWellFormed(b)
    requires m + 60 < 6000
    ensures SlotAt(date, m, bookings, blocks, now).available <==>
      && (forall b :: b in bookings && CanonicalTime(b.start_time) ==> ToMinutes(b.start_time) != m)
      && (forall b :: b in blocks ==> !CoversMinutes(b, m))
      && !LexLess(IsoAt(date, FromMinutes(m)), now)
  {
    BookedIff(bookings, m);
    BlockedIff(blocks, m);
  }

  // ---- What the generated list says ---------------------------------------

  /** The slot at `i` has a successor, which starts where it ends. */
  predicate Touching(slots: seq<Slot>, i: nat) {
    i + 1 < |slots| && slots[i].end == slots[i + 1].start
  }

  /** Within one rule, each slot starts where the previous one ends: no gap
      and no overlap. */
  lemma RuleSlotsContiguous(date: string, rules: seq<Window>, bookings: seq<Window>, blocks: seq<BlockWindow>, now: string, j: nat, k: nat)
    requires RulesWellFormed(rules)
    requires j < |rules|
    requires k + 1 < WholeSlots(ToMinutes(rules[j].start_time), ToMinutes(rules[j].end_time))
    ensures RulesWellFormed(rules[..j])
    ensures Touching(GenerateSlots(date, rules, bookings, blocks, now), |ScheduleMinutes(rules[..j])| + k)
  {
    ScheduleMinutesNext(rules, j, k);
    GeneratedSlotsTouch(date, rules, bookings, blocks, now, |ScheduleMinutes(rules[..j])| + k);
  }

  /** Two generated slots whose starting minutes are an hour apart touch. */
  lemma GeneratedSlotsTouch(date: string, rules: seq<Window>, bookings: seq<Window>, blocks: seq<BlockWindow>, now: string, idx: nat)
    requires RulesWellFormed(rules)
    requires idx + 1 < |ScheduleMinutes(rules)|
    requires ScheduleMinutes(rules)[idx + 1] == ScheduleMinutes(rules)[idx] + 60
    ensures Touching(GenerateSlots(date, rules, bookings, blocks, now), idx)
  {
    NextSlotTouches(date, ScheduleMinutes(rules), bookings, blocks, now, idx);
  }

  /** Two slots whose starting minutes are an hour apart touch. */
  lemma NextSlotTouches(date: string, ms: seq<nat>, bookings: seq<Window>, blocks: seq<BlockWindow>, now: string, idx: nat)
    requires idx + 1 < |ms| && ms[idx + 1] == ms[idx] + 60
    ensures SlotsOn(date, ms, bookings, blocks, now)[idx].end == SlotsOn(date, ms, bookings, blocks, now)[idx + 1].start
  {
    SlotEndIsNextStart(date, ms[idx], bookings, blocks, now);
  }

  lemma ScheduleMinutesNext(rules: seq<Window>, j: nat, k: nat)
    requires RulesWellFormed(rules)
    requires j < |rules|
    requires k + 1 < WholeSlots(ToMinutes(rules[j].start_time), ToMinutes(rules[j].end_time))
    ensures RulesWellFormed(rules[..j])
    ensures |ScheduleMinutes(rules[..j])| + k + 1 < |ScheduleMinutes(rules)|
    ensures ScheduleMinutes(rules)[|ScheduleMinutes(rules[..j])| + k + 1] ==
      ScheduleMinutes(rules)[|ScheduleMinutes(rules[..j])| + k] + 60
  {
    ScheduleMinutesIndex(rules, j, k);
    ScheduleMinutesIndex(rules, j, k + 1);
  }

  lemma SlotEndIsNextStart(date: string, m: nat, bookings: seq<Window>, blocks: seq<BlockWindow>, now: string)
    ensures SlotAt(date, m, bookings, blocks, now).end == SlotAt(date, m + 60, bookings, blocks, now).start
  {
  }

  /** The slot at position `i` of the output is the slot of its starting
      minute. */
  lemma GeneratedSlotAt(date: string, rules: seq<Window>, bookings: seq<Window>, blocks: seq<BlockWindow>, now: string, i: nat)
    requires RulesWellFormed(rules)
    requires i < |ScheduleMinutes(rules)|
    ensures i < |GenerateSlots(date, rules, bookings, blocks, now)|
    ensures GenerateSlots(date, rules, bookings, blocks, now)[i] ==
      SlotAt(date, ScheduleMinutes(rules)[i], bookings, blocks, now)
  {
    SlotsOnIndex(date, ScheduleMinutes(rules), bookings, blocks, now, i);
  }

  /** A block with a null or empty start makes every slot of the day
      unavailable, whatever the rules. */
  lemma FullDayBlockBlocksAll(date: string, rules: seq<Window>, bookings: seq<Window>, blocks: seq<BlockWindow>, now: string, i: nat)
    requires RulesWellFormed(rules)
    requires exists b :: b in blocks && (b.start_time.None? || b.start_time == Some(""))
    requires i < |GenerateSlots(date, rules, bookings, blocks, now)|
    ensures !GenerateSlots(date, rules, bookings, blocks, now)[i].available
  {
    GeneratedSlotAt(date, rules, bookings, blocks, now, i);
    var m := ScheduleMinutes(rules)[i];
    var b :| b in blocks && (b.start_time.None? || b.start_time == Some(""));
    assert BlockCovers(b, FromMinutes(m), FromMinutes(m + 60));
  }

  /** One more booking leaves every slot's times alone and turns off
      exactly the slot whose start string equals the booking's start. */
  lemma AddBookingEffect(date: string, rules: seq<Window>, bookings: seq<Window>, b: Window, blocks: seq<BlockWindow>, now: string, i: nat)
    requires RulesWellFormed(rules)
    requires i < |GenerateSlots(date, rules, bookings, blocks, now)|
    ensures |GenerateSlots(date, rules, bookings + [b], blocks, now)| == |GenerateSlots(date, rules, bookings, blocks, now)|
    ensures GenerateSlots(date, rules, bookings + [b], blocks, now)[i].start == GenerateSlots(date, rules, bookings, blocks, now)[i].start
    ensures GenerateSlots(date, rules, bookings + [b], blocks, now)[i].end == GenerateSlots(date, rules, bookings, blocks, now)[i].end
    ensures GenerateSlots(date, rules, bookings + [b], blocks, now)[i].available <==>
      GenerateSlots(date, rules, bookings, blocks, now)[i].available && b.start_time != FromMinutes(ScheduleMinutes(rules)[i])
  {
    GeneratedSlotAt(date, rules, bookings, blocks, now, i);
    GeneratedSlotAt(date, rules, bookings + [b], blocks, now, i);
    var m := ScheduleMinutes(rules)[i];
    assert IsBooked(bookings + [b], FromMinutes(m)) <==> IsBooked(bookings, FromMinutes(m)) || b.start_time == FromMinutes(m) by {
      if b.start_time == FromMinutes(m) {
        assert b in bookings + [b];
      }
      if IsBooked(bookings, FromMinutes(m)) {
        var c :| c in bookings && c.start_time == FromMinutes(m);
        assert c in bookings + [b];
      }
    }
  }

  /** Slot starts on one date sort as their minutes do. */
  lemma IsoAtOrder(date: string, a: nat, b: nat)
    requires a < 6000 && b < 6000
    ensures LexLess(IsoAt(date, FromMinutes(a)), IsoAt(date, FromMinutes(b))) <==> a < b
  {
    FromMinutesDigits(a);
    FromMinutesDigits(b);
    FromMinutesOrder(a, b);
    SameDayCompare(date, FromMinutes(a), FromMinutes(b), ":00Z");
  }

  lemma SameDayCompare(date: string, x: string, y: string, tail: string)
    requires |x| == |y|
    ensures LexLess(date + "T" + x + tail, date + "T" + y + tail) <==> LexLess(x, y)
  {
    var t := "T";
    assert date + t + x + tail == date + (t + (x + tail));
    assert date + t + y + tail == date + (t + (y + tail));
    LexLessAppend(date, t + (x + tail), date, t + (y + tail));
    LexLessIrreflexive(date);
    LexLessAppend(t, x + tail, t, y + tail);
    LexLessIrreflexive(t);
    LexLessAppend(x, tail, y, tail);
    LexLessIrreflexive(tail);
  }

  /** Being past is downward closed: if the slot at `b` is past, so is
      every earlier slot of the same date. */
  lemma PastMonotone(date: string, a: nat, b: nat, now: string)
    requires a <= b < 6000
    requires IsPast(IsoAt(date, FromMinutes(b)), now)
    ensures IsPast(IsoAt(date, FromMinutes(a)), now)
  {
    if a < b {
      IsoAtOrder(date, a, b);
      LexLessTransitive(IsoAt(date, FromMinutes(a)), IsoAt(date, FromMinutes(b)), now);
    }
  }
}
