/** The competition draw as a specification on values: the kickoff-slot
    catalog, the calendar days of a competition, the home-and-away fixture
    list, the first-fit search for a free (pitch, slot) on a day, and one
    fixture's placement (`Step`) folded over all fixtures (`Run`).
    Calendar dates are day numbers and date-times are (day, hour, minute)
    triples. The imperative draw in module Competitions is proved equal to
    `Run`; the lemmas here say what `Run` guarantees. */
module Schedule {
  import opened Common

  // ---------------------------------------------------------------
  // The kickoff-slot catalog
  // ---------------------------------------------------------------

  /** The thirteen wall-clock kickoff times tried on every day, in order. */
  const SlotLabels: seq<string> := [
    "08:30 AM", "09:30 AM", "10:30 AM", "11:30 AM", "12:30 PM",
    "01:30 PM", "02:30 PM", "03:30 PM", "04:30 PM", "05:30 PM",
    "06:30 PM", "07:30 PM", "08:30 PM"]

  const SlotCount: nat := 13

  /** A label of the shape "hh:mm AM" or "hh:mm PM". */
  predicate WellFormedLabel(text: string)
  {
    && |text| == 8
    && AllDigits(text[..2]) && text[2] == ':' && AllDigits(text[3..5]) && text[5] == ' '
    && (text[6..] == "AM" || text[6..] == "PM")
  }

  /** The 24-hour clock hour of a label: the two leading digits, plus 12
      for "PM" unless the digits are "12". */
  function HourOf(text: string): nat
    requires WellFormedLabel(text)
  {
    var hours := text[..2];
    if text[6..] == "PM" && hours != "12" then ParseDigits(hours) + 12 else ParseDigits(hours)
  }

  function MinuteOf(text: string): nat
    requires WellFormedLabel(text)
  {
    ParseDigits(text[3..5])
  }

  function TwoDigits(n: nat): (s: string)
    requires n < 100
    ensures AllDigits(s)
  {
    [(n / 10 + '0' as int) as char, (n % 10 + '0' as int) as char]
  }

  /** The 12-hour-clock label of the half hour after hour h (1 <= h <= 23). */
  function Clock12(h: nat): (text: string)
    requires 1 <= h <= 23
    ensures WellFormedLabel(text)
  {
    var h12 := if h > 12 then h - 12 else h;
    TwoDigits(h12) + ":30 " + (if h >= 12 then "PM" else "AM")
  }

  /** Parsing a label gives back the hour it was written for, from 1 AM to
      11 PM. (Midnight, "12:30 AM", would read as 12; it is not in the
      catalog.) */
  lemma ClockRoundTrip(h: nat)
    requires 1 <= h <= 23
    ensures HourOf(Clock12(h)) == h && MinuteOf(Clock12(h)) == 30
  {
    var text := Clock12(h);
    var h12 := if h > 12 then h - 12 else h;
    var hours := text[..2];
    assert hours == TwoDigits(h12);
    ParseTwoDigits(hours);
    assert text[3..5] == "30";
    ParseTwoDigits(text[3..5]);
    if h >= 12 {
      assert text[6..] == "PM";
      assert hours == "12" <==> h12 == 12;
    } else {
      assert text[6..] == "AM";
    }
  }

  /** The catalog is the half-past labels from 08:30 to 20:30. */
  lemma CatalogIsHalfPast(k: nat)
    requires k < SlotCount
    ensures SlotLabels[k] == Clock12(8 + k)
  {
  }

  /** Slot k starts at (8 + k):30; for example "12:30 PM" is hour 12 and
      "08:30 PM" is hour 20. */
  lemma SlotClock(k: nat)
    requires k < SlotCount
    ensures WellFormedLabel(SlotLabels[k])
    ensures HourOf(SlotLabels[k]) == 8 + k && MinuteOf(SlotLabels[k]) == 30
  {
    CatalogIsHalfPast(k);
    ClockRoundTrip(8 + k);
  }

  datatype DateTime = DateTime(day: int, hour: nat, minute: nat)

  /** The date-time of slot k on a day: (8 + k):30, which is what parsing
      the slot's label gives (SlotClock). */
  function SlotTime(day: int, k: nat): (t: DateTime)
    requires k < SlotCount
    ensures t.day == day
  {
    DateTime(day, 8 + k, 30)
  }

  /** The date-time the draw computes from slot k's label is SlotTime. */
  lemma SlotTimeFromLabel(day: int, k: nat)
    requires k < SlotCount
    ensures WellFormedLabel(SlotLabels[k])
    ensures DateTime(day, HourOf(SlotLabels[k]), MinuteOf(SlotLabels[k])) == SlotTime(day, k)
  {
    SlotClock(k);
  }

  // ---------------------------------------------------------------
  // Calendar days
  // ---------------------------------------------------------------

  /** Every day from start to end inclusive, in ascending order. */
  function CalendarDays(start: int, end: int): seq<int>
  {
    seq(if start <= end then end - start + 1 else 0, i => start + i)
  }

  predicate Increasing(xs: seq<int>)
  {
    forall i, j :: 0 <= i < j < |xs| ==> xs[i] < xs[j]
  }

  lemma CalendarDaysSpec(start: int, end: int)
    ensures start > end ==> CalendarDays(start, end) == []
    ensures forall d :: d in CalendarDays(start, end) <==> start <= d <= end
    ensures Increasing(CalendarDays(start, end))
  {
    var days := CalendarDays(start, end);
    forall d | start <= d <= end
      ensures d in days
    {
      assert days[d - start] == d;
    }
  }

  // ---------------------------------------------------------------
  // Fixtures
  // ---------------------------------------------------------------

  /** One ordered pairing: `home` plays as team A, `away` as team B. */
  datatype Fixture = Fixture(home: int, away: int)

  /** The home and the away leg of teams i and j. */
  function Legs(teams: seq<int>, i: nat, j: nat): seq<Fixture>
    requires i < |teams| && j < |teams|
  {
    [Fixture(teams[i], teams[j]), Fixture(teams[j], teams[i])]
  }

  /** The legs of team i against teams j, j + 1, ... */
  function Row(teams: seq<int>, i: nat, j: nat): seq<Fixture>
    requires i < |teams| && j <= |teams|
    decreases |teams| - j
  {
    if j == |teams| then [] else Legs(teams, i, j) + Row(teams, i, j + 1)
  }

  /** Peeling the first pair off a row. */
  lemma RowPeel(done: seq<Fixture>, teams: seq<int>, i: nat, j: nat)
    requires i < |teams| && j < |teams|
    ensures done + Row(teams, i, j) == (done + Legs(teams, i, j)) + Row(teams, i, j + 1)
  {
  }

  function FixturesFrom(teams: seq<int>, i: nat): seq<Fixture>
    requires i <= |teams|
    decreases |teams| - i
  {
    if i == |teams| then [] else Row(teams, i, i + 1) + FixturesFrom(teams, i + 1)
  }

  /** Peeling the first row off the remaining fixtures. */
  lemma FixturesPeel(done: seq<Fixture>, teams: seq<int>, i: nat)
    requires i < |teams|
    ensures done + FixturesFrom(teams, i) == (done + Row(teams, i, i + 1)) + FixturesFrom(teams, i + 1)
  {
  }

  /** Every pair i < j in enrollment order, home leg then away leg. */
  function Fixtures(teams: seq<int>): seq<Fixture>
  {
    FixturesFrom(teams, 0)
  }

  lemma {:induction false} RowSize(teams: seq<int>, i: nat, j: nat)
    requires i < |teams| && j <= |teams|
    ensures |Row(teams, i, j)| == 2 * (|teams| - j)
    decreases |teams| - j
  {
    if j < |teams| {
      RowSize(teams, i, j + 1);
    }
  }

  lemma {:induction false} FixturesFromSize(teams: seq<int>, i: nat)
    requires i <= |teams|
    ensures |FixturesFrom(teams, i)| == (|teams| - i) * (|teams| - i - 1)
    decreases |teams| - i
  {
    if i < |teams| {
      RowSize(teams, i, i + 1);
      FixturesFromSize(teams, i + 1);
      var m := |teams| - i;
      assert (m - 1) * (m - 2) + 2 * (m - 1) == m * (m - 1);
    }
  }

  /** n teams give n * (n - 1) fixtures. */
  lemma FixtureCount(teams: seq<int>)
    ensures |Fixtures(teams)| == |teams| * (|teams| - 1)
  {
    FixturesFromSize(teams, 0);
  }

  /** Both legs of teams i and b, for every b from j on, are in the row. */
  lemma {:induction false} PairInRow(teams: seq<int>, i: nat, j: nat, b: nat)
    requires i < |teams| && j <= b < |teams|
    ensures Fixture(teams[i], teams[b]) in Row(teams, i, j)
    ensures Fixture(teams[b], teams[i]) in Row(teams, i, j)
    decreases |teams| - j
  {
    if j < b {
      PairInRow(teams, i, j + 1, b);
    }
  }

  /** Every fixture of the row is a leg of team i against some team from j on. */
  lemma {:induction false} RowHoldsPairs(teams: seq<int>, i: nat, j: nat, f: Fixture)
    requires i < |teams| && j <= |teams|
    requires f in Row(teams, i, j)
    ensures exists b :: j <= b < |teams| && (f == Fixture(teams[i], teams[b]) || f == Fixture(teams[b], teams[i]))
    decreases |teams| - j
  {
    if f !in Legs(teams, i, j) {
      RowHoldsPairs(teams, i, j + 1, f);
    }
  }

  lemma {:induction false} PairInFixturesFrom(teams: seq<int>, i: nat, a: nat, b: nat)
    requires i <= a < b < |teams|
    ensures Fixture(teams[a], teams[b]) in FixturesFrom(teams, i)
    ensures Fixture(teams[b], teams[a]) in FixturesFrom(teams, i)
    decreases |teams| - i
  {
    var row := Row(teams, i, i + 1);
    var rest := FixturesFrom(teams, i + 1);
    assert FixturesFrom(teams, i) == row + rest;
    var home := Fixture(teams[a], teams[b]);
    var away := Fixture(teams[b], teams[a]);
    if a == i {
      PairInRow(teams, i, i + 1, b);
      assert home in row && away in row;
    } else {
      PairInFixturesFrom(teams, i + 1, a, b);
      assert home in rest && away in rest;
    }
  }

  lemma {:induction false} FixturesFromHoldsPairs(teams: seq<int>, i: nat, f: Fixture)
    requires i <= |teams| && f in FixturesFrom(teams, i)
    ensures exists a, b :: 0 <= a < |teams| && 0 <= b < |teams| && a != b && f == Fixture(teams[a], teams[b])
    decreases |teams| - i
  {
    if f in Row(teams, i, i + 1) {
      RowHoldsPairs(teams, i, i + 1, f);
      var b :| i + 1 <= b < |teams| && (f == Fixture(teams[i], teams[b]) || f == Fixture(teams[b], teams[i]));
      if f == Fixture(teams[i], teams[b]) {
        assert 0 <= i < |teams| && 0 <= b < |teams| && i != b && f == Fixture(teams[i], teams[b]);
      } else {
        assert 0 <= b < |teams| && 0 <= i < |teams| && b != i && f == Fixture(teams[b], teams[i]);
      }
    } else {
      FixturesFromHoldsPairs(teams, i + 1, f);
    }
  }

  /** A fixture is in the list exactly when it pairs two different
      enrollment positions, one as home and the other as away: every
      ordered pair is attempted, and nothing else. */
  lemma FixturesAreOrderedPairs(teams: seq<int>, f: Fixture)
    ensures f in Fixtures(teams) <==>
      exists a, b :: 0 <= a < |teams| && 0 <= b < |teams| && a != b && f == Fixture(teams[a], teams[b])
  {
    if f in Fixtures(teams) {
      FixturesFromHoldsPairs(teams, 0, f);
    }
    if exists a, b :: 0 <= a < |teams| && 0 <= b < |teams| && a != b && f == Fixture(teams[a], teams[b]) {
      var a, b :| 0 <= a < |teams| && 0 <= b < |teams| && a != b && f == Fixture(teams[a], teams[b]);
      if a < b {
        PairInFixturesFrom(teams, 0, a, b);
      } else {
        PairInFixturesFrom(teams, 0, b, a);
      }
    }
  }

  // ---------------------------------------------------------------
  // First-fit search for a free (pitch, slot) on one day
  // ---------------------------------------------------------------

  /** An occupied pitch at a date-time. */
  datatype Booking = Booking(pitch: int, at: DateTime)

  /** Every slot of the pitch on that day is already booked. */
  predicate PitchFull(reservations: seq<Booking>, day: int, pitch: int)
  {
    forall k :: 0 <= k < SlotCount ==> Booking(pitch, SlotTime(day, k)) in reservations
  }

  /** The first slot from k on that is free on the pitch that day. */
  function FirstSlot(reservations: seq<Booking>, day: int, pitch: int, k: nat): (r: Option<nat>)
    requires k <= SlotCount
    ensures r.Some? ==> k <= r.value < SlotCount && Booking(pitch, SlotTime(day, r.value)) !in reservations
    ensures r.Some? ==> forall k' :: k <= k' < r.value ==> Booking(pitch, SlotTime(day, k')) in reservations
    ensures r.None? ==> forall k' :: k <= k' < SlotCount ==> Booking(pitch, SlotTime(day, k')) in reservations
    decreases SlotCount - k
  {
    if k == SlotCount then None
    else if Booking(pitch, SlotTime(day, k)) !in reservations then Some(k)
    else FirstSlot(reservations, day, pitch, k + 1)
  }

  /** A position in the search: the index into the active pitches and the
      slot index into the catalog. */
  datatype Spot = Spot(pitchIndex: nat, slot: nat)

  /** The first free (pitch, slot) on the day, pitches from index q on in
      the order given, slots in catalog order within each pitch. */
  function FirstFreeFrom(reservations: seq<Booking>, day: int, pitches: seq<int>, q: nat): (r: Option<Spot>)
    requires q <= |pitches|
    ensures r.Some? ==> q <= r.value.pitchIndex < |pitches| && r.value.slot < SlotCount
    ensures r.Some? ==> Booking(pitches[r.value.pitchIndex], SlotTime(day, r.value.slot)) !in reservations
    ensures r.Some? ==> forall k :: 0 <= k < r.value.slot ==>
      Booking(pitches[r.value.pitchIndex], SlotTime(day, k)) in reservations
    ensures r.Some? ==> forall q' :: q <= q' < r.value.pitchIndex ==> PitchFull(reservations, day, pitches[q'])
    ensures r.None? ==> forall q' :: q <= q' < |pitches| ==> PitchFull(reservations, day, pitches[q'])
    decreases |pitches| - q
  {
    if q == |pitches| then None
    else match FirstSlot(reservations, day, pitches[q], 0)
      case Some(k) => Some(Spot(q, k))
      case None => FirstFreeFrom(reservations, day, pitches, q + 1)
  }

  // ---------------------------------------------------------------
  // Placing fixtures
  // ---------------------------------------------------------------

  datatype MatchStatus = Scheduled | Completed | Canceled

  /** A match row the draw inserts (id is the table's auto-increment). */
  datatype MatchRow = MatchRow(id: int, teamA: int, teamB: int, status: MatchStatus, createdBy: int)

  /** A booking row the draw inserts into the host table. */
  datatype HostRow = HostRow(pitch: int, at: DateTime, matchId: int)

  /** A match the draw reserved, with the day it was placed on. */
  datatype Reserved = Reserved(id: int, date: int, teamA: int, teamB: int)

  /** The state of one draw: every booking known so far (the existing ones
      first), the matches reserved so far in scheduling order, the shared
      date cursor, the next match id, and the rows inserted. */
  datatype DrawState = DrawState(
    reservations: seq<Booking>,
    reserved: seq<Reserved>,
    cursor: nat,
    nextId: int,
    newMatches: seq<MatchRow>,
    newHosts: seq<HostRow>)

  function Init(existing: seq<Booking>, firstId: int): DrawState
  {
    DrawState(existing, [], 0, firstId, [], [])
  }

  /** The same-day check as the draw writes it: a reserved match on the day
      whose team A is the fixture's team A or whose team B is the
      fixture's team B. */
  predicate SameDayClash(reserved: seq<Reserved>, day: int, f: Fixture)
  {
    exists m :: m in reserved && m.date == day && (m.teamA == f.home || m.teamB == f.away)
  }

  /** Insert the match and its booking for fixture f at (pitch, slot k) of
      the day, and record both. */
  function Book(s: DrawState, f: Fixture, day: int, pitch: int, k: nat, createdBy: int): DrawState
    requires k < SlotCount
  {
    var id := s.nextId;
    var t := SlotTime(day, k);
    s.(reservations := s.reservations + [Booking(pitch, t)],
       reserved := s.reserved + [Reserved(id, day, f.home, f.away)],
       nextId := id + 1,
       newMatches := s.newMatches + [MatchRow(id, f.home, f.away, Scheduled, createdBy)],
       newHosts := s.newHosts + [HostRow(pitch, t, id)])
  }

  /** One fixture: take days from the cursor on, each day at most once,
      skipping a day with a same-day clash or with no free (pitch, slot),
      and book the first free (pitch, slot) of the first day that has one.
      When the days run out the fixture stays unscheduled. */
  function Step(s: DrawState, f: Fixture, dates: seq<int>, pitches: seq<int>, createdBy: int): DrawState
    decreases |dates| - s.cursor
  {
    if s.cursor >= |dates| then s
    else
      var day := dates[s.cursor];
      var next := s.(cursor := s.cursor + 1);
      if SameDayClash(s.reserved, day, f) then Step(next, f, dates, pitches, createdBy)
      else match FirstFreeFrom(s.reservations, day, pitches, 0)
        case None => Step(next, f, dates, pitches, createdBy)
        case Some(spot) => Book(next, f, day, pitches[spot.pitchIndex], spot.slot, createdBy)
  }

  /** The fixtures placed one after another, in order. */
  function Run(s: DrawState, fs: seq<Fixture>, dates: seq<int>, pitches: seq<int>, createdBy: int): DrawState
    decreases |fs|
  {
    if fs == [] then s
    else Step(Run(s, fs[..|fs| - 1], dates, pitches, createdBy), fs[|fs| - 1], dates, pitches, createdBy)
  }

  /** A day with a same-day clash or no free (pitch, slot) is skipped. */
  lemma StepSkips(s: DrawState, f: Fixture, dates: seq<int>, pitches: seq<int>, createdBy: int)
    requires s.cursor < |dates|
    requires SameDayClash(s.reserved, dates[s.cursor], f) || FirstFreeFrom(s.reservations, dates[s.cursor], pitches, 0).None?
    ensures Step(s, f, dates, pitches, createdBy) == Step(s.(cursor := s.cursor + 1), f, dates, pitches, createdBy)
  {
  }

  /** Otherwise the first free (pitch, slot) of the day is booked. */
  lemma StepBooks(s: DrawState, f: Fixture, dates: seq<int>, pitches: seq<int>, createdBy: int)
    requires s.cursor < |dates|
    requires !SameDayClash(s.reserved, dates[s.cursor], f) && FirstFreeFrom(s.reservations, dates[s.cursor], pitches, 0).Some?
    ensures
      var spot := FirstFreeFrom(s.reservations, dates[s.cursor], pitches, 0).value;
      Step(s, f, dates, pitches, createdBy) ==
        Book(s.(cursor := s.cursor + 1), f, dates[s.cursor], pitches[spot.pitchIndex], spot.slot, createdBy)
  {
  }

  /** Placing one more fixture after fs is one more Step. */
  lemma RunSnoc(s: DrawState, fs: seq<Fixture>, f: Fixture, dates: seq<int>, pitches: seq<int>, createdBy: int)
    ensures Run(s, fs + [f], dates, pitches, createdBy) == Step(Run(s, fs, dates, pitches, createdBy), f, dates, pitches, createdBy)
  {
    assert (fs + [f])[..|fs|] == fs;
  }

  /** Placing the fixtures of a + b is placing those of a, then those of b. */
  lemma {:induction false} RunAppend(s: DrawState, a: seq<Fixture>, b: seq<Fixture>, dates: seq<int>, pitches: seq<int>, createdBy: int)
    ensures Run(s, a + b, dates, pitches, createdBy) == Run(Run(s, a, dates, pitches, createdBy), b, dates, pitches, createdBy)
    decreases |b|
  {
    if b == [] {
      assert a + b == a;
    } else {
      assert (a + b)[..|a + b| - 1] == a + b[..|b| - 1];
      RunAppend(s, a, b[..|b| - 1], dates, pitches, createdBy);
    }
  }

  /** The match ids of the reserved matches, in scheduling order. */
  function MatchIds(reserved: seq<Reserved>): (ids: seq<int>)
    ensures |ids| == |reserved|
    ensures forall k :: 0 <= k < |reserved| ==> ids[k] == reserved[k].id
  {
    seq(|reserved|, k requires 0 <= k < |reserved| => reserved[k].id)
  }

  // ---------------------------------------------------------------
  // What a draw keeps invariant
  // ---------------------------------------------------------------

  /** The k-th reserved match, the k-th match row, the k-th host row and
      the k-th new booking describe the same match. */
  predicate Linked(s: DrawState, existing: seq<Booking>, firstId: int, createdBy: int, k: int)
    requires 0 <= k < |s.reserved| == |s.newMatches| == |s.newHosts|
    requires |s.reservations| == |existing| + |s.reserved|
  {
    var m := s.reserved[k];
    var h := s.newHosts[k];
    && m.id == firstId + k
    && s.newMatches[k] == MatchRow(m.id, m.teamA, m.teamB, Scheduled, createdBy)
    && h.matchId == m.id && h.at.day == m.date
    && s.reservations[|existing| + k] == Booking(h.pitch, h.at)
  }

  /** The sizes and counters of a draw state. */
  predicate Shape(s: DrawState, dates: seq<int>, existing: seq<Booking>, firstId: int)
  {
    && s.cursor <= |dates|
    && |s.reserved| <= s.cursor
    && |s.newMatches| == |s.reserved| && |s.newHosts| == |s.reserved|
    && s.nextId == firstId + |s.reserved|
    && |s.reservations| == |existing| + |s.reserved|
    && s.reservations[..|existing|] == existing
  }

  /** Each booking the draw made was free when it was made. */
  predicate BookedFree(reservations: seq<Booking>, existing: seq<Booking>)
  {
    forall i, j :: 0 <= i < j < |reservations| && |existing| <= j ==> reservations[i] != reservations[j]
  }

  /** Reserved matches lie on candidate days before the cursor, in
      strictly increasing day order. */
  predicate DatesInOrder(s: DrawState, dates: seq<int>)
  {
    && (forall k :: 0 <= k < |s.reserved| ==> s.reserved[k].date in dates)
    && (forall k, c :: 0 <= k < |s.reserved| && s.cursor <= c < |dates| ==> s.reserved[k].date < dates[c])
    && (forall k, l :: 0 <= k < l < |s.reserved| ==> s.reserved[k].date < s.reserved[l].date)
  }

  /** The shape of every state a draw passes through, starting from
      `Init(existing, firstId)`. */
  predicate Inv(s: DrawState, dates: seq<int>, existing: seq<Booking>, firstId: int, createdBy: int)
  {
    && Shape(s, dates, existing, firstId)
    && (forall k :: 0 <= k < |s.reserved| ==> Linked(s, existing, firstId, createdBy, k))
    && BookedFree(s.reservations, existing)
    && DatesInOrder(s, dates)
  }

  lemma InitInv(dates: seq<int>, existing: seq<Booking>, firstId: int, createdBy: int)
    ensures Inv(Init(existing, firstId), dates, existing, firstId, createdBy)
  {
  }

  /** Because every reserved match lies before the cursor, the same-day
      check never fires. */
  lemma SameDayCheckIsVacuous(s: DrawState, f: Fixture, dates: seq<int>, existing: seq<Booking>, firstId: int, createdBy: int)
    requires Inv(s, dates, existing, firstId, createdBy)
    requires s.cursor < |dates|
    ensures !SameDayClash(s.reserved, dates[s.cursor], f)
  {
    forall m | m in s.reserved
      ensures m.date < dates[s.cursor]
    {
      var k :| 0 <= k < |s.reserved| && s.reserved[k] == m;
      assert s.reserved[k].date < dates[s.cursor];
    }
  }

  /** Booking the fixture on the day at the cursor keeps the invariant. */
  lemma BookKeepsInv(s: DrawState, f: Fixture, dates: seq<int>, pitches: seq<int>, existing: seq<Booking>, firstId: int, createdBy: int, spot: Spot)
    requires Inv(s, dates, existing, firstId, createdBy) && Increasing(dates)
    requires s.cursor < |dates|
    requires FirstFreeFrom(s.reservations, dates[s.cursor], pitches, 0) == Some(spot)
    ensures Inv(Book(s.(cursor := s.cursor + 1), f, dates[s.cursor], pitches[spot.pitchIndex], spot.slot, createdBy),
                dates, existing, firstId, createdBy)
  {
    var s' := Book(s.(cursor := s.cursor + 1), f, dates[s.cursor], pitches[spot.pitchIndex], spot.slot, createdBy);
    assert s'.reservations[..|existing|] == s.reservations[..|existing|];
    BookKeepsLinked(s, f, dates, pitches, existing, firstId, createdBy, spot);
    BookKeepsFree(s, f, dates, pitches, existing, firstId, createdBy, spot);
    BookKeepsDates(s, f, dates, pitches, existing, firstId, createdBy, spot);
  }

  lemma BookKeepsLinked(s: DrawState, f: Fixture, dates: seq<int>, pitches: seq<int>, existing: seq<Booking>, firstId: int, createdBy: int, spot: Spot)
    requires Inv(s, dates, existing, firstId, createdBy) && Increasing(dates)
    requires s.cursor < |dates|
    requires FirstFreeFrom(s.reservations, dates[s.cursor], pitches, 0) == Some(spot)
    ensures var s' := Book(s.(cursor := s.cursor + 1), f, dates[s.cursor], pitches[spot.pitchIndex], spot.slot, createdBy);
      && |s'.reserved| == |s'.newMatches| == |s'.newHosts| && |s'.reservations| == |existing| + |s'.reserved|
      && forall k :: 0 <= k < |s'.reserved| ==> Linked(s', existing, firstId, createdBy, k)
  {
    var s' := Book(s.(cursor := s.cursor + 1), f, dates[s.cursor], pitches[spot.pitchIndex], spot.slot, createdBy);
    forall k | 0 <= k < |s'.reserved|
      ensures Linked(s', existing, firstId, createdBy, k)
    {
      if k < |s.reserved| {
        assert Linked(s, existing, firstId, createdBy, k);
      }
    }
  }

  lemma BookKeepsFree(s: DrawState, f: Fixture, dates: seq<int>, pitches: seq<int>, existing: seq<Booking>, firstId: int, createdBy: int, spot: Spot)
    requires Inv(s, dates, existing, firstId, createdBy) && Increasing(dates)
    requires s.cursor < |dates|
    requires FirstFreeFrom(s.reservations, dates[s.cursor], pitches, 0) == Some(spot)
    ensures BookedFree(Book(s.(cursor := s.cursor + 1), f, dates[s.cursor], pitches[spot.pitchIndex], spot.slot, createdBy).reservations, existing)
  {
    var b := Booking(pitches[spot.pitchIndex], SlotTime(dates[s.cursor], spot.slot));
    var r' := s.reservations + [b];
    assert b !in s.reservations;
    forall i, j | 0 <= i < j < |r'| && |existing| <= j
      ensures r'[i] != r'[j]
    {
      if j == |s.reservations| {
        assert s.reservations[i] in s.reservations;
      }
    }
  }

  lemma BookKeepsDates(s: DrawState, f: Fixture, dates: seq<int>, pitches: seq<int>, existing: seq<Booking>, firstId: int, createdBy: int, spot: Spot)
    requires Inv(s, dates, existing, firstId, createdBy) && Increasing(dates)
    requires s.cursor < |dates|
    requires FirstFreeFrom(s.reservations, dates[s.cursor], pitches, 0) == Some(spot)
    ensures DatesInOrder(Book(s.(cursor := s.cursor + 1), f, dates[s.cursor], pitches[spot.pitchIndex], spot.slot, createdBy), dates)
  {
    var s' := Book(s.(cursor := s.cursor + 1), f, dates[s.cursor], pitches[spot.pitchIndex], spot.slot, createdBy);
    var n := |s.reserved|;
    forall k, c | 0 <= k < |s'.reserved| && s'.cursor <= c < |dates|
      ensures s'.reserved[k].date < dates[c]
    {
      if k < n {
        assert s.reserved[k].date < dates[c];
      } else {
        assert s.cursor < c;
      }
    }
    forall k, l | 0 <= k < l < |s'.reserved|
      ensures s'.reserved[k].date < s'.reserved[l].date
    {
      if l == n {
        assert s.reserved[k].date < dates[s.cursor];
      }
    }
  }

  /** One fixture's placement keeps the invariant. */
  lemma {:induction false} StepKeepsInv(s: DrawState, f: Fixture, dates: seq<int>, pitches: seq<int>, existing: seq<Booking>, firstId: int, createdBy: int)
    requires Inv(s, dates, existing, firstId, createdBy) && Increasing(dates)
    ensures Inv(Step(s, f, dates, pitches, createdBy), dates, existing, firstId, createdBy)
    decreases |dates| - s.cursor
  {
    if s.cursor < |dates| {
      var day := dates[s.cursor];
      var next := s.(cursor := s.cursor + 1);
      SkipKeepsInv(s, dates, existing, firstId, createdBy);
      SameDayCheckIsVacuous(s, f, dates, existing, firstId, createdBy);
      match FirstFreeFrom(s.reservations, day, pitches, 0)
      case None =>
        StepSkips(s, f, dates, pitches, createdBy);
        StepKeepsInv(next, f, dates, pitches, existing, firstId, createdBy);
      case Some(spot) =>
        StepBooks(s, f, dates, pitches, createdBy);
        BookKeepsInv(s, f, dates, pitches, existing, firstId, createdBy, spot);
    }
  }

  /** Moving the cursor past one day keeps the invariant. */
  lemma SkipKeepsInv(s: DrawState, dates: seq<int>, existing: seq<Booking>, firstId: int, createdBy: int)
    requires Inv(s, dates, existing, firstId, createdBy)
    requires s.cursor < |dates|
    ensures Inv(s.(cursor := s.cursor + 1), dates, existing, firstId, createdBy)
  {
    var next := s.(cursor := s.cursor + 1);
    forall k | 0 <= k < |next.reserved|
      ensures Linked(next, existing, firstId, createdBy, k)
    {
      assert Linked(s, existing, firstId, createdBy, k);
    }
  }

  /** No day from index c on has a free (pitch, slot). */
  predicate NoFreeDayFrom(reservations: seq<Booking>, dates: seq<int>, pitches: seq<int>, c: nat)
  {
    forall c' :: c <= c' < |dates| ==> FirstFreeFrom(reservations, dates[c'], pitches, 0).None?
  }

  lemma NoFreeDayPeel(reservations: seq<Booking>, dates: seq<int>, pitches: seq<int>, c: nat)
    requires c < |dates|
    ensures NoFreeDayFrom(reservations, dates, pitches, c) <==>
      FirstFreeFrom(reservations, dates[c], pitches, 0).None? && NoFreeDayFrom(reservations, dates, pitches, c + 1)
  {
  }

  /** The date loop is a first fit over the remaining days: a fixture stays
      unscheduled exactly when no day from the cursor on has a free
      (pitch, slot). */
  lemma {:induction false} StepFirstFit(s: DrawState, f: Fixture, dates: seq<int>, pitches: seq<int>, existing: seq<Booking>, firstId: int, createdBy: int)
    requires Inv(s, dates, existing, firstId, createdBy) && Increasing(dates)
    ensures Step(s, f, dates, pitches, createdBy).reserved == s.reserved <==>
      forall c :: s.cursor <= c < |dates| ==> FirstFreeFrom(s.reservations, dates[c], pitches, 0).None?
  {
    StepFirstFitFrom(s, f, dates, pitches, existing, firstId, createdBy);
  }

  lemma {:induction false} StepFirstFitFrom(s: DrawState, f: Fixture, dates: seq<int>, pitches: seq<int>, existing: seq<Booking>, firstId: int, createdBy: int)
    requires Inv(s, dates, existing, firstId, createdBy) && Increasing(dates)
    ensures Step(s, f, dates, pitches, createdBy).reserved == s.reserved <==>
      NoFreeDayFrom(s.reservations, dates, pitches, s.cursor)
    decreases |dates| - s.cursor
  {
    if s.cursor < |dates| {
      var next := s.(cursor := s.cursor + 1);
      NoFreeDayPeel(s.reservations, dates, pitches, s.cursor);
      SkipKeepsInv(s, dates, existing, firstId, createdBy);
      SameDayCheckIsVacuous(s, f, dates, existing, firstId, createdBy);
      if FirstFreeFrom(s.reservations, dates[s.cursor], pitches, 0).None? {
        StepSkips(s, f, dates, pitches, createdBy);
        StepFirstFitFrom(next, f, dates, pitches, existing, firstId, createdBy);
      } else {
        StepBooks(s, f, dates, pitches, createdBy);
        assert |Step(s, f, dates, pitches, createdBy).reserved| == |s.reserved| + 1;
      }
    }
  }

  /** When the fixture is booked, it is booked on the first day from the
      cursor on that has a free (pitch, slot), at that day's first free
      (pitch, slot), and the cursor stops just after that day. */
  lemma {:induction false} StepLandsOnFirstFreeDay(s: DrawState, f: Fixture, dates: seq<int>, pitches: seq<int>, existing: seq<Booking>, firstId: int, createdBy: int, c0: nat)
    requires Inv(s, dates, existing, firstId, createdBy) && Increasing(dates)
    requires s.cursor <= c0 < |dates| && FirstFreeFrom(s.reservations, dates[c0], pitches, 0).Some?
    requires forall c :: s.cursor <= c < c0 ==> FirstFreeFrom(s.reservations, dates[c], pitches, 0).None?
    ensures var spot := FirstFreeFrom(s.reservations, dates[c0], pitches, 0).value;
      Step(s, f, dates, pitches, createdBy) ==
        Book(s.(cursor := c0 + 1), f, dates[c0], pitches[spot.pitchIndex], spot.slot, createdBy)
    decreases c0 - s.cursor
  {
    SameDayCheckIsVacuous(s, f, dates, existing, firstId, createdBy);
    if s.cursor < c0 {
      var next := s.(cursor := s.cursor + 1);
      SkipKeepsInv(s, dates, existing, firstId, createdBy);
      StepSkips(s, f, dates, pitches, createdBy);
      StepLandsOnFirstFreeDay(next, f, dates, pitches, existing, firstId, createdBy, c0);
      assert next.(cursor := c0 + 1) == s.(cursor := c0 + 1);
    } else {
      StepBooks(s, f, dates, pitches, createdBy);
    }
  }

  /** A whole draw keeps the invariant. */
  lemma {:induction false} RunKeepsInv(s: DrawState, fs: seq<Fixture>, dates: seq<int>, pitches: seq<int>, existing: seq<Booking>, firstId: int, createdBy: int)
    requires Inv(s, dates, existing, firstId, createdBy) && Increasing(dates)
    ensures Inv(Run(s, fs, dates, pitches, createdBy), dates, existing, firstId, createdBy)
    decreases |fs|
  {
    if fs != [] {
      RunKeepsInv(s, fs[..|fs| - 1], dates, pitches, existing, firstId, createdBy);
      StepKeepsInv(Run(s, fs[..|fs| - 1], dates, pitches, createdBy), fs[|fs| - 1], dates, pitches, existing, firstId, createdBy);
    }
  }

  // ---------------------------------------------------------------
  // What a draw guarantees
  // ---------------------------------------------------------------

  /** A fixture either books exactly one match and one booking, for its own
      two teams, on a day at or after the cursor, or it books nothing and
      leaves the cursor at the end of the days. */
  lemma {:induction false} StepOutcome(s: DrawState, f: Fixture, dates: seq<int>, pitches: seq<int>, createdBy: int)
    requires s.cursor <= |dates|
    ensures var s' := Step(s, f, dates, pitches, createdBy);
      && s.cursor <= s'.cursor <= |dates|
      && ((&& s'.reserved == s.reserved && s'.reservations == s.reservations
           && s'.newMatches == s.newMatches && s'.newHosts == s.newHosts
           && s'.nextId == s.nextId && s'.cursor == |dates|)
       || (&& s'.cursor > s.cursor
           && |s'.reserved| == |s.reserved| + 1 && s'.reserved[..|s.reserved|] == s.reserved
           && s'.reserved[|s.reserved|].teamA == f.home && s'.reserved[|s.reserved|].teamB == f.away
           && s'.reserved[|s.reserved|].id == s.nextId && s'.nextId == s.nextId + 1
           && |s'.reservations| == |s.reservations| + 1 && s'.reservations[..|s.reservations|] == s.reservations
           && |s'.newMatches| == |s.newMatches| + 1 && s'.newMatches[..|s.newMatches|] == s.newMatches
           && |s'.newHosts| == |s.newHosts| + 1 && s'.newHosts[..|s.newHosts|] == s.newHosts))
    decreases |dates| - s.cursor
  {
    if s.cursor < |dates| {
      var day := dates[s.cursor];
      var next := s.(cursor := s.cursor + 1);
      if SameDayClash(s.reserved, day, f) {
        StepOutcome(next, f, dates, pitches, createdBy);
      } else {
        match FirstFreeFrom(s.reservations, day, pitches, 0)
        case None =>
          StepOutcome(next, f, dates, pitches, createdBy);
        case Some(spot) =>
          var s' := Book(next, f, day, pitches[spot.pitchIndex], spot.slot, createdBy);
          assert s'.reserved[..|s.reserved|] == s.reserved;
          assert s'.reservations[..|s.reservations|] == s.reservations;
          assert s'.newMatches[..|s.newMatches|] == s.newMatches;
          assert s'.newHosts[..|s.newHosts|] == s.newHosts;
      }
    }
  }

  /** Every reserved match plays one of the fixtures, for its home and away
      team, and there are no more reserved matches than fixtures. */
  lemma {:induction false} RunReservesFixtures(s: DrawState, fs: seq<Fixture>, dates: seq<int>, pitches: seq<int>, createdBy: int)
    requires s.cursor <= |dates| && s.reserved == []
    ensures var r := Run(s, fs, dates, pitches, createdBy).reserved;
      && |r| <= |fs|
      && forall k :: 0 <= k < |r| ==> Fixture(r[k].teamA, r[k].teamB) in fs
    ensures Run(s, fs, dates, pitches, createdBy).cursor <= |dates|
    decreases |fs|
  {
    if fs != [] {
      var init := fs[..|fs| - 1];
      var prev := Run(s, init, dates, pitches, createdBy);
      RunReservesFixtures(s, init, dates, pitches, createdBy);
      StepOutcome(prev, fs[|fs| - 1], dates, pitches, createdBy);
      var r := Run(s, fs, dates, pitches, createdBy).reserved;
      forall k | 0 <= k < |r|
        ensures Fixture(r[k].teamA, r[k].teamB) in fs
      {
        if k < |prev.reserved| {
          assert r[k] == prev.reserved[k];
          assert Fixture(r[k].teamA, r[k].teamB) in init;
          assert init <= fs;
        } else {
          assert fs[|fs| - 1] in fs;
        }
      }
    }
  }

  /** What a draw guarantees over all inputs whose days are in ascending
      order: at most one reserved match per candidate day, so no more
      matches than days; match days strictly increasing in scheduling
      order; the response lists the ids firstId, firstId + 1, ... in
      scheduling order; every new booking was free when made, so a
      booking set without duplicates stays without duplicates; and the
      match and host rows inserted describe the reserved matches. */
  lemma DrawGuarantees(teams: seq<int>, dates: seq<int>, pitches: seq<int>, existing: seq<Booking>, firstId: int, createdBy: int)
    requires Increasing(dates)
    ensures var d := Run(Init(existing, firstId), Fixtures(teams), dates, pitches, createdBy);
      && |d.reserved| <= |dates|
      && |d.reserved| <= |teams| * (|teams| - 1)
      && (forall k, l :: 0 <= k < l < |d.reserved| ==> d.reserved[k].date < d.reserved[l].date)
      && (forall k :: 0 <= k < |d.reserved| ==> d.reserved[k].date in dates)
      && MatchIds(d.reserved) == seq(|d.reserved|, k => firstId + k)
      && d.nextId == firstId + |d.reserved|
      && |d.reservations| == |existing| + |d.reserved|
      && d.reservations[..|existing|] == existing
      && (forall i, j :: 0 <= i < j < |d.reservations| && |existing| <= j ==> d.reservations[i] != d.reservations[j])
      && (NoDuplicates(existing) ==> NoDuplicates(d.reservations))
      && |d.newMatches| == |d.reserved| && |d.newHosts| == |d.reserved|
      && (forall k :: 0 <= k < |d.reserved| ==>
            && d.newMatches[k] == MatchRow(d.reserved[k].id, d.reserved[k].teamA, d.reserved[k].teamB, Scheduled, createdBy)
            && d.newHosts[k].matchId == d.reserved[k].id
            && d.reservations[|existing| + k] == Booking(d.newHosts[k].pitch, d.newHosts[k].at))
      && (forall k :: 0 <= k < |d.reserved| ==> Fixture(d.reserved[k].teamA, d.reserved[k].teamB) in Fixtures(teams))
  {
    DrawInv(teams, dates, pitches, existing, firstId, createdBy);
    RunReservesFixtures(Init(existing, firstId), Fixtures(teams), dates, pitches, createdBy);
    FixtureCount(teams);
    DrawRows(teams, dates, pitches, existing, firstId, createdBy);
    DrawKeepsNoDuplicates(teams, dates, pitches, existing, firstId, createdBy);
  }

  lemma DrawInv(teams: seq<int>, dates: seq<int>, pitches: seq<int>, existing: seq<Booking>, firstId: int, createdBy: int)
    requires Increasing(dates)
    ensures Inv(Run(Init(existing, firstId), Fixtures(teams), dates, pitches, createdBy), dates, existing, firstId, createdBy)
  {
    InitInv(dates, existing, firstId, createdBy);
    RunKeepsInv(Init(existing, firstId), Fixtures(teams), dates, pitches, existing, firstId, createdBy);
  }

  lemma DrawRows(teams: seq<int>, dates: seq<int>, pitches: seq<int>, existing: seq<Booking>, firstId: int, createdBy: int)
    requires Increasing(dates)
    ensures var d := Run(Init(existing, firstId), Fixtures(teams), dates, pitches, createdBy);
      && |d.newMatches| == |d.reserved| && |d.newHosts| == |d.reserved|
      && |d.reservations| == |existing| + |d.reserved|
      && forall k :: 0 <= k < |d.reserved| ==>
            && d.newMatches[k] == MatchRow(d.reserved[k].id, d.reserved[k].teamA, d.reserved[k].teamB, Scheduled, createdBy)
            && d.newHosts[k].matchId == d.reserved[k].id
            && d.reservations[|existing| + k] == Booking(d.newHosts[k].pitch, d.newHosts[k].at)
            && d.reserved[k].id == firstId + k
  {
    var d := Run(Init(existing, firstId), Fixtures(teams), dates, pitches, createdBy);
    DrawInv(teams, dates, pitches, existing, firstId, createdBy);
    forall k | 0 <= k < |d.reserved|
      ensures d.newMatches[k] == MatchRow(d.reserved[k].id, d.reserved[k].teamA, d.reserved[k].teamB, Scheduled, createdBy)
      ensures d.newHosts[k].matchId == d.reserved[k].id
      ensures d.reservations[|existing| + k] == Booking(d.newHosts[k].pitch, d.newHosts[k].at)
      ensures d.reserved[k].id == firstId + k
    {
      assert Linked(d, existing, firstId, createdBy, k);
    }
  }

  lemma DrawKeepsNoDuplicates(teams: seq<int>, dates: seq<int>, pitches: seq<int>, existing: seq<Booking>, firstId: int, createdBy: int)
    requires Increasing(dates)
    ensures var d := Run(Init(existing, firstId), Fixtures(teams), dates, pitches, createdBy);
      NoDuplicates(existing) ==> NoDuplicates(d.reservations)
  {
    var d := Run(Init(existing, firstId), Fixtures(teams), dates, pitches, createdBy);
    DrawInv(teams, dates, pitches, existing, firstId, createdBy);
    if NoDuplicates(existing) {
      forall i, j | 0 <= i < j < |d.reservations|
        ensures d.reservations[i] != d.reservations[j]
      {
        if j < |existing| {
          assert d.reservations[i] == existing[i] && d.reservations[j] == existing[j];
        }
      }
    }
  }

  /** Every match row a draw inserts carries an id from firstId up to,
      and not including, the next free id. */
  lemma DrawIdsFresh(teams: seq<int>, dates: seq<int>, pitches: seq<int>, existing: seq<Booking>, firstId: int, createdBy: int)
    requires Increasing(dates)
    ensures var d := Run(Init(existing, firstId), Fixtures(teams), dates, pitches, createdBy);
      && firstId <= d.nextId
      && forall m :: m in d.newMatches ==> firstId <= m.id < d.nextId
  {
    var d := Run(Init(existing, firstId), Fixtures(teams), dates, pitches, createdBy);
    DrawRows(teams, dates, pitches, existing, firstId, createdBy);
    DrawInv(teams, dates, pitches, existing, firstId, createdBy);
    forall m | m in d.newMatches
      ensures firstId <= m.id < d.nextId
    {
      var k :| 0 <= k < |d.newMatches| && d.newMatches[k] == m;
    }
  }

  /** No booking that existed before the draw falls on a candidate day. */
  predicate WindowFree(existing: seq<Booking>, dates: seq<int>)
  {
    forall b :: b in existing ==> b.at.day !in dates
  }

  /** With at least one active pitch and no earlier booking inside the
      window, the fixture at the cursor is always booked on the cursor's
      day. */
  lemma StepBooksNextDay(s: DrawState, f: Fixture, dates: seq<int>, pitches: seq<int>, existing: seq<Booking>, firstId: int, createdBy: int)
    requires Inv(s, dates, existing, firstId, createdBy) && Increasing(dates)
    requires pitches != [] && WindowFree(existing, dates)
    requires |s.reserved| == s.cursor < |dates|
    ensures var s' := Step(s, f, dates, pitches, createdBy);
      |s'.reserved| == s'.cursor == s.cursor + 1
  {
    var day := dates[s.cursor];
    var b := Booking(pitches[0], SlotTime(day, 0));
    assert b !in s.reservations by {
      forall i | 0 <= i < |s.reservations|
        ensures s.reservations[i] != b
      {
        if i < |existing| {
          assert s.reservations[i] == existing[i];
          assert existing[i] in existing;
        } else {
          var k := i - |existing|;
          assert Linked(s, existing, firstId, createdBy, k);
          assert s.reserved[k].date < day;
        }
      }
    }
    assert !PitchFull(s.reservations, day, pitches[0]);
    SameDayCheckIsVacuous(s, f, dates, existing, firstId, createdBy);
  }

  /** With at least one active pitch and no earlier booking inside the
      window, a draw books exactly min(fixtures, days) matches: one per
      day until either runs out. */
  lemma {:induction false} RunCapacity(fs: seq<Fixture>, dates: seq<int>, pitches: seq<int>, existing: seq<Booking>, firstId: int, createdBy: int)
    requires Increasing(dates) && pitches != [] && WindowFree(existing, dates)
    ensures var d := Run(Init(existing, firstId), fs, dates, pitches, createdBy);
      |d.reserved| == d.cursor == (if |fs| < |dates| then |fs| else |dates|)
    decreases |fs|
  {
    if fs != [] {
      var init := fs[..|fs| - 1];
      RunCapacity(init, dates, pitches, existing, firstId, createdBy);
      var prev := Run(Init(existing, firstId), init, dates, pitches, createdBy);
      InitInv(dates, existing, firstId, createdBy);
      RunKeepsInv(Init(existing, firstId), init, dates, pitches, existing, firstId, createdBy);
      if prev.cursor < |dates| {
        StepBooksNextDay(prev, fs[|fs| - 1], dates, pitches, existing, firstId, createdBy);
      }
    }
  }

  /** Three teams over a three-day window: six fixtures are attempted but
      only three are booked, one per day. */
  lemma ThreeTeamsThreeDays(teams: seq<int>, start: int, pitches: seq<int>, firstId: int, createdBy: int)
    requires |teams| == 3 && pitches != []
    ensures |Fixtures(teams)| == 6
    ensures |Run(Init([], firstId), Fixtures(teams), CalendarDays(start, start + 2), pitches, createdBy).reserved| == 3
  {
    FixtureCount(teams);
    CalendarDaysSpec(start, start + 2);
    RunCapacity(Fixtures(teams), CalendarDays(start, start + 2), pitches, [], firstId, createdBy);
  }

  /** Four teams over a one-day window: one of the twelve fixtures is
      booked, the other eleven are left unscheduled. */
  lemma FourTeamsOneDay(teams: seq<int>, day: int, pitches: seq<int>, firstId: int, createdBy: int)
    requires |teams| == 4 && pitches != []
    ensures |Fixtures(teams)| == 12
    ensures |Run(Init([], firstId), Fixtures(teams), CalendarDays(day, day), pitches, createdBy).reserved| == 1
  {
    FixtureCount(teams);
    CalendarDaysSpec(day, day);
    RunCapacity(Fixtures(teams), CalendarDays(day, day), pitches, [], firstId, createdBy);
  }
}
