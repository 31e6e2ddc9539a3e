/** The competition controller: the draw that generates the home-and-away
    matches of a competition and reserves a pitch and kickoff slot for each,
    the reset of a draw, and the enrollment rules. Tables are fields of
    `CompetitionStore`; each query is a read or a write of those fields. */
module Competitions {
  import opened Common
  import opened Schedule

  /** The working state of one draw request: the bookings known so far,
      the matches reserved so far, the shared date cursor, and the rows the
      draw inserts into the matches and host tables (`nextId` is the
      matches table's next auto-increment id). */
  class Scheduler {
    var reservations: seq<Booking>
    var reservedMatches: seq<Reserved>
    var lastAssignedDateIndex: nat
    var nextId: int
    var matchInserts: seq<MatchRow>
    var hostInserts: seq<HostRow>

    ghost function State(): DrawState
      reads this
    {
      DrawState(reservations, reservedMatches, lastAssignedDateIndex, nextId, matchInserts, hostInserts)
    }

    /** Start from the bookings already in the host table. */
    constructor (existing: seq<Booking>, firstId: int)
      ensures State() == Init(existing, firstId)
    {
      reservations := existing;
      reservedMatches := [];
      lastAssignedDateIndex := 0;
      nextId := firstId;
      matchInserts := [];
      hostInserts := [];
    }

    /** The slot loop for one pitch on one day: book the first catalog
        slot whose kickoff is not yet booked on the pitch, if any. */
    method TrySlots(f: Fixture, date: int, pitchId: int, createdBy: int) returns (reserved: bool)
      modifies this
      ensures FirstSlot(old(reservations), date, pitchId, 0).None? ==> !reserved && State() == old(State())
      ensures FirstSlot(old(reservations), date, pitchId, 0).Some? ==>
        reserved && State() == Book(old(State()), f, date, pitchId, FirstSlot(old(reservations), date, pitchId, 0).value, createdBy)
    {
      reserved := false;
      var k := 0;
      while k < SlotCount && !reserved
        invariant 0 <= k <= SlotCount
        invariant !reserved ==> State() == old(State())
        invariant !reserved ==> FirstSlot(old(reservations), date, pitchId, 0) == FirstSlot(old(reservations), date, pitchId, k)
        invariant reserved ==> FirstSlot(old(reservations), date, pitchId, 0).Some?
        invariant reserved ==> State() == Book(old(State()), f, date, pitchId, FirstSlot(old(reservations), date, pitchId, 0).value, createdBy)
      {
        var slot := SlotLabels[k];
        SlotTimeFromLabel(date, k);
        var hour := HourOf(slot);
        var minutes := MinuteOf(slot);
        var reservationDateTime := DateTime(date, hour, minutes);
        var isAvailable := Booking(pitchId, reservationDateTime) !in reservations;
        if isAvailable {
          var id := nextId;
          nextId := nextId + 1;
          matchInserts := matchInserts + [MatchRow(id, f.home, f.away, Scheduled, createdBy)];
          hostInserts := hostInserts + [HostRow(pitchId, reservationDateTime, id)];
          reserved := true;
          reservedMatches := reservedMatches + [Reserved(id, date, f.home, f.away)];
          reservations := reservations + [Booking(pitchId, reservationDateTime)];
        }
        k := k + 1;
      }
    }

    /** The pitch loop for one day: try the active pitches in order and
        stop at the first booking made. */
    method TryPitches(f: Fixture, date: int, pitches: seq<int>, createdBy: int) returns (reserved: bool)
      modifies this
      ensures FirstFreeFrom(old(reservations), date, pitches, 0).None? ==> !reserved && State() == old(State())
      ensures FirstFreeFrom(old(reservations), date, pitches, 0).Some? ==>
        var spot := FirstFreeFrom(old(reservations), date, pitches, 0).value;
        reserved && State() == Book(old(State()), f, date, pitches[spot.pitchIndex], spot.slot, createdBy)
    {
      reserved := false;
      var p := 0;
      while p < |pitches| && !reserved
        invariant 0 <= p <= |pitches|
        invariant !reserved ==> State() == old(State())
        invariant !reserved ==> FirstFreeFrom(old(reservations), date, pitches, 0) == FirstFreeFrom(old(reservations), date, pitches, p)
        invariant reserved ==> FirstFreeFrom(old(reservations), date, pitches, 0).Some?
        invariant reserved ==>
          var spot := FirstFreeFrom(old(reservations), date, pitches, 0).value;
          State() == Book(old(State()), f, date, pitches[spot.pitchIndex], spot.slot, createdBy)
      {
        reserved := TrySlots(f, date, pitches[p], createdBy);
        p := p + 1;
      }
    }

    /** Place one fixture: advance the date cursor day by day, skip a day
        with a same-day clash, and on the first day with a free (pitch,
        slot) insert the match and its booking and record both. */
    method PlaceFixture(f: Fixture, dates: seq<int>, pitches: seq<int>, createdBy: int)
      modifies this
      ensures State() == Step(old(State()), f, dates, pitches, createdBy)
    {
      ghost var s0 := State();
      var reserved := false;
      while lastAssignedDateIndex < |dates| && !reserved
        invariant !reserved ==> Step(s0, f, dates, pitches, createdBy) == Step(State(), f, dates, pitches, createdBy)
        invariant reserved ==> State() == Step(s0, f, dates, pitches, createdBy)
        decreases |dates| - lastAssignedDateIndex
      {
        ghost var s := State();
        var date := dates[lastAssignedDateIndex];
        lastAssignedDateIndex := lastAssignedDateIndex + 1;
        var teamHasMatchOnDate := exists m | m in reservedMatches :: m.date == date && (m.teamA == f.home || m.teamB == f.away);
        assert teamHasMatchOnDate == SameDayClash(s.reserved, date, f);
        if !teamHasMatchOnDate {
          reserved := TryPitches(f, date, pitches, createdBy);
          if reserved {
            StepBooks(s, f, dates, pitches, createdBy);
          } else {
            StepSkips(s, f, dates, pitches, createdBy);
          }
        } else {
          StepSkips(s, f, dates, pitches, createdBy);
        }
      }
    }

    /** Place every fixture: for each pair i < j of enrolled teams, the
        home leg (i, j) and then the away leg (j, i). */
    method PlaceAll(teamIds: seq<int>, dates: seq<int>, pitches: seq<int>, createdBy: int)
      modifies this
      ensures State() == Run(old(State()), Fixtures(teamIds), dates, pitches, createdBy)
    {
      ghost var s0 := State();
      ghost var done: seq<Fixture> := [];
      for i := 0 to |teamIds|
        invariant done + FixturesFrom(teamIds, i) == Fixtures(teamIds)
        invariant State() == Run(s0, done, dates, pitches, createdBy)
      {
        PlaceRow(teamIds, i, dates, pitches, createdBy);
        RunAppend(s0, done, Row(teamIds, i, i + 1), dates, pitches, createdBy);
        FixturesPeel(done, teamIds, i);
        done := done + Row(teamIds, i, i + 1);
      }
      assert done + FixturesFrom(teamIds, |teamIds|) == done;
    }

    /** The fixtures of team i against every later team. */
    method PlaceRow(teamIds: seq<int>, i: nat, dates: seq<int>, pitches: seq<int>, createdBy: int)
      requires i < |teamIds|
      modifies this
      ensures State() == Run(old(State()), Row(teamIds, i, i + 1), dates, pitches, createdBy)
    {
      ghost var s0 := State();
      ghost var done: seq<Fixture> := [];
      for j := i + 1 to |teamIds|
        invariant done + Row(teamIds, i, j) == Row(teamIds, i, i + 1)
        invariant State() == Run(s0, done, dates, pitches, createdBy)
      {
        var homeAwayMatches := [Fixture(teamIds[i], teamIds[j]), Fixture(teamIds[j], teamIds[i])];
        PlaceLegs(homeAwayMatches, dates, pitches, createdBy);
        RunAppend(s0, done, homeAwayMatches, dates, pitches, createdBy);
        RowPeel(done, teamIds, i, j);
        done := done + homeAwayMatches;
      }
      assert done + Row(teamIds, i, |teamIds|) == done;
    }

    /** The legs of one pair, home then away. */
    method PlaceLegs(homeAwayMatches: seq<Fixture>, dates: seq<int>, pitches: seq<int>, createdBy: int)
      modifies this
      ensures State() == Run(old(State()), homeAwayMatches, dates, pitches, createdBy)
    {
      ghost var s0 := State();
      assert homeAwayMatches[..0] == [];
      for m := 0 to |homeAwayMatches|
        invariant State() == Run(s0, homeAwayMatches[..m], dates, pitches, createdBy)
      {
        PlaceFixture(homeAwayMatches[m], dates, pitches, createdBy);
        RunSnoc(s0, homeAwayMatches[..m], homeAwayMatches[m], dates, pitches, createdBy);
        assert homeAwayMatches[..m + 1] == homeAwayMatches[..m] + [homeAwayMatches[m]];
      }
      assert homeAwayMatches[..|homeAwayMatches|] == homeAwayMatches;
    }
  }

  /** The candidate days: every day from start to end inclusive. */
  method BuildDates(start: int, end: int) returns (availableDates: seq<int>)
    ensures availableDates == CalendarDays(start, end)
    ensures |availableDates| == (if start <= end then end - start + 1 else 0)
    ensures forall i :: 0 <= i < |availableDates| ==> availableDates[i] == start + i
  {
    availableDates := [];
    var currentDate := start;
    while currentDate <= end
      invariant start <= currentDate
      invariant currentDate <= end + 1 || currentDate == start
      invariant |availableDates| == currentDate - start
      invariant forall i :: 0 <= i < |availableDates| ==> availableDates[i] == start + i
      decreases end - currentDate
    {
      availableDates := availableDates + [currentDate];
      currentDate := currentDate + 1;
    }
  }

  // ---------------------------------------------------------------
  // Rows and replies
  // ---------------------------------------------------------------

  datatype Competition = Competition(start: int, end: int, isDraw: bool, createdBy: int)

  /** A row of the enrollment table (team in competition). */
  datatype Enrollment = Enrollment(teamId: int, competitionId: int)

  datatype Pitch = Pitch(id: int, active: bool)

  datatype Response = Response(status: int, message: string)

  datatype DrawResponse = Drawn(matchIds: seq<int>) | Refused(status: int, message: string)

  const MaxTeams: nat := 20

  /** The teams enrolled in a competition, in enrollment order. */
  function TeamsOf(rows: seq<Enrollment>, competitionId: int): (teams: seq<int>)
    ensures |teams| <= |rows|
  {
    if rows == [] then []
    else
      var last := rows[|rows| - 1];
      TeamsOf(rows[..|rows| - 1], competitionId) + (if last.competitionId == competitionId then [last.teamId] else [])
  }

  lemma {:induction false} TeamsOfMembers(rows: seq<Enrollment>, competitionId: int, t: int)
    ensures t in TeamsOf(rows, competitionId) <==> Enrollment(t, competitionId) in rows
  {
    if rows != [] {
      TeamsOfMembers(rows[..|rows| - 1], competitionId, t);
      assert rows == rows[..|rows| - 1] + [rows[|rows| - 1]];
    }
  }

  /** Enrolling one more row adds one team to that competition and none
      to any other. */
  lemma TeamsOfAppend(rows: seq<Enrollment>, e: Enrollment, competitionId: int)
    ensures TeamsOf(rows + [e], competitionId) ==
      TeamsOf(rows, competitionId) + (if e.competitionId == competitionId then [e.teamId] else [])
  {
    assert (rows + [e])[..|rows|] == rows;
  }

  /** TeamsOf on a table with one more row at the end, one case per
      ensures. */
  lemma TeamsOfSnoc(rows: seq<Enrollment>, last: Enrollment, competitionId: int)
    ensures last.competitionId == competitionId ==> TeamsOf(rows + [last], competitionId) == TeamsOf(rows, competitionId) + [last.teamId]
    ensures last.competitionId != competitionId ==> TeamsOf(rows + [last], competitionId) == TeamsOf(rows, competitionId)
  {
    TeamsOfAppend(rows, last, competitionId);
    if last.competitionId != competitionId {
      assert TeamsOf(rows, competitionId) + [] == TeamsOf(rows, competitionId);
    }
  }

  /** Deleting an enrolment takes its team out of that competition's list
      and keeps the other teams in enrolment order; the lists of the other
      competitions are untouched. */
  lemma {:induction false} TeamsOfWithout(rows: seq<Enrollment>, e: Enrollment, competitionId: int)
    ensures TeamsOf(Without(rows, e), competitionId) ==
      if e.competitionId == competitionId then Without(TeamsOf(rows, competitionId), e.teamId)
      else TeamsOf(rows, competitionId)
  {
    if rows != [] {
      var prefix := rows[..|rows| - 1];
      var last := rows[|rows| - 1];
      assert rows == prefix + [last];
      TeamsOfWithout(prefix, e, competitionId);
      WithoutSnoc(prefix, last, e);
      TeamsOfSnoc(prefix, last, competitionId);
      if last != e {
        TeamsOfSnoc(Without(prefix, e), last, competitionId);
      }
      if e.competitionId == competitionId && last.competitionId == competitionId {
        WithoutSnoc(TeamsOf(prefix, competitionId), last.teamId, e.teamId);
      }
    }
  }

  /** The ids of the active pitches, in table order. */
  function ActivePitchIds(pitches: seq<Pitch>): (ids: seq<int>)
    ensures forall id :: id in ids <==> Pitch(id, true) in pitches
  {
    if pitches == [] then []
    else
      var last := pitches[|pitches| - 1];
      assert pitches == pitches[..|pitches| - 1] + [last];
      ActivePitchIds(pitches[..|pitches| - 1]) + (if last.active then [last.id] else [])
  }

  /** The bookings of the host table on the given pitches, in table order. */
  function BookingsOn(host: seq<HostRow>, pitchIds: seq<int>): (bookings: seq<Booking>)
    ensures forall b :: b in bookings <==> b.pitch in pitchIds && exists h :: h in host && h.pitch == b.pitch && h.at == b.at
  {
    if host == [] then []
    else
      var last := host[|host| - 1];
      assert host == host[..|host| - 1] + [last];
      BookingsOn(host[..|host| - 1], pitchIds) + (if last.pitch in pitchIds then [Booking(last.pitch, last.at)] else [])
  }

  /** The matches neither of whose teams is among `teams`. */
  function Unrelated(matches: seq<MatchRow>, teams: seq<int>): (kept: seq<MatchRow>)
    ensures forall m :: m in kept <==> m in matches && m.teamA !in teams && m.teamB !in teams
  {
    if matches == [] then []
    else
      var last := matches[|matches| - 1];
      assert matches == matches[..|matches| - 1] + [last];
      Unrelated(matches[..|matches| - 1], teams) + (if last.teamA !in teams && last.teamB !in teams then [last] else [])
  }

  /** `Number(s)` for a path parameter: a string of decimal digits reads
      as its value (the empty string as 0); anything else is not a
      number. */
  function ToNumber(s: string): Option<nat>
  {
    if AllDigits(s) then Some(ParseDigits(s)) else None
  }

  /** Every decimal spelling of an id is accepted and read back as that
      id; a parameter with any non-digit is rejected. */
  lemma ToNumberReadsDecimal(n: nat, s: string)
    ensures ToNumber(DecimalString(n)) == Some(n)
    ensures (exists i :: 0 <= i < |s| && !IsDigit(s[i])) ==> ToNumber(s) == None
  {
    ParseDecimalString(n);
  }

  // ---------------------------------------------------------------
  // The competition tables
  // ---------------------------------------------------------------

  class CompetitionStore {
    var competitions: map<int, Competition>
    var compTeams: seq<Enrollment>
    var pitches: seq<Pitch>
    var host: seq<HostRow>
    var matches: seq<MatchRow>
    var nextMatchId: int

    /** Every match id was handed out by the auto-increment counter. */
    ghost predicate Valid()
      reads this
    {
      forall m :: m in matches ==> m.id < nextMatchId
    }

    /** Empty tables; the auto-increment counter starts at 1. */
    constructor ()
      ensures Valid()
      ensures competitions == map[] && compTeams == [] && pitches == [] && host == [] && matches == []
      ensures nextMatchId == 1
    {
      competitions := map[];
      compTeams := [];
      pitches := [];
      host := [];
      matches := [];
      nextMatchId := 1;
    }

    /** The draw: refuse a missing competition (404), a competition already
        drawn (400) and one with fewer than two teams (400), all before any
        write; otherwise place every fixture, insert the matches and
        bookings made, set the draw flag and reply with the new match ids
        in scheduling order. Fixtures that found no free day are left out
        without failing the request. */
    method GenerateMatchesAndReserve(competitionId: int) returns (resp: DrawResponse)
      requires Valid()
      modifies this
      ensures Valid()
      ensures competitionId !in old(competitions) ==>
        resp == Refused(404, "Competition not found.") && unchanged(this)
      ensures competitionId in old(competitions) && old(competitions[competitionId]).isDraw ==>
        resp == Refused(400, "Draw has already been completed for this competition.") && unchanged(this)
      ensures competitionId in old(competitions) && !old(competitions[competitionId]).isDraw
              && |TeamsOf(old(compTeams), competitionId)| < 2 ==>
        resp == Refused(400, "Not enough teams to create matches.") && unchanged(this)
      ensures competitionId in old(competitions) && !old(competitions[competitionId]).isDraw
              && |TeamsOf(old(compTeams), competitionId)| >= 2 ==>
        var c := old(competitions[competitionId]);
        var active := ActivePitchIds(old(pitches));
        var d := Run(Init(BookingsOn(old(host), active), old(nextMatchId)),
                     Fixtures(TeamsOf(old(compTeams), competitionId)),
                     CalendarDays(c.start, c.end), active, c.createdBy);
        && resp == Drawn(MatchIds(d.reserved))
        && competitions == old(competitions)[competitionId := c.(isDraw := true)]
        && matches == old(matches) + d.newMatches
        && host == old(host) + d.newHosts
        && nextMatchId == d.nextId
        && compTeams == old(compTeams) && pitches == old(pitches)
      ensures resp.Refused? ==> unchanged(this)
      ensures resp.Drawn? ==>
        |matches| == |old(matches)| + |resp.matchIds| && |host| == |old(host)| + |resp.matchIds|
    {
      if competitionId !in competitions {
        return Refused(404, "Competition not found.");
      }
      var c := competitions[competitionId];
      if c.isDraw {
        return Refused(400, "Draw has already been completed for this competition.");
      }
      var teamIds := TeamsOf(compTeams, competitionId);
      if |teamIds| < 2 {
        return Refused(400, "Not enough teams to create matches.");
      }
      var availableDates := BuildDates(c.start, c.end);
      var availablePitches := ActivePitchIds(pitches);
      var existing := BookingsOn(host, availablePitches);
      var draw := new Scheduler(existing, nextMatchId);
      draw.PlaceAll(teamIds, availableDates, availablePitches, c.createdBy);

      CalendarDaysSpec(c.start, c.end);
      DrawIdsFresh(teamIds, availableDates, availablePitches, existing, nextMatchId, c.createdBy);
      DrawRows(teamIds, availableDates, availablePitches, existing, nextMatchId, c.createdBy);

      matches := matches + draw.matchInserts;
      host := host + draw.hostInserts;
      nextMatchId := draw.nextId;
      competitions := competitions[competitionId := c.(isDraw := true)];
      resp := Drawn(MatchIds(draw.reservedMatches));
    }

    /** Asking for a draw twice in a row: the second request is always
        refused and changes nothing; after a successful first one it is
        refused because the draw is complete. So the two requests together
        insert exactly the matches and bookings of the first one, and
        nothing at all when the first is refused. */
    method DrawTwice(competitionId: int) returns (first: DrawResponse, second: DrawResponse)
      requires Valid()
      modifies this
      ensures Valid()
      ensures second.Refused?
      ensures first.Drawn? ==> second == Refused(400, "Draw has already been completed for this competition.")
      ensures first.Drawn? ==>
        |matches| == |old(matches)| + |first.matchIds| && |host| == |old(host)| + |first.matchIds|
      ensures first.Refused? ==>
        matches == old(matches) && host == old(host) && competitions == old(competitions) && unchanged(this)
    {
      first := GenerateMatchesAndReserve(competitionId);
      second := GenerateMatchesAndReserve(competitionId);
    }

    /** Enroll a team unless the competition already has twenty. */
    method AddTeamToCompetition(teamId: int, competitionId: int) returns (resp: Response)
      modifies this
      ensures |TeamsOf(old(compTeams), competitionId)| >= MaxTeams ==>
        resp == Response(400, "Maximum of 20 teams reached for this competition.") && unchanged(this)
      ensures |TeamsOf(old(compTeams), competitionId)| < MaxTeams ==>
        && resp == Response(200, "Team added to competition successfully")
        && compTeams == old(compTeams) + [Enrollment(teamId, competitionId)]
        && competitions == old(competitions) && pitches == old(pitches)
        && host == old(host) && matches == old(matches) && nextMatchId == old(nextMatchId)
      ensures forall cid :: |TeamsOf(old(compTeams), cid)| <= MaxTeams ==> |TeamsOf(compTeams, cid)| <= MaxTeams
    {
      var teamCount := |TeamsOf(compTeams, competitionId)|;
      if teamCount >= MaxTeams {
        return Response(400, "Maximum of 20 teams reached for this competition.");
      }
      ghost var before := compTeams;
      compTeams := compTeams + [Enrollment(teamId, competitionId)];
      forall cid | true
        ensures TeamsOf(compTeams, cid) ==
          TeamsOf(before, cid) + (if competitionId == cid then [teamId] else [])
      {
        TeamsOfAppend(before, Enrollment(teamId, competitionId), cid);
      }
      resp := Response(200, "Team added to competition successfully");
    }

    /** Remove a team from a competition, both given as path parameters:
        400 unless both read as numbers, 404 if the team was not enrolled. */
    method RemoveTeamFromCompetition(compParam: string, teamParam: string) returns (resp: Response)
      modifies this
      ensures (ToNumber(compParam).None? || ToNumber(teamParam).None?) ==>
        resp == Response(400, "comp_id and team_id must be numbers.") && unchanged(this)
      ensures ToNumber(compParam).Some? && ToNumber(teamParam).Some? ==>
        var e := Enrollment(ToNumber(teamParam).value, ToNumber(compParam).value);
        && (e !in old(compTeams) ==> resp == Response(404, "Team not found in competition.") && unchanged(this))
        && (e in old(compTeams) ==>
              && resp == Response(200, "Team removed from competition successfully")
              && compTeams == Without(old(compTeams), e)
              && (forall r :: r in compTeams <==> r in old(compTeams) && r != e)
              && competitions == old(competitions) && pitches == old(pitches)
              && host == old(host) && matches == old(matches) && nextMatchId == old(nextMatchId))
    {
      var compId := ToNumber(compParam);
      var teamId := ToNumber(teamParam);
      if compId.None? || teamId.None? {
        return Response(400, "comp_id and team_id must be numbers.");
      }
      var kept := Without(compTeams, Enrollment(teamId.value, compId.value));
      if |kept| == |compTeams| {
        return Response(404, "Team not found in competition.");
      }
      compTeams := kept;
      resp := Response(200, "Team removed from competition successfully");
    }

    /** Reset a draw: 404 for a missing competition; otherwise delete every
        match either of whose teams is enrolled in it and clear the draw
        flag. The host bookings of the deleted matches stay. */
    method DeleteCompetitionMatches(competitionId: int) returns (resp: Response)
      requires Valid()
      modifies this
      ensures Valid()
      ensures competitionId !in old(competitions) ==>
        resp == Response(404, "Competition not found.") && unchanged(this)
      ensures competitionId in old(competitions) ==>
        var enrolled := TeamsOf(old(compTeams), competitionId);
        && resp == Response(200, "All matches deleted and is_draw set to false for the competition.")
        && (forall m :: m in matches <==> m in old(matches) && m.teamA !in enrolled && m.teamB !in enrolled)
        && competitions == old(competitions)[competitionId := old(competitions[competitionId]).(isDraw := false)]
        && host == old(host)
        && compTeams == old(compTeams) && pitches == old(pitches) && nextMatchId == old(nextMatchId)
    {
      if competitionId !in competitions {
        return Response(404, "Competition not found.");
      }
      matches := Unrelated(matches, TeamsOf(compTeams, competitionId));
      competitions := competitions[competitionId := competitions[competitionId].(isDraw := false)];
      resp := Response(200, "All matches deleted and is_draw set to false for the competition.");
    }
  }
}
