/** The match controller: a user's match list merged from the matches they
    created and the matches they play in, and creating and cancelling a
    friendly match as transitions over the matches table and the pitch
    occupancies. */
module Matches {
  import opened Common
  import Schedule

  // ---------------------------------------------------------------
  // The merged match list
  // ---------------------------------------------------------------

  /** A listed match: its id and the other selected columns. */
  datatype MatchView = MatchView(id: int, columns: map<string, JsValue>)

  predicate HasId(ms: seq<MatchView>, id: int)
  {
    exists k :: 0 <= k < |ms| && ms[k].id == id
  }

  /** The participant matches whose id is not among the creator matches,
      in their own order. */
  function NotAmong(asPlayer: seq<MatchView>, asCreator: seq<MatchView>): (rest: seq<MatchView>)
    ensures |rest| <= |asPlayer|
  {
    if asPlayer == [] then []
    else
      var last := asPlayer[|asPlayer| - 1];
      NotAmong(asPlayer[..|asPlayer| - 1], asCreator) + (if HasId(asCreator, last.id) then [] else [last])
  }

  /** Exactly the participant matches without a creator match's id are
      kept. */
  lemma {:induction false} NotAmongSpec(asPlayer: seq<MatchView>, asCreator: seq<MatchView>)
    ensures forall k :: 0 <= k < |NotAmong(asPlayer, asCreator)| ==> !HasId(asCreator, NotAmong(asPlayer, asCreator)[k].id)
    ensures forall m :: m in NotAmong(asPlayer, asCreator) <==> m in asPlayer && !HasId(asCreator, m.id)
    decreases |asPlayer|
  {
    if asPlayer != [] {
      var prefix := asPlayer[..|asPlayer| - 1];
      var last := asPlayer[|asPlayer| - 1];
      NotAmongSpec(prefix, asCreator);
      assert asPlayer == prefix + [last];
    }
  }

  /** The creator matches unchanged, then the participant matches the
      creator list does not already hold. */
  function CombinedMatches(asCreator: seq<MatchView>, asPlayer: seq<MatchView>): seq<MatchView>
  {
    asCreator + NotAmong(asPlayer, asCreator)
  }

  /** The filter keeps the participants' order: filtering a concatenation
      is concatenating the filtered parts. */
  lemma {:induction false} NotAmongAppend(xs: seq<MatchView>, ys: seq<MatchView>, asCreator: seq<MatchView>)
    ensures NotAmong(xs + ys, asCreator) == NotAmong(xs, asCreator) + NotAmong(ys, asCreator)
    decreases |ys|
  {
    if ys == [] {
      assert xs + ys == xs;
    } else {
      assert (xs + ys)[..|xs + ys| - 1] == xs + ys[..|ys| - 1];
      NotAmongAppend(xs, ys[..|ys| - 1], asCreator);
    }
  }

  /** What the merged list holds: the creator list as its prefix; after it
      exactly the participant matches with a new id, none with a creator's
      id; so every match of either list is listed, and when both lists are
      free of repeated ids so is the merge. */
  lemma CombinedMatchesSpec(asCreator: seq<MatchView>, asPlayer: seq<MatchView>)
    ensures |CombinedMatches(asCreator, asPlayer)| >= |asCreator|
    ensures CombinedMatches(asCreator, asPlayer)[..|asCreator|] == asCreator
    ensures CombinedMatches(asCreator, asPlayer)[|asCreator|..] == NotAmong(asPlayer, asCreator)
    ensures forall k :: |asCreator| <= k < |CombinedMatches(asCreator, asPlayer)| ==>
      !HasId(asCreator, CombinedMatches(asCreator, asPlayer)[k].id)
    ensures forall m :: m in asCreator ==> m in CombinedMatches(asCreator, asPlayer)
    ensures forall m :: m in asPlayer ==> HasId(CombinedMatches(asCreator, asPlayer), m.id)
    ensures DistinctIds(asCreator) && DistinctIds(asPlayer) ==> DistinctIds(CombinedMatches(asCreator, asPlayer))
  {
    var merged := CombinedMatches(asCreator, asPlayer);
    var rest := NotAmong(asPlayer, asCreator);
    NotAmongSpec(asPlayer, asCreator);
    assert merged[..|asCreator|] == asCreator;
    assert merged[|asCreator|..] == rest;
    forall m | m in asPlayer
      ensures HasId(merged, m.id)
    {
      if HasId(asCreator, m.id) {
        var k :| 0 <= k < |asCreator| && asCreator[k].id == m.id;
        assert merged[k].id == m.id;
      } else {
        var k :| 0 <= k < |rest| && rest[k] == m;
        assert merged[|asCreator| + k] == m;
      }
    }
    if DistinctIds(asCreator) && DistinctIds(asPlayer) {
      NotAmongDistinct(asPlayer, asCreator);
      forall i, j | 0 <= i < j < |merged|
        ensures merged[i].id != merged[j].id
      {
        if j >= |asCreator| {
          assert merged[j] == rest[j - |asCreator|];
          if i < |asCreator| {
            assert merged[i] == asCreator[i];
          } else {
            assert merged[i] == rest[i - |asCreator|];
          }
        }
      }
    }
  }

  predicate DistinctIds(ms: seq<MatchView>)
  {
    forall i, j :: 0 <= i < j < |ms| ==> ms[i].id != ms[j].id
  }

  lemma {:induction false} NotAmongDistinct(asPlayer: seq<MatchView>, asCreator: seq<MatchView>)
    requires DistinctIds(asPlayer)
    ensures DistinctIds(NotAmong(asPlayer, asCreator))
    decreases |asPlayer|
  {
    if asPlayer != [] {
      var prefix := asPlayer[..|asPlayer| - 1];
      var last := asPlayer[|asPlayer| - 1];
      NotAmongDistinct(prefix, asCreator);
      var rest := NotAmong(prefix, asCreator);
      NotAmongSpec(prefix, asCreator);
      forall k | 0 <= k < |rest|
        ensures rest[k].id != last.id
      {
        assert rest[k] in prefix;
        var p :| 0 <= p < |prefix| && prefix[p] == rest[k];
        assert asPlayer[p] == prefix[p];
      }
    }
  }

  // ---------------------------------------------------------------
  // Creating and cancelling a match
  // ---------------------------------------------------------------

  /** A row of the matches table as these two handlers see it; pitch and
      date are NULL for matches inserted by a competition draw. */
  datatype MatchRecord = MatchRecord(
    id: int,
    pitchId: Option<int>,
    teamA: int,
    teamB: int,
    matchDate: Option<int>,
    status: Schedule.MatchStatus,
    createdBy: int)

  /** A row of the pitch occupancies table: a pitch taken at a date-time. */
  datatype Occupancy = Occupancy(pitchId: int, dateTime: int)

  /** A row of the teams table as a match creates it. */
  datatype TeamRow = TeamRow(id: int, name: string, shortName: string, createdBy: int)

  datatype CreateReply =
    | MatchCreated(matchId: int, pitchId: int, teamAId: int, teamBId: int, matchDate: int, status: string)
    | CreateFailed(code: int, message: string)

  datatype CancelReply =
    | MatchCanceled(matchId: int, status: string)
    | CancelFailed(code: int, message: string)

  /** A match holds a pitch when it is not canceled and has both a pitch and
      a date. */
  predicate Holds(m: MatchRecord)
  {
    m.status != Schedule.Canceled && m.pitchId.Some? && m.matchDate.Some?
  }

  function Slot(m: MatchRecord): Occupancy
    requires m.pitchId.Some? && m.matchDate.Some?
  {
    Occupancy(m.pitchId.value, m.matchDate.value)
  }

  /** The index of the match with the given id, if any. */
  function FindMatch(matches: seq<MatchRecord>, id: int): (r: Option<nat>)
    ensures r.Some? ==> r.value < |matches| && matches[r.value].id == id
    ensures r.None? ==> forall k :: 0 <= k < |matches| ==> matches[k].id != id
    decreases |matches|
  {
    if matches == [] then None
    else if matches[|matches| - 1].id == id then Some(|matches| - 1)
    else FindMatch(matches[..|matches| - 1], id)
  }

  /** Match ids lie below the counter, each once. */
  predicate IdsBelow(matches: seq<MatchRecord>, next: int)
  {
    && (forall k :: 0 <= k < |matches| ==> matches[k].id < next)
    && (forall i, j :: 0 <= i < j < |matches| ==> matches[i].id != matches[j].id)
  }

  /** A match that takes the counter's id keeps ids below the bumped
      counter, each once. */
  lemma FreshIdKeepsIds(matches: seq<MatchRecord>, next: int, r: MatchRecord)
    requires IdsBelow(matches, next) && r.id == next
    ensures IdsBelow(matches + [r], next + 1)
  {
  }

  /** The occupancies agree with the matches: none is recorded twice,
      every match holding a pitch has its occupancy, and no two matches
      hold the same pitch at the same date-time. */
  predicate Booked(matches: seq<MatchRecord>, occupancies: seq<Occupancy>)
  {
    && NoDuplicates(occupancies)
    && (forall k :: 0 <= k < |matches| && Holds(matches[k]) ==> Slot(matches[k]) in occupancies)
    && (forall i, j :: 0 <= i < j < |matches| && Holds(matches[i]) && Holds(matches[j]) ==>
          Slot(matches[i]) != Slot(matches[j]))
  }

  /** A new match on a free pitch and date-time, with its occupancy
      recorded, keeps the occupancies in agreement. */
  lemma CreateKeepsBooked(matches: seq<MatchRecord>, occupancies: seq<Occupancy>, r: MatchRecord)
    requires Booked(matches, occupancies)
    requires r.pitchId.Some? && r.matchDate.Some? && Slot(r) !in occupancies
    ensures Booked(matches + [r], occupancies + [Slot(r)])
  {
    var ms := matches + [r];
    forall i, j | 0 <= i < j < |ms| && Holds(ms[i]) && Holds(ms[j])
      ensures Slot(ms[i]) != Slot(ms[j])
    {
      if j == |matches| {
        assert Slot(ms[i]) in occupancies;
      }
    }
  }

  /** Canceling a match and deleting its occupancy, when it has a pitch
      and a date, keeps the occupancies in agreement. */
  lemma CancelKeepsBooked(matches: seq<MatchRecord>, occupancies: seq<Occupancy>, i: nat)
    requires Booked(matches, occupancies)
    requires i < |matches| && matches[i].status != Schedule.Canceled
    ensures var m := matches[i];
      Booked(matches[i := m.(status := Schedule.Canceled)],
             if m.pitchId.Some? && m.matchDate.Some? then Without(occupancies, Slot(m)) else occupancies)
  {
    var m := matches[i];
    var ms := matches[i := m.(status := Schedule.Canceled)];
    if m.pitchId.Some? && m.matchDate.Some? {
      NoDuplicatesWithout(occupancies, Slot(m));
      var occ := Without(occupancies, Slot(m));
      forall k | 0 <= k < |ms| && Holds(ms[k])
        ensures Slot(ms[k]) in occ
      {
        assert k != i && Holds(matches[k]);
        if k < i {
          assert Slot(matches[k]) != Slot(matches[i]);
        } else {
          assert Slot(matches[i]) != Slot(matches[k]);
        }
      }
    }
  }

  class MatchStore {
    var users: set<int>
    var teams: seq<TeamRow>
    var matches: seq<MatchRecord>
    var occupancies: seq<Occupancy>
    var nextTeamId: int
    var nextMatchId: int

    /** Ids come from the counters, each once, and the occupancies agree
        with the matches. */
    ghost predicate Valid()
      reads this
    {
      && IdsBelow(matches, nextMatchId)
      && (forall k :: 0 <= k < |teams| ==> teams[k].id < nextTeamId)
      && Booked(matches, occupancies)
    }

    /** The given users and otherwise empty tables; both auto-increment
        counters start at 1. */
    constructor (registered: set<int>)
      ensures Valid()
      ensures users == registered && teams == [] && matches == [] && occupancies == []
      ensures nextTeamId == 1 && nextMatchId == 1
    {
      users := registered;
      teams := [];
      matches := [];
      occupancies := [];
      nextTeamId := 1;
      nextMatchId := 1;
    }

    /** 400 for an unknown user or a pitch already occupied at the date,
        with nothing written; otherwise two fresh teams, the match between
        them, and the pitch's occupancy, all or nothing. The team names are
        random in the handler and are parameters here. */
    method CreateMatch(pitchId: int, userId: int, matchDate: int,
                       teamAName: string, teamAShortName: string, teamBName: string, teamBShortName: string)
      returns (resp: CreateReply)
      requires Valid()
      modifies this
      ensures Valid()
      ensures userId !in old(users) ==>
        resp == CreateFailed(400, "User does not exist.") && unchanged(this)
      ensures userId in old(users) && Occupancy(pitchId, matchDate) in old(occupancies) ==>
        resp == CreateFailed(400, "The selected pitch is already reserved at this date and time.") && unchanged(this)
      ensures userId in old(users) && Occupancy(pitchId, matchDate) !in old(occupancies) ==>
        var a := old(nextTeamId);
        var m := old(nextMatchId);
        && resp == MatchCreated(m, pitchId, a, a + 1, matchDate, "scheduled")
        && teams == old(teams) + [TeamRow(a, teamAName, teamAShortName, userId), TeamRow(a + 1, teamBName, teamBShortName, userId)]
        && matches == old(matches) + [MatchRecord(m, Some(pitchId), a, a + 1, Some(matchDate), Schedule.Scheduled, userId)]
        && occupancies == old(occupancies) + [Occupancy(pitchId, matchDate)]
        && nextTeamId == a + 2 && nextMatchId == m + 1 && users == old(users)
    {
      if userId !in users {
        return CreateFailed(400, "User does not exist.");
      }
      var existingOccupancy := Occupancy(pitchId, matchDate) in occupancies;
      if existingOccupancy {
        return CreateFailed(400, "The selected pitch is already reserved at this date and time.");
      }
      var teamA := nextTeamId;
      teams := teams + [TeamRow(teamA, teamAName, teamAShortName, userId)];
      var teamB := nextTeamId + 1;
      teams := teams + [TeamRow(teamB, teamBName, teamBShortName, userId)];
      nextTeamId := nextTeamId + 2;
      var matchId := nextMatchId;
      ghost var r := MatchRecord(matchId, Some(pitchId), teamA, teamB, Some(matchDate), Schedule.Scheduled, userId);
      CreateKeepsBooked(matches, occupancies, r);
      FreshIdKeepsIds(matches, nextMatchId, r);
      matches := matches + [MatchRecord(matchId, Some(pitchId), teamA, teamB, Some(matchDate), Schedule.Scheduled, userId)];
      nextMatchId := nextMatchId + 1;
      occupancies := occupancies + [Occupancy(pitchId, matchDate)];
      resp := MatchCreated(matchId, pitchId, teamA, teamB, matchDate, "scheduled");
    }

    /** 400 for an unknown match or one already canceled, with nothing
        written; otherwise mark it canceled and delete the occupancy of its
        pitch and date (a match without them frees nothing). */
    method CancelMatch(matchId: int) returns (resp: CancelReply)
      requires Valid()
      modifies this
      ensures Valid()
      ensures FindMatch(old(matches), matchId).None? ==>
        resp == CancelFailed(400, "Match does not exist.") && unchanged(this)
      ensures FindMatch(old(matches), matchId).Some? && old(matches)[FindMatch(old(matches), matchId).value].status == Schedule.Canceled ==>
        resp == CancelFailed(400, "Match is already canceled.") && unchanged(this)
      ensures FindMatch(old(matches), matchId).Some? && old(matches)[FindMatch(old(matches), matchId).value].status != Schedule.Canceled ==>
        var i := FindMatch(old(matches), matchId).value;
        var m := old(matches)[i];
        && resp == MatchCanceled(matchId, "canceled")
        && matches == old(matches)[i := m.(status := Schedule.Canceled)]
        && occupancies == (if m.pitchId.Some? && m.matchDate.Some? then Without(old(occupancies), Slot(m)) else old(occupancies))
        && teams == old(teams) && users == old(users)
        && nextTeamId == old(nextTeamId) && nextMatchId == old(nextMatchId)
    {
      var found := FindMatch(matches, matchId);
      if found.None? {
        return CancelFailed(400, "Match does not exist.");
      }
      var i := found.value;
      var m := matches[i];
      if m.status == Schedule.Canceled {
        return CancelFailed(400, "Match is already canceled.");
      }
      CancelKeepsBooked(matches, occupancies, i);
      matches := matches[i := m.(status := Schedule.Canceled)];
      if m.pitchId.Some? && m.matchDate.Some? {
        occupancies := Without(occupancies, Slot(m));
      }
      resp := MatchCanceled(matchId, "canceled");
    }

    /** A match created and then cancelled gives the pitch back: the
        occupancies are as they were before. */
    method CreateThenCancel(pitchId: int, userId: int, matchDate: int,
                            teamAName: string, teamAShortName: string, teamBName: string, teamBShortName: string)
      returns (created: CreateReply, canceled: CancelReply)
      requires Valid()
      modifies this
      ensures Valid()
      ensures created.MatchCreated? ==> canceled == MatchCanceled(created.matchId, "canceled")
      ensures created.MatchCreated? ==> occupancies == old(occupancies)
      ensures created.CreateFailed? ==> occupancies == old(occupancies)
    {
      created := CreateMatch(pitchId, userId, matchDate, teamAName, teamAShortName, teamBName, teamBShortName);
      if created.MatchCreated? {
        assert FindMatch(matches, created.matchId) == Some(|matches| - 1);
        canceled := CancelMatch(created.matchId);
        WithoutAppended(old(occupancies), Occupancy(pitchId, matchDate));
      } else {
        canceled := CancelFailed(400, "Match does not exist.");
      }
    }
  }
}
