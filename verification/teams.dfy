/** The team controller: creating a team with its defaults and the
    duplicate-name check, the partial update built column by column, and
    the membership table's add and remove rules. */
module Teams {
  import opened Common

  /** A row of the teams table; the columns other than id hold whatever
      JSON value the request carried. */
  datatype Team = Team(id: int, name: JsValue, shortName: JsValue, logoUrl: JsValue, isCustomTeam: JsValue, createdBy: JsValue)

  /** A row of the membership table. */
  datatype Membership = Membership(userId: int, teamId: int)

  datatype Response = Response(status: int, message: string)

  datatype CreateReply = Created(teamId: int) | Rejected(status: int, message: string)

  const DefaultLogo: string := "https://espndeportes.espn.com/i/teamlogos/soccer/500/default-team-logo-500.png?h=100&w=100"

  /** `column = ?` with the value bound: a missing value binds NULL, which
      equals nothing. */
  predicate SqlEquals(column: JsValue, v: JsValue)
  {
    !v.Undefined? && !v.Null? && column == v
  }

  predicate NameTaken(teams: seq<Team>, name: JsValue)
  {
    exists k :: 0 <= k < |teams| && SqlEquals(teams[k].name, name)
  }

  /** No team's name would be reported as taken by another's. */
  predicate UniqueNames(teams: seq<Team>)
  {
    forall i, j :: 0 <= i < |teams| && 0 <= j < |teams| && i != j ==> !SqlEquals(teams[i].name, teams[j].name)
  }

  // ---------------------------------------------------------------
  // The partial update
  // ---------------------------------------------------------------

  /** The body of an update request. */
  datatype TeamFields = TeamFields(name: JsValue, shortName: JsValue, logoUrl: JsValue, isCustomTeam: JsValue)

  /** The updatable columns, in the order the update considers them. */
  datatype Column = NameColumn | ShortNameColumn | LogoUrlColumn | IsCustomTeamColumn

  function Rank(c: Column): nat
  {
    match c
    case NameColumn => 0
    case ShortNameColumn => 1
    case LogoUrlColumn => 2
    case IsCustomTeamColumn => 3
  }

  function Assignment(c: Column): string
  {
    match c
    case NameColumn => "name = ?"
    case ShortNameColumn => "short_name = ?"
    case LogoUrlColumn => "logo_url = ?"
    case IsCustomTeamColumn => "is_custom_team = ?"
  }

  function ValueFor(c: Column, body: TeamFields): JsValue
  {
    match c
    case NameColumn => body.name
    case ShortNameColumn => body.shortName
    case LogoUrlColumn => body.logoUrl
    case IsCustomTeamColumn => body.isCustomTeam
  }

  /** A column takes part when its value is truthy; the custom-team flag
      when it is a number, zero included. */
  predicate Chosen(c: Column, body: TeamFields)
  {
    if c == IsCustomTeamColumn then body.isCustomTeam.Num? else Truthy(ValueFor(c, body))
  }

  /** The four columns in the order the handler checks them. */
  const AllColumns: seq<Column> := [NameColumn, ShortNameColumn, LogoUrlColumn, IsCustomTeamColumn]

  /** The chosen columns among cols, in order. */
  function ChooseFrom(cols: seq<Column>, body: TeamFields): seq<Column>
  {
    if cols == [] then []
    else ChooseFrom(cols[..|cols| - 1], body) + (if Chosen(cols[|cols| - 1], body) then [cols[|cols| - 1]] else [])
  }

  /** The columns that take part, in the fixed order. */
  function ChosenColumns(body: TeamFields): seq<Column>
  {
    ChooseFrom(AllColumns, body)
  }

  /** No column takes part. */
  predicate NothingToUpdate(body: TeamFields)
  {
    !Truthy(body.name) && !Truthy(body.shortName) && !Truthy(body.logoUrl) && !body.isCustomTeam.Num?
  }

  function Assignments(cols: seq<Column>): (fields: seq<string>)
    ensures |fields| == |cols|
    ensures forall k :: 0 <= k < |cols| ==> fields[k] == Assignment(cols[k])
  {
    if cols == [] then [] else Assignments(cols[..|cols| - 1]) + [Assignment(cols[|cols| - 1])]
  }

  function Values(cols: seq<Column>, body: TeamFields): (values: seq<JsValue>)
    ensures |values| == |cols|
    ensures forall k :: 0 <= k < |cols| ==> values[k] == ValueFor(cols[k], body)
  {
    if cols == [] then [] else Values(cols[..|cols| - 1], body) + [ValueFor(cols[|cols| - 1], body)]
  }

  lemma {:induction false} ChooseFromMembers(cols: seq<Column>, body: TeamFields, c: Column)
    ensures c in ChooseFrom(cols, body) <==> c in cols && Chosen(c, body)
  {
    if cols != [] {
      ChooseFromMembers(cols[..|cols| - 1], body, c);
      assert cols == cols[..|cols| - 1] + [cols[|cols| - 1]];
    }
  }

  lemma {:induction false} ChooseFromOrder(cols: seq<Column>, body: TeamFields)
    requires forall i, j :: 0 <= i < j < |cols| ==> Rank(cols[i]) < Rank(cols[j])
    ensures forall i, j :: 0 <= i < j < |ChooseFrom(cols, body)| ==>
      Rank(ChooseFrom(cols, body)[i]) < Rank(ChooseFrom(cols, body)[j])
  {
    if cols != [] {
      var prefix := cols[..|cols| - 1];
      ChooseFromOrder(prefix, body);
      var last := cols[|cols| - 1];
      forall c | c in ChooseFrom(prefix, body)
        ensures Rank(c) < Rank(last)
      {
        ChooseFromMembers(prefix, body, c);
      }
    }
  }

  /** The set clause names exactly the chosen columns, each once, in the
      fixed order, and is empty exactly when nothing is to be updated. */
  lemma ChosenColumnsSpec(body: TeamFields)
    ensures forall c :: c in ChosenColumns(body) <==> Chosen(c, body)
    ensures forall i, j :: 0 <= i < j < |ChosenColumns(body)| ==>
      Rank(ChosenColumns(body)[i]) < Rank(ChosenColumns(body)[j])
    ensures ChosenColumns(body) == [] <==> NothingToUpdate(body)
  {
    forall c
      ensures c in ChosenColumns(body) <==> Chosen(c, body)
    {
      ChooseFromMembers(AllColumns, body, c);
    }
    ChooseFromOrder(AllColumns, body);
    if ChosenColumns(body) == [] {
      assert !Chosen(NameColumn, body) && !Chosen(ShortNameColumn, body) && !Chosen(LogoUrlColumn, body);
    } else {
      var c := ChosenColumns(body)[0];
      assert Chosen(c, body);
    }
  }

  lemma PushColumn(cols: seq<Column>, c: Column, body: TeamFields)
    ensures Assignments(cols + [c]) == Assignments(cols) + [Assignment(c)]
    ensures Values(cols + [c], body) == Values(cols, body) + [ValueFor(c, body)]
  {
    assert (cols + [c])[..|cols|] == cols;
  }

  lemma AllColumnsInOrder()
    ensures [] + [NameColumn] + [ShortNameColumn] + [LogoUrlColumn] + [IsCustomTeamColumn] == AllColumns
  {
  }

  lemma ChooseStep(cols: seq<Column>, c: Column, body: TeamFields)
    ensures ChooseFrom(cols + [c], body) == ChooseFrom(cols, body) + (if Chosen(c, body) then [c] else [])
  {
    assert (cols + [c])[..|cols|] == cols;
  }

  /** The SET list is empty exactly when nothing is to be updated. */
  lemma EmptySetList(body: TeamFields)
    ensures Assignments(ChosenColumns(body)) == [] <==> NothingToUpdate(body)
  {
    ChosenColumnsSpec(body);
  }

  /** The SET list and the values built after looking at the columns of
      `seen`, in that order. */
  predicate Built(fields: seq<string>, values: seq<JsValue>, seen: seq<Column>, body: TeamFields)
  {
    fields == Assignments(ChooseFrom(seen, body)) && values == Values(ChooseFrom(seen, body), body)
  }

  /** Looking at one more column pushes its assignment and value when it is
      chosen and nothing otherwise. */
  lemma BuiltStep(fields: seq<string>, values: seq<JsValue>, seen: seq<Column>, c: Column, body: TeamFields)
    requires Built(fields, values, seen, body)
    ensures Chosen(c, body) ==> Built(fields + [Assignment(c)], values + [ValueFor(c, body)], seen + [c], body)
    ensures !Chosen(c, body) ==> Built(fields, values, seen + [c], body)
  {
    ChooseStep(seen, c, body);
    PushColumn(ChooseFrom(seen, body), c, body);
  }

  /** The SET list and its bound values as the handler builds them, one
      push per chosen column. */
  method BuildUpdate(body: TeamFields) returns (fields: seq<string>, values: seq<JsValue>)
    ensures fields == Assignments(ChosenColumns(body))
    ensures values == Values(ChosenColumns(body), body)
    ensures fields == [] <==> NothingToUpdate(body)
  {
    fields := [];
    values := [];
    ghost var seen: seq<Column> := [];
    BuiltStep(fields, values, seen, NameColumn, body);
    seen := seen + [NameColumn];
    if Truthy(body.name) {
      fields := fields + ["name = ?"];
      values := values + [body.name];
    }
    BuiltStep(fields, values, seen, ShortNameColumn, body);
    seen := seen + [ShortNameColumn];
    if Truthy(body.shortName) {
      fields := fields + ["short_name = ?"];
      values := values + [body.shortName];
    }
    BuiltStep(fields, values, seen, LogoUrlColumn, body);
    seen := seen + [LogoUrlColumn];
    if Truthy(body.logoUrl) {
      fields := fields + ["logo_url = ?"];
      values := values + [body.logoUrl];
    }
    BuiltStep(fields, values, seen, IsCustomTeamColumn, body);
    seen := seen + [IsCustomTeamColumn];
    if body.isCustomTeam.Num? {
      fields := fields + ["is_custom_team = ?"];
      values := values + [body.isCustomTeam];
    }
    AllColumnsInOrder();
    EmptySetList(body);
  }

  /** `parts.join(sep)` */
  function Join(parts: seq<string>, sep: string): string
  {
    if |parts| == 0 then ""
    else if |parts| == 1 then parts[0]
    else Join(parts[..|parts| - 1], sep) + sep + parts[|parts| - 1]
  }

  function UpdateQuery(fields: seq<string>): string
  {
    UpdateHead + Join(fields, FieldSeparator) + UpdateTail
  }

  /** The number of `?` placeholders in a statement. */
  function Placeholders(s: string): nat
  {
    if s == [] then 0 else Placeholders(s[..|s| - 1]) + (if s[|s| - 1] == '?' then 1 else 0)
  }

  lemma {:induction false} PlaceholdersAppend(a: string, b: string)
    ensures Placeholders(a + b) == Placeholders(a) + Placeholders(b)
    decreases |b|
  {
    if b == [] {
      assert a + b == a;
    } else {
      assert (a + b)[..|a + b| - 1] == a + b[..|b| - 1];
      PlaceholdersAppend(a, b[..|b| - 1]);
    }
  }

  /** Placeholders of a string without any `?`. */
  lemma {:induction false} NoPlaceholders(s: string)
    requires forall k :: 0 <= k < |s| ==> s[k] != '?'
    ensures Placeholders(s) == 0
  {
    if s != [] {
      NoPlaceholders(s[..|s| - 1]);
    }
  }

  /** A string whose only `?` is its last character. */
  lemma {:induction false} OnePlaceholderAtEnd(s: string)
    requires s != [] && s[|s| - 1] == '?'
    requires forall k :: 0 <= k < |s| - 1 ==> s[k] != '?'
    ensures Placeholders(s) == 1
  {
    NoPlaceholders(s[..|s| - 1]);
  }

  lemma AssignmentHasOnePlaceholder(c: Column)
    ensures Placeholders(Assignment(c)) == 1
  {
    OnePlaceholderAtEnd(Assignment(c));
  }

  lemma {:induction false} JoinPlaceholders(parts: seq<string>, sep: string)
    requires Placeholders(sep) == 0
    requires forall k :: 0 <= k < |parts| ==> Placeholders(parts[k]) == 1
    ensures Placeholders(Join(parts, sep)) == |parts|
    decreases |parts|
  {
    if |parts| > 1 {
      var prefix := parts[..|parts| - 1];
      JoinPlaceholders(prefix, sep);
      PlaceholdersAppend(Join(prefix, sep), sep);
      PlaceholdersAppend(Join(prefix, sep) + sep, parts[|parts| - 1]);
    }
  }

  const UpdateHead: string := "UPDATE teams SET "
  const UpdateTail: string := " WHERE id = ?"
  const FieldSeparator: string := ", "

  lemma HeadPlaceholders()
    ensures Placeholders(UpdateHead) == 0
  {
    var h := UpdateHead;
    assert forall k :: 0 <= k < |h| ==> h[k] != '?';
    NoPlaceholders(h);
  }

  lemma SeparatorPlaceholders()
    ensures Placeholders(FieldSeparator) == 0
  {
    NoPlaceholders(FieldSeparator);
  }

  lemma TailPlaceholders()
    ensures Placeholders(UpdateTail) == 1
  {
    OnePlaceholderAtEnd(UpdateTail);
  }

  /** The statement the update runs has one placeholder per bound value:
      one per chosen column, and the id last. */
  lemma UpdateQueryMatchesValues(cols: seq<Column>)
    ensures Placeholders(UpdateQuery(Assignments(cols))) == |cols| + 1
  {
    var fields := Assignments(cols);
    forall k | 0 <= k < |fields|
      ensures Placeholders(fields[k]) == 1
    {
      AssignmentHasOnePlaceholder(cols[k]);
    }
    HeadPlaceholders();
    SeparatorPlaceholders();
    TailPlaceholders();
    JoinPlaceholders(fields, FieldSeparator);
    PlaceholdersAppend(UpdateHead, Join(fields, FieldSeparator));
    PlaceholdersAppend(UpdateHead + Join(fields, FieldSeparator), UpdateTail);
  }

  /** Setting one column of a row. */
  function SetColumn(t: Team, c: Column, v: JsValue): Team
  {
    match c
    case NameColumn => t.(name := v)
    case ShortNameColumn => t.(shortName := v)
    case LogoUrlColumn => t.(logoUrl := v)
    case IsCustomTeamColumn => t.(isCustomTeam := v)
  }

  /** The assignments applied left to right. */
  function ApplyAll(t: Team, cols: seq<Column>, vals: seq<JsValue>): Team
    requires |cols| == |vals|
  {
    if cols == [] then t else SetColumn(ApplyAll(t, cols[..|cols| - 1], vals[..|vals| - 1]), cols[|cols| - 1], vals[|vals| - 1])
  }

  /** What the update means for the row: every chosen column takes the
      request's value, every other column keeps its own. */
  function Updated(t: Team, body: TeamFields): (u: Team)
    ensures u.id == t.id && u.createdBy == t.createdBy
  {
    Team(t.id,
      if Chosen(NameColumn, body) then body.name else t.name,
      if Chosen(ShortNameColumn, body) then body.shortName else t.shortName,
      if Chosen(LogoUrlColumn, body) then body.logoUrl else t.logoUrl,
      if Chosen(IsCustomTeamColumn, body) then body.isCustomTeam else t.isCustomTeam,
      t.createdBy)
  }

  /** The row with every column named in cols set to the request's value
      for it and every other column kept. */
  function Overlay(t: Team, body: TeamFields, cols: seq<Column>): Team
  {
    Team(t.id,
      if NameColumn in cols then body.name else t.name,
      if ShortNameColumn in cols then body.shortName else t.shortName,
      if LogoUrlColumn in cols then body.logoUrl else t.logoUrl,
      if IsCustomTeamColumn in cols then body.isCustomTeam else t.isCustomTeam,
      t.createdBy)
  }

  lemma OverlayStep(t: Team, body: TeamFields, cols: seq<Column>, c: Column)
    ensures Overlay(t, body, cols + [c]) == SetColumn(Overlay(t, body, cols), c, ValueFor(c, body))
  {
    var ext := cols + [c];
    assert forall d :: d in ext <==> d in cols || d == c;
  }

  /** Running the SET list the handler built is the intended update. */
  lemma ApplyChosenIsUpdated(t: Team, body: TeamFields)
    ensures ApplyAll(t, ChosenColumns(body), Values(ChosenColumns(body), body)) == Updated(t, body)
  {
    ApplyValues(t, body, ChosenColumns(body));
    ChosenColumnsSpec(body);
  }

  /** Applying columns one by one, each with the request's value for it:
      a column named anywhere in the list ends with that value, any other
      keeps its own. */
  lemma {:induction false} ApplyValues(t: Team, body: TeamFields, cols: seq<Column>)
    ensures ApplyAll(t, cols, Values(cols, body)) == Overlay(t, body, cols)
    decreases |cols|
  {
    if cols != [] {
      var prefix := cols[..|cols| - 1];
      var last := cols[|cols| - 1];
      var vals := Values(cols, body);
      assert vals[..|vals| - 1] == Values(prefix, body);
      ApplyValues(t, body, prefix);
      assert cols == prefix + [last];
      OverlayStep(t, body, prefix, last);
    }
  }

  // ---------------------------------------------------------------
  // The team tables
  // ---------------------------------------------------------------

  class TeamStore {
    var teams: seq<Team>
    var nextTeamId: int
    var belongTeam: seq<Membership>

    /** Team ids come from the auto-increment counter, each once; no
        membership is recorded twice. */
    ghost predicate Valid()
      reads this
    {
      && (forall k :: 0 <= k < |teams| ==> teams[k].id < nextTeamId)
      && (forall i, j :: 0 <= i < j < |teams| ==> teams[i].id != teams[j].id)
      && NoDuplicates(belongTeam)
    }

    /** Empty tables; the auto-increment counter starts at 1. */
    constructor ()
      ensures Valid()
      ensures teams == [] && belongTeam == [] && nextTeamId == 1
    {
      teams := [];
      nextTeamId := 1;
      belongTeam := [];
    }

    /** 409 when the name is already in use; otherwise insert the team with
        the default logo for a falsy logo and 0 for a falsy custom flag. */
    method CreateTeam(name: JsValue, shortName: JsValue, logoUrl: JsValue, isCustomTeam: JsValue, createdBy: JsValue)
      returns (resp: CreateReply)
      requires Valid()
      modifies this
      ensures Valid()
      ensures NameTaken(old(teams), name) ==> resp == Rejected(409, "Team name already in use.") && unchanged(this)
      ensures !NameTaken(old(teams), name) ==>
        && resp == Created(old(nextTeamId))
        && teams == old(teams) + [Team(old(nextTeamId), name, shortName,
                                       if Truthy(logoUrl) then logoUrl else Str(DefaultLogo),
                                       if Truthy(isCustomTeam) then isCustomTeam else Num(0),
                                       createdBy)]
        && nextTeamId == old(nextTeamId) + 1 && belongTeam == old(belongTeam)
      ensures UniqueNames(old(teams)) ==> UniqueNames(teams)
    {
      var existingTeam := exists k | 0 <= k < |teams| :: SqlEquals(teams[k].name, name);
      if existingTeam {
        return Rejected(409, "Team name already in use.");
      }
      var id := nextTeamId;
      nextTeamId := nextTeamId + 1;
      teams := teams + [Team(id, name, shortName, Or(logoUrl, Str(DefaultLogo)), Or(isCustomTeam, Num(0)), createdBy)];
      resp := Created(id);
    }

    /** 400 when the body names no updatable column, before any query;
        404 when no team has the id; otherwise the chosen columns change. */
    method UpdateTeam(id: int, body: TeamFields) returns (resp: Response)
      requires Valid()
      modifies this
      ensures Valid()
      ensures NothingToUpdate(body) ==> resp == Response(400, "No fields to update.") && unchanged(this)
      ensures !NothingToUpdate(body) && (forall k :: 0 <= k < |old(teams)| ==> old(teams)[k].id != id) ==>
        resp == Response(404, "Team not found or no changes made.") && unchanged(this)
      ensures !NothingToUpdate(body) && (exists k :: 0 <= k < |old(teams)| && old(teams)[k].id == id) ==>
        && resp == Response(200, "Team updated successfully")
        && |teams| == |old(teams)|
        && (forall k :: 0 <= k < |teams| ==>
              teams[k] == if old(teams)[k].id == id then Updated(old(teams)[k], body) else old(teams)[k])
        && nextTeamId == old(nextTeamId) && belongTeam == old(belongTeam)
    {
      var fields, values := BuildUpdate(body);
      if |fields| == 0 {
        return Response(400, "No fields to update.");
      }
      values := values + [Num(id)];
      var query := UpdateQuery(fields);
      var k := FindTeam(id);
      if k == |teams| {
        return Response(404, "Team not found or no changes made.");
      }
      teams := teams[k := Updated(teams[k], body)];
      resp := Response(200, "Team updated successfully");
    }

    /** The position of the row `WHERE id = ?` selects, or the number of
        rows when there is none. */
    method FindTeam(id: int) returns (k: nat)
      ensures k <= |teams|
      ensures k < |teams| ==> teams[k].id == id
      ensures forall j :: 0 <= j < k ==> teams[j].id != id
    {
      k := 0;
      while k < |teams| && teams[k].id != id
        invariant k <= |teams|
        invariant forall j :: 0 <= j < k ==> teams[j].id != id
      {
        k := k + 1;
      }
    }

    /** 409 when the user already belongs to the team; otherwise record
        the membership. */
    method AddUserToTeam(teamId: int, userId: int) returns (resp: Response)
      requires Valid()
      modifies this
      ensures Valid()
      ensures Membership(userId, teamId) in old(belongTeam) ==>
        resp == Response(409, "User already belongs to this team.") && unchanged(this)
      ensures Membership(userId, teamId) !in old(belongTeam) ==>
        && resp == Response(200, "User added to team successfully")
        && belongTeam == old(belongTeam) + [Membership(userId, teamId)]
        && teams == old(teams) && nextTeamId == old(nextTeamId)
    {
      var existingRelation := Membership(userId, teamId) in belongTeam;
      if existingRelation {
        return Response(409, "User already belongs to this team.");
      }
      belongTeam := belongTeam + [Membership(userId, teamId)];
      resp := Response(200, "User added to team successfully");
    }

    /** 404 when the user is not in the team; otherwise delete the
        membership. */
    method RemoveUserFromTeam(teamId: int, userId: int) returns (resp: Response)
      requires Valid()
      modifies this
      ensures Valid()
      ensures Membership(userId, teamId) !in old(belongTeam) ==>
        resp == Response(404, "User not found in team.") && unchanged(this)
      ensures Membership(userId, teamId) in old(belongTeam) ==>
        && resp == Response(200, "User removed from team successfully")
        && belongTeam == Without(old(belongTeam), Membership(userId, teamId))
        && (forall m :: m in belongTeam <==> m in old(belongTeam) && m != Membership(userId, teamId))
        && teams == old(teams) && nextTeamId == old(nextTeamId)
    {
      var remaining := Without(belongTeam, Membership(userId, teamId));
      if |remaining| == |belongTeam| {
        return Response(404, "User not found in team.");
      }
      NoDuplicatesWithout(belongTeam, Membership(userId, teamId));
      belongTeam := remaining;
      resp := Response(200, "User removed from team successfully");
    }

    /** Adding a user and then removing them leaves the membership table as
        it was when they were not a member, and without them in any case. */
    method AddThenRemove(teamId: int, userId: int) returns (added: Response, removed: Response)
      requires Valid()
      modifies this
      ensures Valid()
      ensures removed == Response(200, "User removed from team successfully")
      ensures Membership(userId, teamId) !in belongTeam
      ensures Membership(userId, teamId) !in old(belongTeam) ==> belongTeam == old(belongTeam)
    {
      added := AddUserToTeam(teamId, userId);
      removed := RemoveUserFromTeam(teamId, userId);
      if Membership(userId, teamId) !in old(belongTeam) {
        WithoutAppended(old(belongTeam), Membership(userId, teamId));
      }
    }
  }
}
