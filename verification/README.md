# FootMatch backend: the competition draw and its neighbours, in Dafny

This project models the controller logic of the FootMatch backend, an
Express/MySQL service for booking football pitches and running small
competitions. The model centres on the **competition draw**
(`generateMatchesAndReserve`). The draw builds the home-and-away fixture
list of the enrolled teams. It walks the competition's calendar days with a
single date cursor. For each fixture it books the first free (pitch,
kickoff slot) among the active pitches and the thirteen half-past kickoff
times. It inserts the match and host rows it books and sets the
competition's draw flag.

Around the draw the model covers:

- the 20-team enrolment cap;
- the numeric check of the remove-team path parameters;
- the draw reset;
- the grouping of joined center/image/pitch rows into center entries;
- team creation defaults and the duplicate-name check;
- the column-by-column partial update of a team;
- the membership add and remove rules;
- the merge of a user's created and played matches;
- creating and cancelling a match with its pitch occupancy.

Tables are fields of a class per controller (`CompetitionStore`,
`TeamStore`, `MatchStore`). Each SQL statement is a read or an update of
those fields. Loops of the source are `while`/`for` loops proved against a
specification function:

- the draw's nested loops (`Scheduler`) are proved equal to `Schedule.Run`,
  a fold of `Schedule.Step` over the fixtures;
- the reduce that groups center rows is proved equal to `Centers.Group`.

The lemmas then say what those functions guarantee.

Modules:

- `Common`: JavaScript values and truthiness, and a digit parser.
- `Schedule`: the draw as a specification on values.
- `Competitions`: the draw as the handler runs it, and the other competition
  handlers.
- `Centers`: the grouping of joined rows.
- `Teams`: the team handlers.
- `Matches`: the match handlers.

Calendar dates are day numbers. Date-times are (day, hour, minute) triples.

Row counts are matched rows. The mysql2 driver connects with the FOUND_ROWS
flag by default, so `affectedRows` counts the rows an update matched. An
update that changes no value still replies 200, and so does
`Teams.TeamStore.UpdateTeam` whenever the id exists.

Four properties of the draw as the code writes it:

- **The date cursor is shared.** It only moves forward, so at most one match
  is booked per calendar day. With three teams over three days, at least one
  active pitch and no earlier bookings, three of the six fixtures are booked
  (`Schedule.ThreeTeamsThreeDays`). The remaining fixtures are dropped with
  a console warning, and the request still succeeds.
- **The same-day check is vacuous.** It compares the reserved match's team A
  with the fixture's team A, and team B with team B. It never fires, because
  every reserved match lies on a day before the cursor
  (`Schedule.SameDayCheckIsVacuous`). No team plays twice on one day all the
  same, since no two booked matches share a day (`Schedule.DrawGuarantees`).
- **The draw runs without a transaction.**
- **The draw and the match handlers use different booking tables.** The draw
  reads and writes `host`. Creating and cancelling a match use
  `pitch_occupancies`. The model keeps them apart.

## Model

| member | source | states |
|---|---|---|
| Common.Without | src/controllers/teams.js:177-184 | a delete removes every copy of the row and keeps every other row as often as it occurred; it removes no row iff that row is absent |
| Common.WithoutAppend | src/controllers/teams.js:177-184 | the delete goes row by row: on a table split in two it is the delete on each part, so the kept rows stay in table order |
| Schedule.CatalogIsHalfPast | src/controllers/competitions.js:3-17 | slot k of the catalog is the label of (8 + k):30 |
| Schedule.ClockRoundTrip | src/controllers/competitions.js:338-343 | parsing a half-past label gives back its 24-hour hour (PM adds 12 except at 12) and minute 30 |
| Schedule.SlotClock | src/controllers/competitions.js:337-343 | every catalog label is well formed and parses to hour 8 + k, minute 30 |
| Schedule.SlotTimeFromLabel | src/controllers/competitions.js:345-346 | the date-time built from slot k's parsed label is `SlotTime(day, k)` |
| Schedule.CalendarDaysSpec | src/controllers/competitions.js:284-290 | the candidate days are exactly start..end, strictly increasing, and none when start > end |
| Schedule.FixtureCount | src/controllers/competitions.js:306-311 | n teams give n * (n - 1) fixtures |
| Schedule.FixturesAreOrderedPairs | src/controllers/competitions.js:306-311 | a fixture is listed iff it pairs two different enrolment positions, home and away |
| Schedule.FirstSlot | src/controllers/competitions.js:337-385 | the result is the first slot free on the pitch that day; None means all thirteen are booked |
| Schedule.FirstFreeFrom | src/controllers/competitions.js:334-387 | the first free (pitch, slot) in pitch order then slot order; every earlier pitch is full; None means all pitches are full |
| Schedule.SameDayCheckIsVacuous | src/controllers/competitions.js:324-331 | under the draw invariant the same-day check never fires |
| Schedule.StepFirstFit | src/controllers/competitions.js:313-396 | under the draw invariant a fixture stays unscheduled iff no day from the cursor on has a free (pitch, slot) |
| Schedule.StepLandsOnFirstFreeDay | src/controllers/competitions.js:317-389 | a fixture is booked on the first day from the cursor that has a free (pitch, slot), at that day's first free (pitch, slot), and the cursor stops just after that day |
| Schedule.StepKeepsInv | src/controllers/competitions.js:313-396 | placing one fixture keeps the draw invariant (rows linked, ids consecutive, bookings fresh, days increasing) |
| Schedule.RunKeepsInv | src/controllers/competitions.js:306-399 | placing all fixtures keeps the draw invariant |
| Schedule.StepOutcome | src/controllers/competitions.js:313-396 | a fixture either books exactly one match, one booking and one row of each kind for its own teams, or books nothing and exhausts the days |
| Schedule.RunReservesFixtures | src/controllers/competitions.js:306-399 | no more matches than fixtures, and every booked match plays one of the fixtures with its home and away team |
| Schedule.DrawGuarantees | src/controllers/competitions.js:303-410 | no more matches than days or fixtures; match days strictly increasing and within the window; ids consecutive from the first; new bookings free when made; inserted rows describe the reserved matches |
| Schedule.DrawIdsFresh | src/controllers/competitions.js:363-379 | every inserted match id lies between the first id and the next free id |
| Schedule.DrawKeepsNoDuplicates | src/controllers/competitions.js:355-383 | a booking list without duplicates stays without duplicates |
| Schedule.StepBooksNextDay | src/controllers/competitions.js:317-389 | with an active pitch and a window free of earlier bookings, each fixture is booked on the cursor's day |
| Schedule.RunCapacity | src/controllers/competitions.js:303-399 | under the same conditions a draw books exactly min(fixtures, days) matches |
| Schedule.ThreeTeamsThreeDays | src/controllers/competitions.js:303-319 | three teams over three days, with at least one active pitch and no earlier bookings: six fixtures attempted, three booked |
| Schedule.FourTeamsOneDay | src/controllers/competitions.js:303-319 | four teams over one day, with at least one active pitch and no earlier bookings: twelve fixtures attempted, one booked |
| Competitions.Scheduler.constructor | src/controllers/competitions.js:298-303 | the draw starts from the given bookings with the date cursor at 0, ids from the next auto-increment value, nothing reserved or inserted |
| Competitions.Scheduler.TrySlots | src/controllers/competitions.js:337-386 | the slot loop books the first free slot of the pitch that day (`FirstSlot`), or changes nothing |
| Competitions.Scheduler.TryPitches | src/controllers/competitions.js:334-387 | the pitch loop books at the first free (pitch, slot) of the day (`FirstFreeFrom`), or changes nothing |
| Competitions.Scheduler.PlaceFixture | src/controllers/competitions.js:313-396 | the date loop for one fixture leaves the state `Step` prescribes |
| Competitions.Scheduler.PlaceLegs | src/controllers/competitions.js:308-397 | placing a pair's home and away legs is `Run` over them |
| Competitions.Scheduler.PlaceRow | src/controllers/competitions.js:307-398 | the inner pair loop for team i is `Run` over its row of fixtures |
| Competitions.Scheduler.PlaceAll | src/controllers/competitions.js:306-399 | the whole nested loop is `Run` over `Fixtures(teamIds)` |
| Competitions.BuildDates | src/controllers/competitions.js:284-290 | the day loop yields start, start + 1, ..., end (`CalendarDays`) |
| Competitions.TeamsOfMembers | src/controllers/competitions.js:267-272 | a team is listed for a competition iff it is enrolled in it |
| Competitions.TeamsOfWithout | src/controllers/competitions.js:217-220 | after the enrolment delete, the competition's team list (the draw's input) is the old list without that team, other teams in enrolment order; other competitions' lists are untouched |
| Competitions.ActivePitchIds | src/controllers/competitions.js:293-296 | exactly the ids of active pitches |
| Competitions.BookingsOn | src/controllers/competitions.js:298-301 | exactly the host bookings on the given pitches |
| Competitions.Unrelated | src/controllers/competitions.js:441-446 | exactly the matches neither of whose teams is enrolled |
| Competitions.ToNumberReadsDecimal | src/controllers/competitions.js:206-209 | every decimal id is accepted and read back; a parameter with a non-digit is rejected |
| Competitions.CompetitionStore.GenerateMatchesAndReserve | src/controllers/competitions.js:242-419 | 404 / 400 drawn / 400 too few teams with nothing written; otherwise the rows of `Run` are inserted (one match and one host row per returned id), the draw flag set, and the new ids returned in scheduling order |
| Competitions.CompetitionStore.DrawTwice | src/controllers/competitions.js:258-264 | a second draw request is always refused and adds nothing: after a successful first the two requests insert exactly one match and one host row per returned id, after a refused first nothing is written at all |
| Competitions.CompetitionStore.AddTeamToCompetition | src/controllers/competitions.js:167-187 | 400 at 20 or more teams with nothing written, else the enrolment is inserted; no competition is pushed past 20 |
| Competitions.CompetitionStore.RemoveTeamFromCompetition | src/controllers/competitions.js:203-228 | 400 for a non-numeric parameter; 404 when not enrolled; else `compTeams` becomes `Without(old(compTeams), e)`: every row of that enrolment is deleted and the other rows stay, in order, and the other tables are unchanged |
| Competitions.CompetitionStore.DeleteCompetitionMatches | src/controllers/competitions.js:430-457 | 404 for an unknown competition; else every match of an enrolled team is deleted, the draw flag cleared, host rows untouched |
| Centers.IndexOf | src/controllers/centers.js:33 | the index of the first entry with the row's center id, or None when there is none |
| Centers.GroupRows | src/controllers/centers.js:32-76 | the reduce yields `Group(rows)`: one entry per center in first-row order; each entry's images and pitches are its center's `RowImages` and `RowPitches`, so their ids are exactly those its rows carry, each once, and each item is built from the first row carrying its id |
| Centers.GroupIds | src/controllers/centers.js:32-53 | the entries' ids are the rows' center ids without repeats, in order of first appearance |
| Centers.GroupBaseIsFirstRow | src/controllers/centers.js:35-53 | each entry spreads the first row of its center |
| Centers.GroupImageLists | src/controllers/centers.js:39-61 | each entry's image list equals `RowImages(rows, id)`, the images of that center's rows in order of first appearance of each id |
| Centers.GroupImages | src/controllers/centers.js:39-61 | an entry's images are exactly those its center's rows carry: same ids, no id twice, each image's uri taken from the first row carrying its id |
| Centers.GroupPitchLists | src/controllers/centers.js:42-72 | each entry's pitch list equals `RowPitches(rows, id)`, the pitches of that center's rows in order of first appearance of each id |
| Centers.GroupPitches | src/controllers/centers.js:42-72 | an entry's pitches are exactly those its center's rows carry: same ids, no id twice, each pitch's type, surface and status taken from the first row carrying its id |
| Centers.RowImagesIds | src/controllers/centers.js:56-61 | a center's collected images carry exactly the image ids of its rows, each once |
| Centers.RowPitchesIds | src/controllers/centers.js:62-72 | a center's collected pitches carry exactly the pitch ids of its rows, each once |
| Centers.RowImagesFirstRows | src/controllers/centers.js:39-61 | every collected image is the one built from the first row of the center carrying its id |
| Centers.RowPitchesFirstRows | src/controllers/centers.js:42-72 | every collected pitch is the one built from the first row of the center carrying its id |
| Centers.RowImageIdsSpec | src/controllers/centers.js:56-61 | an image id belongs to a center iff one of its rows carries it (non-null, non-zero) |
| Centers.RowPitchIdsSpec | src/controllers/centers.js:62-72 | a pitch id belongs to a center iff one of its rows carries it (non-null, non-zero) |
| Teams.TeamStore.CreateTeam | src/controllers/teams.js:17-41 | 409 when the name equals an existing one, else the team is inserted under the next id, with the default logo for a falsy logo and 0 for a falsy custom flag; unique names stay unique |
| Teams.ChosenColumnsSpec | src/controllers/teams.js:63-79 | a column takes part iff its value is truthy (custom flag: is a number), each once, in handler order; none iff nothing to update |
| Teams.BuildUpdate | src/controllers/teams.js:60-79 | the SET list and values are those of the chosen columns, in order; empty iff nothing to update |
| Teams.EmptySetList | src/controllers/teams.js:81-84 | the SET list is empty iff no column is chosen |
| Teams.UpdateQueryMatchesValues | src/controllers/teams.js:86-87 | the statement has one placeholder per chosen column plus one for the id, as many as bound values |
| Teams.ApplyChosenIsUpdated | src/controllers/teams.js:86-89 | executing the SET list with its values sets exactly the chosen columns to the request's values |
| Teams.TeamStore.FindTeam | src/controllers/teams.js:87-91 | the position of the row with the id, or the table size when there is none |
| Teams.TeamStore.UpdateTeam | src/controllers/teams.js:53-97 | 400 when nothing to update, 404 for an unknown id (nothing written), else the row takes the chosen values |
| Teams.TeamStore.AddUserToTeam | src/controllers/teams.js:142-159 | 409 for an existing membership, else it is inserted; no membership is recorded twice |
| Teams.TeamStore.RemoveUserFromTeam | src/controllers/teams.js:177-186 | 404 when absent, else exactly that membership is deleted |
| Teams.TeamStore.AddThenRemove | src/controllers/teams.js:142-186 | adding then removing a user restores the membership table they were absent from |
| Matches.NotAmongSpec | src/controllers/matches.js:50-52 | the filter keeps exactly the participant matches whose id no creator match has |
| Matches.NotAmongAppend | src/controllers/matches.js:50-52 | the filter distributes over concatenation |
| Matches.NotAmongDistinct | src/controllers/matches.js:50-52 | the filter keeps distinct ids distinct |
| Matches.CombinedMatchesSpec | src/controllers/matches.js:48-53 | creator matches first and unchanged, then only participant matches with new ids; every match of either list listed; distinct ids preserved |
| Matches.FindMatch | src/controllers/matches.js:223-229 | the index of a match with the id, or None when there is none |
| Matches.CreateKeepsBooked | src/controllers/matches.js:123-169 | a match on a free pitch and date-time with its occupancy keeps occupancies and matches in agreement |
| Matches.CancelKeepsBooked | src/controllers/matches.js:236-246 | cancelling an active match and deleting its occupancy keeps them in agreement |
| Matches.MatchStore.CreateMatch | src/controllers/matches.js:114-201 | 400 for an unknown user or an occupied pitch (nothing written), else two teams, the match and its occupancy are inserted |
| Matches.MatchStore.CancelMatch | src/controllers/matches.js:222-268 | 400 for an unknown or already cancelled match (nothing written), else it is cancelled and its occupancy deleted |
| Matches.MatchStore.CreateThenCancel | src/controllers/matches.js:159-246 | creating then cancelling a match gives the occupancies back as they were |

## Left out

- Time zones and ISO formatting are left out. `toISOString`, the string forms of dates and the `isNaN` guard on the kickoff date-time (competitions.js:347) are not modelled. Days are integers and date-times are triples; a valid slot label always gives a valid time.
- The draw's `IN (?)` with no active pitches is not modelled. MySQL rejects `IN ()`, which ends the request with the 500 path. In the model, no pitches means no bookings and every fixture is left unscheduled.
- Row order of SQL results is left out. The order of the join that lists a competition's teams is taken as enrolment order. The center join's `ORDER BY c.id, ci.id` is not imposed on `Centers.GroupRows`; its guarantees hold for any row order.
- The draw compares the stored `date_time` of a host row with the formatted kickoff string using `===`. The pool configuration (dist/config.js:14-22) sets no `dateStrings`, so mysql2 returns stored `DATETIME` values as `Date` objects. Such an object is never `===` a string. As configured, the check therefore never sees a booking that existed before the draw, and it catches only bookings the same run pushed as strings. The model compares all bookings as date-times. `Schedule.DrawGuarantees`' "each new booking is free when made" thus holds in the source only for bookings made in the same run.
- Each controller's tables are a separate class here (`CompetitionStore`, `TeamStore`, `MatchStore`), each with its own copy of `matches` and `teams` and its own id counter. In the database these are shared tables. No property spans controllers. Not modelled: cancelling a match made by the draw (which is why a match's pitch may be NULL), the draw reset deleting a friendly match whose team is enrolled, and two stores issuing the same id.
- The draw's team list joins enrolments with `teams`. The model counts every enrolment, as if each enrolled team still had a team row.
- Competitions.ToNumber: `Number()` is modelled only for strings of decimal digits. Its other accepted forms (surrounding whitespace, a sign, decimals, hex, exponent notation) are not, and `Competitions.ToNumber` rejects them.
- Transactions, rollbacks, connection handling and concurrent requests are left out. Each handler runs alone and atomically; this matches the create and cancel handlers, which roll back on error.
- Randomness is left out. The random team names of `createMatch` are parameters of `Matches.MatchStore.CreateMatch`.
- SQL value semantics are simplified. String comparison uses no collation and no type coercion. `SqlEquals` makes a missing or NULL value equal nothing.
- DB column types, foreign keys and cascades are left out. The host rows of matches deleted by the draw reset stay in the table, as written.
- The new match's status is not written by the insert in `createMatch`. It is assumed to be the table default, "scheduled", which is what the reply reports.
- Every 500 error path is left out, and so are the `console.warn` and `console.error` calls.
- Teams.TeamStore.UpdateTeam, Teams.TeamStore.AddUserToTeam and Teams.TeamStore.RemoveUserFromTeam: the route parameters are modelled as integers. Non-numeric parameters are not modelled; MySQL converts such a string to a number when it compares it with an integer column.
- Common.Truthy: request-body numbers are integers here. NaN, the infinities and fractions (an `is_custom_team` of 1.5 is a number to `typeof`) are not modelled.
- The favourites listing (centers.js:116-160) is the same fold as `Centers.GroupRows` over its own rows and is not modelled separately.
- The other handlers of these controllers (plain reads, creating, updating and deleting competitions, deleting teams, getting a match by id) are not modelled. They are single SQL statements with no logic of their own.
