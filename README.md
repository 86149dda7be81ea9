# Book club and guild roster, modelled in Dafny

This project models three pieces of one repository:

- **The book-club server.** Members propose books into reading rounds and vote on them, by ranked choice (3/2/1 points) or by approval. Organizers close a round, which recomputes the scores and records the winner. Members schedule meetings and answer yes/maybe/no. Organizers broadcast notifications and export the whole database or a delta. Members register with an invite code, sign in, and edit their profile.
- **The client's ballot editor.** These are the `VotingPanel` helpers of the round page, which build the ballot the server receives.
- **The guild roster spreadsheet script.** It records availability and characters posted by a form, and offers maintenance functions: remove a player or a character, clean up duplicates, choose a main, and summarise the roster.

Each server handler is modelled twice:

- A **step function** `XStep(s, …)` gives the handler's answer and the tables afterwards, as a function of the tables before.
- A **method** `X(db, …)` performs the handler's queries on the class `Tables.Db` one statement at a time. Its contract ties the result and the new tables to the step function: `Step(r, db.Snapshot()) == XStep(old(db.Snapshot()), …)`.

The lemmas state the properties of the step functions: what a request changes and what it leaves alone, its refusals and their order, round trips between handlers, and the invariants of the tables.

The database holds one sequence per table, in insertion order. A `SELECT … WHERE` answers with the first matching row, and an `ORDER BY` is a stable sort. The `SERIAL` ids come from one counter, `nextId`.

Things the program takes from libraries or the environment are parameters of the model:

- the clock (`now`);
- the ISO 8601 parser (`iso`);
- the validator's e-mail and URL checks (`isEmail`, `isUrl`);
- e-mail normalisation (`normalize`);
- bcrypt (`hash`, `matches`);
- the date formatting of notification text (`local`);
- JavaScript's full Unicode `toLowerCase()` and `toUpperCase()` (`lower`, `upper`, of type `Text.CaseMap`).

The roster spreadsheet is the class `Roster.Spreadsheet`. Its two sheets are sequence fields without the header row, so data row `k` is sheet row `k + 2`. Each script function is a method that updates them as the script does: bottom-up deleting loops, in-place overwrites and appends.

All source paths below are under `packages/book-club/` unless they start with `google-apps-script.js`.

## Model

| member | source | states |
|---|---|---|
| Api.StatusCode | packages/book-club/server/src/routes/proposals.js:66-93 | the status table every route shares, shown here on the delete route (404, 400, 403, 500): 404 exactly for a missing round, proposal or meeting; 403 exactly for the admin guard and the ownership checks; 401 exactly for bad credentials; 500 exactly for a caught exception; 400 for every other refusal |
| Api.RequireAdmin | packages/book-club/server/src/middleware/auth.js:28-33 | the admin guard lets a caller through exactly when their role is admin |
| Query.Filter | packages/book-club/server/src/routes/export.js:94-128 | a `WHERE` answers only rows that pass, and every row that passes |
| Query.FilterMembers | packages/book-club/server/src/routes/export.js:94-128 | a row is in the filtered table exactly when it is in the table and passes |
| Query.CountFiltered | google-apps-script.js:277-287 | counting the rows of a filtered list that pass a second test is counting the rows that pass both |
| Query.SortBy | packages/book-club/server/src/routes/meetings.js:31 | an `ORDER BY` answers the same rows, sorted on the key |
| Query.RemoveAt | google-apps-script.js:332 | `deleteRow` removes that one row and shifts the rows below it up by one |
| Text.Trim | packages/book-club/server/src/routes/proposals.js:11-14 | `trim()` leaves no white space at either end and never lengthens the string |
| Text.TrimStart | packages/book-club/server/src/routes/proposals.js:11 | the leading white space is dropped, and nothing more |
| Text.TrimEnd | packages/book-club/server/src/routes/proposals.js:11 | the trailing white space is dropped, and nothing more |
| Text.TrimIdempotent | packages/book-club/server/src/routes/proposals.js:36-41 | trimming again the value the validator already trimmed changes nothing, so the handler's second `.trim()` is harmless |
| Text.NullIfBlank | packages/book-club/server/src/routes/proposals.js:36-41 | `x?.trim() \|\| null` is null exactly when the field is absent or blank |
| Text.NullIfBlankIdempotent | packages/book-club/server/src/routes/proposals.js:36-41 | nulling a blank value twice, or after the validator's sanitising, gives the same value |
| Tables.PublicOmitsOnlyHash | packages/book-club/server/src/routes/export.js:12 | the user projection drops the password hash and nothing else |
| Tables.FirstIndex | packages/book-club/server/src/routes/auth.js:34-37 | a `WHERE … LIMIT 1` lookup finds the first passing row, or none exactly when no row passes |
| Tables.RoundIndex | packages/book-club/server/src/routes/proposals.js:25-27 | `SELECT … FROM rounds WHERE id = $1` finds a round with that id, or none exactly when there is none |
| Tables.ProposalIndex | packages/book-club/server/src/routes/proposals.js:66-72 | the proposal lookup finds a proposal with that id, or none exactly when there is none |
| Tables.MeetingIndex | packages/book-club/server/src/routes/meetings.js:123-126 | the meeting lookup finds a meeting with that id, or none exactly when there is none |
| Tables.UserIndex | packages/book-club/server/src/routes/auth.js:170-175 | the member row with that id, or none exactly when there is none |
| Tables.ValidWithLargerCounter | packages/book-club/server/src/routes/rounds.js:49-54 | drawing ids from the counter keeps every key unique |
| Tables.AppendedProposalFound | packages/book-club/server/src/routes/proposals.js:36-41 | a row inserted under a fresh id is the one later looked up under it |
| Tables.UserIdCount | packages/book-club/server/src/routes/notifications.js:56-64 | with distinct user ids, a member is listed once or not at all |
| Tables.WithoutProposalRemovesRow | packages/book-club/server/src/routes/proposals.js:88 | `DELETE FROM proposals WHERE id` removes exactly the row at that id's index |
| Tables.WithoutMeetingRemovesRow | packages/book-club/server/src/routes/meetings.js:185 | `DELETE FROM meetings WHERE id` removes exactly the row at that id's index |
| Tables.ValidAfterNewRound | packages/book-club/server/src/routes/rounds.js:49-54 | inserting under the next id keeps every primary and composite key unique |
| Tables.ValidAfterNewProposal | packages/book-club/server/src/routes/proposals.js:36-41 | inserting a proposal under the next id keeps every key unique |
| Tables.ValidAfterNewMeeting | packages/book-club/server/src/routes/meetings.js:65-70 | inserting a meeting under the next id keeps every key unique |
| Tables.ValidAfterNewUser | packages/book-club/server/src/routes/auth.js:65-70 | inserting a member under the next id keeps every key unique |
| Tables.ValidAfterRoundUpdate | packages/book-club/server/src/routes/rounds.js:122-130 | rewriting one round row in place, keeping its id, keeps every key unique |
| Tables.ValidAfterMeetingUpdate | packages/book-club/server/src/routes/meetings.js:131-134 | rewriting one meeting row in place keeps every key unique |
| Tables.ValidAfterUserUpdate | packages/book-club/server/src/routes/auth.js:170-175 | rewriting one member row in place keeps every key unique |
| Tables.ValidAfterProposalDelete | packages/book-club/server/src/routes/proposals.js:88 | deleting a proposal keeps every key of every table unique |
| Tables.ValidAfterMeetingDelete | packages/book-club/server/src/routes/meetings.js:185 | deleting a meeting keeps every key of every table unique |
| Tables.Db.InsertRound | packages/book-club/server/src/routes/rounds.js:49-54 | the INSERT appends the row under the next id and moves the counter; nothing else changes |
| Tables.Db.UpdateRound | packages/book-club/server/src/routes/rounds.js:122-130 | the UPDATE replaces that one round row, keeping its id; nothing else changes |
| Tables.Db.InsertProposal | packages/book-club/server/src/routes/proposals.js:36-41 | the INSERT appends the proposal under the next id; nothing else changes |
| Tables.Db.DeleteProposal | packages/book-club/server/src/routes/proposals.js:88 | the DELETE removes the proposal with that id; nothing else changes |
| Tables.Db.InsertMeeting | packages/book-club/server/src/routes/meetings.js:65-70 | the INSERT appends the meeting under the next id; nothing else changes |
| Tables.Db.UpdateMeeting | packages/book-club/server/src/routes/meetings.js:131-134 | the UPDATE replaces that one meeting row, keeping its id |
| Tables.Db.DeleteMeeting | packages/book-club/server/src/routes/meetings.js:185 | the DELETE removes the meeting with that id; nothing else changes |
| Tables.Db.SetAvailability | packages/book-club/server/src/routes/meetings.js:103-109 | the upsert leaves the availability table with its (meeting, user) key unique and draws one id |
| Tables.Db.InsertUser | packages/book-club/server/src/routes/auth.js:65-70 | the INSERT appends the member under the next id; nothing else changes |
| Tables.Db.UpdateUser | packages/book-club/server/src/routes/auth.js:170-175 | the UPDATE replaces the caller's row, keeping its id |
| Tables.Db.UpdateInviteCode | packages/book-club/server/src/routes/auth.js:72-78 | the UPDATE replaces that one invite row |
| Tables.Db.InsertNotification | packages/book-club/server/src/routes/notifications.js:57-63 | the INSERT appends one notification under the next id |
| Tables.Seeded | packages/book-club/server/src/db/migrate.js:45-61 | after startup every table is empty except `invite_codes`, which holds the one unused invite `FOUNDER2026` |
| Tables.Db.constructor | packages/book-club/server/src/db/migrate.js:45-61 | the database `runMigrations` and `seedData` leave is valid and is the seeded state: no rows but the unused `FOUNDER2026` invite under id 1 |
| SetClause.Assigned | packages/book-club/server/src/routes/rounds.js:110-116 | a column is unbound exactly when no SET item names it with a placeholder in range |
| SetClause.AssignedPush | packages/book-club/server/src/routes/rounds.js:110-116 | pushing a new column with the next placeholder binds it to the pushed value and keeps every other binding |
| SetClause.Push | packages/book-club/server/src/routes/rounds.js:110-116 | one `updates.push(...); values.push(...); idx++` step keeps the list numbered, binds the column and leaves the others alone |
| Scoring.Weight | packages/book-club/server/src/lib/scoring.js:24-41 | a ranked vote of rank 1, 2 or 3 is worth 3, 2 or 1 points; any other rank is worth 0 |
| Scoring.ScoreWithoutVotes | packages/book-club/server/src/lib/scoring.js:44-49 | a proposal with no votes scores 0 under either method |
| Scoring.ApprovalScoreZeroIff | packages/book-club/server/src/lib/scoring.js:53-71 | an approval score is 0 exactly when nobody voted for the proposal |
| Scoring.RankedScoreByPlaces | packages/book-club/server/src/lib/scoring.js:24-41 | the ranked score is 3 per first place, 2 per second and 1 per third |
| Scoring.RankedScoreBound | packages/book-club/server/src/lib/scoring.js:24-41 | a ranked score is at most 3 per vote received |
| Scoring.ScoreAppend | packages/book-club/server/src/lib/scoring.js:24-63 | scores and place counts add up over any split of the votes table |
| Scoring.Rescore | packages/book-club/server/src/lib/scoring.js:22-71 | rescoring keeps every proposal's id and round and the table's length |
| Scoring.RescoreForgetsOldScores | packages/book-club/server/src/lib/scoring.js:22-71 | the recomputed scores depend only on the votes, not on the scores stored before |
| Scoring.RescoreIdempotent | packages/book-club/server/src/lib/scoring.js:10-73 | recomputing twice with no vote change in between equals recomputing once |
| Scoring.RecomputeScores | packages/book-club/server/src/lib/scoring.js:10-73 | a missing round throws and changes nothing; otherwise only the proposals table changes, to the rescored one |
| Scoring.BestIndex | packages/book-club/server/src/lib/scoring.js:93-124 | the first row of the winner query: no candidate outranks it, and it outranks every earlier candidate |
| Scoring.InRound | packages/book-club/server/src/lib/scoring.js:93-124 | the round's proposals are exactly the table's rows of that round |
| Scoring.Winner | packages/book-club/server/src/lib/scoring.js:83-126 | there is no winner exactly when the round has no proposals; otherwise the winner belongs to the round and no proposal of the round outranks it |
| Scoring.DetermineWinner | packages/book-club/server/src/lib/scoring.js:83-126 | null exactly for a missing round or one with no proposals; otherwise the id of a proposal of that round |
| Scoring.ApprovalWinner | packages/book-club/server/src/lib/scoring.js:115-124 | under approval, no proposal scores higher than the winner, and an equal score only with a creation time no earlier |
| Scoring.RankedWinner | packages/book-club/server/src/lib/scoring.js:93-113 | under ranked choice, the winner is the maximum of (score, first places, second places, earliest creation) |
| Scoring.WinnerAfterRecompute | packages/book-club/server/src/lib/scoring.js:10-126 | after a recompute, the winner's stored score is its true score and no proposal of the round scores higher |
| Votes.MatchedIdsCons | packages/book-club/server/src/routes/votes.js:60-66 | the ids the `ANY($1)` query matches are those of the first row and of the rest |
| Votes.MatchCountIsSetSize | packages/book-club/server/src/routes/votes.js:60-66 | with unique proposal ids, the query answers one row per distinct named id of the round |
| Votes.ProposalCheckIff | packages/book-club/server/src/routes/votes.js:60-69 | the count check passes exactly when the named ids are distinct and all belong to the round, so a repeated id is refused too |
| Votes.BallotAcceptedIff | packages/book-club/server/src/routes/votes.js:36-69 | the validation accepts a ballot exactly when it is well formed: at most 3 entries, ranks 1 to 3 without duplicates for ranked choice, every entry naming a distinct proposal of the round |
| Votes.ValidateBallot | packages/book-club/server/src/routes/votes.js:36-69 | the validation loops return the first refusal in the handler's order, or none |
| Votes.BallotRows | packages/book-club/server/src/routes/votes.js:77-87 | the insert loop writes one row per ballot entry (approval votes with rank 1) |
| Votes.Upsert | packages/book-club/server/src/routes/votes.js:80-85 | the ON CONFLICT insert keeps the (round, user, proposal) key unique, and appends a row whose key is new |
| Votes.InsertAllFresh | packages/book-club/server/src/routes/votes.js:77-87 | rows with new, pairwise distinct keys are simply appended |
| Votes.InsertAllKeepsKeysUnique | packages/book-club/server/src/routes/votes.js:77-87 | every upsert keeps the composite key unique |
| Votes.DeleteMine | packages/book-club/server/src/routes/votes.js:72-75 | the DELETE leaves no vote of the caller in the round, and keeps the keys unique |
| Votes.SubmitVotesStep | packages/book-club/server/src/routes/votes.js:11-96 | a refusal changes nothing; success needs an array, an existing open round and an accepted ballot |
| Votes.SubmitNeedsOpenRound | packages/book-club/server/src/routes/votes.js:23-32 | a missing round is not found, and a round that is not open refuses the ballot |
| Votes.ReplaceAppends | packages/book-club/server/src/routes/votes.js:72-87 | for a well-formed ballot, the delete and then the inserts leave the other rows followed by the ballot's rows |
| Votes.ReplaceSplitsVotes | packages/book-club/server/src/routes/votes.js:72-87 | afterwards the caller's votes in the round are exactly the ballot's rows, and nobody else's rows changed |
| Votes.SubmitReplacesBallot | packages/book-club/server/src/routes/votes.js:72-89 | a successful submission replaces the caller's ballot, keeps every other vote, and leaves the round's proposals scored on the new votes |
| Votes.ReplaceBallot | packages/book-club/server/src/routes/votes.js:72-87 | the delete-then-insert statements produce the replaced tables |
| Votes.SubmitVotes | packages/book-club/server/src/routes/votes.js:11-96 | the handler, statement by statement, answers and leaves the tables as `SubmitVotesStep` says |
| Votes.Joined | packages/book-club/server/src/routes/votes.js:103-107 | every joined row is a vote of the caller in the round |
| Votes.JoinedAppend | packages/book-club/server/src/routes/votes.js:103-107 | the join distributes over a split of the votes table |
| Votes.MyVotesAreMine | packages/book-club/server/src/routes/votes.js:99-115 | `GET mine` lists only the caller's votes in the round, ordered by rank |
| Votes.JoinedComplete | packages/book-club/server/src/routes/votes.js:103-107 | every vote of the caller in the round whose proposal exists is joined with that proposal's title |
| Votes.MyVotesListsAll | packages/book-club/server/src/routes/votes.js:99-115 | `GET mine` holds exactly the joined rows, so every such vote is listed |
| Votes.SubmitThenMine | packages/book-club/server/src/routes/votes.js:72-115 | reading back after a submission shows exactly the ballot, one row per entry |
| Votes.JoinedNone | packages/book-club/server/src/routes/votes.js:103-107 | with no vote of the caller, the join is empty |
| Votes.JoinedAll | packages/book-club/server/src/routes/votes.js:103-107 | when every vote is the caller's and its proposal exists, the join lists them all in order |
| Rounds.ParseMethod | packages/book-club/server/src/routes/rounds.js:37-39 | only `ranked_choice` and `approval` are voting methods |
| Rounds.ParseStatus | packages/book-club/server/src/routes/rounds.js:99-101 | only `open`, `closed` and `archived` are statuses |
| Rounds.CreateRoundErrors | packages/book-club/server/src/routes/rounds.js:37-39 | a create body is valid exactly when the trimmed title has 1 to 255 characters, the method is known and any deadline parses |
| Rounds.CreateRoundStep | packages/book-club/server/src/routes/rounds.js:36-60 | only an organizer with a valid body creates a round: open, with no winner, created by them, appended under the next id |
| Rounds.CreateRoundAccepted | packages/book-club/server/src/routes/rounds.js:49-54 | a valid organizer request appends exactly the new round |
| Rounds.CreateRound | packages/book-club/server/src/routes/rounds.js:36-60 | the handler's statements give `CreateRoundStep`'s answer and tables |
| Rounds.BuildRoundUpdate | packages/book-club/server/src/routes/rounds.js:110-116 | the SET list binds exactly the supplied fields, each to its value with the next placeholder; it is empty exactly when none is supplied |
| Rounds.UpdateIsPatched | packages/book-club/server/src/routes/rounds.js:122-130 | applying that SET list to the row gives the patched row |
| Rounds.PatchRoundErrors | packages/book-club/server/src/routes/rounds.js:99-101 | a PATCH body is valid exactly when a given title has 1 to 255 characters, a given deadline parses and a given status is known |
| Rounds.PatchRoundStep | packages/book-club/server/src/routes/rounds.js:98-136 | an empty valid body is refused; otherwise an existing round is patched; a refusal changes nothing |
| Rounds.PatchOnlyTouchesListedColumns | packages/book-club/server/src/routes/rounds.js:110-130 | a PATCH changes only that round's title, deadline and status |
| Rounds.PatchAccepted | packages/book-club/server/src/routes/rounds.js:98-136 | a valid, non-empty PATCH of an existing round replaces it by its patched row |
| Rounds.PatchCanReopen | packages/book-club/server/src/routes/rounds.js:99-130 | as written, a closed round can be set back to open, keeping its winner |
| Rounds.PatchRound | packages/book-club/server/src/routes/rounds.js:98-136 | the handler's statements give `PatchRoundStep`'s answer and tables |
| Rounds.CloseRoundStep | packages/book-club/server/src/routes/rounds.js:139-169 | closing succeeds exactly for an organizer and an existing open round; a refusal changes nothing |
| Rounds.ClosedWinner | packages/book-club/server/src/routes/rounds.js:154-162 | the recorded winner is none exactly when the round has no proposals, else a proposal of the round with the highest recomputed score |
| Rounds.CloseRecordsWinner | packages/book-club/server/src/routes/rounds.js:146-162 | a close rescores the round, marks it closed with the winner `determineWinner` picks, and changes no vote and no other round |
| Rounds.CloseRound | packages/book-club/server/src/routes/rounds.js:139-169 | the handler's statements give `CloseRoundStep`'s answer and tables |
| Rounds.RowOf | packages/book-club/server/src/routes/rounds.js:185-207 | a result row carries the proposal, its vote count, and `is_winner` exactly when it is the round's winner |
| Rounds.Candidates | packages/book-club/server/src/routes/rounds.js:185-200 | the results query joins only the round's proposals whose proposer exists |
| Rounds.TallyComplete | packages/book-club/server/src/routes/rounds.js:185-200 | every proposal of the round whose proposer exists has a row |
| Rounds.TallyDistinct | packages/book-club/server/src/routes/rounds.js:185-200 | distinct proposal ids give rows with distinct proposal ids |
| Rounds.RowFlag | packages/book-club/server/src/routes/rounds.js:204-207 | a result row is flagged exactly when it is the round's winner |
| Rounds.ResultsFlagWinner | packages/book-club/server/src/routes/rounds.js:172-213 | at most one row is flagged, and only the winner's |
| Rounds.ResultsByScore | packages/book-club/server/src/routes/rounds.js:198 | the result rows are in descending score order |
| Proposals.CreateProposalErrors | packages/book-club/server/src/routes/proposals.js:11-14 | a create body is valid exactly when the trimmed title has 1 to 255 characters, the author at most 255, and a non-empty cover URL is a valid URL |
| Proposals.CreateProposalStep | packages/book-club/server/src/routes/proposals.js:10-56 | success exactly for a valid body and an existing open round, appending the caller's proposal under the next id; the not-found and not-open refusals exactly in their cases |
| Proposals.CreateProposalAccepted | packages/book-club/server/src/routes/proposals.js:36-41 | a valid proposal for an open round appends exactly the new row |
| Proposals.CreatedProposal | packages/book-club/server/src/routes/proposals.js:11-41 | the stored row keeps the validated limits and is the one found under its new id |
| Proposals.CreateProposal | packages/book-club/server/src/routes/proposals.js:10-56 | the handler's statements give `CreateProposalStep`'s answer and tables |
| Proposals.DeleteProposalStep | packages/book-club/server/src/routes/proposals.js:62-94 | not found exactly when the proposal or its round is missing; forbidden only to a stranger; success removes that proposal and nothing else |
| Proposals.DeleteChecksRoundFirst | packages/book-club/server/src/routes/proposals.js:80-86 | in a round that is not open, everyone is refused with the round's status, before ownership is checked |
| Proposals.DeleteRemovesOneRow | packages/book-club/server/src/routes/proposals.js:88 | a successful delete removes exactly one row |
| Proposals.DeleteAccepted | packages/book-club/server/src/routes/proposals.js:66-88 | an organizer or the proposer, in an open round, withdraws the proposal |
| Proposals.WithoutAppended | packages/book-club/server/src/routes/proposals.js:88 | deleting a row appended under a fresh id gives back the table |
| Proposals.CreateThenDelete | packages/book-club/server/src/routes/proposals.js:10-94 | withdrawing one's own new proposal restores the proposals table |
| Proposals.DeleteProposal | packages/book-club/server/src/routes/proposals.js:62-94 | the handler's statements give `DeleteProposalStep`'s answer and tables |
| Meetings.ParseResponse | packages/book-club/server/src/routes/meetings.js:84 | only `yes`, `maybe` and `no` are responses |
| Meetings.ResponseCountsPartition | packages/book-club/server/src/routes/meetings.js:17-25 | the yes, maybe and no counts together count each answer to the meeting once |
| Meetings.MyResponse | packages/book-club/server/src/routes/meetings.js:17-25 | `my_response` is null exactly when the caller has not answered; otherwise it is their answer |
| Meetings.Summary | packages/book-club/server/src/routes/meetings.js:17-25 | a listing row carries the meeting, its three counts and the caller's response |
| Meetings.ListMeetings | packages/book-club/server/src/routes/meetings.js:31 | the listing is ordered by meeting time, earliest first |
| Meetings.ListMeetingsSound | packages/book-club/server/src/routes/meetings.js:10-39 | every listed row describes a meeting of the round |
| Meetings.ListMeetingsComplete | packages/book-club/server/src/routes/meetings.js:10-39 | every meeting of the round whose proposer exists is listed |
| Meetings.CreateMeetingErrors | packages/book-club/server/src/routes/meetings.js:43-46 | a create body is valid exactly when the time is given and parses |
| Meetings.CreateMeetingStep | packages/book-club/server/src/routes/meetings.js:42-77 | success exactly for a valid body and an existing round, whatever its status, appending the caller's meeting under the next id |
| Meetings.CreatedMeeting | packages/book-club/server/src/routes/meetings.js:57-70 | the meeting is stored as proposed, at the parsed time, with blank optional fields as null, even in a closed round |
| Meetings.CreateMeeting | packages/book-club/server/src/routes/meetings.js:42-77 | the handler's statements give `CreateMeetingStep`'s answer and tables |
| Meetings.UpsertResponse | packages/book-club/server/src/routes/meetings.js:103-109 | the upsert keeps the (meeting, user) key unique, overwrites or appends, and leaves every other row in place |
| Meetings.MyResponseAfterUpsert | packages/book-club/server/src/routes/meetings.js:103-109 | after answering, the member's response is the new one |
| Meetings.OtherResponsesAfterUpsert | packages/book-club/server/src/routes/meetings.js:103-109 | other members' answers, and the member's answers to other meetings, are unchanged |
| Meetings.SubmitAvailabilityStep | packages/book-club/server/src/routes/meetings.js:83-116 | success exactly for a known response and an existing meeting; the stored row is the caller's parsed answer |
| Meetings.SubmitThenList | packages/book-club/server/src/routes/meetings.js:17-25 | after answering, the listing's `my_response` is that answer |
| Meetings.SubmitAvailability | packages/book-club/server/src/routes/meetings.js:83-116 | the handler's statements give `SubmitAvailabilityStep`'s answer and tables |
| Meetings.ConfirmMeetingStep | packages/book-club/server/src/routes/meetings.js:119-160 | success exactly for an organizer and an existing meeting, whatever its status; the meeting becomes confirmed and every member is notified |
| Meetings.ConfirmNotifiesEachMember | packages/book-club/server/src/routes/meetings.js:131-153 | a confirm keeps every earlier notification, notifies each member exactly once, and changes only that meeting |
| Meetings.ConfirmTwiceNotifiesTwice | packages/book-club/server/src/routes/meetings.js:119-153 | as written, confirming again succeeds and notifies every member a second time |
| Meetings.ConfirmMeeting | packages/book-club/server/src/routes/meetings.js:119-160 | the handler's statements give `ConfirmMeetingStep`'s answer and tables |
| Meetings.DeleteMeetingStep | packages/book-club/server/src/routes/meetings.js:163-191 | not found exactly for a missing meeting; refused exactly when it is confirmed; success removes it, for an organizer or its proposer |
| Meetings.DeleteRemovesOneMeeting | packages/book-club/server/src/routes/meetings.js:185 | a successful delete removes exactly that meeting |
| Meetings.ConfirmedMeetingStays | packages/book-club/server/src/routes/meetings.js:171-183 | once confirmed, a meeting cannot be deleted, even by an organizer |
| Meetings.DeleteMeeting | packages/book-club/server/src/routes/meetings.js:163-191 | the handler's statements give `DeleteMeetingStep`'s answer and tables |
| Notifications.Fanout | packages/book-club/server/src/routes/notifications.js:56-64 | one row per member, in table order, under consecutive ids, on the member's channel, with the message's subject and body |
| Notifications.FanoutSnoc | packages/book-club/server/src/routes/notifications.js:56-64 | one more turn of the loop appends that member's row |
| Notifications.FanoutCount | packages/book-club/server/src/routes/notifications.js:56-64 | the loop addresses a member as often as the users table lists them |
| Notifications.FanoutOncePerMember | packages/book-club/server/src/routes/notifications.js:56-64 | with distinct ids, every member gets exactly one row and nobody else gets any |
| Notifications.NotifyAll | packages/book-club/server/src/routes/notifications.js:56-64 | the insert loop appends the fan-out and moves the counter by the number of members |
| Notifications.Inbox | packages/book-club/server/src/routes/notifications.js:18-24 | the caller's notifications, newest first, each exactly as often as in the table |
| Notifications.ListNotifications | packages/book-club/server/src/routes/notifications.js:9-41 | a negative limit or offset reaches the database and fails with 500; otherwise the page and limit answered are the ones asked, defaulting to 1 and 20 |
| Notifications.PageIsSliceOfInbox | packages/book-club/server/src/routes/notifications.js:13-24 | a page holds at most `limit` of the caller's notifications, newest first, from position `(page - 1) * limit` of the inbox |
| Notifications.WindowNewestFirst | packages/book-club/server/src/routes/notifications.js:18-24 | an OFFSET/LIMIT window of a newest-first list is newest first |
| Notifications.Window | packages/book-club/server/src/routes/notifications.js:18-24 | `OFFSET o LIMIT l` gives at most `l` rows, the ones from position `o`, and none past the end |
| Notifications.InboxNewestFirst | packages/book-club/server/src/routes/notifications.js:18-24 | the inbox holds only the member's notifications, newest first |
| Notifications.DefaultPage | packages/book-club/server/src/routes/notifications.js:13-15 | with no parameters, page 1 of 20 is the first 20 of the inbox |
| Notifications.TotalIgnoresPage | packages/book-club/server/src/routes/notifications.js:26-36 | `total` counts the whole inbox, whichever page is asked for |
| Notifications.BroadcastStep | packages/book-club/server/src/routes/notifications.js:44-71 | success exactly for an organizer and a non-blank body; one notification per member is appended and their number reported |
| Notifications.BroadcastOncePerMember | packages/book-club/server/src/routes/notifications.js:56-66 | a broadcast keeps earlier notifications, appends one trimmed message per member, and reports that many |
| Notifications.Broadcast | packages/book-club/server/src/routes/notifications.js:44-71 | the handler's statements give `BroadcastStep`'s answer and tables |
| Export.GroupBy | packages/book-club/server/src/routes/export.js:44-61 | a key is present exactly when some row names it, and its list holds that parent's rows, nested, in their original order |
| Export.KeysGroupedStep | packages/book-club/server/src/routes/export.js:47-53 | one more row of the loop keeps the keys grouped |
| Export.ListsGroupedStep | packages/book-club/server/src/routes/export.js:47-53 | one more push keeps every list the filtered rows of its key |
| Export.ChildFound | packages/book-club/server/src/routes/export.js:44-61 | a row is among the children of its own parent |
| Export.NoChildren | packages/book-club/server/src/routes/export.js:63-67 | a round no row names gets the empty list |
| Export.ExportFullStep | packages/book-club/server/src/routes/export.js:9-80 | only an organizer gets the export; anyone else is refused by the admin guard |
| Export.ExportFull | packages/book-club/server/src/routes/export.js:9-80 | the handler's queries and grouping loops give `ExportFullStep`'s answer |
| Export.ProposalsUnderTheirRound | packages/book-club/server/src/routes/export.js:44-67 | a proposal listed under a round belongs to it, with exactly the votes cast for it |
| Export.MeetingsUnderTheirRound | packages/book-club/server/src/routes/export.js:55-67 | a meeting listed under a round belongs to it, with exactly the answers given for it |
| Export.EveryProposalListed | packages/book-club/server/src/routes/export.js:47-67 | every proposal of an exported round is listed under it |
| Export.EveryMeetingListed | packages/book-club/server/src/routes/export.js:55-67 | every meeting of an exported round is listed under it |
| Export.ChildlessRoundHasEmptyLists | packages/book-club/server/src/routes/export.js:63-67 | a round without proposals or meetings is exported with empty lists |
| Export.RoundsInCreationOrder | packages/book-club/server/src/routes/export.js:11-41 | the rounds are listed oldest first |
| Export.ChildrenInCreationOrder | packages/book-club/server/src/routes/export.js:11-61 | a round's proposals and meetings are listed oldest first |
| Export.VotesInCreationOrder | packages/book-club/server/src/routes/export.js:11-53 | a proposal's votes are listed oldest first |
| Export.ExportSinceStep | packages/book-club/server/src/routes/export.js:83-145 | only an organizer with a parsable `ts` gets the delta; the refusal names the guard or `ts` |
| Export.DeltaUsersComplete | packages/book-club/server/src/routes/export.js:94-100 | every user created or changed after the instant is in the delta, without the hash |
| Export.DeltaUsersSound | packages/book-club/server/src/routes/export.js:94-100 | every user of the delta was created or changed after the instant |
| Export.DeltaTables | packages/book-club/server/src/routes/export.js:94-128 | each other table of the delta holds exactly its rows created, or where tracked updated, after the instant |
| Auth.RegisterErrors | packages/book-club/server/src/routes/auth.js:19-23 | a register body is valid exactly when the e-mail passes, the password has at least 8 characters, the trimmed name 1 to 100, and the code is not blank |
| Auth.InviteIndex | packages/book-club/server/src/routes/auth.js:34-37 | the lookup answers with the first invite carrying the code, or none |
| Auth.InviteIndexIsFirst | packages/book-club/server/src/routes/auth.js:34-37 | the first row carrying the code is the one found |
| Auth.EmailIndex | packages/book-club/server/src/routes/auth.js:50-56 | the lookup answers with the first member holding the e-mail, or none |
| Auth.EmailIndexIsFirst | packages/book-club/server/src/routes/auth.js:50-56 | the first member holding the e-mail is the one found |
| Auth.RegisterStep | packages/book-club/server/src/routes/auth.js:18-86 | success exactly for a valid body, an existing unused invite and a free e-mail; the first member is an organizer; a refusal changes nothing |
| Auth.RegisterWithInviteAccepted | packages/book-club/server/src/routes/auth.js:39-78 | past the lookup, a free invite and a new e-mail admit the member |
| Auth.AdmittedAppendsAndConsumes | packages/book-club/server/src/routes/auth.js:65-78 | registration appends the member under the next id and marks the invite used by them |
| Auth.RegisterAccepted | packages/book-club/server/src/routes/auth.js:18-86 | a registration that passes every check appends the member and consumes the invite |
| Auth.RegisterRefused | packages/book-club/server/src/routes/auth.js:19-56 | the refusals in the handler's order: invalid body, unknown code, used code, e-mail taken; each changes nothing |
| Auth.RegisterCommits | packages/book-club/server/src/routes/auth.js:59-78 | the row and the invite update the handler builds are those of the step |
| Auth.InsertThenConsume | packages/book-club/server/src/routes/auth.js:65-78 | the INSERT followed by the invite UPDATE gives the registered tables |
| Auth.FounderRegisters | packages/book-club/server/src/routes/auth.js:18-86 | right after startup, a valid registration with a code that folds to `FOUNDER2026` succeeds, and the new member is an organizer |
| Auth.InviteAdmitsOneRegistration | packages/book-club/server/src/routes/auth.js:34-45 | once used, an invite refuses any later registration with a code that folds to it |
| Auth.RegisterKeepsEmailsUnique | packages/book-club/server/src/routes/auth.js:50-70 | registration keeps e-mail addresses unique |
| Auth.Register | packages/book-club/server/src/routes/auth.js:18-86 | the handler's statements give `RegisterStep`'s answer and tables |
| Auth.LoginErrors | packages/book-club/server/src/routes/auth.js:89-91 | a login body is valid exactly when the e-mail passes and the password is not empty |
| Auth.Login | packages/book-club/server/src/routes/auth.js:88-123 | success exactly when the first member with the e-mail has a matching hash; an unknown e-mail and a wrong password get the same refusal |
| Auth.LoginFinds | packages/book-club/server/src/routes/auth.js:106-118 | a matching password signs in as the first member with the e-mail |
| Auth.RegisterThenLogin | packages/book-club/server/src/routes/auth.js:18-123 | a new member can sign in with the same e-mail and password, as the row registration created |
| Auth.ProfileErrors | packages/book-club/server/src/routes/auth.js:132-135 | a profile body is valid exactly when a given name has 1 to 100 characters, a given channel is known and given preferences are an object |
| Auth.BuildProfileUpdate | packages/book-club/server/src/routes/auth.js:143-162 | the SET list binds exactly the supplied fields with consecutive placeholders; it is empty exactly when none is supplied |
| Auth.PatchMeStep | packages/book-club/server/src/routes/auth.js:130-180 | an empty valid body is refused; otherwise the caller's row becomes the profiled one, or nothing changes when the row is gone |
| Auth.PatchMeAccepted | packages/book-club/server/src/routes/auth.js:164-175 | a valid, non-empty update of an existing member replaces their row by the profiled one |
| Auth.PatchMeOnlySuppliedFields | packages/book-club/server/src/routes/auth.js:143-175 | only the supplied fields of the caller's row change, and no other member's row does |
| Auth.ProfileUpdateIsProfiled | packages/book-club/server/src/routes/auth.js:143-175 | binding exactly the handler's values gives the profiled row |
| Auth.PatchMe | packages/book-club/server/src/routes/auth.js:130-180 | the handler's statements give `PatchMeStep`'s answer and tables |
| BallotEditor.Ascending | packages/book-club/client/src/pages/RoundDetail.jsx:56 | the ids of a set, in ascending order, each once |
| BallotEditor.AscendingKeys | packages/book-club/client/src/pages/RoundDetail.jsx:56 | `Object.keys` lists the map's integer keys in ascending order |
| BallotEditor.RankChanged | packages/book-club/client/src/pages/RoundDetail.jsx:52-64 | choosing a rank gives it to that proposal alone (or blanks it for 0), and keeps every other entry that held another rank |
| BallotEditor.OnlyAt | packages/book-club/client/src/pages/RoundDetail.jsx:56 | in ascending keys each key occurs once |
| BallotEditor.DropRank | packages/book-club/client/src/pages/RoundDetail.jsx:56 | the `forEach` loop deletes exactly the entries holding the rank |
| BallotEditor.RankChange | packages/book-club/client/src/pages/RoundDetail.jsx:52-64 | the handler's copy, loop and set-or-delete give the changed map |
| BallotEditor.RankChangeKeepsWellRanked | packages/book-club/client/src/pages/RoundDetail.jsx:52-64 | choosing any option keeps ranks 1 to 3 and pairwise distinct |
| BallotEditor.RankedPayload | packages/book-club/client/src/pages/RoundDetail.jsx:80-81 | one ballot entry per map key |
| BallotEditor.RankedPayloadIsTheMap | packages/book-club/client/src/pages/RoundDetail.jsx:80-81 | the ranked ballot is exactly the map's entries, each once |
| BallotEditor.RankedPayloadRanks | packages/book-club/client/src/pages/RoundDetail.jsx:80-81 | its ranks are distinct and each 1, 2 or 3 |
| BallotEditor.RankedPayloadAccepted | packages/book-club/client/src/pages/RoundDetail.jsx:75-94 | a well-ranked selection has at most 3 entries and passes every server check of a ranked ballot short of the round |
| BallotEditor.Toggle | packages/book-club/client/src/pages/RoundDetail.jsx:66-73 | toggling removes a present id or adds an absent one, and leaves every other id alone |
| BallotEditor.ToggleTwice | packages/book-club/client/src/pages/RoundDetail.jsx:66-73 | toggling twice restores the approved set |
| BallotEditor.ApprovalPayload | packages/book-club/client/src/pages/RoundDetail.jsx:82-83 | one entry per approved id |
| BallotEditor.ApprovalPayloadAccepted | packages/book-club/client/src/pages/RoundDetail.jsx:82-83 | the approval ballot names each approved proposal once, with no rank, and passes the server's entry check |
| Roster.FirstNamed | google-apps-script.js:97-104 | the first availability row whose name folds to the user's, or none |
| Roster.Upserted | google-apps-script.js:91-127 | when the user has a row, the new row replaces the first one (the first whose name folds to the user's) and every other row stays where it was; otherwise it is appended |
| Roster.UpsertKeepsOneRowPerUser | google-apps-script.js:91-127 | with one row per user before, there is one after, holding the new row; other users' rows stay in place |
| Roster.Demoted | google-apps-script.js:165-181 | every main of the user becomes an alt stamped now; every other row is unchanged |
| Roster.PostedMainIsOnlyMain | google-apps-script.js:33-39 | after posting a main, the user has exactly one main, the new row |
| Roster.PostedAltOnlyAppends | google-apps-script.js:33-39 | posting an alt only appends, and the number of the user's mains is unchanged |
| Roster.DuplicatesFrom | google-apps-script.js:387-400 | the rows collected are in range and listed bottom-up, each once |
| Roster.DuplicatesAreOlderCopies | google-apps-script.js:387-400 | the rows collected are exactly those with a copy further down |
| Roster.DeleteAll | google-apps-script.js:400-402 | deleting the collected rows removes that many rows |
| Roster.DeleteAllSnoc | google-apps-script.js:400-402 | deleting one more row after the others |
| Roster.DeleteNext | google-apps-script.js:400-402 | the `forEach` deletion, one step at a time |
| Roster.KeptFromHasEveryKey | google-apps-script.js:379-403 | the rows kept hold every key of the sheet |
| Roster.KeptFromKeysDistinct | google-apps-script.js:379-403 | no key is kept twice |
| Roster.KeptFromKeepsNewest | google-apps-script.js:379-403 | every row with no copy further down is kept |
| Roster.DeletingDuplicatesKeepsNewest | google-apps-script.js:379-403 | deleting the duplicates bottom-up keeps the newest row of each key |
| Roster.PrefixStep | google-apps-script.js:387-400 | one more row of the scanned prefix |
| Roster.DeleteOneMore | google-apps-script.js:400-402 | deleting a higher row after lower ones removes it from the untouched top |
| Roster.CleanupKeepsNewest | google-apps-script.js:379-403 | the cleanup leaves each key once, on its newest row, in sheet order |
| Roster.LastCharacterNamed | google-apps-script.js:365-372 | the bottom-most row of that character, or none |
| Roster.CharacterRemoved | google-apps-script.js:354-374 | the placeholder, or a name on no row, leaves the sheet as it was; otherwise exactly the bottom-most row of that character is deleted, the rows above it are unchanged, and the rows below move up one in order |
| Roster.MainChosen | google-apps-script.js:409-448 | the user's rows of that character become `Main` stamped now; the user's other mains become `Alt` stamped now; every other row, and every other user's row, is unchanged |
| Roster.MainChosenIsOnlyMain | google-apps-script.js:428-443 | with one row of the character, the user ends with exactly that one main |
| Roster.MissingTargetDemotesAll | google-apps-script.js:428-443 | with no row of the character, every main of the user is demoted |
| Roster.RosterSummary | google-apps-script.js:274-313 | players and characters are the row counts; mains are the rows marked `Main` and alts the rest; tanks, healers and DPS count only mains of that role; each day counts the availability rows ticked for it |
| Roster.Spreadsheet.constructor | google-apps-script.js:77-89 | both sheets start with no data rows |
| Roster.Spreadsheet.UpdateAvailability | google-apps-script.js:91-127 | the scan and the overwrite-or-append leave the upserted sheet |
| Roster.Spreadsheet.DemoteExistingMain | google-apps-script.js:165-181 | the loop leaves the demoted sheet |
| Roster.Spreadsheet.AddCharacter | google-apps-script.js:183-202 | one new row at the bottom |
| Roster.Spreadsheet.DoPost | google-apps-script.js:26-50 | availability is written first, then older mains are demoted for a main, then the character is added |
| Roster.Spreadsheet.CleanupDuplicateCharacters | google-apps-script.js:379-403 | the cleanup keeps the newest row of each key and reports how many rows it removed |
| Roster.Spreadsheet.DeleteRows | google-apps-script.js:400-402 | deleting the collected rows in order |
| Roster.Spreadsheet.RemovePlayer | google-apps-script.js:319-348 | every row of the user leaves both sheets and the character rows removed are counted; the placeholder changes nothing |
| Roster.Spreadsheet.RemoveAvailabilityOf | google-apps-script.js:330-335 | the first loop deletes exactly the user's availability rows |
| Roster.Spreadsheet.RemoveCharactersOf | google-apps-script.js:337-346 | the second loop deletes and counts exactly the user's character rows |
| Roster.Spreadsheet.KeepAvailability | google-apps-script.js:330-335 | the bottom-up loop deletes exactly the rows it rejects, keeping the others in order |
| Roster.Spreadsheet.KeepCharacters | google-apps-script.js:340-346 | the bottom-up loop deletes and counts exactly the rows it rejects |
| Roster.Spreadsheet.RemoveCharacter | google-apps-script.js:354-374 | the bottom-most row of that character is deleted, and the answer says whether there was one |
| Roster.Spreadsheet.SetCharacterAsMain | google-apps-script.js:409-448 | with both names edited, the sheet becomes the chosen-main sheet and the answer says whether the character was found; otherwise nothing changes |

## Left out

- SubmitVotes: the handler runs the DELETE, the inserts and the rescore without a transaction. A failure after the DELETE (an insert error answering 500) leaves the old ballot deleted and only part of the new one written. The model runs every statement to completion and does not model a database failure in mid-handler or a concurrent request.
- Register: the member INSERT and the invite UPDATE run without a transaction. The model does not capture a failure between them (a member created with the invite still unused), nor two registrations racing for one invite.
- CloseRound: the round is read, rescored, and then closed in separate statements. A concurrent vote or close between them is not modelled, and neither is a failure part-way.
- ConfirmMeeting: the meeting UPDATE and the per-member notification INSERTs are separate statements; a failure part-way, leaving some members unnotified, is not modelled.
- Broadcast: the per-member INSERT loop is not atomic; a failure part-way is not modelled.
- Text.SameFolded: case-insensitive comparison is taken through a given case mapping `lower`. The model does not define Unicode case mapping itself. Every property holds for any mapping, including ones that change a string's length.
- Roster.Spreadsheet: the name comparisons, the duplicate key (Roster.Key) and every Roster member that takes `lower` rely on that given mapping for `toLowerCase()`.
- Auth.InviteKey: the invite code is upper-cased by a given mapping `upper` (JavaScript's `toUpperCase()`, which maps "ß" to "SS"); the properties hold for any mapping.
- Proposals.DeleteProposalStep: the schema's foreign keys are not part of this model. A deleted proposal's vote rows stay in the votes table, and no cascade is modelled.
- Meetings.DeleteMeetingStep: likewise, a deleted meeting's availability rows stay behind.
- Tables.Db: all tables draw their ids from one counter, `nextId`, where the database has one sequence per table. Ids stay unique and increasing per table, but their actual values differ from the database's.
- Scoring.BestIndex: rows that tie on every ORDER BY column are taken in table order; PostgreSQL does not promise an order for them.
- Query.SortBy: ties under an ORDER BY are kept in table order (a stable sort) for the same reason.
- Notifications.Fanout: the members query has no ORDER BY; the model addresses members in table order, so the notification ids follow that order. No property depends on it.
- BallotEditor.RankedPayload: `Object.entries` sends each `proposal_id` as a string key; the model's entries carry an integer id. The server's truthiness check and PostgreSQL's cast accept the string, so no answer changes.
- Ids are `nat`. A JavaScript `proposal_id` that is falsy (missing, null, 0 or "") is modelled as 0, which no row carries. A string, negative or non-numeric `:id` path parameter, which makes the query fail with 500, cannot be represented.
- Optional body fields are `Option`. The model cannot tell an explicit null from an absent field except where the handler does (the PATCH deadline, an `Option<Option<…>>`).
- The validator oracles `iso`, `isEmail`, `normalize` and `isUrl`, the bcrypt `hash` and `matches`, and the date formatting `local` are parameters, so no property depends on their internals.
- JWT issuing and checking (`requireAuth`, its 401 answer and token expiry) are not modelled: every handler takes an authenticated Caller.
- Roster.Spreadsheet.DoPost: the `catch` path that answers an error (google-apps-script.js:45-49) is not modelled. Sheet calls never fail in the model.
- Invite generation, the admin routes, the schema migrations (the seed invite is modelled, in Tables.Seeded), the SQL text itself, GET /me and the round list and detail GETs are not modelled.
- Every handler's 500 answer to a thrown query error is not modelled, except where the model shows the handler reaching it (a missing round in `recomputeScores`, a negative OFFSET or LIMIT in GET notifications).
- `updated_at` triggers are not modelled: rows keep the times the handlers write.
- The delta export's `exported_at` is the `now` parameter, and its per-table query order is not modelled.
- The client's `useEffect` initialisation of the ballot from the saved votes, the rendering, and the fetch calls are not modelled.
- The roster script's sheet formatting, logging, `ContentService` responses, `doGet`, `getAvailabilityData` and `getCharactersData` are not modelled.
- The roster script finds columns by header names; the model uses fixed fields. Checkbox cells are booleans rather than 'TRUE' strings. Percentages and UTF-16 string lengths are not modelled.
- Behaviours the code has and its documentation does not promise are modelled as written:
  - Rounds.PatchCanReopen: PATCH can reopen a closed round, keeping its winner.
  - Meetings.ConfirmTwiceNotifiesTwice: a meeting can be confirmed again, notifying everyone again.
  - Notifications.ListNotifications: the GET route declares validators but never consults them.
