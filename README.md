# A basketball league site, modelled in Dafny

The site is a static Next.js website for an African basketball league. Its
logic is small and sequential:

- seeded tables of teams, players and matches, with lookups by id;
- conference tables ranked by win percentage, games behind, streak labels
  and the top-four playoff preview;
- the teams page ranked by wins;
- the schedule with its status tabs and its grouping by day;
- the statistics page: team points, player efficiency, conference counts,
  the per-position table and three top-five leaderboards;
- the search page, the recent-scores chart of a team page, the sitemap and
  the `/api/matches` status filter;
- the export page, which builds CSV text from rows of key/value pairs and
  pages a PDF with a y cursor;
- a simulated live game: a state machine ticked once a second, with
  start, pause, resume and reset controls;
- a small Markdown-to-blocks reader used by the script that renders the
  project brief as a PDF.

The project has one Dafny module per source file (`Teams`, `Players` and
`Matches` hold the entities and seed tables), plus four shared modules:

- `Seqs`: options, filter, find, subsequences and slices.
- `Sorting`: a stable insertion sort that orders by a rational key,
  non-increasing, compared by cross-multiplication.
- `Text`: trimming, ASCII lower case, join and split, and number printing.
- `Grouping`: grouping a list by a key, in the order keys first appear.

Modelling conventions:

- **Pure or mutating.** Pure code (filters, sorts, row builders) is written
  as functions. Code that accumulates or mutates is written as methods
  proved against those functions. These are the `positionStats` and
  `matchesByDate` reduces, the Markdown loop and the PDF cursor loop.
- **Live game.** It is a class whose fields are the state the page keeps in
  React.
- **Dates.** An ISO date such as "2025-10-01" is the number 20251001.
  These numbers sort in the same order as the dates.
- **Decimals.** Points, rebounds and assists per game are whole numbers of
  tenths (24.5 is 245).
- **Win percentage.** Comparisons are rationals compared by
  cross-multiplication, so no floating point is involved.
- **Randomness and the clock.** In the live game they are a `Draw` value
  passed in by the caller.

## Model

| member | source | states |
|---|---|---|
| LiveGame.GenerateEvent | app/live/page.tsx:64-107 | the event's type is score, foul, timeout or substitution, never quarter end; the team is home or away; the description is taken from that type's catalogue; the quarter is the one passed in (the rendered state's); the id and time stamp come from the draw |
| LiveGame.Descriptions | app/live/page.tsx:75-94 | every event type has a non-empty catalogue of descriptions, so indexing it by a draw is defined |
| LiveGame.PointsFor | app/live/page.tsx:131-150 | a side gains points only when an event fired, is a score and is that side's, and then exactly the drawn points; a valid draw gives at most 3 points |
| LiveGame.Game.constructor | app/live/page.tsx:47-57 | the page opens on 0-0, quarter 1, a 720-second clock, status not started, no events and not live |
| LiveGame.Game.Tick | app/live/page.tsx:110-157 | a tick changes nothing when the game is not live or is finished; otherwise the clock drops by one second, or a new quarter starts at 720, or after the fourth quarter the game is finished at 0 and stops. An event fires only on the 15% gate with the new clock a multiple of 30. It is put in front of the log and sets `lastUpdate` to the tick's second clock reading, and only a score event adds its points to its own side. The range invariant `Valid` is kept |
| LiveGame.Game.StartGame | app/live/page.tsx:180-191 | 0-0, quarter 1, a 720-second clock, an empty log, status live and the interval running |
| LiveGame.Game.PauseGame | app/live/page.tsx:193-196 | only the status (paused) and the running flag (off) change |
| LiveGame.Game.ResumeGame | app/live/page.tsx:198-201 | only the status (live) and the running flag (on) change |
| LiveGame.Game.ResetGame | app/live/page.tsx:203-214 | the opening state: 0-0, quarter 1, a 720-second clock, an empty log, not started and not running |
| LiveGame.Game.PauseThenResume | app/live/page.tsx:193-201 | pausing a live game and resuming it restores the state exactly |
| LiveGame.Game.PauseTwice | app/live/page.tsx:193-196 | pausing twice is the same as pausing once |
| LiveGame.RunSession | app/live/page.tsx:110-214 | any sequence of ticks and of the controls the page shows for the current status (lines 239-270) keeps quarter 1..4 and clock 0..720. With no start or reset in it, neither score ever goes down |
| LiveGame.Offered | app/live/page.tsx:238-270 | the controls shown for each status: start before the game, pause while live, resume and reset while paused; new game and the tick always (RunSession is stated over it) |
| LiveGame.QuietFirstQuarter | app/live/page.tsx:117-128 | from a fresh start, 720 ticks without events end the first quarter: quarter 2, full clock, 0-0 and still live |
| LiveGame.FinalSecond | app/live/page.tsx:120-124 | the last second of the fourth quarter finishes the game at 0 and stops the interval; the scores do not go down |
| LiveGame.FormatTime | app/live/page.tsx:174-178 | `formatTime`: minutes, a colon and the seconds padded to two digits (FormatTimeRoundTrip states it reads back) |
| LiveGame.PaddedSeconds | app/live/page.tsx:176-177 | `padStart(2, "0")` of a second count below 60 is two digits that read back as that count |
| LiveGame.FormatTimeRoundTrip | app/live/page.tsx:174-178 | `formatTime` has a colon third from the end, and reading its minutes and seconds back gives the original second count |
| LiveGame.Winner | app/live/page.tsx:313-315 | the home team is shown as winner exactly when its score is higher; a tie shows the away team |
| Markdown.SplitLines | scripts/generate-brief-pdf.js:23 | one piece per line feed plus one, none containing a line feed |
| Markdown.DropCRs | scripts/generate-brief-pdf.js:23 | every piece but the last loses one carriage return in front of its line feed |
| Markdown.SplitLinesCount | scripts/generate-brief-pdf.js:23 | the number of lines is one more than the number of line feeds |
| Markdown.SplitLinesCRLF | scripts/generate-brief-pdf.js:23 | lines joined with "\r\n" split back into the same lines |
| Markdown.SplitLinesJoin | scripts/generate-brief-pdf.js:23 | lines without a line feed or a final carriage return, joined with "\n", split back into the same lines |
| Markdown.LeadingHashes | scripts/generate-brief-pdf.js:35 | the length of the leading run of `#` |
| Markdown.HeadingHashes | scripts/generate-brief-pdf.js:35-39 | a heading line starts with 1 to 3 `#` |
| Markdown.IsHeading | scripts/generate-brief-pdf.js:35 | the test `^(#{1,3})\s+(.*)$`: one to three `#`, whitespace, and no line terminator after that whitespace (its consequences are in ClassifyShape and ClassifyHeadingForm) |
| Markdown.IsItem | scripts/generate-brief-pdf.js:41 | the test `^\s*[-•]\s+(.*)$`: leading whitespace, a `-` or `•`, whitespace, and no line terminator after it (its consequences are in ClassifyShape and ClassifyItem) |
| Markdown.Classify | scripts/generate-brief-pdf.js:35-56 | the loop body's tests in their order: heading, item, rule, blank, otherwise plain text (what each kind guarantees is in ClassifyShape) |
| Markdown.ClassifyShape | scripts/generate-brief-pdf.js:35-56 | a heading's level is the number of `#` the line starts with, from 1 to 3, and a line starting with 4 or more `#` is never a heading; heading and item texts are trimmed and hold no line terminator; a rule line trims to "---"; a blank line is all whitespace; a plain line's text is the trimmed line, non-empty and not "---" |
| Markdown.TrimText | scripts/generate-brief-pdf.js:38-44 | the text captured after the marker is the trimmed rest of the line and holds no line terminator |
| Markdown.ClassifyHeading | scripts/generate-brief-pdf.js:35-39 | `#`×n, a space and then clean text, for n from 1 to 3, is a heading of level n with that text |
| Markdown.ClassifyHeadingForm | scripts/generate-brief-pdf.js:35-39 | any line of one to three `#`, whitespace, and then no line terminator is a heading of that level whose text is the rest, trimmed |
| Markdown.LeadingHashesRepeat | scripts/generate-brief-pdf.js:35 | n `#` followed by anything else count as n |
| Markdown.ClassifyItem | scripts/generate-brief-pdf.js:41-45 | any line of leading whitespace, a `-` or `•` marker, whitespace, and then no line terminator is a list item whose text is the rest after the marker, trimmed |
| Markdown.Kinds | scripts/generate-brief-pdf.js:34-57 | each line is classified on its own |
| Markdown.KindsAppend | scripts/generate-brief-pdf.js:34-57 | classifying two halves of a document separately gives the same kinds |
| Markdown.Read | scripts/generate-brief-pdf.js:34-58 | the reader as a recursive definition over the classified lines with the pending paragraph texts; the loop `Assemble` is proved equal to it, and RenderShape, RenderWords and RenderStructural state what it produces |
| Markdown.Render | scripts/generate-brief-pdf.js:24-59 | `Read` from no pending paragraph: the reference the reader's loop and the round-trip lemmas are stated against |
| Markdown.Flush | scripts/generate-brief-pdf.js:27-32 | `flushParagraph`: the blocks so far, then the pending paragraph's block if any (its shape is stated by Paragraph) |
| Markdown.Paragraph | scripts/generate-brief-pdf.js:27-32 | flushing gives at most one block, and none exactly when no plain line is pending |
| Markdown.MarkdownToBlocks | scripts/generate-brief-pdf.js:21-60 | the blocks are those of the reading function `Render` over the classified lines |
| Markdown.Assemble | scripts/generate-brief-pdf.js:25-59 | the loop with its pending paragraph, flushed before every heading, item and rule, at every blank line and at the end, computes `Render` |
| Markdown.PlainRun | scripts/generate-brief-pdf.js:56 | the length of the leading run of plain lines |
| Markdown.ReadPlain | scripts/generate-brief-pdf.js:56 | plain lines only add their texts to the pending paragraph |
| Markdown.RenderParagraph | scripts/generate-brief-pdf.js:27-56 | a maximal run of plain lines becomes one `p` block of their texts joined by single spaces |
| Markdown.RenderShape | scripts/generate-brief-pdf.js:34-58 | a document reads as a maximal plain run's paragraph, or the first line's own block (none for a blank), and then the rest read on its own |
| Markdown.RenderSingle | scripts/generate-brief-pdf.js:35-55 | a heading, item, rule or blank line alone reads as its own block, or none |
| Markdown.ReadAppend | scripts/generate-brief-pdf.js:34-58 | reading two pieces separately gives the same blocks when the first does not end inside a paragraph |
| Markdown.RenderAppend | scripts/generate-brief-pdf.js:34-58 | the same for whole documents |
| Markdown.ReadStructural | scripts/generate-brief-pdf.js:35-51 | with any paragraph pending, the non-paragraph blocks are exactly one per heading, item and rule line, in order |
| Markdown.RenderStructural | scripts/generate-brief-pdf.js:35-51 | headings, items and rules come out exactly as their lines come in, in order |
| Markdown.ParagraphTextsAppend | scripts/generate-brief-pdf.js:29 | the paragraph texts of two block lists put together are the texts of each in turn |
| Markdown.JoinCons | scripts/generate-brief-pdf.js:29 | joining with spaces splits at a non-empty front part |
| Markdown.ReadWords | scripts/generate-brief-pdf.js:27-58 | from any pending paragraph, the paragraph texts joined by spaces are the pending and plain texts joined by spaces; there are none exactly when no plain text exists |
| Markdown.JoinFlush | scripts/generate-brief-pdf.js:27-32 | flushing a pending paragraph in front of later texts keeps their space-joined words |
| Markdown.RenderWords | scripts/generate-brief-pdf.js:27-58 | every plain line's text appears in the `p` blocks, in input order: the paragraphs' texts joined by spaces are the plain lines' texts joined by spaces |
| Markdown.ReadCount | scripts/generate-brief-pdf.js:34-58 | at most one block per line, plus one for a pending paragraph |
| Markdown.RenderCount | scripts/generate-brief-pdf.js:34-58 | at most one block per line |
| Markdown.JoinNonEmpty | scripts/generate-brief-pdf.js:29 | a paragraph whose first text is non-empty has a non-empty text |
| Markdown.ReadNoEmptyParagraph | scripts/generate-brief-pdf.js:27-32 | no `p` block has empty text when no pending or plain text is empty |
| Markdown.RenderNoEmptyParagraph | scripts/generate-brief-pdf.js:27-56 | no `p` block of any document is built from zero lines or has empty text |
| Markdown.WithCR | scripts/generate-brief-pdf.js:23 | a carriage return added to every line but the last, keeping the number of lines |
| Markdown.JoinWithCR | scripts/generate-brief-pdf.js:23 | joining with "\r\n" is joining the carriage-return lines with "\n" |
| Markdown.WithCRShape | scripts/generate-brief-pdf.js:23 | every line but the last gains exactly one carriage return |
| Markdown.WithCRNoNewline | scripts/generate-brief-pdf.js:23 | adding carriage returns adds no line feed |
| Markdown.DropCRsWithCR | scripts/generate-brief-pdf.js:23 | split's carriage-return removal undoes `WithCR` |
| Markdown.TrimAfterSpace | scripts/generate-brief-pdf.js:35-41 | a space in front of trimmed text is what `\s+` consumes and `trim` removes |
| Markdown.EmitHeadingRoundTrip | scripts/generate-brief-pdf.js:35-39 | a heading written back as `#`×n, a space and its text reads back as the same heading |
| Markdown.EmitItemRoundTrip | scripts/generate-brief-pdf.js:41-45 | a list item written back as "- " and its text reads back as the same item |
| Markdown.EmitRuleRoundTrip | scripts/generate-brief-pdf.js:47-51 | a rule written back as "---" reads back as a rule |
| Markdown.EmitParagraphRoundTrip | scripts/generate-brief-pdf.js:52-58 | a paragraph written back as its text and a blank line reads back as the same paragraph |
| Markdown.EmitBlockRoundTrip | scripts/generate-brief-pdf.js:34-58 | every block that can be written back reads back as itself and does not end inside a paragraph |
| Markdown.EmitRoundTrip | scripts/generate-brief-pdf.js:34-58 | a block list written back line by line reads back as the same list |
| Markdown.EmitLinesClean | scripts/generate-brief-pdf.js:23 | written-back lines hold no line feed and end in no carriage return |
| Markdown.DocumentRoundTrip | scripts/generate-brief-pdf.js:21-60 | a block list written back as a "\n"-joined document goes through the whole reader back to itself |
| Markdown.EmptyDocument | scripts/generate-brief-pdf.js:21-60 | the empty document has no blocks |
| Export.Field | app/export/page.tsx:26 | a string holding a comma is wrapped in double quotes, any other string kept; numbers print in decimal (NumberField and UnquoteField state its properties) |
| Export.Cell | app/export/page.tsx:24-27 | `row[header]` formatted, the empty text when the row lacks the key (CellIs states it) |
| Export.ToCsv | app/export/page.tsx:19-29 | `exportToCSV`'s `csvContent`: the header `Object.keys(data[0])` and one line per row, joined by line feeds (CsvLines, CsvSplitsIntoLines and LineSplitsIntoCells state its shape) |
| Export.KeyName | app/export/page.tsx:20-21 | every column name is non-empty and holds no comma and no line feed |
| Export.KeysOf | app/export/page.tsx:20 | `Object.keys` of a row: its keys in insertion order |
| Export.Lookup | app/export/page.tsx:25 | `row[header]`: nothing exactly when the row lacks the key, else a value the row holds under it |
| Export.CellIs | app/export/page.tsx:24-27 | a header the row lacks gives an empty field; otherwise the field is the formatted value of the row's first pair with that key |
| Export.Cells | app/export/page.tsx:24-27 | one field per header, in header order |
| Export.Names | app/export/page.tsx:21 | one column name per header, in header order |
| Export.RowLines | app/export/page.tsx:22-28 | one line per row, in row order |
| Export.CsvLines | app/export/page.tsx:20-29 | the header line, then one line per row |
| Export.ToCsvEmpty | app/export/page.tsx:20-29 | no rows gives the empty text |
| Export.JoinAvoids | app/export/page.tsx:21-29 | joining parts that avoid a character with a separator that avoids it gives a text that avoids it |
| Export.NumberField | app/export/page.tsx:26 | a number field holds only digits, a sign and a point |
| Export.CellsAvoid | app/export/page.tsx:24-27 | fields that avoid a character give cells that avoid it, the empty cell included |
| Export.CsvSplitsIntoLines | app/export/page.tsx:20-29 | when no value holds a line feed, cutting the CSV at line feeds gives the header line and then one line per row, 1 + n lines in all |
| Export.HeaderSplitsIntoNames | app/export/page.tsx:21 | cutting the header line at commas gives back the column names |
| Export.LineSplitsIntoCells | app/export/page.tsx:24-28 | when no value holds a comma, cutting a row's line at commas gives its fields in header order |
| Export.UnquoteField | app/export/page.tsx:26 | a string with a comma is wrapped in double quotes, any other is kept. Dropping the surrounding quotes gives the string back when it holds no double quote |
| Export.TeamRow | app/export/page.tsx:65-73 | the team columns, in the source's order |
| Export.TeamName | app/export/page.tsx:82 | the name or 'Unknown': "Unknown" exactly when the team is missing or its name is empty or "Unknown" (the same fallback at lines 97-98) |
| Export.PlayerRow | app/export/page.tsx:78-89 | the player columns, in the source's order |
| Export.ScoreValue | app/export/page.tsx:99-100 | the score or '': the field is empty exactly when the score is missing or 0; any other score is the number |
| Export.MatchRow | app/export/page.tsx:94-103 | the match columns, in the source's order |
| Export.TeamsData | app/export/page.tsx:64-75 | one row per team, in table order |
| Export.PlayersData | app/export/page.tsx:77-91 | one row per player, in table order |
| Export.MatchesData | app/export/page.tsx:93-105 | one row per match, in table order |
| Export.Marker | app/export/page.tsx:121-129 | a marker row has the single key `conference`, holding its title |
| Export.StandingRow | app/export/page.tsx:122-128 | the standings columns rank, team, wins, losses and win percentage |
| Export.RankRows | app/export/page.tsx:122-128 | one row per ranked team, ranked 1, 2, … in order |
| Export.StandingsRows | app/export/page.tsx:120-137 | the East marker, the East teams ranked from 1, the West marker, the West teams ranked from 1 |
| Export.MarkerLine | app/export/page.tsx:24-27 | under the header `conference` a marker row's line is its title |
| Export.NoConferenceBlank | app/export/page.tsx:24-27 | under the header `conference` a team row's line is empty |
| Export.EastRow | app/export/page.tsx:122-128 | row i of the first block is the East team at place i |
| Export.WestRow | app/export/page.tsx:130-136 | the rows after the West marker are the West teams, ranked from 1 again |
| Export.MarkerLines | app/export/page.tsx:121-129 | the two marker lines read "Eastern Conference" and "Western Conference" |
| Export.EastLine | app/export/page.tsx:20-27 | every East team's line is empty |
| Export.WestLine | app/export/page.tsx:20-27 | every West team's line is empty |
| Export.AsWrittenRows | app/export/page.tsx:20-29 | the two titles in their places and empty lines everywhere else |
| Export.SameLines | app/export/page.tsx:20-29 | two line lists that agree on the titles and are empty elsewhere are equal |
| Export.StandingsLines | app/export/page.tsx:120-137 | the row lines of the standings export are the two titles and otherwise empty lines |
| Export.Blanks | app/export/page.tsx:22-28 | n empty lines |
| Export.AsWrittenNoBreaks | app/export/page.tsx:20-29 | none of the standings lines holds a line feed |
| Export.StandingsCsvAsWritten | app/export/page.tsx:20-138 | the standings CSV cut at line feeds is the header "conference", "Eastern Conference", one empty line per East team, "Western Conference", one empty line per West team |
| Export.StandingsDropsTeams | app/export/page.tsx:20-128 | with any East team, a row carries the key `team` that the header lacks |
| Export.AllKeysCovers | app/export/page.tsx:20 | the corrected header holds every key of every row |
| Export.AllKeysFromRows | app/export/page.tsx:20 | every key of the corrected header comes from some row |
| Export.AllKeysUniform | app/export/page.tsx:20 | rows that all have the same keys give the same header as `Object.keys(data[0])` |
| Export.AllKeysKeepsValues | app/export/page.tsx:24-27 | under the corrected header every value of every row reaches its column |
| Export.TeamsExportUnchanged | app/export/page.tsx:64-75 | the corrected serialiser writes the teams export unchanged |
| Export.PlayersExportUnchanged | app/export/page.tsx:77-91 | the corrected serialiser writes the players export unchanged |
| Export.MatchesExportUnchanged | app/export/page.tsx:93-105 | the corrected serialiser writes the matches export unchanged |
| Export.RowKeys | app/export/page.tsx:120-137 | every standings row is either a marker or a team row |
| Export.StandingsColumns | app/export/page.tsx:120-137 | under the corrected header the standings CSV has exactly the columns conference, rank, team, wins, losses and win percentage |
| Export.StandingsData | app/export/page.tsx:120-137 | `standingsData`: the East marker and ranked East teams, then the West marker and ranked West teams (StandingsRows states it) |
| Export.AllKeys | app/export/page.tsx:20 | the corrected header: every key of every row in order of first appearance (AllKeysCovers, AllKeysFromRows and AllKeysUniform state it) |
| Export.ToCsvAllKeys | app/export/page.tsx:19-29 | the `csvContent` written under the corrected header (AllKeysKeepsValues, StandingsColumns and the three *ExportUnchanged lemmas state it) |
| Export.Place | app/export/page.tsx:49-52 | before an item, a new page at y 20 when the cursor is past 250 |
| Export.Advance | app/export/page.tsx:49-58 | after an item, the cursor 10 below per wrapped line, on the page `Place` chose |
| Export.CursorAfter | app/export/page.tsx:45-59 | the cursor after all items from (1, 40) (CursorBelowTop and CursorAfterLast state it) |
| Export.Layout | app/export/page.tsx:48-59 | one placement per item |
| Export.Paginate | app/export/page.tsx:45-59 | the `forEach` loop places each item where `Layout` says and ends on the page `CursorAfter` says |
| Export.CursorBelowTop | app/export/page.tsx:45-58 | the cursor's y is never less than 20 and its page is at least 1 |
| Export.LayoutBounds | app/export/page.tsx:45-58 | every item is drawn between y 20 and y 250, the first at y 40 on page 1, and each item is on its predecessor's page or on the next page at y 20 |
| Export.CursorAfterLast | app/export/page.tsx:58 | after the last item the cursor is 10 per wrapped line below it |
| Export.LayoutSteps | app/export/page.tsx:49-58 | each item moves 10 per wrapped line of the previous one below it, or to y 20 on the next page when that passes 250; the document ends on the last item's page |
| Export.LayoutStep | app/export/page.tsx:49-58 | the same for one item |
| Export.LayoutPrefix | app/export/page.tsx:48-59 | placing a prefix of the items places them as in the whole list |
| Sorting.SortDesc | lib/data/teams.ts:118-124 | a sort by a non-increasing key with a `b - a` comparator: a permutation of the list, non-increasing in the key |
| Sorting.SortDescSorted | lib/data/teams.ts:118-124 | a list already in non-increasing order is left as it is |
| Sorting.SortDescIdempotent | lib/data/teams.ts:118-124 | sorting twice is sorting once |
| Sorting.SortDescStable | lib/data/teams.ts:118-124 | elements with equal keys keep their input order, as the stable `Array.prototype.sort` keeps them when the comparator gives 0 |
| Sorting.PrefixDominates | lib/data/matches.ts:104-109 | what `slice(0, n)` of the sorted list keeps has a key at least that of everything it drops |
| Sorting.SuffixDominated | components/team-recent-scores-chart.tsx:19-22 | what `slice(-n)` of the sorted list keeps has a key at most that of everything it drops |
| Teams.WinPct | lib/data/teams.ts:120-121 | `wins / (wins + losses)` as an exact fraction, compared by cross-multiplication (ByConference is ordered by it) |
| Teams.WinPctTenths | app/export/page.tsx:72 | `((wins / played) × 100).toFixed(1)` as tenths: 1000 × wins / played rounded half up, at most 1000 |
| Teams.TeamById | lib/data/teams.ts:113-115 | `find`: the first team with that id, or nothing exactly when no team has it |
| Teams.TeamByIdFinds | lib/data/teams.ts:113-115 | with unique ids every team is found by its own id |
| Teams.ByConference | lib/data/teams.ts:117-125 | exactly the conference's teams, a permutation of the filtered list, non-increasing in win percentage |
| Teams.GetTeamById | lib/data/teams.ts:113-115 | `getTeamById` on the seeded table (TeamById and SeedLookup state it) |
| Teams.GetTeamsByConference | lib/data/teams.ts:117-125 | `getTeamsByConference` on the seeded table (ByConference, SeedEast and SeedWest state it) |
| Teams.ByConferenceStable | lib/data/teams.ts:118-124 | teams with equal win percentage keep table order |
| Teams.ByConferencePartition | lib/data/teams.ts:117-125 | the two conferences together hold every team once |
| Teams.ByConferenceSorted | lib/data/teams.ts:118-124 | a conference already in order comes back unchanged |
| Teams.SeedTable | lib/data/teams.ts:14-111 | the seeded ids are unique and every seeded team has played |
| Teams.SeedLookup | lib/data/teams.ts:14-115 | every seeded team is found by its id |
| Teams.SeedEastMembers | lib/data/teams.ts:14-111 | the seeded East teams in table order |
| Teams.SeedEastOrdered | lib/data/teams.ts:14-111 | they already stand in win-percentage order |
| Teams.SeedEast | lib/data/teams.ts:117-125 | `getTeamsByConference("East")` is Cairo, Johannesburg, Nairobi, Addis |
| Teams.SeedWestMembers | lib/data/teams.ts:14-111 | the seeded West teams in table order |
| Teams.SeedWestOrdered | lib/data/teams.ts:14-111 | they already stand in win-percentage order |
| Teams.SeedWest | lib/data/teams.ts:117-125 | `getTeamsByConference("West")` is Lagos, Accra, Casablanca, Dakar |
| Matches.NewestFirst | lib/data/matches.ts:107 | a permutation, newest date first |
| Matches.OldestFirst | lib/data/matches.ts:114 | a permutation, oldest date first |
| Matches.NewestFirstStable | lib/data/matches.ts:107 | matches on the same day keep their order |
| Matches.OldestFirstStable | lib/data/matches.ts:114 | matches on the same day keep their order |
| Matches.RecentMatches | lib/data/matches.ts:104-109 | only finished matches of the list, newest first, min(limit, finished) of them, limit 4 by default |
| Matches.RecentMatchesPrefix | lib/data/matches.ts:104-109 | a prefix of the sorted finished list; no finished match left out is newer than one kept |
| Matches.UpcomingMatches | lib/data/matches.ts:111-116 | only scheduled matches of the list, oldest first, min(limit, scheduled) of them, limit 4 by default |
| Matches.UpcomingMatchesPrefix | lib/data/matches.ts:111-116 | a prefix of the sorted scheduled list; no scheduled match left out is earlier than one kept |
| Matches.MatchById | lib/data/matches.ts:118-120 | `find`: the first match with that id, or nothing exactly when none has it |
| Matches.GetRecentMatches | lib/data/matches.ts:104-109 | `getRecentMatches` on the seeded list (RecentMatches and RecentMatchesPrefix state it) |
| Matches.GetUpcomingMatches | lib/data/matches.ts:111-116 | `getUpcomingMatches` on the seeded list (UpcomingMatches and SeedUpcoming state it) |
| Matches.GetMatchById | lib/data/matches.ts:118-120 | `getMatchById` on the seeded list (MatchById and MatchByIdFinds state it) |
| Matches.MatchByIdFinds | lib/data/matches.ts:118-120 | with unique ids every match is found by its own id |
| Matches.SeedUniqueIds | lib/data/matches.ts:13-102 | the seeded match ids are unique |
| Matches.SeedConsistent | lib/data/matches.ts:13-102 | seeded finished matches have both scores and scheduled ones neither |
| Matches.SeedScheduled | lib/data/matches.ts:13-102 | the scheduled seed matches are matches 5 to 8 |
| Matches.SeedScheduledOrdered | lib/data/matches.ts:114 | they already stand in date order |
| Matches.SeedUpcoming | lib/data/matches.ts:111-116 | `getUpcomingMatches()` is matches 5 to 8 |
| Players.PlayersByTeam | lib/data/players.ts:121-123 | exactly the team's players, in table order; none exactly when no player has that team id |
| Players.PlayerById | lib/data/players.ts:125-127 | `find`: the first player with that id, or nothing exactly when none has it |
| Players.GetPlayersByTeam | lib/data/players.ts:121-123 | `getPlayersByTeam` on the seeded roster (PlayersByTeam states it) |
| Players.GetPlayerById | lib/data/players.ts:125-127 | `getPlayerById` on the seeded roster (PlayerById and SeedLookup state it) |
| Players.PlayerByIdFinds | lib/data/players.ts:125-127 | with unique ids every player is found by its own id |
| Players.SeedUniqueIds | lib/data/players.ts:18-119 | the seeded player ids are unique |
| Players.SeedLookup | lib/data/players.ts:18-127 | every seeded player is found by its id |
| Standings.WinPctLabel | app/standings/page.tsx:86 | a one-decimal number and "%" that reads back as the win percentage in tenths (computed at line 51) |
| Standings.GamesBack | app/standings/page.tsx:52-55 | "-" exactly for the leader; otherwise a one-decimal number that reads back as ((leader wins − wins) + (losses − leader losses)) / 2 |
| Standings.Streak | app/standings/page.tsx:90-99 | "W" exactly when wins exceed losses, else "L" (so a tie gives "L"), then min(that count, 3) |
| Standings.Rows | app/standings/page.tsx:50-62 | one row per team in table order, ranked index + 1, the trophy only on the first |
| Standings.ConferenceTable | app/standings/page.tsx:14-28 | a conference ranked by win percentage, then its rows (ConferenceTableTeams and ConferenceTableOrder state it) |
| Standings.RowsTeams | app/standings/page.tsx:50 | the rows show exactly the table's teams |
| Standings.ConferenceTableTeams | app/standings/page.tsx:14-23 | a conference table shows exactly that conference's teams |
| Standings.ConferenceTableOrder | app/standings/page.tsx:16-28 | the rows are in non-increasing win percentage and the trophy team has the best of its conference (the trophy at line 62) |
| Standings.Playoff | app/standings/page.tsx:161-178 | the first min(4, n) teams of the sorted conference |
| Standings.PlayoffDominates | app/standings/page.tsx:161-178 | no conference team left out of the preview has a better win percentage than one shown |
| TeamsPage.ByWins | app/teams/page.tsx:18-19 | exactly the conference's teams, a permutation of the filtered list, non-increasing in wins |
| TeamsPage.ByWinsStable | app/teams/page.tsx:18-19 | teams with equal wins keep table order |
| TeamsPage.Cards | app/teams/page.tsx:18-19 | one card per ranked team, the trophy only on the first (lines 54 and 114) |
| TeamsPage.TrophyLeads | app/teams/page.tsx:54 | only index 0 has the trophy and its team has the most wins of its conference (line 114 for the West list) |
| Search.TeamMatches | app/search/page.tsx:24-28 | the lower-cased query occurs in the team's name, city or country (SearchResults and HasResultsIff are stated over it) |
| Search.PlayerMatches | app/search/page.tsx:31-38 | the lower-cased query occurs in the player's name or position, or in the name of the player's team when there is one |
| Search.SearchResults | app/search/page.tsx:16-41 | a query that is blank after trimming finds nothing; otherwise, with the lower-cased untrimmed query, a team is found exactly when its lower-cased name, city or country contains the query, and a player exactly when its name, position or team name does (a player with no team matches only on name or position); both lists are subsequences of the tables |
| Search.HasResultsIff | app/search/page.tsx:43 | results exist exactly when the query is not blank and some team or player matches |
| Search.SearchIgnoresCase | app/search/page.tsx:21 | lower-casing the query first changes nothing |
| Schedule.Filtered | app/schedule/page.tsx:15-20 | exactly the matches the tab shows (all of them for "all"), the same multiset as the filtered list, newest first |
| Schedule.FilteredStable | app/schedule/page.tsx:20 | matches of the same day keep their fixture-list order |
| Schedule.EmptyStateIff | app/schedule/page.tsx:160 | the empty-state card shows exactly when no match passes the tab, on "all" exactly when there are no matches |
| Schedule.StatusLabel | app/schedule/page.tsx:81 | "Final" exactly for finished, "Live" exactly for live, "Scheduled" exactly for scheduled |
| Schedule.GroupByDate | app/schedule/page.tsx:23-33 | the mutating reduce builds the groups `GroupBy` describes |
| Schedule.ScheduleShowsAll | app/schedule/page.tsx:23-33 | the group sizes add up to the number of matches the tab shows |
| Schedule.DatesDescending | app/schedule/page.tsx:20-50 | the days of a newest-first list appear from newest to oldest |
| Schedule.ScheduleNewestFirst | app/schedule/page.tsx:20-50 | the headings run from the newest day to the oldest |
| Schedule.HeadingsDescending | app/schedule/page.tsx:20-50 | the group headings of any newest-first list are its days, strictly descending |
| Grouping.Keys | app/schedule/page.tsx:26-28 | the distinct keys of the list, each of some element |
| Grouping.KeysOrder | app/schedule/page.tsx:50 | keys appear in the order they are first met |
| Grouping.GroupBy | app/schedule/page.tsx:23-33 | one group per key, holding exactly that key's elements in list order |
| Grouping.GroupOf | app/schedule/page.tsx:26 | `acc[date]`: the group of that key, or none exactly when no group has it |
| Grouping.GroupBySnocOld | app/schedule/page.tsx:29 | an element of a known key is pushed onto that key's group |
| Grouping.GroupBySnocNew | app/schedule/page.tsx:26-29 | an element of a new key opens a group at the end |
| Grouping.GroupBySnoc | app/schedule/page.tsx:24-31 | one reduce step |
| Grouping.GroupByTotal | app/schedule/page.tsx:23-33 | the groups hold as many elements as the list |
| Grouping.GroupByShape | app/schedule/page.tsx:23-33 | no group is empty, every element of a group has its key, keys are distinct, and every element lands in a group |
| Stats.WinPercentage | app/stats/page.tsx:33 | "NaN" exactly when the team has not played, else a one-decimal number reading back as the win percentage in tenths |
| Stats.TeamStats | app/stats/page.tsx:29-35 | one entry per team, in order, with its win percentage and points = 2 × wins |
| Stats.Efficiency | app/stats/page.tsx:43 | a one-decimal number reading back as ppg + rpg + apg |
| Stats.PlayerStats | app/stats/page.tsx:38-44 | the first min(10, n) players, in order, with their efficiency |
| Stats.ConferenceData | app/stats/page.tsx:47-50 | the East and West slices count the teams of each conference |
| Stats.ConferenceDataCovers | app/stats/page.tsx:47-50 | the two slices add up to the number of teams |
| Stats.AvgTenths | app/stats/page.tsx:60 | `(total / count).toFixed(1)` in tenths: the mean rounded half up |
| Stats.PositionTable | app/stats/page.tsx:53-64 | one entry per position in the order positions first appear, summarising that position's group |
| Stats.SummarySnoc | app/stats/page.tsx:58-60 | one more player of a position bumps its count and total and recomputes the average |
| Stats.PositionTableSnocOld | app/stats/page.tsx:58-60 | a player of a listed position bumps that entry |
| Stats.PositionTableSnocNew | app/stats/page.tsx:55-60 | a player of a new position opens a zero entry at the end and bumps it |
| Stats.PositionStats | app/stats/page.tsx:53-64 | the mutating reduce builds `PositionTable` |
| Stats.PositionCounts | app/stats/page.tsx:53-64 | the counts add up to the number of players and no entry is empty |
| Stats.CountSumTotal | app/stats/page.tsx:58 | the counts of the group summaries add up to the group sizes |
| Stats.PositionEntries | app/stats/page.tsx:53-62 | an entry's count and total are those of its position's players, the count is positive and the average reads back as their mean |
| Stats.TopFive | app/stats/page.tsx:67-69 | min(5, n) players from a stable sort by the stat, non-increasing, all from the list |
| Stats.TopScorers | app/stats/page.tsx:67 | the five best scorers by points per game (TopScorersBest states it) |
| Stats.TopRebounders | app/stats/page.tsx:68 | the five best by rebounds per game (TopFive and TopFiveDominates state it) |
| Stats.TopAssists | app/stats/page.tsx:69 | the five best by assists per game (TopFive and TopFiveDominates state it) |
| Stats.TopFiveDominates | app/stats/page.tsx:67-69 | no player left out has a higher stat than one kept |
| Stats.TopScorersBest | app/stats/page.tsx:67 | the top scorers are min(5, n) players by non-increasing ppg, and no one left out scores more |
| RecentScores.LastSix | components/team-recent-scores-chart.tsx:19-22 | min(6, k) of the team's k fixtures, each one the team plays in, in ascending date order |
| RecentScores.LastSixLatest | components/team-recent-scores-chart.tsx:21-22 | the tail of the team's fixtures sorted oldest first; none left out is later than one shown |
| RecentScores.TeamScore | components/team-recent-scores-chart.tsx:25-29 | the team's own side of the score, 0 when it is not a number (ChartScores states it) |
| RecentScores.Points | components/team-recent-scores-chart.tsx:24-32 | one point per fixture with its date, the team's score and the status |
| RecentScores.Chart | components/team-recent-scores-chart.tsx:15-32 | nothing exactly for an unknown team, else a point for each of its last six fixtures |
| RecentScores.ChartScores | components/team-recent-scores-chart.tsx:25-29 | a finished fixture plots the team's own side of the score, a scheduled one plots 0 |
| Sitemap.SiteMap | app/sitemap.ts:7-23 | the seven static routes in their listed order, then one route per team in team order, 7 + n entries |
| Sitemap.StaticOnSite | app/sitemap.ts:7-15 | each static url is the base url and a path starting with "/", priority at most 1 |
| Sitemap.StaticEntry | app/sitemap.ts:23 | the static entries come first |
| Sitemap.TeamEntry | app/sitemap.ts:17-23 | entry 7 + i is team i's page, base url + "/teams/" + id |
| Sitemap.EntryOnSite | app/sitemap.ts:5-23 | each entry is the base url and its path |
| Sitemap.SiteMapOnSite | app/sitemap.ts:5-23 | every url starts with the base url, then "/", with a priority from 0 to 1 |
| Sitemap.PageInjective | app/sitemap.ts:5 | different paths give different urls |
| Sitemap.StaticPathsDistinct | app/sitemap.ts:7-15 | the static paths differ |
| Sitemap.TeamPathNotStatic | app/sitemap.ts:7-18 | no team page has a static page's path |
| Sitemap.TeamPathInjective | app/sitemap.ts:18 | two team pages share a path only for the same id |
| Sitemap.SiteMapDistinct | app/sitemap.ts:7-23 | with unique team ids no url is listed twice |
| MatchesApi.ParseStatus | app/api/matches/route.ts:6-9 | a status is chosen only for the exact names "finished", "scheduled" and "live" |
| MatchesApi.ParseStatusName | app/api/matches/route.ts:9 | each of the three names selects its status |
| MatchesApi.Respond | app/api/matches/route.ts:8-13 | always a subsequence of the list; the whole list for a missing or unknown status; otherwise exactly the matches with that status |
| MatchesApi.RespondByName | app/api/matches/route.ts:8-10 | a known status gives the filtered list in original order, and no status gives the list unchanged |

## Left out

- Rendering: JSX and layout, logos, colours, photos, icons and charts are
  not modelled, and neither are the figures listed next that exist only in
  the markup.
- Stats overview cards: the team and player counts
  (app/stats/page.tsx:99, 112), the league average points per game
  (app/stats/page.tsx:126) and the league win rate (app/stats/page.tsx:141)
  are computed inline in the markup and are not modelled. The 0- and
  1-decimal `toFixed` rounding they use is floating point.
- Teams page figures: the "Win Rate" percentage rounded by `toFixed(0)`
  (app/teams/page.tsx:78, 138) and the "n Teams" count badges
  (app/teams/page.tsx:34, 94) are not modelled. The conference lists they
  read are.
- Notifications: the browser notification calls in the live game are not
  modelled, since they have no effect on the state.
- Timers: `setInterval`, React state batching and the `setIsLive` call inside
  the state updater are not modelled. A tick is one atomic transition over
  the state the page last rendered.
- Randomness, clock and ids: `Math.random`, `Date.now` and the random event
  ids are the fields of a `Draw` that the caller supplies. The two clock
  readings of a tick that fires an event (the event's time stamp,
  app/live/page.tsx:104, and the state's `lastUpdate`, line 153) are two
  separate fields, `now` and `updated`.
- LiveGame.Game.PauseGame and LiveGame.Game.ResumeGame keep the range
  invariant only on an unfinished game. The page offers them only while
  live or paused, and `RunSession` applies only the controls offered.
- Dates: parsing and `toLocaleDateString` are not modelled. A date is its
  YYYYMMDD number, and the CSV's displayed day is the `dayOf` parameter of
  `Export.MatchesData`.
- Case and whitespace: `toLowerCase` is ASCII only. `\s` and `trim` use
  JavaScript's whitespace set, but a one-character code is taken as one
  character.
- Teams.WinPctTenths: JavaScript's floating-point `toFixed(1)` is modelled
  as exact rounding half up. The source may differ on halves that floating
  point does not represent exactly.
- Stats.AvgTenths: the same exact-rounding model of `toFixed(1)` on the
  average points per game.
- Stats.Efficiency: ppg + rpg + apg is exact in tenths. The floating-point
  sum the source prints may round differently.
- Teams.ByConference: requires every team to have played. For a team with no
  games, `0/0` is NaN and the JavaScript comparator is inconsistent. The
  seed table satisfies this (`Teams.SeedTable`).
- Export.UnquoteField: requires no double quote in the string. The source
  neither doubles an embedded quote nor quotes a value holding a line feed,
  contrary to section 2 of RFC 4180. For those values `Export.CsvSplitsIntoLines`
  and `Export.LineSplitsIntoCells` do not apply.
- PDF export: jsPDF drawing, `splitTextToSize` and the `JSON.stringify`
  item text are not modelled. `Export.Paginate` takes each item's wrapped
  line count as input. That covers the four PDF exports at
  app/export/page.tsx:141-216, which differ only in their data.
- I/O: the Blob, the object URL and the download link of the export page
  are not modelled. Neither are the `fs` reads and writes and the pdfkit
  drawing of scripts/generate-brief-pdf.js.
- Matches seed: the id, the two team ids and the venue of each fixture are
  kept as text. That each team id names a seeded team is not proved.
- Players seed: positions are a datatype, so "one of PG/SG/SF/PF/C" holds by
  construction. Photos are not modelled.
- Schedule tabs: the page offers "all", "finished" and "scheduled". The
  model's `Tab` also admits a "live" filter.
- Configuration: next.config.mjs, app/robots.ts and app/api/teams/route.ts
  return constants and are not modelled. `NextResponse` and URL parsing
  around the matches filter are I/O; the status parameter is an
  `Option<string>`.

## Findings

| source | as written | input that shows it | evidently intended | confidence | as-written member | corrected member |
|---|---|---|---|---|---|---|
| app/export/page.tsx:20, 120-138 | the CSV header is `Object.keys(data[0])`, and the first standings row is the marker `{ conference: 'Eastern Conference' }`, so the header is the single column `conference` and every team row prints as an empty line | the seeded teams: the export is "conference", "Eastern Conference", four empty lines, "Western Conference", four empty lines | a header of every key that appears in the rows, so the rank, team, wins, losses and win percentage of each team are written | not executed | Export.StandingsCsvAsWritten | Export.ToCsvAllKeys |

`Export.StandingsDropsTeams` shows the same finding: a team row carries a
`team` value that the header lacks. `Export.ToCsvAllKeys` corrects it by
building the header from the keys of all rows, in first-appearance order.
Its proofs are:

- `Export.AllKeysKeepsValues`: every value reaches its column.
- `Export.StandingsColumns`: the standings get the columns conference, rank,
  team, wins, losses and win percentage.
- `Export.TeamsExportUnchanged`, `Export.PlayersExportUnchanged` and
  `Export.MatchesExportUnchanged`: the other three exports are written
  unchanged.
