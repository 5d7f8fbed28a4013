# PRIZM vote tracker: vote-speed derivation and leaderboard filter

This project models the two pieces of sequential logic in a small vote tracker.

- **The dashboard** (`app.py`) loads a snapshot that maps each entity (an idol) to its history of `(timestamp, cumulative votes)` records. It then:
  - takes each entity's latest count;
  - picks the four entities with the highest latest count;
  - for each of them that has at least two records, turns consecutive records into votes-per-minute rates;
  - smooths the rates with a centred three-point moving average;
  - draws one curve per entity.
- **The scraper** (`scrape_and_update.py`) reads `(name, vote text)` rows off the leaderboard page. It then:
  - drops blacklisted names;
  - strips `,` and `.` from the vote text;
  - keeps the rows whose text is an integer;
  - reports the four rows with the most votes.

Layout:

- `ranking.dfy` (module `Ranking`): the `(name, votes)` entry. It holds the stable descending sort by votes used by both programs, proved ordered, a permutation and stable. It also proves that this stable order is unique, and defines the top-N prefix.
- `vote_speed.dfy` (module `VoteSpeed`): everything from `app.py`. The rate loop and the drawing loop are methods with loop invariants, each proved equal to a specification function. The pandas rolling mean is a pure function.
- `scrape.dfy` (module `Scrape`): the row loop of `scrape_top4_female` as a method with `continue`, proved against a row-by-row specification. It also holds the cleaning, parsing and blacklist functions.
- `optional.dfy` (module `Optional`): the `Option` type.

Modelling choices:

- Timestamps are whole seconds (`int`), and elapsed minutes are those seconds divided by 60 as a `real`.
- Rates and means are exact `real`s.
- The snapshot dictionary is a sequence of `(name, records)` pairs in key order. Where dictionary lookup matters, a `DistinctNames` requirement says that no name repeats.
- Looking up a name's records, with no records when the name is absent, is `Lookup`.

## What the code does not do

A reader might expect duplicate-timestamp removal, clamping, gap detection or resampling; the code does none of these:

- **No duplicate removal.** Repeated timestamps are not removed. A repeated timestamp gives zero elapsed time, so its rate is exactly 0 (`RepeatedTimestampExample`: four records with one duplicate give the rates `[10, 0, 15]`, not `[10, 15]`).
- **No clamping.** Decreasing counts are neither clamped nor rejected. They give negative rates (`SpeedSign`).
- **Missing steps.** There is no gap detection, no outlier ceiling and no spline resampling.
- **Fixed smoothing window.** The window is always 3.

## Model

| member | source | states |
|---|---|---|
| `Ranking.SortIsStable` | app.py:31 | The descending sort by votes is non-increasing, is a permutation of its input (same multiset), and for every vote value keeps the entries with that value in their input order. |
| `Ranking.StableOrderUnique` | scrape_and_update.py:44 | Any two sequences that are non-increasing and agree on the order within every group of equal counts are equal. So the stable descending order is the only possible result. |
| `Ranking.TopSelects` | scrape_and_update.py:44 | The top-n has min(n, input length) entries. It is non-increasing and drawn from the input (sub-multiset). No entry left out has more votes than one kept. Within each vote value, the kept entries are a prefix of the input order. It is a prefix of the stably sorted input. |
| `VoteSpeed.LatestVotesKeys` | app.py:30 | The table has exactly one entry per entity with records. Every entry is the name and last-record count of some entity with records, and every entity with records has its entry. |
| `VoteSpeed.LatestVotesCount` | app.py:30 | The latest-count table has as many entries as there are entities with at least one record. |
| `VoteSpeed.LatestVotesConcat` | app.py:30 | The latest-count table is built entity by entity, in snapshot order. |
| `VoteSpeed.LookupFinds` | app.py:43 | In a snapshot with distinct names, looking up an entity's name gives that entity's records. |
| `VoteSpeed.Top4NamesSelects` | app.py:30-32 | At most four names, fewer only when fewer entities have records. Each name has records, and its count is its last record's count. Counts are non-increasing, ties keep snapshot order, and no entity left out has a larger latest count than one listed. |
| `VoteSpeed.Top4NamesCount` | app.py:30-32 | Four names are listed, or all entities with records when there are fewer than four. |
| `VoteSpeed.TopEntryIsLatest` | app.py:31-32 | Every entry of the top four is the latest count of the entity of that name. |
| `VoteSpeed.SpeedsAligned` | app.py:50-54 | L records give max(0, L−1) rates. The k-th rate is the speed between records k and k+1. |
| `VoteSpeed.ComputeSpeeds` | app.py:48-54 | The loop returns exactly the rate sequence: one rate per consecutive pair, in order, rate k between records k and k+1. |
| `VoteSpeed.SpeedWithElapsedTime` | app.py:51-53 | With positive elapsed time, the rate is (votes difference) × 60 / (elapsed seconds). |
| `VoteSpeed.SpeedWithoutElapsedTime` | app.py:53 | With zero or negative elapsed time, the rate is exactly 0. |
| `VoteSpeed.SpeedSign` | app.py:52-53 | With positive elapsed time, the rate is negative, zero or positive exactly when the vote difference is: decreases are not clamped. |
| `VoteSpeed.RepeatedTimestampExample` | app.py:46-54 | Records at 0 s, 60 s, 60 s and 120 s with counts 100, 110, 110 and 125 give the rates 10, 0 and 15. The duplicate is not removed. |
| `VoteSpeed.RollingMeanValues` | app.py:57 | A one-value series is unchanged. Each end is the mean of itself and its one neighbour. Each interior point is the mean of itself and its two neighbours. |
| `VoteSpeed.RollingMeanSingle` | app.py:57 | Smoothing a series of one rate returns it unchanged. |
| `VoteSpeed.RollingMeanEnds` | app.py:57 | With at least two rates, the first and last smoothed values are two-point means. |
| `VoteSpeed.RollingMeanInterior` | app.py:57 | Away from the ends, a smoothed value is the three-point mean centred on it. |
| `VoteSpeed.MeanBounded` | app.py:57 | A mean lies within any lower and upper bound on the values it averages. |
| `VoteSpeed.RollingMeanWithinWindow` | app.py:57 | Each smoothed value lies between the minimum and maximum of its clipped window. |
| `VoteSpeed.RollingMeanConstant` | app.py:57 | A constant rate series smooths to itself. |
| `VoteSpeed.RollingMeanNonNegative` | app.py:57 | Non-negative rates smooth to non-negative values. |
| `VoteSpeed.CurvesShape` | app.py:42-57 | Every drawn curve belongs to a listed name with at least two records. Its k-th time point is record k+1's timestamp. It has one smoothed value per consecutive pair, and those values are the rolling mean of the rates. Every listed name with at least two records gets its curve. |
| `VoteSpeed.PlotSpeeds` | app.py:42-58 | The drawing loop skips names with fewer than two records and produces exactly the curves of the specification, in order. |
| `VoteSpeed.Dashboard` | app.py:30-58 | The whole dashboard draws at most four curves, in ranking order. Each is for a top-four entity with at least two records, its time points are that entity's timestamps after the first, and its values are the smoothed rates. Every top-four entity with at least two records gets its curve. |
| `Scrape.BlacklistedIffSpelled` | scrape_and_update.py:32-33 | A name is blacklisted exactly when it spells a listed name letter by letter, each capital letter in either case. |
| `Scrape.LowerCaseNameIsBlacklisted` | scrape_and_update.py:32-33 | "Kim Seon Ho" is blacklisted. |
| `Scrape.CleanVoteTextRemovesSeparators` | scrape_and_update.py:29 | Replacing "," and then "." by nothing equals keeping every character other than ',' and '.' in order. The result contains neither. |
| `Scrape.CleanVoteTextKeepsOthers` | scrape_and_update.py:29 | Deleting the commas and then the full stops leaves exactly the other characters of the text, in order. |
| `Scrape.ParseFormatRoundTrip` | scrape_and_update.py:37 | The decimal form of any integer parses back to that integer. |
| `Scrape.ParseIntRejects` | scrape_and_update.py:36-39 | Empty text, a bare sign, a wrong first character, or a non-digit after the first character does not parse. |
| `Scrape.SeparatedCountExample` | scrape_and_update.py:29-37 | "1,234" is read as 1234 votes. |
| `Scrape.AcceptedConcat` | scrape_and_update.py:26-41 | The accepted list of a concatenation of rows is the concatenation of the parts' accepted lists: each row contributes its entry in scrape order. |
| `Scrape.AcceptedNotBlacklisted` | scrape_and_update.py:32-34 | No accepted entry has a blacklisted name. |
| `Scrape.AcceptedFromRows` | scrape_and_update.py:36-41 | Every accepted entry comes from a row with its name whose cleaned vote text parses to its count. |
| `Scrape.AcceptedKeepsValidRows` | scrape_and_update.py:26-41 | Every row that is not blacklisted and whose cleaned text parses contributes its entry. |
| `Scrape.ScrapeTop4Female` | scrape_and_update.py:26-44 | The loop and the final sort return the top four of the accepted rows: min(4, accepted) entries, non-increasing, none blacklisted, each from a row whose cleaned text parses to its count. No accepted row left out has more votes than one kept. Ties keep scrape order, and the result is a prefix of the stably sorted accepted list. |
| `Ranking.SortByVotesDesc` | app.py:31 | definition: insertion sort that puts each entry in front of the first one whose count is not larger, so the largest counts come first and ties keep input order; specified by `Ranking.SortIsStable`. |
| `Ranking.Top` | scrape_and_update.py:44 | definition: the first n entries of that sort, or all of them when there are fewer; specified by `Ranking.TopSelects`. |
| `VoteSpeed.Lookup` | app.py:43 | definition: the records of the first entity with the given name, or none when no entity has it; specified by `VoteSpeed.LookupFinds`. |
| `VoteSpeed.LatestVotes` | app.py:30 | definition: for each entity with records, in snapshot order, its name with its last record's count; specified by `VoteSpeed.LatestVotesKeys`. |
| `VoteSpeed.Top4Names` | app.py:31-32 | definition: the names of the top four latest counts; specified by `VoteSpeed.Top4NamesSelects`. |
| `VoteSpeed.Speed` | app.py:51-53 | definition: the vote difference divided by the elapsed minutes, or 0 when no time elapsed; specified by `VoteSpeed.SpeedWithElapsedTime` and `VoteSpeed.SpeedWithoutElapsedTime`. |
| `VoteSpeed.Speeds` | app.py:50-54 | definition: the speed of every consecutive pair of records, in order; specified by `VoteSpeed.SpeedsAligned`. |
| `VoteSpeed.TimePoints` | app.py:56 | definition: every timestamp but the first. Its contract gives the length and states that point k is record k+1's timestamp. |
| `VoteSpeed.Window` | app.py:57 | definition: the values at i-1, i and i+1 that exist. Its contract states that it holds one to three values, value i among them. |
| `VoteSpeed.RollingMean` | app.py:57 | definition: the mean of each position's window. Its contract states that it keeps the length; `VoteSpeed.RollingMeanValues` gives the values. |
| `VoteSpeed.CurveOf` | app.py:44-57 | definition: no curve for fewer than two records, otherwise the time points and the smoothed rates; specified by `VoteSpeed.CurvesShape`. |
| `VoteSpeed.Curves` | app.py:42-58 | definition: the curves of the given names, in order, skipping the names without one; specified by `VoteSpeed.CurvesShape`. |
| `Scrape.ToUpper` | scrape_and_update.py:33 | definition: every ASCII lower-case letter replaced by its capital. Its contract states that it keeps the length and maps each character. |
| `Scrape.Blacklisted` | scrape_and_update.py:32-33 | definition: the upper-cased name is one of the three listed names; specified by `Scrape.BlacklistedIffSpelled`. |
| `Scrape.RemoveChar` | scrape_and_update.py:29 | definition: every occurrence of one character deleted; specified by `Scrape.CleanVoteTextRemovesSeparators`. |
| `Scrape.CleanVoteText` | scrape_and_update.py:29 | definition: commas deleted, then full stops; specified by `Scrape.CleanVoteTextRemovesSeparators` and `Scrape.CleanVoteTextKeepsOthers`. |
| `Scrape.ParseInt` | scrape_and_update.py:36-39 | definition: an optional sign followed by at least one ASCII digit gives its value, anything else gives no value; specified by `Scrape.ParseFormatRoundTrip` and `Scrape.ParseIntRejects`. |
| `Scrape.RowEntry` | scrape_and_update.py:29-39 | definition: no entry for a blacklisted name or for cleaned text that does not parse, otherwise the name with the parsed count; specified by `Scrape.AcceptedFromRows` and `Scrape.AcceptedKeepsValidRows`. |
| `Scrape.Accepted` | scrape_and_update.py:26-41 | definition: the entries of the rows that give one, in scrape order; specified by `Scrape.AcceptedConcat`, `Scrape.AcceptedNotBlacklisted`, `Scrape.AcceptedFromRows` and `Scrape.AcceptedKeepsValidRows`. |

## Left out

- Google Sheets credentials, opening, clearing and writing (scrape_and_update.py:8-15, 49-53): network I/O through a foreign library.
- The HTTP request and the HTML selectors (scrape_and_update.py:19-24, 28-29): the model starts from the `(name, text)` pairs they yield. The whitespace stripping of the text extraction is taken as already done.
- The endless retry loop, the five-minute sleep and the printed messages (scrape_and_update.py:56-65): scheduling and I/O.
- The DataFrame built from the top four (scrape_and_update.py:46): a presentation container. The model returns the list of entries.
- Page setup, finding the newest `vote_history_*.json` by modification time, JSON loading and stopping when no file exists (app.py:11-27): filesystem and UI.
- The colour table, the matplotlib figure and its labels (app.py:34-41, 58-67): presentation. `PlotSpeeds` returns the curves that would be drawn.
- Parsing ISO timestamps (app.py:46): timestamps are integer seconds, already parsed.
- Floating-point rounding: rates and means are exact reals.
- Python `int()` also accepts surrounding whitespace, underscores between digits and non-ASCII digits. `ParseInt` accepts only an optional sign followed by ASCII digits.
- `str.upper()` is Unicode-aware. `ToUpper` changes only ASCII a-z.
- Duplicate-timestamp removal, gap detection, outlier rejection, clamping negative rates and spline resampling: the code does none of these, so nothing models them.
