# Per-user daily request quota

A model of the request quota of the Streamlit dashboard in `app.py` and
`main.py`. Both pages run the same inline script:

1. load the quota table (`quota_data`, user id → `{date, count}`);
2. **daily reset** — if the caller has no record, or the record's date is not
   today's `"%Y-%m-%d"` string, replace it with `{date: today, count: 0}`;
3. show `MAX_QUOTA - count` as the calls left today (`MAX_QUOTA` is 10);
4. on a button press, **refuse** when `count >= MAX_QUOTA`; otherwise call the
   upstream API and add 1 to the count **only** when it answered 200;
5. on a press, write the table back; a run without a press saves nothing.

The two files differ only in where the user id comes from (a JWT `sub` claim
in `app.py`, the platform's signed-in user in `main.py`), so one model covers
both; the table below cites one file or the other and the corresponding lines
of the second are named in the text.

The project has two modules:

- `QuotaSpec` (`quota_spec.dfy`): the record, the table and the press outcome
  as datatypes; the reset, the remaining count, the gated press and one whole
  run of the page as functions, with the table each run saves; and lemmas about
  them, above all that a user who calls on one day gets at most `MAX_QUOTA`
  calls counted, whatever other users do.
- `QuotaStore` (`quota_table.dfy`): the table the script mutates in place, as
  a class `QuotaTable` with a `map` field, whose methods perform the reset and
  the gated increment and are proved to produce exactly what the `QuotaSpec`
  functions describe, while keeping every count within `[0, MAX_QUOTA]`.

The clock, the upstream HTTP call and the identity of the caller are inputs:
`today` is an opaque string compared only for equality, the upstream answer is
a boolean (`true` when the call answered status 200 with a body that decodes
as JSON), and the user id is a given string.

The pages keep one daily counter per user and check the limit before
counting; there are no hourly, lifetime or per-action limits, no weights and
no cooldown.

## Model

| member | source | states |
|---|---|---|
| `QuotaSpec.Initialized` | app.py:37-40 | after the reset the caller's record exists and is dated today; a record already dated today is kept unchanged, a missing record or one with any other date (past or future) gets count 0; the key set only gains the caller; every other user's record is unchanged; a well-formed table stays well formed (same logic as main.py:27-30) |
| `QuotaSpec.Remaining` | app.py:46 | the calls left, `MAX_QUOTA - count`, lie in `[0, MAX_QUOTA]` for an in-range record, and equal the full quota exactly when nothing has been counted (main.py:36) |
| `QuotaSpec.PressRecord` | app.py:48-59 | a press is refused exactly when `count >= MAX_QUOTA`; it succeeds exactly when the gate passes and upstream answered 200, and then the count rises by exactly 1; on a refusal or a non-200 answer the record is unchanged; the date never changes and an in-range count stays in range (main.py:38-51) |
| `QuotaSpec.Press` | app.py:57 | a press changes only the caller's record, as `PressRecord` says; the key set and every other user's record are unchanged; well-formedness is preserved (main.py:49) |
| `QuotaSpec.Run` | app.py:36-59 | one run of the page keeps the table well formed, shows a remaining count in `[0, MAX_QUOTA]`, has a press outcome exactly when the button was pressed, leaves the caller's record dated today, changes no other user's record, and refuses a press exactly when the shown remaining count is 0 |
| `QuotaSpec.Saved` | main.py:38-55 | the quota file after a run: unchanged when the button was not pressed (neither the reset nor a new record is saved); after a press it holds the caller's record dated today; other users' records are kept, and the invariant holds (same logic as app.py:48-62) |
| `QuotaSpec.RunAll` | main.py:26-55 | the invariant `0 <= count <= MAX_QUOTA` on every saved record holds after any number of runs, each run starting from what the previous one saved, and no record is ever removed |
| `QuotaSpec.InitializedIdempotent` | app.py:39-40 | running the page again on the same day does not reset the caller's count |
| `QuotaSpec.NoneLeftIffRefused` | app.py:46-51 | the page shows 0 calls left exactly when a press would be refused |
| `QuotaSpec.NewDayRestoresQuota` | main.py:29-36 | on a day other than the record's date the page shows the full quota again |
| `QuotaSpec.RunCounts` | app.py:39-62 | what is saved for a user on a day changes by exactly one when that user's run on that day succeeds and not at all otherwise, including runs by other users on any day |
| `QuotaSpec.SuccessBound` | app.py:50-57 | over any sequence of runs in which the user calls only on one day (others may call on any day), the successes counted for that user plus what the saved table had already counted for that user that day never exceed `MAX_QUOTA` |
| `QuotaSpec.DailyQuota` | app.py:9 | for one user calling on one date, at most `MAX_QUOTA` presses are counted as successes, whatever the other users do and on whatever days they call (main.py:8, main.py:40-49) |
| `QuotaStore.QuotaTable.constructor` | main.py:20-24 | the loaded table is held as it is and satisfies the invariant |
| `QuotaStore.QuotaTable.EnsureToday` | main.py:27-30 | the in-place reset leaves the table equal to `Initialized` of the old table and keeps the invariant |
| `QuotaStore.QuotaTable.RemainingFor` | main.py:36 | the displayed count lies in `[0, MAX_QUOTA]` and is 0 exactly when the caller's count has reached the cap |
| `QuotaStore.QuotaTable.Press` | main.py:38-51 | the in-place gated increment leaves the table and the outcome equal to `Press` of the old table and keeps the invariant |
| `QuotaStore.QuotaTable.HandleVisit` | main.py:26-51 | a whole run performed in place yields the table, the shown remaining count and the outcome that `Run` describes, and keeps the invariant |

## Left out

- Identity: JWT decoding and verification (app.py:13-27) and the platform's signed-in user (main.py:11-17) are library calls; the user id is a given string, and the pages' early stop when no identity is available is not modelled.
- The quota file: loading (app.py:30-34, main.py:20-24) and the writing itself (app.py:61-62, main.py:54-55) are file I/O; which table gets written is `QuotaSpec.Saved`. The table is taken as already loaded and well formed (every record has a date and an integer count in `[0, MAX_QUOTA]`); a file with an out-of-range count is not modelled.
- The upstream `requests.get` call is a network call; its result is the boolean `upstreamOk`, true when it answered 200 with a body that decodes as JSON.
- Exceptions: a `requests.get` that raises (app.py:53, main.py:44; no timeout is set) or a 200 answer whose body is not JSON (app.py:56, main.py:47) ends the run before the increment and before the save, so nothing is written; the model has no such aborted run (a run counts a 200 answer only when its body decodes, and an aborted run is the same as no run at all for the saved table).
- `datetime.today()` reads the clock; `today` is a parameter, compared only for equality.
- Page output (titles, greetings, success and error messages, the JSON dump of the answer) is display only; a button press is a method call.
- Two sessions reading and writing the shared quota file at the same time can lose updates; concurrency is not modelled, runs are sequential.
