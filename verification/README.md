# igrank ranking engine in Dafny

igrank shows two images side by side, records which one a visitor clicked, and
ranks the images with an Elo-style rating. This project models the ranking
engine in `app.py`: the in-memory table `image_data` that maps every image id
to its record `{clicks, elo}`, and the four code paths that build, change,
save and read it.

- **Startup** (`Tables.InitialTable`, `App.ImageData.constructor`): every
  listed file name ending in `.png` gets `clicks = 0` and `elo = 1200`.
- **Snapshot reload** (`Tables.Build`, `App.ImageData.Reload`): the saved list
  of `(id, record)` pairs replaces the whole table. A repeated id takes the
  later record and keeps the place of its first occurrence, as a Python dict
  comprehension does.
- **Vote** (`Votes.Vote`, `App.ImageData.RecordClick`): the winner's click
  count goes up by one. Then both ratings move by the logistic update
  `Ew = 1 / (1 + 10 ** ((Rl - Rw) / 400))` with K = 32, and the table is saved.
  The steps run in the source's order. A missing winner fails before any
  change. A missing loser fails after the winner's click has been counted.
  A self-vote counts the click and leaves the rating 16 lower, because the
  loser's assignment runs last.
- **Save order** (`Saving.SortByElo`, `Saving.Snapshot`): the saved list is
  sorted by rating, highest first. Python's sort is stable also when
  reversed, so equal ratings keep the table's order.
- **Pair drawing** (`App.ImageData.NextPair`): draw two ids, and draw again
  while both are the same.

The table keeps its keys in insertion order (`Table.ids`) beside the map of
records, because the save order's tie-break depends on that order.

Numbers: `clicks` is a `nat` and `elo` a `real`. `10 ** x` is a parameter of
type `Elo.Pow10`: any function that is positive and equals 1 at 0. Three
lemmas (`Elo.FavouriteExpected`, `Elo.UpsetGainsMore`, `Elo.ExpectedBelowHalf`)
also assume that it is increasing (`Elo.Increasing`), and two
(`Elo.ExpectedComplement`, `Elo.RatedSymmetric`) that `10 ** -x` is the
reciprocal of `10 ** x` (`Elo.Reciprocal`).

Behaviours of app.py that a reader might not expect:

- A snapshot replaces the table outright. Images listed in the directory but
  absent from the snapshot are dropped. The table is not merged.
- There is no self-vote error.
- There is no guard for a table with fewer than two images: an empty table
  makes `random.choices` raise, and with one image the drawing loop never
  ends.
- A vote naming an unknown loser still leaves the winner's click counted.

## Model

| member | source | states |
|---|---|---|
| `Tables.PngFiles` | app.py:21-22 | a name is kept exactly when it is listed and passes the filter |
| `Tables.PngFilesAppend` | app.py:21-22 | filtering a listing split in two gives the two filtered parts one after the other, so the kept names stay in listing order |
| `Tables.InitialTable` | app.py:19-23 | the startup table is well formed; its keys are exactly the listed `.png` names; each maps to 0 clicks and rating 1200 |
| `Tables.InitialOrder` | app.py:19-23 | for a listing without repeats, the table's key order is the listing order of the `.png` names |
| `Tables.PutValid` | app.py:33-36 | one dict assignment keeps the table well formed, adds the key, sets its value and leaves every other key's value alone |
| `Tables.BuildValid` | app.py:33-36 | the dict comprehension over the snapshot list gives a well-formed table: no key twice, and the key list and the map agree |
| `Tables.BuildKeys` | app.py:33-36 | the reloaded keys are exactly the ids in the snapshot list |
| `Tables.BuildLastWins` | app.py:33-36 | each reloaded key carries the record of the last list entry with that id |
| `Tables.BuildDistinct` | app.py:33-36 | a list without repeated ids reloads to a table whose key order is the list's order |
| `Tables.BuildOrder` | app.py:33-36 | with repeated ids, keys come in the order of their first occurrences in the list |
| `Elo.Expected` | app.py:72 | the expected score lies strictly between 0 and 1, and is 1/2 between equal ratings |
| `Elo.Rated` | app.py:72-77 | the winner gains and the loser loses the same amount, strictly between 0 and 32; from equal ratings it is exactly 16 |
| `Elo.FavouriteExpected` | app.py:72 | when `10 ** x` is increasing, the expected score is above 1/2 exactly when the player is rated above the opponent |
| `Elo.UpsetGainsMore` | app.py:72-77 | a winning favourite gains less than 16 and a winning underdog gains more than 16, in both directions |
| `Elo.ExpectedComplement` | app.py:72-73 | the loser's expected score `1 - Ew` is the same logistic formula seen from the loser's side |
| `Elo.RatedSymmetric` | app.py:72-77 | what A gains by beating B plus what B gains by beating A is exactly 32 |
| `Votes.Vote` | app.py:62-80 | the key set never changes; an unknown winner fails with no change; an unknown loser fails after the winner's click is counted; the winner's clicks rise by 1 and every other id's clicks stay; ids other than winner and loser keep their records; on success the loser's new rating, and the winner's when the two differ, are exactly what `Elo.Rated` gives for the old ratings; a vote between two different images raises the winner and lowers the loser by the same amount, less than 32, and by exactly 16 from equal ratings; a self-vote counts the click and lowers the rating by 16 |
| `Votes.VoteKeepsEloTotal` | app.py:72-80 | a successful vote between two different images leaves the sum of all ratings in the table unchanged |
| `Votes.ReplayMonotone` | app.py:66-80 | over any run of votes, failed ones included, no key is added or removed and no click count decreases |
| `Saving.Items` | app.py:89-90 | `image_data.items()` lists the keys in table order, and an entry occurs exactly when it is a key with its record |
| `Saving.SortByElo` | app.py:89-91 | the sorted list is ordered by descending rating and is a permutation of its input |
| `Saving.SortRatedAt` | app.py:89-91 | the sort is stable: for every rating, the entries with that rating come out in their input order |
| `Saving.Snapshot` | app.py:88-92 | the saved list is a permutation of the table's items, in descending rating order, with equal ratings in table order |
| `Saving.SortedUnique` | app.py:89-91 | two lists that are both descending and agree on the entries of every rating are equal, so the save order is fully determined |
| `Saving.SortByEloIsStableSort` | app.py:89-91 | any descending list that keeps each rating's entries in input order is exactly the list `SortByElo` returns |
| `Saving.SortDistinct` | app.py:89-91 | sorting keeps the ids of the list distinct |
| `Saving.ReloadAfterSave` | app.py:33-36 | reloading a saved snapshot restores every key with its clicks and rating, in the saved order |
| `App.ImageData.constructor` | app.py:19-23 | the new table holds exactly the listed `.png` names, each with 0 clicks and rating 1200 |
| `App.ImageData.Reload` | app.py:30-36 | the snapshot replaces the whole table, whatever it held before |
| `App.ImageData.RecordClick` | app.py:60-92 | the records become those `Votes.Vote` gives; the key order is unchanged; the reply is the raised error or the snapshot written for the new table |
| `App.ImageData.NextPair` | app.py:41-49 | an empty table makes the draw fail; a pair returned has two different keys of the table, taken from the first draw whose two picks differ; the loop keeps drawing exactly when every draw picked one id twice, always so with a single image |
| `App.Startup` | app.py:19-36 | the table after startup is the listing's table when no snapshot exists and the snapshot's table otherwise |

## Left out

- The Flask routes, `render_template`, `send_from_directory`, `jsonify` and reading `winner` and `loser` out of `request.json` are web I/O. A request without those fields fails before any change, and that path is not modelled.
- `os.listdir`, `os.path.exists` and the reading and writing of `elo_ratings.json` are filesystem I/O. The listing and the snapshot arrive as sequences, and `RecordClick` returns the list it would write. JSON text, indentation and `sort_keys` are not modelled.
- A snapshot file whose records are not of the shape `{clicks, elo}`, or whose `clicks` is not a natural number, is not modelled: `Record.clicks` is a `nat`.
- The print logging is left out.
- App.ImageData.NextPair: the draws of `random.choices` are a finite sequence of positions supplied by the caller. The weighting by rating, and the `ValueError` that `random.choices` raises when the weights do not sum to a positive number, are not modelled. When the supplied draws run out without two different picks, the result is `Redrawing`, where the source would keep drawing.
- Elo.Rated: ratings are exact reals. The IEEE rounding of `10 ** x` and of the rating arithmetic is not modelled, so the trajectories of repeated votes match only up to rounding. Python's `10 ** x` raises `OverflowError` once `(loser_rating - winner_rating) / 400` exceeds about 308.25, that is when the loser is rated more than about 123,300 above the winner; the model's `pow10` is total, so that exception path of `record_click` is not modelled.
- Elo.Pow10: `10 ** x` is any positive function with value 1 at 0. `Elo.FavouriteExpected`, `Elo.UpsetGainsMore`, `Elo.ExpectedBelowHalf`, `Elo.ExpectedComplement` and `Elo.RatedSymmetric` also assume that it is increasing or that `10 ** -x` is its reciprocal.
- Tables.IsPng: `fnmatch` normalises case on case-insensitive platforms. The model's filter is case-sensitive.
- Concurrent requests share `image_data` without any lock in the source. The model runs one operation at a time.
