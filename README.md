# KUVO playlist → Mastodon bot, modelled in Dafny

The bot polls the KUVO playlist page on Spinitron. It turns the newest
playlist row into a record, the dictionary `data_spin_item`. It posts
"time title by artist from album" to a Mastodon account, with the cover
attached when there is a real one. A one-line state file holds the id of
the last song posted, so that a song still on air is not posted twice.

This project models that core of `kuvo_playlist_mastodon.py`:

- **Record shaping** (`Scraper`). This is the part of `get_current_song` that
  starts from the parsed `data-spin` dictionary and updates it in place. It
  adds the spin time and falls back to the title when the id is null. It
  rewrites the cover URL's `170x170` size token to the configured size and
  classifies the cover against Spinitron's loudspeaker placeholder.
  The dictionary is a `map<string, Value>`. `Value` is JSON `null`, a string,
  or any other JSON value. This keeps Python's `is None`, `!=` and `+` on
  these values faithful.
- **Python string behaviour** (`PyStr`). `str.replace` is specified against
  `str.split`/`str.join`. `str.strip()` uses Python's whitespace set.
  `readline()` in text mode is covered too.
- **Announcement** (`Announce`). The status text and the cover's alt text are
  pure functions. So is the choice between "upload the cover and post with
  it" and "post text only", given as an `Action` value.
- **State store and dedup gate** (`Poller`). Class `Bot` holds the state
  file's contents (absent, or a string) and the statuses posted so far.
  `ReadState`/`WriteState` model the two file helpers. `Cycle` is the
  branch of the main loop. `Poll` is one loop pass (scrape, then cycle).
  `Run` is the `while True` loop over a finite run of page snapshots. The
  function `Step` specifies a cycle, and the lemmas about repeated cycles
  are stated over it. `Poll` and `Run` scrape with the corrected
  `Scraper.GetCurrentSong` from the "## Findings" row for lines 74-77, so a
  page without a spin row gives the not-found record, which the gate skips.
  As written, such a page raises at line 75 instead
  (`Scraper.GetCurrentSongAsWritten`), and the cycle and the run end with
  `Crashed(DataSpinLoadsDict)`.

Every Python exception ends the polling process, because nothing catches
it. The model therefore represents each one as a `Fault`: a `Crashed`
decision, an `Err` result from the scraper, or the write fault carried by a
`Posted` decision (the TypeError `write_state` raises after a post when the
id is not a string). In these places the model
follows what the code does:

- The gate compares with the stored id before it tests for `"notfound"`. A
  stored `"notfound"` therefore gives "already posted", not "not found".
- The "already posted" message on line 152 reads `s` and then `a`, so a
  record without either key raises there instead of being skipped.
- A non-200 answer leaves `data_spin_item` unbound, so line 91 raises. It is
  not skipped quietly.
- The placeholder cover only sets `image_status` to `"no image"`. The
  `image` URL stays in the record.

## Model

| member | source | states |
|---|---|---|
| `PyStr.ReplaceIsJoinOfSplit` | kuvo_playlist_mastodon.py:84 | `src.replace(tok, size)` equals `size.join(src.split(tok))`: the left-to-right scan rewrites every non-overlapping occurrence and nothing else |
| `PyStr.SplitPartsAvoidPattern` | kuvo_playlist_mastodon.py:84 | no piece between the rewritten occurrences contains the token, so no occurrence is left behind |
| `PyStr.SplitCutsAtFirst` | kuvo_playlist_mastodon.py:84 | each cut is at the leftmost remaining occurrence: no occurrence starts inside the first piece; with more than one piece, an occurrence starts right after it and the other pieces are the split of what follows that occurrence; with one piece, the piece is the whole string. For a self-overlapping token such as `170x170` in `170x170x170`, this is the occurrence at index 0, not the one at index 4 |
| `PyStr.SplitJoinRoundTrip` | kuvo_playlist_mastodon.py:84 | joining the pieces with the token gives back the original URL |
| `PyStr.ReplaceWithoutPattern` | kuvo_playlist_mastodon.py:82-84 | a src without the `170x170` token is kept verbatim |
| `PyStr.FirstLine` | kuvo_playlist_mastodon.py:25 | `readline()` gives the longest prefix with no line break; the character after it, if any, is a line break |
| `PyStr.StripSlice` | kuvo_playlist_mastodon.py:25 | `strip()` gives a slice of the line whose ends are not whitespace; everything outside the slice is whitespace |
| `PyStr.StripIdentity` | kuvo_playlist_mastodon.py:25 | `strip()` leaves a string unchanged exactly when it has no whitespace at either end |
| `PyStr.FirstLineStripIdentity` | kuvo_playlist_mastodon.py:15-31 | the stripped first line of a string is the whole string exactly when the string has no line break and no whitespace at either end |
| `Records.Field` | kuvo_playlist_mastodon.py:102-103 | reading a key as a string succeeds exactly when the key holds a string; otherwise KeyError (missing) or TypeError (not a string) |
| `Scraper.ShapeRow` | kuvo_playlist_mastodon.py:66-89 | for a found row: raises exactly when data-spin, the spin-time cell, `i`, `s` (for a null `i`), the spin-art cell or `image` (for an `<img>` without src) is missing. Otherwise other keys are kept, `time` is the cell text, and `i` is `s` when `i` was null and unchanged otherwise. `image` is the src with every `170x170` replaced. `image_status`, set only when there is an `<img>`, is `"no image"` exactly when `image` is the placeholder and `"image"` otherwise |
| `Scraper.GetCurrentSong` | kuvo_playlist_mastodon.py:52-91 | a non-200 answer raises; a page without a spin row gives the not-found record; a row is shaped as `ShapeRow` states |
| `Scraper.GetCurrentSongAsWritten` | kuvo_playlist_mastodon.py:74-77 | as written, a 200 page without a spin row raises instead of giving the not-found record |
| `Scraper.PlaceholderSurvivesResize` | kuvo_playlist_mastodon.py:84 | the placeholder URL has no size token, so resizing keeps it whatever the configured size |
| `Scraper.PlaceholderRowIsNoImage` | kuvo_playlist_mastodon.py:84-89 | a row whose `<img>` src is the placeholder is shaped with the placeholder as `image` and `"no image"` as `image_status` |
| `Announce.AnnouncementText` | kuvo_playlist_mastodon.py:102 | the text exists exactly when `time`, `s`, `a`, `r` are strings, and is `time + " " + s + " by " + a + " from " + r` |
| `Announce.PostAction` | kuvo_playlist_mastodon.py:102-114 | the cover is uploaded and attached if and only if `image_status == "image"`; then the media call carries `image` and the alt text `"An image of the cover of the record album '" + r + "' by " + a`; otherwise a text-only post; raises when a field it reads is missing |
| `Announce.MediaIffRealCover` | kuvo_playlist_mastodon.py:86-89 | for a record classified by the scraper, media is attached exactly when the image is not the placeholder |
| `Poller.Bot.WriteState` | kuvo_playlist_mastodon.py:15-18 | the file then holds the id; a non-string id leaves it truncated to empty and raises |
| `Poller.Bot.ReadState` | kuvo_playlist_mastodon.py:22-31 | returns the stripped first line and leaves the file alone; on a missing file returns `"starting up"` and leaves the file holding `"starting up"` |
| `Poller.Bot.PostToMastodon` | kuvo_playlist_mastodon.py:95-116 | appends exactly the chosen action to the account when every field is there and Mastodon accepts, and nothing otherwise |
| `Poller.Bot.Cycle` | kuvo_playlist_mastodon.py:137-152 | decision, new state file and account follow `Step`: when the id equals the stored id, skip (or raise if `s` or `a` is missing, for the message); skip when it is `"notfound"`; otherwise post once and then write the id |
| `Poller.Bot.Poll` | kuvo_playlist_mastodon.py:131-152 | the returned id is the scraped record's `i`, the scraped record is what the corrected `get_current_song` (`Scraper.GetCurrentSong`, see "## Findings") gives for the page, and the decision, the new state file and the statuses added are exactly those of `Step` on that record and the file as it was |
| `Poller.StepsExtend` | kuvo_playlist_mastodon.py:130-154 | one more loop pass appends its outcome to the run, and its status and id (when it posts) to the statuses and ids posted |
| `Poller.RunSoFarStep` | kuvo_playlist_mastodon.py:130-154 | a pass after passes that did not raise extends the run: the account, the ids posted, the file and the ending fault follow the cycles over the scraped records |
| `Poller.Bot.Run` | kuvo_playlist_mastodon.py:130-154 | each poll scraped its page as the corrected `get_current_song` (`Scraper.GetCurrentSong`, see "## Findings") does; the statuses added, the ids posted, the final file and the fault that ended the run are exactly those of the cycles (`Steps`) over the scraped records; no cycle but the last raised, and the run stops only when the pages run out or one raises; hence `"notfound"` is never posted, the first post differs from the stored id, no clean id is posted twice in a row, and the file ends holding the last posted id (or, when nothing was posted, as it was, or created holding `"starting up"` if it was missing) |
| `Poller.RunSafety` | kuvo_playlist_mastodon.py:137-154 | for any records, consecutive cycles never post `"notfound"`, post first an id different from the one stored, never post a clean id twice in a row, and leave the last posted id in the file |
| `Poller.PostsMatchIds` | kuvo_playlist_mastodon.py:146-149 | each posting cycle adds exactly one status and one id |
| `Poller.StoredDuringRun` | kuvo_playlist_mastodon.py:22-31 | during a run, the state file reads back as it did at the start while nothing has been posted, and as the last posted id once that id is clean |
| `Poller.RunInvariantStep` | kuvo_playlist_mastodon.py:131-154 | one loop pass keeps what `Run` promises: `"notfound"` not posted, the first post differs from the starting id, no clean repeat, the file holding the last posted id |
| `Poller.NoCleanRepeatExtends` | kuvo_playlist_mastodon.py:144-150 | appending a post that differs from the previous posted id, when that id is clean, never makes a clean id repeat |
| `Poller.StartingUpIsClean` | kuvo_playlist_mastodon.py:28-30 | `"starting up"` reads back as itself once written |
| `Poller.WriteThenRead` | kuvo_playlist_mastodon.py:15-31 | `write_state(id)` then `read_state()` returns `id` exactly when `id` has no line break and no whitespace at either end |
| `Poller.PostsIffNew` | kuvo_playlist_mastodon.py:144-150 | a cycle posts if and only if the id differs from the stored id and from `"notfound"`, the post's fields are present and Mastodon accepts |
| `Poller.AlreadyPostedIff` | kuvo_playlist_mastodon.py:143-152 | a cycle is skipped as already posted exactly when the scraped id equals the stored id and the record has `s` and `a`; a record with the stored id but no `s` raises KeyError |
| `Poller.StateAdvancesOnlyOnPost` | kuvo_playlist_mastodon.py:137-152 | a cycle that does not post leaves an existing file unchanged; one that posts leaves the posted id in the file |
| `Poller.PostedOnlyNewIds` | kuvo_playlist_mastodon.py:144-149 | a posting cycle saw an id different from the stored id and from `"notfound"` |
| `Poller.NotFoundNeverStored` | kuvo_playlist_mastodon.py:144-150 | no cycle writes `"notfound"` to the state file |
| `Poller.NotFoundNeverPosted` | kuvo_playlist_mastodon.py:144-147 | the not-found record is always skipped, and its cycle leaves the state as read |
| `Poller.RepeatSkippedIffClean` | kuvo_playlist_mastodon.py:144-150 | after a cycle posts id `x`, the next cycle on the same record is "already posted" exactly when `x` is clean; an id with a line break or surrounding whitespace is posted again |

Functions without a row of their own are specified by the rows that name
them: `PyStr.Replace` by `ReplaceIsJoinOfSplit`, `SplitCutsAtFirst`, `SplitPartsAvoidPattern` and
`ReplaceWithoutPattern`; `PyStr.Strip` by `StripSlice` and `StripIdentity`;
`Poller.StoredId` (what `read_state` returns) by `Poller.Bot.ReadState`,
`FirstLineStripIdentity` and `WriteThenRead`; `Poller.Step` (one pass of the
loop body) by `Poller.Bot.Cycle` and the `Poller` lemmas from `PostsIffNew`
on; `Poller.PostOutcome` by `Poller.Bot.PostToMastodon` and `PostsIffNew`;
`Records.NotFoundItem` (the record built on line 75) by
`Scraper.GetCurrentSong` and `NotFoundNeverPosted`; `Announce.CoverAltText`
(line 103) by `Announce.PostAction`.

## Findings

| source | as written | input that shows it | evidently intended | confidence | as-written member | corrected member |
|---|---|---|---|---|---|---|
| kuvo_playlist_mastodon.py:74-77 | a page without a spin row passes a dict literal to `json.loads` (TypeError); line 77 would then call `find` on the missing row (AttributeError) | a 200 answer whose HTML has no `tr.spin-item` | return the not-found record, which the gate then skips without posting or storing it | high; not executed | `Scraper.GetCurrentSongAsWritten` | `Scraper.GetCurrentSong` (with `Poller.NotFoundNeverPosted`, `Poller.NotFoundNeverStored`) |

Two other faults are modelled as the code behaves, as faults that end
the process, and not corrected:
- A non-200 answer raises at line 91.
- An `<img>` without `src` raises at line 86, unless the data-spin JSON
  itself has an `image` key.

The model shows one more behaviour that is easy to miss.
`RepeatSkippedIffClean` proves that the gate only prevents double posts for
ids that survive `readline().strip()`. An id with a line break, or with
whitespace at either end, is posted again on every cycle.

## Left out

- HTTP requests (line 54 for the page, line 108 for the cover) and the
  BeautifulSoup navigation (lines 58-77): the model takes the parsed row
  (`Scraper.Page`, `Scraper.Row`) as input.
- `json.loads` of the data-spin attribute (line 68): the model takes its
  output as a dictionary, or None when the attribute is missing or is not a
  JSON object.
- Mastodon client construction and calls (lines 97-114): the model gives the
  chosen `Action` plus one boolean saying whether the download, upload and
  post all succeed. The media bytes, the mime type and any orphaned upload
  are not modelled.
- `get_config`, the `sys.argv` handling, `time.sleep`, `datetime.now` and
  every `print`: configuration, the clock and logging. `formatted_datetime`
  only feeds log lines.
- `Poller.Bot.Run`: the endless `while True` loop is modelled over a finite
  sequence of page snapshots.
- `Poller.Bot.ReadState`: a file that exists but cannot be read or decoded
  (the bare `except` catches that too) is modelled like a missing one. A
  failing write of the state file (permissions, full disk) is not modelled.
- A process killed between the Mastodon post and `write_state` is not
  modelled. Only the TypeError from writing a non-string id is.
- `Scraper.ShapeRow`: states exactly when shaping raises, but not which
  exception type is raised for each case.
- `PyStr.ReplaceIsJoinOfSplit`: only non-empty patterns are covered; the bot
  always replaces the fixed token `170x170`.
- kuvo_playlist_api.py (a Flask endpoint over SQLite) and last_played.py
  (a one-shot SQLite query) are not part of this model. They are database
  and web plumbing.
- Numbers, booleans, lists and objects in the data-spin JSON are one value,
  `Value.NonString`, which never equals a string and cannot be concatenated
  to one; their printed form is not modelled.
