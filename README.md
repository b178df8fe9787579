# jigoku-bot: the duplicate-suppression state machine of the announcer

jigoku-bot watches a YouTube channel and announces each new video, short
and stream in a Discord channel. Its `Looper` class keeps `video_ids`, a map
from each content type (`videos`, `shorts`, `streams`) to the set of video
IDs already seen or announced. Construction seeds each set with an
unlimited listing of the channel. Each cycle then does the following for
every content type:

- it lists the 28 newest IDs, and skips the type on a connection or JSON error;
- it skips every fetched ID that is already known;
- it announces each unknown ID, and adds the ID to the set only when the
  webhook answers HTTP 200. A timeout or another status leaves the ID
  unknown, so the next cycle tries it again.

This project models that state machine in Dafny and proves its rules:
- the sets only grow;
- an ID is added only on a successful announcement;
- other content types are untouched;
- a baseline ID is never announced;
- an accepted ID is never announced again;
- a failed ID is retried in every cycle that fetches it until it is accepted.

- `notifier.dfy`, module `Notifier`: the data types, the specification
  functions of one content type's known set and of a whole cycle, and the
  class `Looper`. Its constructor and methods model `__init__`, `looper`,
  `try_check_video_ids`, `check_new_video_ids`, `check_new_video_id` and
  `send_announcment`. `get_video_ids` is the `fetch` input, and `run` is
  left out. `Start` builds the looper, or fails when a baseline listing
  fails.
- `history.dfy`, module `History`: runs of many cycles. It covers one
  content type's known set after any prefix of the run, which IDs each cycle
  announces, and how a run of whole looper cycles splits into independent
  per-type runs.

The external calls are inputs. The channel listing is a function
`fetch(contentType, limit)`: `None` is the unlimited baseline and
`Some(28)` is the per-cycle limit. It returns a set of IDs or `FetchFailed`
(a connection or JSON decoding error). The Discord POST is a function
`post(id)` per content type. It returns `Status(code)` or `Timeout`.
Python's iteration order over a set is unspecified. `CheckNewVideoIds`
therefore picks IDs with `:|`. The lemmas `AnyOrderSameKnown` and
`AnyOrderAnnouncesOnce` show that every order gives the same result and
announces each new ID exactly once.

A content type with no entry in `announcements` does not stop start-up. The
process fails only when the first unknown ID of that type is announced:
`self.announcements[content_type]` raises `KeyError`, and nothing catches
it. The model represents this as `MissingAnnouncement` and `ok == false`. In
that case no POST is made and the set is unchanged.

## Model

| member | source | states |
|---|---|---|
| `Notifier.Start` | main.py:20-38 | the looper exists exactly when every unlimited baseline fetch succeeds; a failed baseline fetch ends start-up |
| `Notifier.Looper.constructor` | main.py:27-34 | `videoIds` has every content type as a key, each mapped to that type's unlimited listing |
| `Notifier.Looper.SendAnnouncement` | main.py:120-149 | the outcome is `MissingAnnouncement` exactly when the type has no target, a timeout exactly on a timeout, and accepted exactly when the status is 200 |
| `Notifier.Looper.CheckNewVideoId` | main.py:100-118 | a known ID gets no POST and no change; an unknown ID is added to its type's set (and nothing else changes) exactly when the POST was accepted; a missing target changes nothing |
| `Notifier.Looper.CheckNewVideoIds` | main.py:91-98 | the new map is the old one with only `ct`'s set replaced by the old set plus the accepted fetched IDs; POSTs go to exactly the fetched IDs not already known; a missing target with an unknown ID raises, with no change |
| `Notifier.Looper.TryCheckVideoIds` | main.py:78-89 | the fetch uses limit 28; a fetch failure makes no POST and changes nothing; otherwise as `CheckNewVideoIds` |
| `Notifier.Looper.Loop` | main.py:66-76 | every content type that is a key is processed; without a raise the new map is `CycleKnown` of the old one; each set only grows |
| `Notifier.CheckIds` | main.py:106-118 | the new set contains the old one and only adds fetched IDs; a fetched unknown ID is added exactly when its POST is accepted |
| `Notifier.TryCheck` | main.py:83-89 | a failed fetch leaves the set unchanged; in every case the set only grows, by fetched IDs only |
| `Notifier.CycleKnown` | main.py:75-76 | a cycle keeps the key set; each type's set only grows, and only by IDs of that type's bounded fetch |
| `Notifier.AnyOrderSameKnown` | main.py:97-98 | checking the fetched IDs one at a time, in any order, gives the old set plus the accepted fetched IDs |
| `Notifier.AnyOrderAnnouncesOnce` | main.py:97-107 | walking a set in any order POSTs every unknown fetched ID exactly once, and no other ID |
| `Notifier.SecondPassAnnouncesNothing` | main.py:106-118 | if every POST is accepted, checking the same IDs again makes no POST and changes nothing |
| `Notifier.CheckIdsStep` | main.py:97-118 | checking one more fetched ID updates the set as the single-ID check does |
| `History.CycleAddsAnnounced` | main.py:106-118 | a cycle adds exactly the IDs it POSTed and that were accepted, none of which were known |
| `History.KnownAfterStep` | main.py:83-118 | the set after k cycles is the set after k - 1 cycles plus the IDs accepted in cycle k - 1 |
| `History.KnownAfterIff` | main.py:32-118 | an ID is known after k cycles exactly when it was in the baseline or an earlier cycle POSTed it with success |
| `History.KnownGrows` | main.py:106-118 | the known set contains the baseline and never loses an ID along a run |
| `History.AttemptedIff` | main.py:100-118 | cycle k POSTs an ID exactly when it fetched the ID, the ID is not in the baseline and no earlier cycle POSTed it with success, so failed announcements are retried |
| `History.BaselineNeverAnnounced` | main.py:32-107 | an ID of the baseline listing is never POSTed |
| `History.NoRepeatAfterSuccess` | main.py:106-118 | after an accepted POST of an ID, no later cycle POSTs it again |
| `History.FailedFetchChangesNothing` | main.py:83-89 | a cycle whose fetch fails makes no POST and leaves the set unchanged |
| `History.LoopAfterKeys` | main.py:75-76 | a run of looper cycles keeps the key set of `video_ids` |
| `History.LoopAfterPerType` | main.py:75-76 | over a run of looper cycles each type's set evolves as that type's own run, so the single-type lemmas hold for every type |

## Left out

- The listing call (`scrapetube.get_channel`) and the extraction of `videoId` from its records are not modelled. The listing is an input: a set of IDs or a failure.
- Exceptions from the listing other than `ConnectionError` and `JSONDecodeError` are not modelled. The source does not catch them, so they end the process.
- `requests.post` is not modelled. The model also leaves out the Discord URL, the message text, the `@everyone` prefix, the `Authorization` header and the 60-second timeout. The webhook's response is an input: a status code or a timeout.
- A `ConnectionError` raised by `requests.post` is not modelled. The source catches only `Timeout` there, so such an error ends the process.
- A target that lacks its `channel_id` or `content` key is not modelled. An announcement target is a record that has both fields.
- `time.sleep`, the endless `run` loop and all logging are not modelled. The model covers one cycle (`Loop`) and finite runs of cycles (`History`).
- `main`, which reads the JSON configuration from the command line, is not modelled.
- Notifier.Looper.Loop: when a content type raises for a missing target, the contract only says that each set grew. It does not say which earlier types of the cycle were already updated. The source's exception ends the process at that point, so that state is never used.
