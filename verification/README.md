# Spark matching service — Dafny model

This project models the in-memory behaviour of the Spark dating API (`main.py`). The
service keeps one document with three parts:

- `users`: profiles keyed by Telegram id;
- `likes`: an append-only ledger of `(from_id, to_id, action)` entries;
- `matches`: a list of `(user1, user2)` records.

Every data route loads that document. The two write routes change it and save it back;
the four read routes only read it. The model keeps
the document as the value `Data.Document`. The two write routes change it in place:
`Storage.Store` holds the three parts as fields, and its methods `UpsertProfile` and `Like`
update them. Each method is proved to follow a document-to-document function in `Routes`
(`WithProfile`, `AfterLike`). The read routes work on a loaded `Document` value:

- `GetProfile` looks up one profile;
- `GetFeed` collects the eligible candidates, shuffles them in an array and truncates to
  `limit`;
- `GetMatches` walks the match records;
- `GetStats` counts likes received and matches.

Ids are plain integers. The service stores them under `str(id)` keys and reads them back
with `int(...)`, and that round trip is the identity.

Actions are stored unchecked. The ledger is append-only, so a later action never
replaces an earlier one. Every reciprocal positive action appends another match record.
The reverse check runs after the new entry is appended, so a self-like matches itself.
`views` is three times `likes`, and `likes` counts only the action `"like"`.

A `/feed` request without a `limit` uses 20 (main.py:70); the model takes `limit` as a
parameter.

## Model

| member | source | states |
|---|---|---|
| `Storage.Store.constructor` | main.py:24-28 | A store with no data file starts with no users, no likes and no matches |
| `Storage.Store.UpsertProfile` | main.py:54-59 | The profile is stored under its own id and replaces any earlier one; all other users, the likes and the matches are unchanged; profiles stay keyed by their own ids |
| `Routes.GetProfile` | main.py:61-67 | Returns the profile exactly when one is stored under the id; otherwise fails with 404 "User not found" |
| `Properties.ProfileUpsertThenGet` | main.py:54-67 | After a submission, reading the submitted id returns that profile; every other id reads as before; likes and matches are untouched |
| `Routes.CollectCandidates` | main.py:76-81 | The candidate pass yields every eligible id exactly once: opposite gender, not the requester, not acted on by the requester |
| `Routes.Shuffle` | main.py:82 | The in-place shuffle leaves a permutation of the array, whatever the random draws are |
| `Routes.PrefixLength` | main.py:83 | `feed[:limit]` keeps exactly `min(limit, length)` items for a non-negative limit; a negative limit drops that many from the end, leaving none when it exceeds the length |
| `Routes.GetFeed` | main.py:69-83 | Fails with 404 "Register first" exactly when the requester has no profile; otherwise returns the profiles of a prefix of a permutation of the eligible ids, of length given by the slice rule |
| `Properties.FeedIsFiltered` | main.py:73-83 | Every feed profile has the gender opposite to the requester's ("female" for "male", else "male"); none is the requester or someone the requester acted on with any action; none repeats; there are at most `limit` of them, exactly `min(limit, candidates)` for a non-negative limit |
| `Properties.SeenAfterAppend` | main.py:77 | A new ledger entry adds its target to the actor's acted-on set and changes no other user's set |
| `Properties.FeedExcludesActedOn` | main.py:77-88 | Right after any action toward a user, "nope" included, that user is not a candidate for the actor when the actor is registered; a new action, even from an unregistered actor, never adds a candidate for anyone |
| `Properties.ExclusionSurvivesWrites` | main.py:55-88 | Once the requester has acted on a user, that user stays acted-on and is not a candidate after any later profile submission or any later action |
| `Storage.Store.Like` | main.py:85-100 | The action is appended to the likes; users never change; `matched` holds exactly when the action is "like" or "super" and the updated ledger has a positive entry pointing back; then one record `(from_id, to_id)` is appended to the matches, otherwise they are unchanged |
| `Properties.MatchedIff` | main.py:88-96 | A positive action matches exactly when an earlier positive entry points back, or when it is a self-like; "nope" and unknown actions never match |
| `Properties.LaterActionsKeepMatch` | main.py:88-95 | The ledger is append-only: no later action, a "nope" included, undoes a match condition |
| `Properties.ReciprocalLikesMatch` | main.py:88-98 | Between two users with no earlier positive entry back, the first like does not match; the reply does match and appends exactly one record from the replier |
| `Properties.RepeatedMatchDuplicates` | main.py:90-98 | Repeating an action that matched matches again and appends a second, identical match record |
| `Routes.GetMatches` | main.py:102-112 | Lists, in match-record order, the profile of the other party of each record involving the caller; records whose other id is 0 or unregistered are skipped |
| `Properties.OtherPartyJoins` | main.py:107 | The other-party rule names `other` exactly when the record joins the caller and `other`, in either slot order |
| `Properties.MatchedProfilesSound` | main.py:105-112 | Every listed profile is stored under its non-zero id, and some match record joins that id with the caller |
| `Properties.MatchedProfilesComplete` | main.py:106-111 | Every record joining the caller with a registered non-zero id puts that user's profile in the listing |
| `Properties.MatchListingSymmetric` | main.py:106-111 | For two registered non-zero ids, each lists the other exactly when a match record joins them |
| `Routes.LikesReceived` | main.py:117 | The count of "like" entries aimed at a user never exceeds the ledger length |
| `Properties.LikesReceivedAppend` | main.py:117 | Appending an entry raises a user's likes count by one exactly when it targets that user with "like" |
| `Routes.MatchCount` | main.py:118 | The count of records containing a user never exceeds the number of records |
| `Properties.MatchCountAppend` | main.py:118 | Appending a record raises a user's match count by one exactly when the user is in either slot |
| `Properties.MatchedProfilesWithinCount` | main.py:105-118 | The `/matches` listing is never longer than the match count of `/stats` |
| `Routes.GetStats` | main.py:114-119 | `views` is three times `likes`; the counts are bounded by the ledger and match-list lengths |
| `Properties.StatsAfterLike` | main.py:85-119 | One `/like` raises the target's `likes` by one only for "like", not for "super" or "nope"; it raises each party's `matches` by one when it matched, and a self-match counts once |
| `Properties.MutualLikeScenario` | main.py:54-119 | A man and a woman register and see each other. His like does not match; her like back creates one match. Afterwards neither is in the other's feed, each lists the other, and his stats are 1 like, 1 match, 3 views |

## Left out

- The FastAPI application, CORS middleware, static frontend mount and the `/` health route (main.py:8-19, 50-52) are web plumbing.
- `load_data`/`save_data` (main.py:24-32) are JSON file I/O. The store is an in-memory document, and the constructor stands for the missing-file default. The lost-update race of concurrent whole-file read-modify-write cycles is a concurrency matter and is not modelled.
- Request validation (main.py:35-47) is not modelled: fields arrive already typed. An explicit `null` for `bio` or `photo` is not distinguished from a string.
- `Routes.Shuffle`: the distribution of `random.shuffle` is not modelled. The random draws are a parameter, and only the permutation is proved.
- `Routes.CollectCandidates`: the insertion order of the users dictionary is not modelled. Keys are visited in an arbitrary order, which the following shuffle makes immaterial. The shuffle runs on candidate ids rather than on profile dicts, and the profiles are looked up afterwards; since ids are the dictionary keys, the result is the same.
- `Routes.GetProfile`: the `if not user` test is modelled as absence, because a stored profile dict is never empty.
- bot.py, the Telegram bot front door, is not part of this model: it is network I/O with no domain logic.
