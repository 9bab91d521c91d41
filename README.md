# Planning-poker session engine — a Dafny model

This project models the planning-poker core of the PRE-PI planning tool
(`app.py`): the in-memory registry of estimation sessions (one per
feature), joining a session (the first joiner becomes host), blind voting
on five estimation fields, the host-only reveal that snaps the mean of each
field's votes to the nearest card of the Fibonacci deck, the host-only
commit of the consensus into the feature table, and the polled state
snapshot that hides other participants' values until the reveal.

Layout, one module per component:

- `wrappers.dfy` — `Wrappers`: the `Option` type (Python's value-or-`None`).
- `deck.dfy` — `Deck`: `FIBO_DECK`, `ESTIMATION_FIELDS` and `nearest_fibo`.
  The mean `sum / n` is taken exactly: a card `d` is compared by the integer
  `|d * n - sum|` instead of the float `|d - sum / n|`; lemma
  `DistOrdersLikeRealDistance` shows the two orders agree.
- `text.dfy` — `Text`: Python's `str.strip()` (with `str.isspace()`'s
  whitespace set) and `sorted(...)` of a set of names (code-point order).
- `ledger.dfy` — `Ledger`: one field's ledger (participant -> vote), its sum,
  and the consensus the reveal computes.
- `session.dfy` — `PokerSession`: the session record, its invariant `Valid`,
  and the effect of a successful join, vote and reveal as functions, with
  lemmas relating them (host fixed once set, idempotent join, a vote erases
  a reveal, votes commute, host = first joiner over any run).
- `store.dfy` — `FeatureStore`: the feature table as rows of cells and the
  commit loop (`FeatureTable.Commit`).
- `registry.dfy` — `Poker`: `Registry`, a class whose `sessions` map is
  `POKER_SESSIONS`, with one method per handler (`StartPoker`, `Join`,
  `Vote`, `Reveal`, `Commit`, `State`) and the host guard `IsHost`.
- `scenario.dfy` — `PokerScenario`: the end-to-end round for feature
  "FTR-1" (A hosts, votes 8 and 13, the reveal gives 8, a late vote hides it).

Inputs the handlers take from outside are parameters: the cookie identity
(`session["user"]`) is `claim: Option<string>`; the vote value after
`int(value)` is `Option<int>` (`None` when the conversion raises
`TypeError` or `ValueError`, the two exceptions `api_vote` catches); the
outcome of the write-back at the end of `api_commit` is `saved: bool`
(false when that `to_excel` raises `PermissionError`).

Behaviours of the handlers worth knowing:

- A vote needs only an identity claim; `api_vote` never looks at `users`,
  so a claim made in one session can vote in another.
- Joining rejects an unknown session (404) and a blank name.
- `api_state` looks the session up before checking the claim; `api_vote`
  checks the claim first. Both orders are modelled as written.
- The snapshot always carries the session's consensus; it is empty whenever
  the session is hidden, which the model proves from the session invariant.
- A failed write-back at the end of a commit returns the conflict and leaves
  both the stored rows and the session as they were.

## Model

| member | source | states |
|---|---|---|
| Deck.FirstNearest | app.py:95 | `min(deck, key=...)` returns an index whose card is nearest, and every earlier card is strictly farther (the first minimum wins) |
| Deck.NearestFibo | app.py:94-95 | the result is a deck card, no card is nearer to the mean, and among equally near cards it is the smallest |
| Deck.DistOrdersLikeRealDistance | app.py:95 | the integer distance `|d*n - sum|` orders cards exactly as the real distance `|d - sum/n|` does |
| Deck.NearestFiboUnique | app.py:94-95 | the three properties of NearestFibo determine its result uniquely |
| Deck.NearestFiboOfCard | app.py:94-95 | a mean equal to a card snaps to that card |
| Deck.NearestFiboTieExample | app.py:94-95 | the mean 10.5 of 8 and 13 ties and snaps to the smaller card, 8 |
| Deck.NearestFiboMeanExample | app.py:419-420 | the mean 16/3 of 3, 5 and 8 snaps to 5 |
| Text.TrimStart | app.py:279 | drops exactly the leading whitespace: the result is a suffix that does not start with whitespace, and everything dropped is whitespace |
| Text.TrimEnd | app.py:279 | drops exactly the trailing whitespace, symmetrically |
| Text.Strip | app.py:279-281 | the stripped name is a slice of the raw name with only whitespace before and after it; it is empty iff the raw name is all whitespace; otherwise it neither starts nor ends with whitespace |
| Text.StripUnpadded | app.py:279 | a name without surrounding whitespace is unchanged by strip |
| Text.StripIdempotent | app.py:279-286 | stripping the stored name again changes nothing |
| Text.LessIrreflexive | app.py:352 | no string sorts before itself |
| Text.LessTransitive | app.py:352 | Python's string order is transitive |
| Text.LessTotal | app.py:352 | any two different strings are ordered one way or the other |
| Text.SortedUnique | app.py:352 | two sorted sequences with the same elements are equal, so the sorted list depends only on the set |
| Text.Least | app.py:352 | returns an element of the set that sorts before every other element |
| Text.SortedList | app.py:352 | `sorted(list(t))`: strictly increasing, exactly the elements of `t`, each once |
| Ledger.SumOfRemove | app.py:419 | the sum of a ledger's values does not depend on which vote is taken first |
| Ledger.SumOfUpdate | app.py:400 | overwriting or adding one vote changes the sum by exactly the new value minus the old entry |
| Ledger.SumOfUnanimous | app.py:419 | when all votes equal `v`, the sum is `v` times the number of votes |
| Ledger.SumVotes | app.py:419 | the loop computes the sum of the ledger's values |
| Ledger.UnanimousConsensus | app.py:415-420 | a field on which everybody voted the same card gets that card as consensus |
| Ledger.ComputeConsensus | app.py:414-422 | the reveal loop gives every field `None` when its ledger is empty, else the nearest card to its mean |
| PokerSession.SessionIdInjective | app.py:255 | different features get different session keys |
| PokerSession.NewSession | app.py:257-265 | a new session is valid, has no users, no host, is hidden, has an empty ledger for each of the five fields and no consensus |
| PokerSession.RevealedIffConsensus | app.py:262-264 | in every valid session, `revealed` holds exactly when a consensus is held |
| PokerSession.JoinPreservesValid | app.py:286-290 | a join keeps the session invariant |
| PokerSession.JoinSetsHostOnce | app.py:286-290 | a join adds the name; the first joiner becomes host; an existing host is kept; ledger, reveal and consensus untouched |
| PokerSession.JoinIdempotent | app.py:286-290 | joining again under the same name changes nothing |
| PokerSession.VotePreservesValid | app.py:396-400 | a vote keeps the session invariant |
| PokerSession.VoteOverwritesOneEntry | app.py:396-400 | a vote hides the session, clears the consensus, sets that voter's entry for that field and keeps every other entry, the users and the host |
| PokerSession.RecordCommute | app.py:400 | two ledger writes to different (field, voter) slots commute |
| PokerSession.VotesCommute | app.py:394-400 | two votes on different slots land in either order with the same result, and both are kept (no lost update) |
| PokerSession.VoteErasesReveal | app.py:396-400 | a vote after a reveal leaves the session exactly as if the reveal had not happened |
| PokerSession.RevealPreservesValid | app.py:412-422 | a reveal keeps the session invariant |
| PokerSession.RevealConsensus | app.py:412-422 | a reveal sets `revealed` and gives every field a consensus entry: `None` iff its ledger is empty, else the nearest card to its mean |
| PokerSession.RevealIdempotent | app.py:412-422 | revealing twice is revealing once |
| PokerSession.Apply | app.py:286-422 | every accepted join (lines 286-290), vote (394-400) or reveal (412-422) yields a valid session |
| PokerSession.Replay | app.py:286-422 | any sequence of accepted joins (lines 286-290), votes (394-400) and reveals (412-422) keeps the session valid |
| PokerSession.ApplyHost | app.py:288-290 | one accepted request never moves an existing host, and only a join changes users or host |
| PokerSession.HostNeverReassigned | app.py:288-290 | once a host is set, no sequence of joins, votes and reveals changes it |
| PokerSession.HostIsFirstJoiner | app.py:288-290 | starting with no users, the host after any run is the first name that joined |
| PokerScenario.EndToEnd | app.py:373-423 | A is host after A and B join; votes 8 and 13 reveal as 8; A's later vote hides the reveal and clears the consensus |
| FeatureStore.CommitWritesOnlyConsensus | app.py:439-441 | commit keeps the row's columns, leaves rows of other features alone, and changes a cell only to that field's non-null consensus value |
| FeatureStore.CommitIdempotent | app.py:439-441 | committing the same consensus twice is committing it once |
| FeatureStore.CommitStep | app.py:441 | committing one more field is one column write on the rows of the feature |
| FeatureStore.FeatureTable.WriteColumn | app.py:441 | `df.loc[mask, col] = val`: matching rows get the value in that column, other rows are unchanged |
| FeatureStore.FeatureTable.Commit | app.py:436-446 | when saved, every row becomes its committed form; when the save fails, the stored rows are unchanged; columns are kept |
| Poker.BlindVoting | app.py:349-358 | before the reveal, a participant's view of a field depends only on who voted and on the participant's own vote |
| Poker.ViewFields | app.py:349-358 | the api_state loop builds a view for exactly the five fields, each as ShowsField prescribes |
| Poker.Registry.constructor | app.py:82 | the registry starts empty |
| Poker.Registry.StartPoker | app.py:253-267 | returns the key `"POKER-" + feature_id`; creates a new session only when the key is absent, never replaces one |
| Poker.Registry.IsHost | app.py:97-108 | the guard holds iff there is a claim, the session exists and the claim equals its host; in a valid registry the host so identified is one of the session's participants |
| Poker.Registry.Join | app.py:273-292 | unknown session: not found; blank name: name required; both leave the registry unchanged; otherwise the stripped name joins and becomes the claim |
| Poker.Registry.Vote | app.py:373-401 | rejects, in order, no claim, unknown session, unknown field, non-integer value, changing nothing; otherwise exactly the vote of PokerSession.Voted |
| Poker.Registry.Reveal | app.py:406-423 | a non-host gets "Host only" and nothing changes; the host reveals the session and gets its new consensus |
| Poker.Registry.Commit | app.py:428-448 | a non-host gets "Host only"; a failed save gets a conflict; neither changes the rows; a saved commit writes the committed rows; the session is never changed |
| Poker.Registry.State | app.py:338-368 | unknown session, then missing claim, are errors; otherwise the snapshot shows the session as Shows prescribes, and a hidden session shows no consensus |

## Left out

- Flask itself: routing, redirects, `render_template`, JSON encoding, the
  lobby's GET page, and the cookie session. The identity claim is a
  parameter, and the `session["poker_session"]` entry the lobby also sets is
  not modelled.
- `poker_room` (the room page and its `your_votes` loop). It reads the same
  ledger as `api_state`, looks up the feature's name, and renders a page.
  It also calls `ensure_excel_with_features`, which rewrites the workbook
  (app.py:76). That write is not modelled.
- The workbook I/O: `ensure_excel_with_features`, `read_excel`, `to_excel`,
  the seed rows and `export_wsjf`. The feature table is a value the commit
  receives, already normalised.
- Poker.Registry.Commit: only a failure of the second write, at app.py:444,
  is modelled (as `saved == false`, giving the 409). `api_commit` first
  calls `ensure_excel_with_features` (app.py:436), which writes the workbook
  at app.py:76 outside any `try`. A workbook held open by another program
  thus raises `PermissionError` there, and the request fails with a 500
  before the 409 handler is reached. That earlier failure is not modelled.
- FeatureStore.FeatureTable.Valid: assumes the table has a "Feature ID"
  column, and Poker.Registry.Commit requires it. Without the column,
  `df["Feature ID"]` at app.py:441 raises `KeyError` (a 500) as soon as a
  non-null consensus value is written. A commit with nothing to write (a
  hidden session, or a revealed one with no votes) saves without it.
  Neither path is modelled.
- The WSJF, Cost of Delay and capacity pages, and the home page. They are
  float arithmetic over pandas frames, outside the poker core.
- Python's `int()` coercion. It is a given `Option<int>`. Not modelled:
  `int()` raising `OverflowError` on a JSON `Infinity`, which `api_vote`
  does not catch (a 500, with nothing changed).
- `get_json(force=True)` failing on a malformed body. Also not modelled:
  a well-formed body that is not a JSON object (an array, number, string
  or `null`), on which `data.get` (app.py:379) raises `AttributeError`, a
  500; and a JSON list or object as `session`. `POKER_SESSIONS.get` (app.py:383) then
  raises `TypeError` (unhashable), which is a 500, not a 404. Other
  non-string values of `session` and `field` reach the same errors as an
  unknown string.
- Deck.NearestFibo: compares exact rationals where Python compares floats.
  They agree whenever `sum / n` is computed without significant rounding.
  Not modelled: votes so large that the float mean loses precision, or
  that `int / int` raises `OverflowError`.
- PokerSession.Session.Valid: holds for sessions reached through handlers
  that run to completion. Integer votes whose sum exceeds the float range
  (one vote of 2·10^308, say) make the reveal raise `OverflowError` at
  app.py:419. That happens after `revealed = True` (app.py:412) and the
  earlier vote has left `consensus` as `{}` (app.py:398). The session then
  stays revealed with an empty consensus, which breaks
  `RevealedIffConsensus`, and `api_state` (app.py:357) shows every
  participant's values. With unbounded integers and an exact mean, the
  model's reveal cannot fail, so it does not capture this state.
- Concurrency. The code runs requests against one shared dict without
  locks. The model is sequential; lemma `VotesCommute` covers what
  interleaving two votes can do.
- Unbounded growth. Sessions are never removed, as in the code.
