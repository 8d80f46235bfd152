# Card documenter session model

A Dafny model of the session state behind the card documenter page
(`poke_documenter.py`): the ordered list of card ids that the page renders,
the `add_card` operation that inserts a freshly numbered card below a given
one, the per-card keys `f"{prefix}_{card_id}"` under which each card's state
lives in the session-wide dictionary, and the "Transcribe" handler that
stores a transcription result in the card's `transcript_<id>` slot.

Files:

- `SlotKeys.dfy` — Python's `str` on integers and the key scheme
  `prefix + "_" + str(card_id)`; keys with the same prefix are equal exactly
  when the ids are (proved through a parse-back round trip).
- `CardList.dfy` — the card list as a value: `max(cards, default=-1) + 1`
  id allocation, CPython's `list.insert` position rule, the insertion
  itself, and the list invariants (no duplicate ids, no negative ids).
- `Session.dfy` — the session as a class `Session` with the card list and
  the string slots of the session dictionary as fields; a constructor for a
  new session, `AddCard`, the "Transcribe" handler, `render_card` and the
  page's walk over the live card list.

Each rerun of the page is triggered by at most one button press, modelled
by the `Click` datatype (no click, "Add Card Below" on card *c*, or
"Transcribe" on card *c* with a recording and the transcription text). The
speech model's output is an opaque string parameter; a recording is
modelled by its length in milliseconds (what `len` of the recorder's audio
segment returns).

The page walks `st.session_state.cards` with `enumerate` while `add_card`
inserts into the same list. Python's list iterator reads the live list, so
the new card, placed right after the current one, is rendered in the same
pass. `Session.RenderPass` models that loop and proves that every card of
the final list is rendered exactly once, in order, with its position, its id
and its current transcript.

Ids are allocated as one more than the current maximum.
`poke_documenter.py` has no card removal and no delete confirmation. With
insertions only, the maximum never decreases, so no id is reused.

A transcript is stored only from a card's own "Transcribe" handler, for an
id taken from the list. The session invariant `Session.Session.Valid`
therefore records that every stored transcript belongs to a listed card, and
a newly added card, whose id is fresh, shows an empty transcript.

## Model

| member | source | states |
|---|---|---|
| `Session.Session.constructor` | poke_documenter.py:30-32 | a new session's card list is exactly `[0]`, it satisfies the invariant (ids distinct and non-negative, stored transcripts belong to listed cards), and every card's transcript reads as empty |
| `Session.Session.AddCard` | poke_documenter.py:36-38 | the list becomes the old list with `NextId` inserted at CPython's normalised position for `idx + 1`; the invariant is kept; the session slots are untouched; the new card's transcript reads as `""` |
| `Session.Session.Transcript` | poke_documenter.py:106 | the transcript a card shows; `""` when its slot is absent |
| `CardList.NextId` | poke_documenter.py:37 | `max(cards, default=-1) + 1`: 0 on an empty list and strictly above every id (further properties in `CardList.NextIdFresh`) |
| `CardList.Insert` | poke_documenter.py:38 | the list with `x` placed at position `p`: one longer, with `x` at `p` (element-wise shape in `CardList.InsertShape`) |
| `Session.AfterAdd` | poke_documenter.py:36-38 | the list after `add_card(idx)`: one longer and containing the new id (positions and frame in `Session.AfterAddShape`) |
| `Session.AddKeepsOwnership` | poke_documenter.py:36-38 | `add_card` keeps the ids distinct and non-negative and every stored transcript owned by a listed card, and the new id has no stored transcript |
| `Session.SlotsOwnedGrow` | poke_documenter.py:38 | a list that keeps every old id still owns every stored transcript |
| `Session.NewCardHasNoTranscript` | poke_documenter.py:37 | when only listed cards own stored transcripts, the freshly allocated id reads as `""` |
| `Session.AddedCardView` | poke_documenter.py:110-116 | after a pass whose add button fired on a listed card, the new id sits right below that card, the slots are unchanged and the new card reads as `""` |
| `CardList.MaxOr` | poke_documenter.py:37 | Python's `max(s, default=d)`: `d` on an empty list, otherwise an element of the list that is at least every element |
| `CardList.NextIdFresh` | poke_documenter.py:37 | the allocated id is 0 for an empty list, otherwise one above an existing id; it is strictly greater than every id, hence not present, and non-negative when the list is |
| `CardList.InsertPos` | poke_documenter.py:38 | the index `list.insert` uses: within 0..n it is the argument itself, above n it is n, negative arguments count from the end and clamp at 0 |
| `CardList.InsertShape` | poke_documenter.py:38 | insertion grows the list by one, puts the id at the position, keeps the prefix, shifts the suffix by one, and adds exactly that id to the multiset of ids |
| `CardList.InsertNextIdKeepsInvariant` | poke_documenter.py:37-38 | inserting the allocated id anywhere keeps the list free of duplicates and of negative ids |
| `Session.AfterAddShape` | poke_documenter.py:36-38 | for every index the page passes, after `add_card(idx)` the new id is at `idx + 1`, `cards'[..idx+1] == cards[..idx+1]`, `cards'[idx+2..] == cards[idx+1..]`, the length grows by one and the invariant holds |
| `CardList.AddBelowScenario` | poke_documenter.py:32-38 | from `[0]`, adding below index 0 gives `[0, 1]`, and adding below index 0 again gives `[0, 2, 1]` |
| `CardList.IndexOf` | poke_documenter.py:114 | the first position holding a present id |
| `CardList.IndexOfUnique` | poke_documenter.py:114 | in a duplicate-free list the id at position `k` is found at `k`, so the index `enumerate` pairs with a card id is that id's position |
| `SlotKeys.DigitChar` | poke_documenter.py:102 | a digit maps to a character in `'0'..'9'` whose value is that digit |
| `SlotKeys.Decimal` | poke_documenter.py:102 | the decimal notation of a natural number is non-empty and made of digit characters only |
| `SlotKeys.DecimalRoundTrip` | poke_documenter.py:102 | reading the decimal notation of `n` back yields `n` |
| `SlotKeys.IntToStringRoundTrip` | poke_documenter.py:102 | reading `str(i)` back yields `i`, for negative and non-negative `i` |
| `SlotKeys.IntToString` | poke_documenter.py:102 | Python's `str` on an int: non-empty, starting with `-` exactly for negative numbers, digits only otherwise (its inverse in `SlotKeys.IntToStringRoundTrip`) |
| `SlotKeys.SlotKey` | poke_documenter.py:64 | a per-card key begins with the prefix and an underscore and is longer than both |
| `SlotKeys.SlotKeyInjective` | poke_documenter.py:86 | for one prefix, `f"{prefix}_{a}" == f"{prefix}_{b}"` holds exactly when `a == b`, so no two cards share a slot |
| `Session.TranscriptKey` | poke_documenter.py:102 | `f"transcript_{card_id}"`: it begins with `transcript_` (distinct ids give distinct keys by `SlotKeys.SlotKeyInjective`) |
| `Session.TranscriptIn` | poke_documenter.py:106 | `session_state.get(f"transcript_{card_id}", "")`: the stored value when the key is present, `""` otherwise |
| `Session.HasAudio` | poke_documenter.py:93 | `audio_data and len(audio_data) > 0`: there is a recording and its length is positive (used by `Session.AfterTranscribeEffect`) |
| `Session.AfterTranscribe` | poke_documenter.py:92-104 | the slots after a Transcribe click: with audio the key set gains exactly the card's transcript key, without audio it is unchanged (values in `Session.AfterTranscribeEffect`) |
| `Session.SlotsOwnedWrite` | poke_documenter.py:102 | storing a transcript for a listed card keeps every stored transcript owned by a listed card |
| `Session.TranscriptDefault` | poke_documenter.py:106 | a card with no stored transcript reads as `""` |
| `Session.TranscriptAfterWrite` | poke_documenter.py:102-106 | after storing a result for card `c`, card `c` reads the result and every other card reads what it read before |
| `Session.AfterTranscribeEffect` | poke_documenter.py:92-104 | without audio (no recording, or length 0) a click leaves the slots unchanged; with audio the clicked card reads the result and no other card's transcript changes |
| `Session.Session.TranscribeClicked` | poke_documenter.py:92-104 | for a listed card, the warning is issued exactly when there is no audio; the card list is untouched, the invariant is kept, and the slots become the old slots with only the card's transcript slot overwritten when there is audio |
| `Session.Session.RenderCard` | poke_documenter.py:42-111 | rendering the card at `idx` runs its Transcribe handler if clicked, shows its id, position and updated transcript, runs `add_card(idx)` if its add button was clicked, and changes no other card's transcript |
| `Session.CardsAfterPass` | poke_documenter.py:110-116 | the list after one rerun: one longer exactly when the add button of a listed card fired (final list of `Session.Session.RenderPass`) |
| `Session.SlotsAfterPass` | poke_documenter.py:92-116 | the slots after one rerun: unchanged unless a listed card's Transcribe fired with audio, and then only that card's transcript key can be added |
| `Session.RenderStep` | poke_documenter.py:114-116 | one step of the walk: the walk's description holds one card further, the views so far stay accurate and gain the rendered card's view, and the measure decreases |
| `Session.ViewsStep` | poke_documenter.py:114-116 | with the walked prefix unchanged and other cards' transcripts untouched, the views so far stay accurate and the new view extends them |
| `Session.PassDone` | poke_documenter.py:114-116 | at the end of the walk the state is the pass's final state, every final card has its view, and cards not listed before show `""` |
| `Session.NewCardsShowEmpty` | poke_documenter.py:102-106 | after a pass, every card that was not listed before it shows an empty transcript |
| `Session.PassStep` | poke_documenter.py:114-116 | during the walk the state is either untouched (the click's card is not yet reached) or already the state after the whole pass, the walked prefix never moves, and the walk's measure decreases even when a card is inserted |
| `Session.StepPast` | poke_documenter.py:114-116 | rendering a card the click does not name leaves the walk's description true one position further and decreases its measure |
| `Session.StepAdd` | poke_documenter.py:110-116 | when the walk reaches the card whose add button fired, the insertion keeps the walked prefix, yields the pass's final card list, and the measure still decreases although the list grew |
| `Session.StepTranscribe` | poke_documenter.py:92-102 | when the walk reaches the card whose Transcribe button fired, the slots become the pass's final slots and the list is unchanged |
| `Session.WalkDone` | poke_documenter.py:114 | once every card of the live list has been walked, the state is the state after the pass, including when the click names no listed card |
| `Session.ViewsStable` | poke_documenter.py:114-116 | rendering one card leaves the already rendered cards' positions, ids and transcripts accurate |
| `Session.Session.RenderPass` | poke_documenter.py:114-116 | one rerun ends with the add applied below the clicked card (or the transcript stored for it), the invariant kept, every card of the final list rendered exactly once in order with its position, id and current transcript, and a card added in this rerun shown with an empty transcript |

## Left out

- `psa_api.py`: a single HTTP GET with a token from the environment and a print of the reply; network I/O with no logic.
- Page configuration, styling, containers, expanders, columns, tabs, image uploaders, camera input and image display (poke_documenter.py:8-21, 43-75): widget calls with no state the model tracks.
- Loading the speech model and running it (poke_documenter.py:23-28, 101): a foreign library; its text output is the `text` parameter of a click.
- Decoding the recording, mono downmix, float conversion and resampling to 16 kHz (poke_documenter.py:94-100): floating-point numerics in foreign libraries; a failure there is not modelled.
- An exception in poke_documenter.py:94-102 (undecodable audio, a failure inside `model.transcribe`, a result without a `"text"` entry) ends the rerun in the program: the transcript is not stored, and neither this card's "Add Card Below" button nor any later card is rendered. The model assumes transcription returns: a Transcribe click with audio always stores its text, and `Session.Session.RenderPass` always renders every card.
- Audio playback of the recording (poke_documenter.py:89-90): output only.
- The card name widget keyed by position (poke_documenter.py:45-48) and the note text area (poke_documenter.py:107): framework widget state; the model records the transcript value the note area is filled with.
- Reruns after the first: the check at poke_documenter.py:31 then finds the list present and does nothing; the model expresses this by carrying the `Session` object's state from one `RenderPass` to the next rather than by a separate operation.
- Card removal, delete confirmation and saved note files: not present in `poke_documenter.py`.
