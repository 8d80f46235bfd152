/** One browser session of the card documenter: the list of card ids and
    the string-valued slots of the session-wide dictionary in which each
    card's transcript is kept under `transcript_<id>`. */
module Session {
  import opened SlotKeys
  import opened CardList

  /** The audio a card's recorder holds; its length is in milliseconds. */
  datatype Recording = NoRecording | Recording(lengthMs: nat)

  /** `audio_data and len(audio_data) > 0`. */
  predicate HasAudio(a: Recording)
  {
    a.Recording? && a.lengthMs > 0
  }

  /** The one button press that triggered this rerun of the page, if any:
      "Add Card Below" or "Transcribe" on the card with the given id. The
      transcription result is an opaque string. */
  datatype Click =
    | NoClick
    | AddBelow(cardId: int)
    | Transcribe(cardId: int, audio: Recording, text: string)

  /** What one card shows when rendered: its position, its id and the
      transcript text the note area is filled with. */
  datatype CardView = CardView(index: nat, cardId: int, transcript: string)

  const TranscriptPrefix := "transcript"

  /** `f"transcript_{card_id}"`. */
  function TranscriptKey(cardId: int): (k: string)
    ensures |k| > 11 && k[..11] == "transcript_"
  {
    var k := SlotKey(TranscriptPrefix, cardId);
    assert k[..11] == k[..10] + [k[10]];
    k
  }

  /** `st.session_state.get(f"transcript_{card_id}", "")`. */
  function TranscriptIn(slots: map<string, string>, cardId: int): (t: string)
    ensures TranscriptKey(cardId) in slots ==> t == slots[TranscriptKey(cardId)]
    ensures TranscriptKey(cardId) !in slots ==> t == ""
  {
    var key := TranscriptKey(cardId);
    if key in slots then slots[key] else ""
  }

  /** A card with no stored transcript reads as the empty string. */
  lemma TranscriptDefault(slots: map<string, string>, cardId: int)
    requires TranscriptKey(cardId) !in slots
    ensures TranscriptIn(slots, cardId) == ""
  {
  }

  /** Storing a transcription result for one card gives that card exactly the
      result and leaves every other card's transcript as it was. */
  lemma TranscriptAfterWrite(slots: map<string, string>, cardId: int, text: string, other: int)
    ensures TranscriptIn(slots[TranscriptKey(cardId) := text], other)
         == if other == cardId then text else TranscriptIn(slots, other)
  {
    SlotKeyInjective(TranscriptPrefix, cardId, other);
  }

  /** The slots after a click on "Transcribe": the result is stored only
      when there is audio. */
  function AfterTranscribe(slots: map<string, string>, cardId: int, audio: Recording, text: string): (r: map<string, string>)
    ensures r.Keys == if HasAudio(audio) then slots.Keys + {TranscriptKey(cardId)} else slots.Keys
  {
    if HasAudio(audio) then slots[TranscriptKey(cardId) := text] else slots
  }

  /** Without audio a click stores nothing; with audio only the clicked
      card's transcript changes, and it becomes the result. */
  lemma AfterTranscribeEffect(slots: map<string, string>, cardId: int, audio: Recording, text: string, other: int)
    ensures !HasAudio(audio) ==> AfterTranscribe(slots, cardId, audio, text) == slots
    ensures HasAudio(audio) ==> TranscriptIn(AfterTranscribe(slots, cardId, audio, text), cardId) == text
    ensures other != cardId ==>
      TranscriptIn(AfterTranscribe(slots, cardId, audio, text), other) == TranscriptIn(slots, other)
  {
    TranscriptAfterWrite(slots, cardId, text, other);
    TranscriptAfterWrite(slots, cardId, text, cardId);
  }

  /** The card list after `add_card(idx)`. */
  function AfterAdd(cards: seq<int>, idx: int): (r: seq<int>)
    ensures |r| == |cards| + 1 && NextId(cards) in r
  {
    Insert(cards, InsertPos(idx + 1, |cards|), NextId(cards))
  }

  /** For every index the page passes (a position of the list), the new id
      lands right after that position, nothing before it moves, everything
      after it shifts by one, and the list stays duplicate-free and
      non-negative. */
  lemma AfterAddShape(cards: seq<int>, idx: int)
    requires Distinct(cards) && NonNegative(cards)
    requires 0 <= idx < |cards|
    ensures |AfterAdd(cards, idx)| == |cards| + 1
    ensures AfterAdd(cards, idx)[idx + 1] == NextId(cards)
    ensures AfterAdd(cards, idx)[..idx + 1] == cards[..idx + 1]
    ensures AfterAdd(cards, idx)[idx + 2..] == cards[idx + 1..]
    ensures NextId(cards) !in cards && NextId(cards) >= 0
    ensures Distinct(AfterAdd(cards, idx)) && NonNegative(AfterAdd(cards, idx))
  {
    InsertShape(cards, idx + 1, NextId(cards));
    NextIdFresh(cards);
    InsertNextIdKeepsInvariant(cards, idx + 1);
  }

  /** The card list after one rerun of the page with the given click. */
  function CardsAfterPass(cards: seq<int>, click: Click): (r: seq<int>)
    ensures |r| == |cards| + (if click.AddBelow? && click.cardId in cards then 1 else 0)
  {
    if click.AddBelow? && click.cardId in cards then AfterAdd(cards, IndexOf(cards, click.cardId))
    else cards
  }

  /** The slots after one rerun of the page with the given click. */
  function SlotsAfterPass(cards: seq<int>, slots: map<string, string>, click: Click): (r: map<string, string>)
    ensures !(click.Transcribe? && click.cardId in cards && HasAudio(click.audio)) ==> r == slots
    ensures click.Transcribe? ==> r.Keys <= slots.Keys + {TranscriptKey(click.cardId)}
  {
    if click.Transcribe? && click.cardId in cards
    then AfterTranscribe(slots, click.cardId, click.audio, click.text)
    else slots
  }

  /** Only cards in the list have a stored transcript. */
  ghost predicate SlotsOwned(cards: seq<int>, slots: map<string, string>)
  {
    forall id :: TranscriptKey(id) in slots ==> id in cards
  }

  /** Growing the list keeps every stored transcript owned by a listed card. */
  lemma SlotsOwnedGrow(cards: seq<int>, cards': seq<int>, slots: map<string, string>)
    requires SlotsOwned(cards, slots) && multiset(cards) <= multiset(cards')
    ensures SlotsOwned(cards', slots)
  {
    forall id | TranscriptKey(id) in slots
      ensures id in cards'
    {
      assert id in multiset(cards);
    }
  }

  /** Storing a transcript for a listed card keeps every stored transcript
      owned by a listed card. */
  lemma SlotsOwnedWrite(cards: seq<int>, slots: map<string, string>, cardId: int, audio: Recording, text: string)
    requires SlotsOwned(cards, slots) && cardId in cards
    ensures SlotsOwned(cards, AfterTranscribe(slots, cardId, audio, text))
  {
    var r := AfterTranscribe(slots, cardId, audio, text);
    forall id | TranscriptKey(id) in r
      ensures id in cards
    {
      SlotKeyInjective(TranscriptPrefix, id, cardId);
    }
  }

  /** A freshly allocated card has no stored transcript, so it shows "". */
  lemma NewCardHasNoTranscript(cards: seq<int>, slots: map<string, string>)
    requires SlotsOwned(cards, slots)
    ensures TranscriptIn(slots, NextId(cards)) == ""
  {
    NextIdFresh(cards);
  }

  /** `add_card` keeps the list duplicate-free and non-negative, keeps every
      stored transcript owned by a listed card, and the new card has no
      stored transcript. */
  lemma AddKeepsOwnership(cards: seq<int>, slots: map<string, string>, idx: int)
    requires Distinct(cards) && NonNegative(cards) && SlotsOwned(cards, slots)
    ensures Distinct(AfterAdd(cards, idx)) && NonNegative(AfterAdd(cards, idx))
    ensures SlotsOwned(AfterAdd(cards, idx), slots)
    ensures TranscriptIn(slots, NextId(cards)) == ""
  {
    var p := InsertPos(idx + 1, |cards|);
    InsertShape(cards, p, NextId(cards));
    InsertNextIdKeepsInvariant(cards, p);
    NewCardHasNoTranscript(cards, slots);
    SlotsOwnedGrow(cards, AfterAdd(cards, idx), slots);
  }

  /** Adding a card below a listed one keeps only listed cards owning
      transcripts, and the new card's view shows "". */
  lemma AddedCardView(cards0: seq<int>, slots0: map<string, string>, click: Click)
    requires Distinct(cards0) && NonNegative(cards0) && SlotsOwned(cards0, slots0)
    requires click.AddBelow? && click.cardId in cards0
    ensures IndexOf(cards0, click.cardId) + 1 < |CardsAfterPass(cards0, click)|
    ensures CardsAfterPass(cards0, click)[IndexOf(cards0, click.cardId) + 1] == NextId(cards0)
    ensures SlotsAfterPass(cards0, slots0, click) == slots0
    ensures TranscriptIn(slots0, NextId(cards0)) == ""
  {
    AfterAddShape(cards0, IndexOf(cards0, click.cardId));
    NewCardHasNoTranscript(cards0, slots0);
  }

  /** After a pass, every card that was not listed before it (the card
      the pass added, if any) shows an empty transcript. */
  lemma NewCardsShowEmpty(cards0: seq<int>, slots0: map<string, string>, click: Click,
                          cards: seq<int>, slots: map<string, string>, views: seq<CardView>)
    requires SlotsOwned(cards0, slots0)
    requires slots == SlotsAfterPass(cards0, slots0, click)
    requires |views| == |cards| && ViewsMatch(views, cards, slots)
    ensures forall k :: 0 <= k < |views| && cards[k] !in cards0 ==> views[k].transcript == ""
  {
    if click.Transcribe? && click.cardId in cards0 {
      SlotsOwnedWrite(cards0, slots0, click.cardId, click.audio, click.text);
    }
    assert SlotsOwned(cards0, slots);
    forall k | 0 <= k < |views| && cards[k] !in cards0
      ensures views[k].transcript == ""
    {
      assert TranscriptKey(cards[k]) !in slots;
    }
  }

  /** The click belongs to one of the cards already walked. */
  predicate Fired(click: Click, walked: seq<int>)
  {
    !click.NoClick? && click.cardId in walked
  }

  /** Where the walk over the live list stands after `i` cards: the state
      is untouched while the clicked card has not been reached, and is the
      state after the whole pass once it has. */
  ghost predicate Walked(cards0: seq<int>, slots0: map<string, string>, click: Click,
                         cards: seq<int>, slots: map<string, string>, i: nat)
  {
    i <= |cards| &&
    if Fired(click, cards[..i])
    then cards == CardsAfterPass(cards0, click) && slots == SlotsAfterPass(cards0, slots0, click)
    else cards == cards0 && slots == slots0
  }

  /** The walk's termination measure: cards still to visit, plus one while
      the click (which may insert a card) is still to come. */
  ghost function Remaining(click: Click, cards: seq<int>, i: nat): int
    requires i <= |cards|
  {
    |cards| - i + (if Fired(click, cards[..i]) then 0 else 1)
  }

  /** One step of the walk: rendering the card at position `i` keeps the
      walk's description and decreases its measure, even when it inserts a
      card. */
  lemma PassStep(cards0: seq<int>, slots0: map<string, string>,
                 before: seq<int>, slotsBefore: map<string, string>,
                 after: seq<int>, slotsAfter: map<string, string>,
                 click: Click, i: nat)
    requires Distinct(before) && NonNegative(before) && i < |before|
    requires Walked(cards0, slots0, click, before, slotsBefore, i)
    requires after == if click.AddBelow? && click.cardId == before[i] then AfterAdd(before, i) else before
    requires slotsAfter == if click.Transcribe? && click.cardId == before[i]
                           then AfterTranscribe(slotsBefore, click.cardId, click.audio, click.text) else slotsBefore
    ensures i < |after| && after[..i + 1] == before[..i + 1]
    ensures Walked(cards0, slots0, click, after, slotsAfter, i + 1)
    ensures Remaining(click, after, i + 1) < Remaining(click, before, i)
  {
    if Fired(click, before[..i]) {
      assert click.cardId in before[..i];
      assert click.cardId != before[i];
      StepPast(cards0, slots0, click, before, slotsBefore, i);
    } else if click.AddBelow? && click.cardId == before[i] {
      StepAdd(cards0, slots0, click, i);
    } else if click.Transcribe? && click.cardId == before[i] {
      StepTranscribe(cards0, slots0, click, i);
    } else {
      StepPast(cards0, slots0, click, before, slotsBefore, i);
    }
  }

  /** Rendering a card the click does not name changes nothing. */
  lemma StepPast(cards0: seq<int>, slots0: map<string, string>, click: Click,
                 cards: seq<int>, slots: map<string, string>, i: nat)
    requires i < |cards|
    requires Walked(cards0, slots0, click, cards, slots, i)
    requires !click.NoClick? ==> click.cardId != cards[i]
    ensures Walked(cards0, slots0, click, cards, slots, i + 1)
    ensures Remaining(click, cards, i + 1) < Remaining(click, cards, i)
  {
    assert cards[..i + 1] == cards[..i] + [cards[i]];
    assert Fired(click, cards[..i + 1]) == Fired(click, cards[..i]);
  }

  /** Rendering the card whose "Add Card Below" fired performs the pass's
      insertion. */
  lemma StepAdd(cards0: seq<int>, slots0: map<string, string>, click: Click, i: nat)
    requires Distinct(cards0) && NonNegative(cards0) && i < |cards0|
    requires click.AddBelow? && click.cardId == cards0[i]
    ensures i < |AfterAdd(cards0, i)| && AfterAdd(cards0, i)[..i + 1] == cards0[..i + 1]
    ensures Walked(cards0, slots0, click, AfterAdd(cards0, i), slots0, i + 1)
    ensures Remaining(click, AfterAdd(cards0, i), i + 1) < Remaining(click, cards0, i)
  {
    var after := AfterAdd(cards0, i);
    IndexOfUnique(cards0, i);
    assert CardsAfterPass(cards0, click) == after;
    assert SlotsAfterPass(cards0, slots0, click) == slots0;
    assert after[..i + 1] == cards0[..i + 1] == cards0[..i] + [cards0[i]];
    assert click.cardId in after[..i + 1];
  }

  /** Rendering the card whose "Transcribe" fired performs the pass's
      transcript update. */
  lemma StepTranscribe(cards0: seq<int>, slots0: map<string, string>, click: Click, i: nat)
    requires i < |cards0|
    requires click.Transcribe? && click.cardId == cards0[i]
    ensures Walked(cards0, slots0, click, cards0,
                   AfterTranscribe(slots0, click.cardId, click.audio, click.text), i + 1)
    ensures Remaining(click, cards0, i + 1) < Remaining(click, cards0, i)
  {
    assert cards0[..i + 1] == cards0[..i] + [cards0[i]];
    assert Fired(click, cards0[..i + 1]);
  }

  /** At the end of the walk every card has been visited, so the state is
      the state after the pass whether or not the click named a card. */
  lemma WalkDone(cards0: seq<int>, slots0: map<string, string>, click: Click,
                 cards: seq<int>, slots: map<string, string>)
    requires Walked(cards0, slots0, click, cards, slots, |cards|)
    ensures cards == CardsAfterPass(cards0, click)
    ensures slots == SlotsAfterPass(cards0, slots0, click)
  {
    assert cards[..|cards|] == cards;
  }

  /** Each view shows its position, the id there and that card's transcript. */
  ghost predicate ViewsMatch(views: seq<CardView>, cards: seq<int>, slots: map<string, string>)
  {
    |views| <= |cards| &&
    forall k :: 0 <= k < |views| ==> views[k] == CardView(k, cards[k], TranscriptIn(slots, cards[k]))
  }

  /** Rendering the card at position `i` leaves the views of the cards
      before it accurate (their positions and ids do not move and their
      transcripts are not touched), and its own view extends them. */
  lemma ViewsStable(views: seq<CardView>, view: CardView, before: seq<int>, slotsBefore: map<string, string>,
                    after: seq<int>, slotsAfter: map<string, string>, i: nat)
    requires i < |before| && i < |after| && |views| == i
    requires forall k :: 0 <= k < i ==> before[k] != before[i] && after[k] == before[k]
    requires ViewsMatch(views, before, slotsBefore)
    requires forall other :: other != before[i] ==> TranscriptIn(slotsAfter, other) == TranscriptIn(slotsBefore, other)
    requires view == CardView(i, after[i], TranscriptIn(slotsAfter, after[i]))
    ensures ViewsMatch(views + [view], after, slotsAfter)
  {
    var vs := views + [view];
    forall k | 0 <= k < i + 1
      ensures vs[k] == CardView(k, after[k], TranscriptIn(slotsAfter, after[k]))
    {
      if k < i {
        assert TranscriptIn(slotsAfter, before[k]) == TranscriptIn(slotsBefore, before[k]);
      }
    }
  }

  /** Rendering the card at position `i` during the walk: the walk's
      description holds one card further, the views so far stay accurate and
      are extended by this card's view, and the walk's measure decreases. */
  lemma RenderStep(cards0: seq<int>, slots0: map<string, string>, click: Click,
                   before: seq<int>, slotsBefore: map<string, string>,
                   after: seq<int>, slotsAfter: map<string, string>,
                   views: seq<CardView>, view: CardView, i: nat)
    requires Distinct(before) && NonNegative(before) && i < |before| && |views| == i
    requires Walked(cards0, slots0, click, before, slotsBefore, i)
    requires ViewsMatch(views, before, slotsBefore)
    requires after == if click.AddBelow? && click.cardId == before[i] then AfterAdd(before, i) else before
    requires slotsAfter == if click.Transcribe? && click.cardId == before[i]
                           then AfterTranscribe(slotsBefore, click.cardId, click.audio, click.text) else slotsBefore
    requires forall other :: other != before[i] ==> TranscriptIn(slotsAfter, other) == TranscriptIn(slotsBefore, other)
    requires view == CardView(i, before[i], TranscriptIn(slotsAfter, before[i]))
    ensures i + 1 <= |after|
    ensures Walked(cards0, slots0, click, after, slotsAfter, i + 1)
    ensures ViewsMatch(views + [view], after, slotsAfter)
    ensures Remaining(click, after, i + 1) < Remaining(click, before, i)
  {
    PassStep(cards0, slots0, before, slotsBefore, after, slotsAfter, click, i);
    ViewsStep(views, view, before, slotsBefore, after, slotsAfter, i);
  }

  /** `ViewsStable` for the list before and after rendering one card, where
      the rendered prefix is known as a slice. */
  lemma ViewsStep(views: seq<CardView>, view: CardView, before: seq<int>, slotsBefore: map<string, string>,
                  after: seq<int>, slotsAfter: map<string, string>, i: nat)
    requires Distinct(before) && i < |before| && |views| == i
    requires i < |after| && after[..i + 1] == before[..i + 1]
    requires ViewsMatch(views, before, slotsBefore)
    requires forall other :: other != before[i] ==> TranscriptIn(slotsAfter, other) == TranscriptIn(slotsBefore, other)
    requires view == CardView(i, before[i], TranscriptIn(slotsAfter, before[i]))
    ensures ViewsMatch(views + [view], after, slotsAfter)
  {
    forall k | 0 <= k <= i
      ensures after[k] == before[k]
    {
      assert after[k] == after[..i + 1][k];
    }
    assert forall k :: 0 <= k < i ==> before[k] != before[i];
    ViewsStable(views, view, before, slotsBefore, after, slotsAfter, i);
  }

  /** The end of the walk: the state is the state after the pass, every card
      of the final list has its view, and cards not listed before the pass
      show an empty transcript. */
  lemma PassDone(cards0: seq<int>, slots0: map<string, string>, click: Click,
                 cards: seq<int>, slots: map<string, string>, views: seq<CardView>)
    requires SlotsOwned(cards0, slots0)
    requires Walked(cards0, slots0, click, cards, slots, |cards|)
    requires |views| == |cards| && ViewsMatch(views, cards, slots)
    ensures cards == CardsAfterPass(cards0, click)
    ensures slots == SlotsAfterPass(cards0, slots0, click)
    ensures forall k :: 0 <= k < |views| ==> views[k] == CardView(k, cards[k], TranscriptIn(slots, cards[k]))
    ensures forall k :: 0 <= k < |views| && cards[k] !in cards0 ==> views[k].transcript == ""
  {
    WalkDone(cards0, slots0, click, cards, slots);
    NewCardsShowEmpty(cards0, slots0, click, cards, slots, views);
  }

  class Session {
    /** `st.session_state.cards`, in display order. */
    var cards: seq<int>
    /** The string-valued entries of `st.session_state`. */
    var slots: map<string, string>

    ghost predicate Valid()
      reads this
    {
      Distinct(cards) && NonNegative(cards) && SlotsOwned(cards, slots)
    }

    /** The transcript the card with this id shows. */
    function Transcript(cardId: int): (t: string)
      reads this
      ensures TranscriptKey(cardId) !in slots ==> t == ""
    {
      TranscriptIn(slots, cardId)
    }

    /** A new session: the card list is created as `[0]` and no card has a
        transcript yet. */
    constructor ()
      ensures Valid()
      ensures cards == [0]
      ensures slots == map[]
      ensures forall id :: Transcript(id) == ""
    {
      cards := [0];
      slots := map[];
    }

    /** `add_card(idx)`: insert a fresh id at `idx + 1` by Python's
        `list.insert` rule. */
    method AddCard(idx: int)
      requires Valid()
      modifies this
      ensures Valid()
      ensures cards == AfterAdd(old(cards), idx)
      ensures slots == old(slots)
      ensures Transcript(NextId(old(cards))) == ""
    {
      var nextId := MaxOr(cards, -1) + 1;
      var p := InsertPos(idx + 1, |cards|);
      AddKeepsOwnership(cards, slots, idx);
      assert nextId == NextId(cards);
      cards := Insert(cards, p, nextId);
    }

    /** The "Transcribe" handler of one card: with audio, store the result
        under that card's key; without, only warn. */
    method TranscribeClicked(cardId: int, audio: Recording, text: string) returns (warned: bool)
      requires Valid() && cardId in cards
      modifies this
      ensures Valid()
      ensures warned <==> !HasAudio(audio)
      ensures cards == old(cards)
      ensures slots == AfterTranscribe(old(slots), cardId, audio, text)
    {
      SlotsOwnedWrite(cards, slots, cardId, audio, text);
      if audio.Recording? && audio.lengthMs > 0 {
        slots := slots[TranscriptKey(cardId) := text];
        warned := false;
      } else {
        warned := true;
      }
    }

    /** `render_card(idx, card_id)` for the card at position `idx`: run the
        card's "Transcribe" handler if that button fired, read the card's
        transcript for display, then run `add_card(idx)` if the card's
        "Add Card Below" button fired. */
    method RenderCard(idx: nat, click: Click) returns (view: CardView)
      requires Valid() && idx < |cards|
      modifies this
      ensures Valid()
      ensures view == CardView(idx, old(cards)[idx], TranscriptIn(slots, old(cards)[idx]))
      ensures cards == if click.AddBelow? && click.cardId == old(cards)[idx]
                       then AfterAdd(old(cards), idx) else old(cards)
      ensures slots == if click.Transcribe? && click.cardId == old(cards)[idx]
                       then AfterTranscribe(old(slots), click.cardId, click.audio, click.text) else old(slots)
      ensures forall other :: other != old(cards)[idx] ==> TranscriptIn(slots, other) == TranscriptIn(old(slots), other)
    {
      var cardId := cards[idx];
      if click.Transcribe? && click.cardId == cardId {
        ghost var slotsBefore := slots;
        var _ := TranscribeClicked(cardId, click.audio, click.text);
        forall other | other != cardId
          ensures TranscriptIn(slots, other) == TranscriptIn(slotsBefore, other)
        {
          AfterTranscribeEffect(slotsBefore, cardId, click.audio, click.text, other);
        }
      }
      view := CardView(idx, cardId, Transcript(cardId));
      if click.AddBelow? && click.cardId == cardId {
        AddCard(idx);
      }
    }

    /** One rerun of the page: `for i, cid in enumerate(cards)` over the
        live card list. A card added during the walk is inserted right after
        the current one and so is rendered in the same pass. */
    method RenderPass(click: Click) returns (views: seq<CardView>)
      requires Valid()
      modifies this
      ensures Valid()
      ensures cards == CardsAfterPass(old(cards), click)
      ensures slots == SlotsAfterPass(old(cards), old(slots), click)
      ensures |views| == |cards|
      ensures forall k :: 0 <= k < |views| ==> views[k] == CardView(k, cards[k], Transcript(cards[k]))
      ensures forall k :: 0 <= k < |views| && cards[k] !in old(cards) ==> views[k].transcript == ""
    {
      ghost var cards0, slots0 := cards, slots;
      assert SlotsOwned(cards0, slots0);
      views := [];
      var i := 0;
      while i < |cards|
        invariant Valid()
        invariant Walked(cards0, slots0, click, cards, slots, i)
        invariant |views| == i
        invariant ViewsMatch(views, cards, slots)
        decreases Remaining(click, cards, i)
      {
        ghost var before, slotsBefore := cards, slots;
        var view := RenderCard(i, click);
        RenderStep(cards0, slots0, click, before, slotsBefore, cards, slots, views, view, i);
        views := views + [view];
        i := i + 1;
      }
      PassDone(cards0, slots0, click, cards, slots, views);
    }
  }
}
