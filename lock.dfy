/** Locked-card selection: the first visit in a browser draws a card index
    and stores it; later visits read it back, unless the query string asks
    for a new one with `new=1`. Afterwards the query string names the card. */
module Lock {
  import opened Seqs
  import opened JsText
  import opened Cards
  import opened Marks

  /** `LOCK_KEY`: one lock per grid shape and number of cards. */
  const LOCK_KEY: string := "song-bingo-lock-4x3-cards30"

  /** The key is the template filled in with the grid shape and card count. */
  lemma LockKeyTemplate()
    ensures LOCK_KEY == "song-bingo-lock-" + NatToDecimal(ROWS) + "x" + NatToDecimal(COLS) + "-cards" + NatToDecimal(CARD_COUNT)
  {
  }

  const CARD_PARAM: string := "card"
  const NEW_PARAM: string := "new"

  /** The page URL's query parameters (`url.searchParams`). */
  type Query = map<string, string>

  /** `url.searchParams.get("new") === "1"`. */
  predicate ForceNew(query: Query)
  {
    NEW_PARAM in query && query[NEW_PARAM] == "1"
  }

  /** The persisted index, when there is one and `parseInt` reads it as an
      integer in [0, CARD_COUNT); `None` when it is absent, NaN or out of range. */
  function StoredIndex(store: Store): (r: Option<nat>)
    ensures r.Some? ==> r.value < CARD_COUNT
  {
    if LOCK_KEY !in store then None
    else
      match ParseInt(store[LOCK_KEY])
      case None => None
      case Some(v) => if 0 <= v < CARD_COUNT then Some(v) else None
  }

  /** The URL names card `idx` and does not ask for a new one. */
  predicate Pinned(query: Query, idx: nat)
  {
    CARD_PARAM in query && query[CARD_PARAM] == NatToDecimal(idx) && NEW_PARAM !in query
  }

  /** `url.searchParams.set("card", String(idx)); url.searchParams.delete("new")`. */
  function Pin(query: Query, idx: nat): (q: Query)
    ensures Pinned(q, idx)
    ensures forall k :: k != CARD_PARAM && k != NEW_PARAM ==> (k in q <==> k in query)
    ensures forall k :: k in q && k != CARD_PARAM ==> q[k] == query[k]
  {
    query[CARD_PARAM := NatToDecimal(idx)] - {NEW_PARAM}
  }

  /** Pinning the same index twice is pinning it once. */
  lemma PinTwice(query: Query, idx: nat)
    ensures Pin(Pin(query, idx), idx) == Pin(query, idx)
  {
  }

  /** A URL is already pinned to `idx` exactly when pinning it again changes nothing. */
  lemma PinnedIsFixpoint(query: Query, idx: nat)
    ensures Pinned(query, idx) <==> Pin(query, idx) == query
  {
    if Pinned(query, idx) {
      var q := Pin(query, idx);
      assert forall k :: k in q <==> k in query;
      assert forall k :: k in q ==> q[k] == query[k];
    }
  }

  /** What the selection step leaves behind: the index, the storage, the query. */
  datatype Resolution = Resolution(index: nat, storage: Store, query: Query)

  /** The selection step as a function of the storage and the query it starts
      from; `draw` is the value `randInt(CARD_COUNT)` gives when it is called. */
  function Resolve(store: Store, query: Query, draw: nat): (r: Resolution)
    requires draw < CARD_COUNT
    ensures r.index < CARD_COUNT
    ensures StoredIndex(r.storage) == Some(r.index)
    ensures r.query == Pin(query, r.index)
    ensures !ForceNew(query) && StoredIndex(store).Some? ==>
      r.index == StoredIndex(store).value && r.storage == store
    ensures ForceNew(query) || StoredIndex(store).None? ==>
      r.index == draw && LOCK_KEY in r.storage && r.storage[LOCK_KEY] == NatToDecimal(draw)
    ensures forall k :: k != LOCK_KEY ==> (k in r.storage <==> k in store)
    ensures forall k :: k in r.storage && k != LOCK_KEY ==> r.storage[k] == store[k]
  {
    var kept := if ForceNew(query) then None else StoredIndex(store);
    if kept.Some? then
      Resolution(kept.value, store, Pin(query, kept.value))
    else
      StoredIndexAfterWrite(store, draw);
      Resolution(draw, store[LOCK_KEY := NatToDecimal(draw)], Pin(query, draw))
  }

  /** `setItem(LOCK_KEY, String(i))` for an index in range is read back as `i`. */
  lemma StoredIndexAfterWrite(store: Store, i: nat)
    requires i < CARD_COUNT
    ensures StoredIndex(store[LOCK_KEY := NatToDecimal(i)]) == Some(i)
  {
    var written := store[LOCK_KEY := NatToDecimal(i)];
    assert written[LOCK_KEY] == NatToDecimal(i);
    ParseIntOfDecimal(i, []);
    assert NatToDecimal(i) + [] == NatToDecimal(i);
    assert ParseInt(NatToDecimal(i)) == Some(i);
  }

  /** A page whose storage and query already hold index `idx` keeps it and changes nothing. */
  lemma ResolvePinned(store: Store, query: Query, idx: nat, draw: nat)
    requires draw < CARD_COUNT
    requires StoredIndex(store) == Some(idx) && Pinned(query, idx)
    ensures Resolve(store, query, draw) == Resolution(idx, store, query)
  {
    PinnedIsFixpoint(query, idx);
  }

  /** Opening the page again (the storage as the first visit left it, the URL
      it rewrote) pins the same card and writes nothing, whatever the draws. */
  lemma ResolveIdempotent(store: Store, query: Query, first: nat, second: nat)
    requires first < CARD_COUNT && second < CARD_COUNT
    ensures var r := Resolve(store, query, first);
      Resolve(r.storage, r.query, second) == r
  {
    var r := Resolve(store, query, first);
    ResolvePinned(r.storage, r.query, r.index, second);
  }

  /** The lock key is not the marks key of any card. */
  lemma LockKeyIsNotMarksKey(idx: nat)
    ensures StorageKeyForCard(idx) != LOCK_KEY
  {
    assert StorageKeyForCard(idx)[11] == 'm';
    assert LOCK_KEY[11] == 'l';
  }

  /** Selecting the card leaves every card's marks where they were. */
  lemma ResolveKeepsMarks(store: Store, query: Query, draw: nat, idx: nat)
    requires draw < CARD_COUNT
    ensures LoadMarks(Resolve(store, query, draw).storage, idx) == LoadMarks(store, idx)
  {
    LockKeyIsNotMarksKey(idx);
  }

  /** Saving or clearing marks leaves the locked index where it was. */
  lemma MarksKeepLock(store: Store, idx: nat, marks: seq<nat>, writable: bool)
    ensures StoredIndex(SaveMarks(store, idx, marks, writable)) == StoredIndex(store)
    ensures StoredIndex(ResetMarks(store, idx)) == StoredIndex(store)
  {
    LockKeyIsNotMarksKey(idx);
  }
}
