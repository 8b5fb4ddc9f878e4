/** The locked-card page: the state its top-level script and click handlers
    update in place — what is in `localStorage`, the URL's query parameters,
    the pinned card index and the marks set of the rendered card. */
module Page {
  import opened Seqs
  import opened JsText
  import opened Cards
  import opened Marks
  import opened Lock

  class LockedPage {
    var storage: Store
    var query: Query
    var lockedIndex: nat
    var marks: seq<nat>

    /** Between events: the index is in range and is what storage and URL hold,
        and the marks are a set. */
    ghost predicate Valid()
      reads this
    {
      lockedIndex < CARD_COUNT &&
      StoredIndex(storage) == Some(lockedIndex) &&
      Pinned(query, lockedIndex) &&
      Distinct(marks)
    }

    /** A page load: the selection step, then `loadMarks` for the pinned card
        as `renderLockedCard` does. */
    constructor Open(storage0: Store, query0: Query)
      ensures Valid()
      ensures Resolve(storage0, query0, lockedIndex) == Resolution(lockedIndex, storage, query)
      ensures marks == LoadMarks(storage, lockedIndex)
    {
      storage := storage0;
      query := query0;
      lockedIndex := 0;
      marks := [];
      new;
      ResolveLock();
      marks := LoadMarks(storage, lockedIndex);
    }

    /** The selection step: read the stored index unless `new=1`, draw and
        store a fresh one when there is none in range, then pin it in the URL. */
    method ResolveLock()
      modifies this
      ensures lockedIndex < CARD_COUNT
      ensures Resolve(old(storage), old(query), lockedIndex) == Resolution(lockedIndex, storage, query)
      ensures marks == old(marks)
    {
      ghost var store0, query0 := storage, query;
      var locked := ReadLockedIndex();
      if locked.None? || locked.value < 0 || locked.value >= CARD_COUNT {
        assert ForceNew(query0) || StoredIndex(store0).None?;
        lockedIndex := RandInt(CARD_COUNT);
        storage := storage[LOCK_KEY := NatToDecimal(lockedIndex)];
        assert Resolve(store0, query0, lockedIndex).storage == storage;
      } else {
        assert !ForceNew(query0) && StoredIndex(store0) == Some(locked.value);
        lockedIndex := locked.value;
        assert Resolve(store0, query0, lockedIndex).storage == storage;
      }
      query := query[CARD_PARAM := NatToDecimal(lockedIndex)] - {NEW_PARAM};
      assert query == Pin(query0, lockedIndex);
    }

    /** Lines before the range check: unless `new=1`, read the stored text and
        `parseInt` it. The range check that follows accepts exactly `StoredIndex`. */
    method ReadLockedIndex() returns (locked: Option<int>)
      ensures ForceNew(query) ==> locked.None?
      ensures !ForceNew(query) && LOCK_KEY !in storage ==> locked.None?
      ensures !ForceNew(query) && LOCK_KEY in storage ==> locked == ParseInt(storage[LOCK_KEY])
      ensures (if ForceNew(query) then None else StoredIndex(storage)) ==
        (if locked.Some? && 0 <= locked.value < CARD_COUNT then Some(locked.value as nat) else None)
    {
      var forceNew := NEW_PARAM in query && query[NEW_PARAM] == "1";
      locked := None;
      if !forceNew {
        if LOCK_KEY in storage {
          locked := ParseInt(storage[LOCK_KEY]);
        }
      }
    }

    /** A click on cell `i`: flip its membership, then `saveMarks`. When the
        write lands, the stored entry loads back as the new set. */
    method ToggleCell(i: nat, writable: bool)
      requires Valid() && i < CELLS
      modifies this
      ensures Valid()
      ensures marks == ToggleMark(old(marks), i)
      ensures storage == SaveMarks(old(storage), lockedIndex, marks, writable)
      ensures writable ==> LoadMarks(storage, lockedIndex) == marks
      ensures lockedIndex == old(lockedIndex) && query == old(query)
    {
      if i !in marks {
        marks := marks + [i];
      } else {
        marks := Remove(marks, i);
      }
      assert marks == ToggleMark(old(marks), i);
      SaveCurrentMarks(writable);
    }

    /** `saveMarks(lockedIndex, set)` for the rendered card: the lock and the
        other cards' entries stay, and a write that lands loads back as the set. */
    method SaveCurrentMarks(writable: bool)
      requires Valid()
      modifies this
      ensures Valid()
      ensures storage == SaveMarks(old(storage), lockedIndex, marks, writable)
      ensures writable ==> LoadMarks(storage, lockedIndex) == marks
      ensures lockedIndex == old(lockedIndex) && query == old(query) && marks == old(marks)
    {
      MarksKeepLock(storage, lockedIndex, marks, writable);
      if writable {
        LoadSavedMarks(storage, lockedIndex, marks);
      }
      storage := SaveMarks(storage, lockedIndex, marks, writable);
    }

    /** The reset button: remove the card's marks entry and render again,
        which loads the (now empty) marks. */
    method Reset()
      requires Valid()
      modifies this
      ensures Valid()
      ensures storage == ResetMarks(old(storage), lockedIndex)
      ensures marks == []
      ensures lockedIndex == old(lockedIndex) && query == old(query)
    {
      MarksKeepLock(storage, lockedIndex, marks, false);
      storage := ResetMarks(storage, lockedIndex);
      marks := LoadMarks(storage, lockedIndex);
      ResetClearsMarks(old(storage), lockedIndex);
    }

    /** Loading the page again from the state the previous load left: the same
        card, no write, and the marks as stored. */
    method Reload()
      requires Valid()
      modifies this
      ensures Valid()
      ensures lockedIndex == old(lockedIndex) && storage == old(storage) && query == old(query)
      ensures marks == LoadMarks(storage, lockedIndex)
    {
      ghost var idx := lockedIndex;
      ResolveLock();
      ResolvePinned(old(storage), old(query), idx, lockedIndex);
      marks := LoadMarks(storage, lockedIndex);
    }
  }
}
