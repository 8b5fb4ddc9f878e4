# Song Bingo card engine, in Dafny

This project models the locked-card variant of the Song Bingo web page (`app.js`).

The page builds 30 distinct 4×3 bingo cards from a list of song titles. It pins one card index per browser in `localStorage`, or draws a new one when the URL says `?new=1`. It writes that index into the URL as `card=<index>`, and it keeps each card's marked cells in `localStorage` as a JSON array.

The model covers four parts of the page:

- **Card generation** (`Cards`). `sampleUnique` is a partial Fisher–Yates pass over an array copy. The layout shuffle in `makeCard` is a full Fisher–Yates pass over an array. `chunk`, `flatten` and the `join("|")` key are functions on sequences. The dedup loop of `generateUniqueCards` is a method with its loop invariants. Randomness is `RandInt`, which yields some integer in `[0, n)` by nondeterministic choice.
- **`escapeHtml`** (`Html`). It is a per-character replacement table. Its partner is the entity decoding a browser applies to `innerHTML`. Decoding the escaped title gives back the title.
- **Mark store** (`Marks`). A JS `Set` of cell positions is kept in insertion order as a sequence without repeats. The module models:
  - the storage key of a card;
  - `JSON.stringify` / `JSON.parse` for arrays of non-negative integers;
  - `new Set(list)`;
  - `loadMarks`, `saveMarks`, `set.add` / `set.delete` on a click, and the `removeItem` of reset.
- **Locked-index resolution** (`Lock`, `Page`). `Lock.Resolve` is the selection step (lines 63–78) as a function of the storage, the query string and the value a random draw would give. `Page.LockedPage` is a class holding the state the page updates in place: the `localStorage` map, the query-parameter map, `lockedIndex` and the rendered card's marks. Its methods are proved against `Resolve`, `ToggleMark`, `SaveMarks` and `LoadMarks`.

`JsText` models the JavaScript primitives this code relies on, for the values it gives them:

- `String(n)` for non-negative integers;
- `parseInt(s, 10)`: leading white space, sign, the longest digit run, trailing text ignored;
- `Array.prototype.join`.

Only the card index is persisted. The card list is drawn again with fresh randomness on every page load (line 54). So a reload keeps the same index (`Lock.ResolveIdempotent`, `Page.LockedPage.Reload`), but the songs on the card at that index are generally different. The model does not claim otherwise.

## Model

| member | source | states |
|---|---|---|
| `Cards.RandInt` | app.js:11 | the random source yields an integer in `[0, n)` for `n > 0` |
| `Cards.SongPool` | app.js:6 | `filter(Boolean)` on titles drops exactly the empty titles and keeps every other title as often as it occurs (no dedup) |
| `Cards.Swap` | app.js:17 | the destructuring swap exchanges two slots and leaves the multiset of the array unchanged |
| `Cards.SampleUnique` | app.js:13-20 | for `k <= |arr|`: exactly `k` items, a sub-multiset of `arr` (all of it when `k == |arr|`), pairwise distinct when `arr` is; the loop invariant is that the copy stays a permutation of `arr` |
| `Cards.CeilDivBounds` | app.js:22 | `ceil(a/n) * n` lies in `[a, a + n)` |
| `Cards.ChunkShape` | app.js:21-22 | `chunk(arr, n)` has no rows iff `arr` is empty; every row but the last has `n` items; the last holds the 1 to `n` left over |
| `Cards.FlattenSlicesFrom` | app.js:21-23 | rows that are the consecutive width-`n` slices of `arr` flatten, from row `m` on, to `arr` from offset `m*n` on |
| `Cards.FlattenChunk` | app.js:21-23 | `flatten(chunk(arr, n)) == arr` |
| `Cards.FlattenConcat` | app.js:23 | `flat()` of two row lists joined is the two flattenings joined |
| `Cards.FlattenRow` | app.js:23 | row `i` appears in the flattened sequence right after the items of the rows before it |
| `Cards.FlattenUniformLength` | app.js:23 | rows of `n` items flatten to `rows * n` items |
| `Cards.ChunkFlatten` | app.js:21-23 | with rows of `n` items, `chunk(flatten(m), n) == m` |
| `Cards.Shuffle` | app.js:28-31 | the layout loop only swaps, so the array keeps exactly its items (same multiset); it runs from the last slot down and does nothing on an empty array |
| `Cards.CardOfPicks` | app.js:32 | `chunk(picks, COLS)` of `ROWS*COLS` titles is a `ROWS`×`COLS` card that flattens back to the titles |
| `Cards.MakeCard` | app.js:25-33 | the card has `ROWS` rows of `COLS` titles, its titles are a sub-multiset of the pool, and they are pairwise distinct when the pool has no duplicate; the layout loop keeps the picks a permutation of the sample |
| `Cards.GenerateUniqueCards` | app.js:35-47 | on success: exactly `count` cards, no two with the same `join("|")` key, hence no two equal, each well shaped and drawn from the pool; loop invariant `seen == keys(out)` with `|out| <= count` |
| `Cards.FlattenDistinguishesCards` | app.js:40 | two 4×3 cards are equal iff their flattened sequences are |
| `Cards.KeyDistinguishesCards` | app.js:40-41 | when no title contains `|`, two 4×3 cards have the same key iff they are equal |
| `JsText.NatToDecimal` | app.js:73 | `String(i)` is a non-empty digit string with a leading `0` only for zero |
| `JsText.DecimalValue` | app.js:73 | the digits of `String(i)` denote `i` |
| `JsText.DecimalInjective` | app.js:83 | different indices have different decimal text |
| `JsText.LeadingDigits` | app.js:68 | the longest prefix of decimal digits: all digits, and the next character (if any) is not a digit |
| `JsText.TrimStart` | app.js:68 | the result is a suffix of the input, every dropped character is JS white space, and the result does not start with white space |
| `JsText.LeadingDigitsStop` | app.js:68 | digits followed by a non-digit are exactly the leading digit run |
| `JsText.ParseIntOfDecimal` | app.js:68 | `parseInt(String(i) + t, 10) == i` whenever `t` does not start with a digit |
| `JsText.JoinInjective` | app.js:40 | `join` with a separator no part contains is injective on lists of equal length |
| `Html.EscapeHtml` | app.js:49-51 | the output never holds `<`, `>`, `"` or `'` and is at least as long as the input |
| `Html.UnescapeStep` | app.js:50 | each table entry decodes back to its character |
| `Html.EscapeRoundTrip` | app.js:49-51 | decoding the five character references in the escaped text gives back the title exactly |
| `Html.EscapePlainText` | app.js:50 | text without `& < > " '` is left unchanged |
| `Html.EscapeConcat` | app.js:50 | the replacement works character by character: escaping distributes over concatenation |
| `Marks.MarksKeyTemplate` | app.js:83 | the marks key prefix is the template filled in with `ROWS` and `COLS` |
| `Marks.StorageKeyInjective` | app.js:82-84 | different card indices have different marks keys |
| `Marks.ParseJoinedNumbers` | app.js:87 | the comma-joined decimals of a non-empty list parse back to the list |
| `Marks.ParseEncodedMarks` | app.js:94 | `JSON.parse(JSON.stringify(list))` gives the list back |
| `Marks.Dedup` | app.js:87 | `new Set(list)` has no repeats, has the same members as the list, and is the list itself when it has no repeats |
| `Marks.LoadMarks` | app.js:85-91 | the result is a set; a missing or unparsable entry gives the empty set |
| `Marks.LoadSavedMarks` | app.js:92-95 | after a successful `saveMarks(idx, set)`, `loadMarks(idx)` gives the same set in the same order |
| `Marks.OtherCardsUntouched` | app.js:92-95 | saving or resetting the marks of card `idx` leaves what every other card loads unchanged |
| `Marks.ResetClearsMarks` | app.js:128 | after `removeItem` of a card's key, that card loads with no marks |
| `Marks.Remove` | app.js:119 | `set.delete(x)`: `x` is gone, other members stay, no repeats are introduced |
| `Marks.ToggleMark` | app.js:117-121 | a click flips the membership of cell `i` only, and the marks stay a set |
| `Marks.ToggleTwice` | app.js:117-121 | two clicks on a cell restore the same members; for an unmarked cell they restore the exact sequence; a marked cell comes back last in insertion order |
| `Lock.LockKeyTemplate` | app.js:60 | `LOCK_KEY` is the template filled in with `ROWS`, `COLS` and `CARD_COUNT` |
| `Lock.StoredIndexAfterWrite` | app.js:73 | an index in range written as `String(i)` under the lock key is read back as `i` |
| `Lock.StoredIndex` | app.js:66-71 | a persisted index is accepted only if `parseInt` gives an integer in `[0, CARD_COUNT)` |
| `Lock.Pin` | app.js:77-78 | afterwards `card == String(idx)` and there is no `new`; all other parameters are unchanged |
| `Lock.PinTwice` | app.js:77-78 | pinning the same index again changes nothing |
| `Lock.PinnedIsFixpoint` | app.js:77-78 | a URL names card `idx` without `new` exactly when pinning it to `idx` changes nothing (both directions) |
| `Lock.Resolve` | app.js:63-78 | the index is in `[0, CARD_COUNT)` and is what storage now holds. Without `new=1` and with a valid stored index, that index is kept and storage is not written. Otherwise the drawn index is written under the lock key. No other storage key changes, and the query is pinned |
| `Lock.ResolvePinned` | app.js:63-78 | a page whose storage and URL already hold index `i` resolves to `i` and changes nothing |
| `Lock.ResolveIdempotent` | app.js:56-78 | resolving again from the state a resolution left returns the same index, storage and query, whatever the random draws |
| `Lock.LockKeyIsNotMarksKey` | app.js:60-84 | the lock key differs from the marks key of every card |
| `Lock.ResolveKeepsMarks` | app.js:73 | selecting the card leaves the marks of every card unchanged |
| `Lock.MarksKeepLock` | app.js:92-95 | saving or resetting marks leaves the persisted locked index unchanged |
| `Page.LockedPage.Open` | app.js:60-79 | a page load ends in a state equal to `Resolve` from the initial storage and URL, with the pinned card's marks loaded |
| `Page.LockedPage.ReadLockedIndex` | app.js:62-68 | with `new=1` nothing is read and the result is `None`. Otherwise it is `None` when no index is stored and `parseInt` of the stored text when one is; the range check then accepts exactly `StoredIndex` |
| `Page.LockedPage.ResolveLock` | app.js:62-78 | the imperative selection step ends in the state `Resolve` describes for its own draw |
| `Page.LockedPage.ToggleCell` | app.js:117-121 | the marks become `ToggleMark(old, i)` and storage becomes `SaveMarks(old, idx, marks, writable)`. When the write lands, the stored entry loads back as the new marks. Index, URL and lock stay unchanged |
| `Page.LockedPage.SaveCurrentMarks` | app.js:120 | storage becomes `SaveMarks(old, idx, marks, writable)`, and a write that lands loads back as the marks. Index, URL, marks and lock stay unchanged |
| `Page.LockedPage.Reset` | app.js:127-130 | the card's marks entry is removed and the re-rendered marks are empty; index, URL and lock stay unchanged |
| `Page.LockedPage.Reload` | app.js:56-79 | loading the page again keeps the index, storage and URL, and loads the stored marks |

## Left out

- DOM rendering and event wiring (lines 99–125): element creation, `classList`, `innerHTML` and the label. Only the set semantics of a click are kept. The model assumes that a cell's `marked` class matches membership in the marks set. Rendering sets it that way, and only the click handler changes either one.
- The share button (lines 132–147): asynchronous platform I/O (`navigator.share`, the clipboard, `alert`, `prompt`).
- `history.replaceState` and URL text (lines 62, 79). The query string is a map from name to value, so repeated parameters and parameter order are not modelled.
- `Math.random` and the floating-point arithmetic of `randInt` (line 11). They are replaced by a choice of any integer in `[0, n)`.
- The pool-size check (lines 7–9) only raises an alert and does not stop the script. `|pool| >= ROWS*COLS` is a precondition of `MakeCard` and `GenerateUniqueCards`. What the script does with a smaller pool (undefined cells) is not modelled.
- The card list is not a field of `Page.LockedPage`. Line 54 is modelled by `Cards.GenerateUniqueCards`. The lookup `cards[lockedIndex]` is in range because that method returns `CARD_COUNT` cards and the index is below `CARD_COUNT`.
- `Cards.GenerateUniqueCards`: the source loop has no retry cap. The model draws at most `maxAttempts` cards and returns `None` when they did not yield `count` distinct keys. Termination of the source loop is not claimed.
- `Cards.SampleUnique`: the uniform distribution of the sample is not stated, only which samples are possible.
- `Cards.MakeCard`: the uniform distribution of the layout is not stated, only that it is a permutation of the sample.
- `Marks.LoadMarks`: only canonical JSON arrays of non-negative integer literals are read; any other text counts as corrupt and loads as the empty set. The empty set is also what the page gets for `null`, for numbers and for objects, which `new Set` rejects. It is not what the page gets for arrays with white space or negative or fractional numbers, nor for JSON strings, which `new Set` would split into characters. The page never writes such values. Marks are also read as exact unbounded integers, whereas `JSON.parse` gives IEEE doubles. A literal above 2^53 is rounded there, so `[9007199254740993,9007199254740992]` loads as one member in the page but as two in the model. On the writing side, `JSON.stringify` writes a number of 1e21 or more in exponent form (`1e+21`), which `EncodeMarks` does not model. Only storage edited by hand can hold such values, since the page saves cell positions below `ROWS*COLS`.
- `Marks.SaveMarks`: a write the store refuses (quota exceeded, storage disabled) is the `writable == false` case and changes nothing, as the swallowed exception at line 95 does. The write at line 73 and the read at line 67 are taken to succeed. They are outside any `try`, so a failure there aborts the page script, which the model does not represent. The read at line 87 lies inside the `try` of `loadMarks` (lines 86–90), so a throwing `getItem` there is caught and loads as the empty set. The store map has no failing reads, but for such a failure the model would give `[]`, the same result as for an absent entry.
- `chunk` is modelled for a positive row length only. In JavaScript, `chunk(arr, 0)` throws for a non-empty array: the length `Infinity` is not a valid array length. For an empty array it returns `[]`, because `Math.ceil(0/0)` is NaN and `Array.from` then builds an empty array. The page always calls it with `COLS`.
