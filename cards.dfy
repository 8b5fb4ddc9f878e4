/** Card generation: the song pool, sampling without replacement, the layout
    shuffle, the split into rows and the loop that collects cards until it
    has the requested number of distinct keys. */
module Cards {
  import opened Seqs
  import opened JsText

  const ROWS: nat := 4
  const COLS: nat := 3
  const CARD_COUNT: nat := 30
  /** Number of cells on a card, the number of songs each card draws. */
  const CELLS: nat := ROWS * COLS

  /** A card is its rows; each row holds song titles. */
  type Card = seq<seq<string>>

  /** `randInt(n)`: the random source yields some integer in [0, n). */
  method RandInt(n: nat) returns (r: nat)
    requires n > 0
    ensures r < n
  {
    r :| r < n;
  }

  /** `(window.SONGS || []).filter(Boolean)`: for strings, the falsy value is the
      empty one, so every non-empty title is kept as often as it occurs. */
  function SongPool(raw: seq<string>): (pool: seq<string>)
    ensures multiset(pool)[""] == 0
    ensures forall s :: s != "" ==> multiset(pool)[s] == multiset(raw)[s]
  {
    if raw == [] then []
    else
      assert raw == [raw[0]] + raw[1..];
      (if raw[0] != "" then [raw[0]] else []) + SongPool(raw[1..])
  }

  /** `[a[i], a[j]] = [a[j], a[i]]`. */
  method Swap<T>(a: array<T>, i: nat, j: nat)
    requires i < a.Length && j < a.Length
    modifies a
    ensures a[..] == old(a[..])[i := old(a[j])][j := old(a[i])]
    ensures multiset(a[..]) == multiset(old(a[..]))
  {
    a[i], a[j] := a[j], a[i];
  }

  /** `sampleUnique(arr, k)`: a partial Fisher-Yates pass over a copy of `arr`;
      the first `k` slots of the copy are the sample. */
  method SampleUnique<T>(arr: seq<T>, k: nat) returns (picked: seq<T>)
    requires k <= |arr|
    ensures |picked| == k
    ensures multiset(picked) <= multiset(arr)
    ensures k == |arr| ==> multiset(picked) == multiset(arr)
    ensures Distinct(arr) ==> Distinct(picked)
  {
    var copy := new T[|arr|](i requires 0 <= i < |arr| => arr[i]);
    assert copy[..] == arr;
    for i := 0 to k
      invariant multiset(copy[..]) == multiset(arr)
    {
      var offset := RandInt(copy.Length - i);
      Swap(copy, i, i + offset);
    }
    picked := copy[..k];
    assert copy[..] == picked + copy[k..];
    if Distinct(arr) {
      SubMultisetDistinct(picked, arr);
    }
  }

  /** `Math.ceil(a / n)` for a non-negative `a` and a positive `n`. */
  function CeilDiv(a: nat, n: nat): nat
    requires n > 0
  {
    (a + n - 1) / n
  }

  lemma CeilDivBounds(a: nat, n: nat)
    requires n > 0
    ensures a <= CeilDiv(a, n) * n < a + n
  {
    var q, r := (a + n - 1) / n, (a + n - 1) % n;
    assert q * n + r == a + n - 1;
  }

  lemma MulLe(x: nat, y: nat, n: nat)
    requires x <= y
    ensures x * n <= y * n
  {
  }

  lemma MulLeCancel(x: nat, y: nat, n: nat)
    requires n > 0 && x * n <= y * n
    ensures x <= y
  {
  }

  lemma MulLtCancel(x: nat, y: nat, n: nat)
    requires n > 0 && x * n < (y + 1) * n
    ensures x <= y
  {
  }

  /** `s.slice(from, to)` for `0 <= from <= to`: both ends are clamped to the length. */
  function Slice<T>(s: seq<T>, from: nat, to: nat): seq<T>
    requires from <= to
  {
    s[Min(from, |s|)..Min(to, |s|)]
  }

  /** `chunk(arr, n)`: `ceil(|arr| / n)` rows, row `i` being `arr.slice(i * n, i * n + n)`. */
  function Chunk<T>(arr: seq<T>, n: nat): seq<seq<T>>
    requires n > 0
  {
    seq(CeilDiv(|arr|, n), i requires 0 <= i => Slice(arr, i * n, i * n + n))
  }

  /** `m.flat()`: the rows one after another. */
  function Flatten<T>(m: seq<seq<T>>): seq<T>
  {
    if m == [] then [] else m[0] + Flatten(m[1..])
  }

  lemma MulSucc(x: int, n: int)
    ensures (x + 1) * n == x * n + n
  {
  }

  lemma ChunkRowLength<T>(arr: seq<T>, n: nat, i: nat)
    requires n > 0 && i < |Chunk(arr, n)|
    ensures |Chunk(arr, n)[i]| == Min(i * n + n, |arr|) - Min(i * n, |arr|)
  {
  }

  /** `chunk` gives rows of exactly `n` items, except the last, which holds
      the 1 to `n` items left over; no rows at all for an empty input. */
  lemma ChunkShape<T>(arr: seq<T>, n: nat)
    requires n > 0
    ensures var rows := Chunk(arr, n);
      (|rows| == 0 <==> |arr| == 0) &&
      (forall i :: 0 <= i < |rows| - 1 ==> |rows[i]| == n) &&
      (|rows| > 0 ==> 0 < |rows[|rows| - 1]| == |arr| - (|rows| - 1) * n <= n)
  {
    var rows := Chunk(arr, n);
    var q := |rows|;
    CeilDivBounds(|arr|, n);
    if q > 0 {
      MulSucc(q - 1, n);
      ChunkRowLength(arr, n, q - 1);
    } else {
      assert q * n == 0;
    }
    forall i | 0 <= i < q - 1 ensures |rows[i]| == n {
      MulLe(i + 1, q - 1, n);
      MulSucc(i, n);
      MulSucc(q - 1, n);
      ChunkRowLength(arr, n, i);
    }
  }

  /** Rows `m..` of slices of width `n`, starting at offset `off == m * n`,
      flatten to the rest of `arr` from that offset. */
  lemma {:induction false} FlattenSlicesFrom<T>(arr: seq<T>, n: nat, rows: seq<seq<T>>, m: nat, off: nat)
    requires n > 0 && m <= |rows| && off == m * n && |arr| <= |rows| * n
    requires forall i :: 0 <= i < |rows| ==> rows[i] == Slice(arr, i * n, i * n + n)
    ensures Flatten(rows[m..]) == arr[Min(off, |arr|)..]
    decreases |rows| - m
  {
    if m == |rows| {
      assert rows[m..] == [];
    } else {
      MulSucc(m, n);
      FlattenSlicesFrom(arr, n, rows, m + 1, off + n);
      var lo, hi := Min(off, |arr|), Min(off + n, |arr|);
      assert rows[m] == arr[lo..hi];
      assert rows[m..] == [rows[m]] + rows[m + 1..];
      SuffixSplit(arr, lo, hi);
    }
  }

  /** Splitting into rows and flattening them again gives back the input. */
  lemma FlattenChunk<T>(arr: seq<T>, n: nat)
    requires n > 0
    ensures Flatten(Chunk(arr, n)) == arr
  {
    var rows := Chunk(arr, n);
    CeilDivBounds(|arr|, n);
    FlattenSlicesFrom(arr, n, rows, 0, 0);
    assert rows[0..] == rows;
  }

  lemma {:induction false} FlattenUniformLength<T>(m: seq<seq<T>>, n: nat)
    requires forall r :: r in m ==> |r| == n
    ensures |Flatten(m)| == |m| * n
  {
    if m != [] {
      FlattenUniformLength(m[1..], n);
      MulSucc(|m| - 1, n);
    }
  }

  /** `flat()` distributes over concatenation of row lists. */
  lemma {:induction false} FlattenConcat<T>(a: seq<seq<T>>, b: seq<seq<T>>)
    ensures Flatten(a + b) == Flatten(a) + Flatten(b)
  {
    if a == [] {
      assert a + b == b;
    } else {
      FlattenConcat(a[1..], b);
      assert (a + b)[0] == a[0] && (a + b)[1..] == a[1..] + b;
    }
  }

  /** Row `i` lies in the flattened sequence right after the rows before it. */
  lemma FlattenRow<T>(m: seq<seq<T>>, i: nat)
    requires i < |m|
    ensures var off := |Flatten(m[..i])|;
      off + |m[i]| <= |Flatten(m)| && Flatten(m)[off..off + |m[i]|] == m[i]
  {
    var pre, row, post := m[..i], m[i], m[i + 1..];
    assert m == pre + ([row] + post);
    FlattenConcat(pre, [row] + post);
    assert ([row] + post)[1..] == post;
    var a := Flatten(pre);
    assert (a + (row + Flatten(post)))[|a|..|a| + |row|] == row;
  }

  /** Flattening rows of `n` items and splitting by `n` again gives back the rows. */
  lemma ChunkFlatten<T>(m: seq<seq<T>>, n: nat)
    requires n > 0
    requires forall r :: r in m ==> |r| == n
    ensures Chunk(Flatten(m), n) == m
  {
    var flat := Flatten(m);
    FlattenUniformLength(m, n);
    CeilDivBounds(|flat|, n);
    var q := CeilDiv(|flat|, n);
    MulSucc(|m|, n);
    MulLeCancel(|m|, q, n);
    MulLtCancel(q, |m|, n);
    forall i | 0 <= i < |m| ensures Chunk(flat, n)[i] == m[i] {
      MulLe(i + 1, |m|, n);
      MulSucc(i, n);
      FlattenUniformLength(m[..i], n);
      FlattenRow(m, i);
    }
  }

  /** Every card has `ROWS` rows of `COLS` titles. */
  predicate WellShaped(card: Card)
  {
    |card| == ROWS && forall r :: r in card ==> |r| == COLS
  }

  /** `makeCard()`: sample `CELLS` titles, shuffle their layout with a full
      Fisher-Yates pass, then split them into rows of `COLS`. */
  method MakeCard(pool: seq<string>) returns (card: Card)
    requires |pool| >= CELLS
    ensures WellShaped(card)
    ensures multiset(Flatten(card)) <= multiset(pool)
    ensures Distinct(pool) ==> Distinct(Flatten(card))
  {
    var sample := SampleUnique(pool, CELLS);
    var picks := new string[|sample|](i requires 0 <= i < |sample| => sample[i]);
    assert picks[..] == sample;
    Shuffle(picks);
    var laid := picks[..];
    card := Chunk(laid, COLS);
    CardOfPicks(laid);
    if Distinct(pool) {
      SubMultisetDistinct(laid, pool);
    }
  }

  /** `CELLS` titles split by `COLS` make a well-shaped card that flattens back to them. */
  lemma CardOfPicks(laid: seq<string>)
    requires |laid| == CELLS
    ensures WellShaped(Chunk(laid, COLS)) && Flatten(Chunk(laid, COLS)) == laid
  {
    ChunkShape(laid, COLS);
    FlattenChunk(laid, COLS);
  }

  /** The layout shuffle of `makeCard`: a full Fisher-Yates pass from the
      last slot down, which only ever swaps, so the array keeps its items. */
  method Shuffle<T>(a: array<T>)
    modifies a
    ensures multiset(a[..]) == multiset(old(a[..]))
  {
    var i := a.Length - 1;
    while i > 0
      invariant i < a.Length
      invariant multiset(a[..]) == multiset(old(a[..]))
    {
      var j := RandInt(i + 1);
      Swap(a, i, j);
      i := i - 1;
    }
  }

  /** `flatten(card).join("|")`: the text the dedup loop identifies a card by. */
  function Key(card: Card): string
  {
    Join(Flatten(card), "|")
  }

  /** What every generated card satisfies with respect to the pool. */
  predicate DrawnFrom(card: Card, pool: seq<string>)
  {
    WellShaped(card) &&
    multiset(Flatten(card)) <= multiset(pool) &&
    (Distinct(pool) ==> Distinct(Flatten(card)))
  }

  predicate DistinctKeys(cards: seq<Card>)
  {
    forall i, j :: 0 <= i < j < |cards| ==> Key(cards[i]) != Key(cards[j])
  }

  function KeySet(cards: seq<Card>): set<string>
  {
    set c | c in cards :: Key(c)
  }

  /** `generateUniqueCards(count)`: draw cards and keep those whose key is new,
      until `count` are kept. The source loops without bound; here at most
      `maxAttempts` cards are drawn and `None` reports that the budget ran out. */
  method GenerateUniqueCards(pool: seq<string>, count: nat, maxAttempts: nat)
    returns (r: Option<seq<Card>>)
    requires |pool| >= CELLS
    ensures r.Some? ==> |r.value| == count
    ensures r.Some? ==> DistinctKeys(r.value)
    ensures r.Some? ==> forall i, j :: 0 <= i < j < |r.value| ==> r.value[i] != r.value[j]
    ensures r.Some? ==> forall c :: c in r.value ==> DrawnFrom(c, pool)
  {
    var seen: set<string> := {};
    var out: seq<Card> := [];
    var attempts := 0;
    while |out| < count && attempts < maxAttempts
      invariant |out| <= count
      invariant seen == KeySet(out)
      invariant DistinctKeys(out)
      invariant forall c :: c in out ==> DrawnFrom(c, pool)
      decreases maxAttempts - attempts
    {
      var card := MakeCard(pool);
      var key := Key(card);
      if key !in seen {
        seen := seen + {key};
        out := out + [card];
      }
      attempts := attempts + 1;
    }
    if |out| == count {
      r := Some(out);
    } else {
      r := None;
    }
  }

  /** Two cards of the catalog's shape are equal exactly when their
      flattened sequences are: the row split is fixed by the shape. */
  lemma FlattenDistinguishesCards(a: Card, b: Card)
    requires WellShaped(a) && WellShaped(b)
    ensures Flatten(a) == Flatten(b) <==> a == b
  {
    if Flatten(a) == Flatten(b) {
      ChunkFlatten(a, COLS);
      ChunkFlatten(b, COLS);
    }
  }

  /** When no title contains `|`, the key identifies a card exactly; otherwise
      two different cards may share a key and the dedup loop keeps only one. */
  lemma KeyDistinguishesCards(a: Card, b: Card)
    requires WellShaped(a) && WellShaped(b)
    requires forall s :: s in Flatten(a) ==> '|' !in s
    requires forall s :: s in Flatten(b) ==> '|' !in s
    ensures Key(a) == Key(b) <==> a == b
  {
    if Key(a) == Key(b) {
      FlattenUniformLength(a, COLS);
      FlattenUniformLength(b, COLS);
      JoinInjective(Flatten(a), Flatten(b), '|');
      FlattenDistinguishesCards(a, b);
    }
  }
}
