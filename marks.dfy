/** The mark store: the marked cells of a card are a JS `Set` of cell
    positions, kept in `localStorage` as a JSON array under a key derived
    from the grid shape and the card index. */
module Marks {
  import opened Seqs
  import opened JsText
  import opened Cards

  /** `localStorage`: text values under text keys. */
  type Store = map<string, string>

  /** The fixed part of every marks key: one namespace per grid shape. */
  const MARKS_KEY_PREFIX: string := "song-bingo-marks-4x3-card"

  /** The prefix is the template filled in with the grid shape. */
  lemma MarksKeyTemplate()
    ensures MARKS_KEY_PREFIX == "song-bingo-marks-" + NatToDecimal(ROWS) + "x" + NatToDecimal(COLS) + "-card"
  {
  }

  /** `storageKeyForCard(idx)`. */
  function StorageKeyForCard(idx: nat): string
  {
    MARKS_KEY_PREFIX + NatToDecimal(idx)
  }

  /** Different cards never share a marks entry. */
  lemma StorageKeyInjective(i: nat, j: nat)
    requires StorageKeyForCard(i) == StorageKeyForCard(j)
    ensures i == j
  {
    var p := MARKS_KEY_PREFIX;
    assert NatToDecimal(i) == StorageKeyForCard(i)[|p|..];
    assert NatToDecimal(j) == StorageKeyForCard(j)[|p|..];
    DecimalInjective(i, j);
  }

  /** The decimal text of each number, in order. */
  function Decimals(xs: seq<nat>): seq<string>
  {
    if xs == [] then [] else [NatToDecimal(xs[0])] + Decimals(xs[1..])
  }

  /** `JSON.stringify([...set])` for a set of non-negative integers. */
  function EncodeMarks(marks: seq<nat>): string
  {
    "[" + Join(Decimals(marks), ",") + "]"
  }

  /** A JSON number literal for a non-negative integer: digits, no leading zero. */
  predicate IsJsonNat(d: string)
  {
    |d| > 0 && AllDigits(d) && (d[0] == '0' ==> |d| == 1)
  }

  /** The numbers of a comma-separated list of JSON number literals. */
  function ParseNumbers(t: string): Option<seq<nat>>
    decreases |t|
  {
    var d := LeadingDigits(t);
    if !IsJsonNat(d) then None
    else if |d| == |t| then Some([DigitsValue(d)])
    else if t[|d|] != ',' then None
    else
      match ParseNumbers(t[|d| + 1..])
      case None => None
      case Some(rest) => Some([DigitsValue(d)] + rest)
  }

  /** `JSON.parse(text)` when the text is an array of non-negative integers;
      `None` for every other text. */
  function ParseMarks(text: string): Option<seq<nat>>
  {
    if |text| >= 2 && text[0] == '[' && text[|text| - 1] == ']' then
      var body := text[1..|text| - 1];
      if body == [] then Some([]) else ParseNumbers(body)
    else None
  }

  lemma ParseOneNumber(x: nat)
    ensures ParseNumbers(NatToDecimal(x)) == Some([x])
  {
    var d := NatToDecimal(x);
    DecimalValue(x);
    LeadingDigitsStop(d, []);
    assert d + [] == d;
  }

  lemma ParseNextNumber(x: nat, rest: string, tail: seq<nat>)
    requires ParseNumbers(rest) == Some(tail)
    ensures ParseNumbers(NatToDecimal(x) + "," + rest) == Some([x] + tail)
  {
    var d := NatToDecimal(x);
    var t := d + "," + rest;
    DecimalValue(x);
    assert t == d + ("," + rest);
    LeadingDigitsStop(d, "," + rest);
    assert t[|d|] == ',' && t[|d| + 1..] == rest;
  }

  lemma {:induction false} ParseJoinedNumbers(xs: seq<nat>)
    requires xs != []
    ensures ParseNumbers(Join(Decimals(xs), ",")) == Some(xs)
  {
    assert Decimals(xs) == [NatToDecimal(xs[0])] + Decimals(xs[1..]);
    if |xs| == 1 {
      ParseOneNumber(xs[0]);
      assert xs == [xs[0]];
    } else {
      ParseJoinedNumbers(xs[1..]);
      ParseNextNumber(xs[0], Join(Decimals(xs[1..]), ","), xs[1..]);
      assert xs == [xs[0]] + xs[1..];
    }
  }

  /** Reading back what `saveMarks` wrote gives the same list. */
  lemma ParseEncodedMarks(marks: seq<nat>)
    ensures ParseMarks(EncodeMarks(marks)) == Some(marks)
  {
    var body := Join(Decimals(marks), ",");
    assert EncodeMarks(marks)[1..|EncodeMarks(marks)| - 1] == body;
    if marks != [] {
      ParseJoinedNumbers(marks);
      assert Decimals(marks)[0] == NatToDecimal(marks[0]);
      assert |body| > 0;
    }
  }

  /** `new Set(list)`: the first occurrence of every item, in order. */
  function Dedup(xs: seq<nat>): (r: seq<nat>)
    ensures Distinct(r)
    ensures forall x :: x in r <==> x in xs
    ensures Distinct(xs) ==> r == xs
  {
    if xs == [] then []
    else
      var init := Dedup(xs[..|xs| - 1]);
      var last := xs[|xs| - 1];
      assert xs == xs[..|xs| - 1] + [last];
      if last in init then init else init + [last]
  }

  /** `loadMarks(idx)`: the stored array as a set of positions; an absent
      entry or one that does not parse gives the empty set. */
  function LoadMarks(store: Store, idx: nat): (marks: seq<nat>)
    ensures Distinct(marks)
    ensures StorageKeyForCard(idx) !in store ==> marks == []
    ensures StorageKeyForCard(idx) in store && ParseMarks(store[StorageKeyForCard(idx)]).None? ==> marks == []
  {
    var key := StorageKeyForCard(idx);
    if key !in store then []
    else
      match ParseMarks(store[key])
      case None => []
      case Some(xs) => Dedup(xs)
  }

  /** `saveMarks(idx, set)`: the write either lands or, when the store refuses
      it (the exception swallowed by `catch {}`), changes nothing. */
  function SaveMarks(store: Store, idx: nat, marks: seq<nat>, writable: bool): Store
  {
    if writable then store[StorageKeyForCard(idx) := EncodeMarks(marks)] else store
  }

  /** `localStorage.removeItem(storageKeyForCard(idx))` on reset. */
  function ResetMarks(store: Store, idx: nat): Store
  {
    store - {StorageKeyForCard(idx)}
  }

  /** A saved set loads back unchanged, order included. */
  lemma LoadSavedMarks(store: Store, idx: nat, marks: seq<nat>)
    requires Distinct(marks)
    ensures LoadMarks(SaveMarks(store, idx, marks, true), idx) == marks
  {
    ParseEncodedMarks(marks);
  }

  /** Saving or resetting the marks of one card leaves every other card's marks alone. */
  lemma OtherCardsUntouched(store: Store, idx: nat, other: nat, marks: seq<nat>, writable: bool)
    requires other != idx
    ensures LoadMarks(SaveMarks(store, idx, marks, writable), other) == LoadMarks(store, other)
    ensures LoadMarks(ResetMarks(store, idx), other) == LoadMarks(store, other)
  {
    if StorageKeyForCard(other) == StorageKeyForCard(idx) {
      StorageKeyInjective(other, idx);
    }
  }

  /** After reset the card loads with no marks. */
  lemma ResetClearsMarks(store: Store, idx: nat)
    ensures LoadMarks(ResetMarks(store, idx), idx) == []
  {
  }

  /** `set.delete(x)`: the other items keep their order. */
  function Remove(s: seq<nat>, x: nat): (r: seq<nat>)
    ensures x !in r
    ensures forall y :: y != x ==> (y in r <==> y in s)
    ensures Distinct(s) ==> Distinct(r)
  {
    if s == [] then []
    else
      assert s == [s[0]] + s[1..];
      assert Distinct(s) ==> Distinct(s[1..]) && s[0] !in s[1..];
      (if s[0] == x then [] else [s[0]]) + Remove(s[1..], x)
  }

  /** The click handler's effect on the set: cell `i` flips, nothing else does. */
  function ToggleMark(marks: seq<nat>, i: nat): (r: seq<nat>)
    requires Distinct(marks)
    ensures Distinct(r)
    ensures i in r <==> i !in marks
    ensures forall j :: j != i ==> (j in r <==> j in marks)
  {
    if i in marks then Remove(marks, i) else marks + [i]
  }

  lemma {:induction false} RemoveAppended(s: seq<nat>, x: nat)
    requires x !in s
    ensures Remove(s + [x], x) == s
  {
    if s == [] {
      assert [x][1..] == [];
    } else {
      assert (s + [x])[1..] == s[1..] + [x];
      RemoveAppended(s[1..], x);
      assert s == [s[0]] + s[1..];
    }
  }

  /** Clicking a cell twice restores the set. When the cell was unmarked the
      insertion order is restored too; when it was marked it comes back last. */
  lemma ToggleTwice(marks: seq<nat>, i: nat)
    requires Distinct(marks)
    ensures forall j :: j in ToggleMark(ToggleMark(marks, i), i) <==> j in marks
    ensures i !in marks ==> ToggleMark(ToggleMark(marks, i), i) == marks
    ensures i in marks ==> ToggleMark(ToggleMark(marks, i), i) == Remove(marks, i) + [i]
  {
    if i !in marks {
      RemoveAppended(marks, i);
    }
  }
}
