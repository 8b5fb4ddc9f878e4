/** The JavaScript string primitives the card engine relies on, for the
    values it gives them: `String(n)` of a non-negative integer,
    `parseInt(s, 10)` and `Array.prototype.join`. */
module JsText {
  import opened Seqs

  predicate IsDigit(c: char) { '0' <= c <= '9' }

  predicate AllDigits(s: string) { forall i :: 0 <= i < |s| ==> IsDigit(s[i]) }

  function DigitChar(d: nat): (c: char)
    requires d < 10
    ensures IsDigit(c)
  {
    ('0' as int + d) as char
  }

  function DigitValue(c: char): (d: nat)
    requires IsDigit(c)
    ensures d < 10
  {
    c as int - '0' as int
  }

  /** `String(n)`: decimal digits, without a leading zero unless `n` is zero. */
  function NatToDecimal(n: nat): (s: string)
    ensures 0 < |s| && AllDigits(s)
    ensures (s[0] == '0') == (n == 0)
    ensures n == 0 ==> s == "0"
  {
    if n < 10 then [DigitChar(n)] else NatToDecimal(n / 10) + [DigitChar(n % 10)]
  }

  /** The number a run of decimal digits denotes, read most significant first. */
  function DigitsValue(ds: string): nat
    requires AllDigits(ds)
  {
    if ds == [] then 0 else DigitsValue(ds[..|ds| - 1]) * 10 + DigitValue(ds[|ds| - 1])
  }

  lemma {:induction false} DecimalValue(n: nat)
    ensures DigitsValue(NatToDecimal(n)) == n
  {
    if n >= 10 {
      var s := NatToDecimal(n);
      assert s[..|s| - 1] == NatToDecimal(n / 10);
      DecimalValue(n / 10);
    }
  }

  /** Two numbers with the same decimal text are the same number. */
  lemma DecimalInjective(i: nat, j: nat)
    requires NatToDecimal(i) == NatToDecimal(j)
    ensures i == j
  {
    DecimalValue(i);
    DecimalValue(j);
  }

  /** The longest prefix of `s` made of decimal digits. */
  function LeadingDigits(s: string): (d: string)
    ensures AllDigits(d) && d <= s
    ensures |d| < |s| ==> !IsDigit(s[|d|])
  {
    if s == [] || !IsDigit(s[0]) then [] else [s[0]] + LeadingDigits(s[1..])
  }

  /** Digits followed by something that is not a digit: the digits are the leading run. */
  lemma {:induction false} LeadingDigitsStop(d: string, t: string)
    requires AllDigits(d) && (t == [] || !IsDigit(t[0]))
    ensures LeadingDigits(d + t) == d
  {
    if d != [] {
      assert (d + t)[1..] == d[1..] + t;
      LeadingDigitsStop(d[1..], t);
    }
  }

  /** The characters `parseInt` skips before the number: white space and line terminators. */
  predicate IsJsSpace(c: char)
  {
    c == ' ' || c == '\t' || c == '\n' || c == '\r' ||
    c as int == 0x0B || c as int == 0x0C || c as int == 0xA0 || c as int == 0xFEFF ||
    c as int == 0x1680 || 0x2000 <= c as int <= 0x200A || c as int == 0x2028 ||
    c as int == 0x2029 || c as int == 0x202F || c as int == 0x205F || c as int == 0x3000
  }

  function TrimStart(s: string): (t: string)
    ensures |t| <= |s| && t == s[|s| - |t|..]
    ensures forall i :: 0 <= i < |s| - |t| ==> IsJsSpace(s[i])
    ensures t == [] || !IsJsSpace(t[0])
  {
    if s != [] && IsJsSpace(s[0]) then TrimStart(s[1..]) else s
  }

  /** `parseInt(s, 10)`: leading white space, an optional sign, then the longest run
      of decimal digits; anything after the run is ignored. `None` stands for NaN. */
  function ParseInt(s: string): Option<int>
  {
    var t := TrimStart(s);
    var negative := |t| > 0 && t[0] == '-';
    var u := if |t| > 0 && (t[0] == '-' || t[0] == '+') then t[1..] else t;
    var d := LeadingDigits(u);
    if d == [] then None
    else
      var magnitude: int := DigitsValue(d);
      Some(if negative then -magnitude else magnitude)
  }

  /** `parseInt` reads back what `String` wrote, whatever non-digit text follows it. */
  lemma ParseIntOfDecimal(n: nat, rest: string)
    requires rest == [] || !IsDigit(rest[0])
    ensures ParseInt(NatToDecimal(n) + rest) == Some(n)
  {
    var s := NatToDecimal(n) + rest;
    assert IsDigit(s[0]);
    assert !IsJsSpace(s[0]) && s[0] != '-' && s[0] != '+';
    assert TrimStart(s) == s;
    LeadingDigitsStop(NatToDecimal(n), rest);
    DecimalValue(n);
  }

  /** `parts.join(sep)`. */
  function Join(parts: seq<string>, sep: string): string
  {
    if parts == [] then ""
    else if |parts| == 1 then parts[0]
    else parts[0] + sep + Join(parts[1..], sep)
  }

  /** The longest prefix of `s` that does not contain `c`. */
  function UpTo(s: string, c: char): string
  {
    if s == [] || s[0] == c then [] else [s[0]] + UpTo(s[1..], c)
  }

  lemma {:induction false} UpToSeparator(a: string, sep: char, rest: string)
    requires sep !in a
    ensures UpTo(a + [sep] + rest, sep) == a
  {
    if a != [] {
      assert (a + [sep] + rest)[1..] == a[1..] + [sep] + rest;
      UpToSeparator(a[1..], sep, rest);
    }
  }

  /** Joining the same number of parts with a separator none of them contains
      can be undone: equal joins come from equal parts. */
  lemma {:induction false} JoinInjective(xs: seq<string>, ys: seq<string>, sep: char)
    requires |xs| == |ys|
    requires forall i :: 0 <= i < |xs| ==> sep !in xs[i]
    requires forall i :: 0 <= i < |ys| ==> sep !in ys[i]
    requires Join(xs, [sep]) == Join(ys, [sep])
    ensures xs == ys
  {
    if |xs| > 1 {
      var a, b := xs[0], ys[0];
      var joined := Join(xs, [sep]);
      assert joined == a + [sep] + Join(xs[1..], [sep]);
      assert joined == b + [sep] + Join(ys[1..], [sep]);
      UpToSeparator(a, sep, Join(xs[1..], [sep]));
      UpToSeparator(b, sep, Join(ys[1..], [sep]));
      assert a == b;
      assert Join(xs[1..], [sep]) == joined[|a| + 1..] == Join(ys[1..], [sep]);
      JoinInjective(xs[1..], ys[1..], sep);
      assert xs == [a] + xs[1..] && ys == [b] + ys[1..];
    }
  }
}
