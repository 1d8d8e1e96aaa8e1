/** The .NET string operations the assembler relies on: `Trim`, `Split`,
    `IndexOf`, `Int32.ToString` and the `TryParse` family with
    `NumberStyles.Integer` and `NumberStyles.HexNumber`. */
module Text {
  import opened Wrappers
  import Bytes

  /** `char.IsWhiteSpace`: U+0009..U+000D, U+0020, U+0085, U+00A0 and the
      Unicode space, line and paragraph separators. */
  predicate IsWhiteSpace(c: char)
  {
    var n := c as int;
    (9 <= n <= 13) || n == 0x20 || n == 0x85 || n == 0xA0 || n == 0x1680
    || (0x2000 <= n <= 0x200A) || n == 0x2028 || n == 0x2029 || n == 0x202F
    || n == 0x205F || n == 0x3000
  }

  /** The white space that `NumberStyles.AllowLeadingWhite`/`AllowTrailingWhite` skip. */
  predicate IsNumberWhite(c: char)
  {
    var n := c as int;
    (9 <= n <= 13) || n == 0x20
  }

  function TrimStart(s: string, ws: char -> bool): (r: string)
    ensures |r| <= |s| && r == s[|s| - |r|..]
    ensures r == [] || !ws(r[0])
  {
    if s != [] && ws(s[0]) then
      var r := TrimStart(s[1..], ws);
      assert s[1..][|s| - 1 - |r|..] == s[|s| - |r|..];
      r
    else s
  }

  /** Everything `TrimStart` drops is white space. Stated apart from the
      function so that proofs about `TrimStart` do not carry the quantifier. */
  lemma {:induction false} TrimStartDropsWhite(s: string, ws: char -> bool)
    ensures forall i :: 0 <= i < |s| - |TrimStart(s, ws)| ==> ws(s[i])
  {
    if s != [] && ws(s[0]) {
      TrimStartDropsWhite(s[1..], ws);
      assert forall i :: 1 <= i < |s| - |TrimStart(s, ws)| ==> s[i] == s[1..][i - 1];
    }
  }

  function TrimEnd(s: string, ws: char -> bool): (r: string)
    ensures |r| <= |s| && r == s[..|r|]
    ensures r == [] || !ws(r[|r| - 1])
  {
    if s != [] && ws(s[|s| - 1]) then TrimEnd(s[..|s| - 1], ws) else s
  }

  /** Everything `TrimEnd` drops is white space. */
  lemma {:induction false} TrimEndDropsWhite(s: string, ws: char -> bool)
    ensures forall i :: |TrimEnd(s, ws)| <= i < |s| ==> ws(s[i])
  {
    if s != [] && ws(s[|s| - 1]) {
      TrimEndDropsWhite(s[..|s| - 1], ws);
    }
  }

  /** `s.Trim()` with the given notion of white space. */
  function TrimWith(s: string, ws: char -> bool): string
  {
    TrimEnd(TrimStart(s, ws), ws)
  }

  /** `string.Trim()`. */
  function Trim(s: string): string
  {
    TrimWith(s, IsWhiteSpace)
  }

  /** Trimming keeps one contiguous slice of the input, starting where
      TrimStart stopped (TrimStart and TrimEnd state that everything dropped
      is white space). */
  lemma {:induction false} TrimSlice(s: string, ws: char -> bool)
    ensures var r, a := TrimWith(s, ws), |s| - |TrimStart(s, ws)|;
      a + |r| <= |s| && r == s[a..a + |r|]
  {
    var t := TrimStart(s, ws);
    SliceOfSuffix(s, |s| - |t|, t, TrimWith(s, ws));
  }

  lemma SliceOfSuffix(s: string, a: nat, t: string, r: string)
    requires a <= |s| && t == s[a..]
    requires |r| <= |t| && r == t[..|r|]
    ensures a + |r| <= |s| && r == s[a..a + |r|]
  {
  }

  /** No white space is left at either end of a trimmed text. */
  lemma {:induction false} TrimEnds(s: string, ws: char -> bool)
    ensures var r := TrimWith(s, ws); r == [] || (!ws(r[0]) && !ws(r[|r| - 1]))
  {
    var t := TrimStart(s, ws);
    var r := TrimEnd(t, ws);
    if r != [] {
      assert r[0] == t[0];
    }
  }

  lemma {:induction false} TrimStartIdempotent(s: string, ws: char -> bool)
    requires s == [] || !ws(s[0])
    ensures TrimStart(s, ws) == s
  {
  }

  lemma {:induction false} TrimIdempotent(s: string, ws: char -> bool)
    ensures TrimWith(TrimWith(s, ws), ws) == TrimWith(s, ws)
  {
    var r := TrimWith(s, ws);
    TrimEnds(s, ws);
    if r != [] {
      assert TrimStart(r, ws) == r;
      assert TrimEnd(r, ws) == r;
    }
  }

  /** The position of the first `c` in `s`, as `IndexOf` gives it (None for -1). */
  function IndexOf(s: string, c: char): (r: Option<nat>)
    ensures r.None? <==> c !in s
    ensures r.Some? ==> r.value < |s| && s[r.value] == c && c !in s[..r.value]
  {
    if s == [] then None
    else if s[0] == c then Some(0)
    else match IndexOf(s[1..], c)
      case None => None
      case Some(k) =>
        assert s[1..][..k] == s[1..k + 1];
        Some(k + 1)
  }

  /** `s.Split(seps)`: every maximal run of non-separators, empty runs included. */
  function Split(s: string, seps: set<char>): (r: seq<string>)
    ensures |r| >= 1
    ensures forall i :: 0 <= i < |r| ==> forall c :: c in r[i] ==> c !in seps
  {
    if s == [] then [[]]
    else
      var rest := Split(s[1..], seps);
      if s[0] in seps then [[]] + rest else [[s[0]] + rest[0]] + rest[1..]
  }

  function JoinWith(parts: seq<string>, sep: char): string
  {
    if parts == [] then []
    else if |parts| == 1 then parts[0]
    else parts[0] + [sep] + JoinWith(parts[1..], sep)
  }

  /** Splitting on one separator and joining again gives back the input. */
  lemma {:induction false} SplitJoin(s: string, sep: char)
    ensures JoinWith(Split(s, {sep}), sep) == s
  {
    if s != [] {
      SplitJoin(s[1..], sep);
      var rest := Split(s[1..], {sep});
      if s[0] == sep {
        assert s == [sep] + s[1..];
      } else if |rest| == 1 {
        assert s == [s[0]] + rest[0];
      } else {
        assert JoinWith(rest, sep) == rest[0] + [sep] + JoinWith(rest[1..], sep);
        assert s == ([s[0]] + rest[0]) + [sep] + JoinWith(rest[1..], sep);
      }
    }
  }

  /** A string without the separator splits into itself alone. */
  lemma {:induction false} SplitNone(s: string, seps: set<char>)
    requires forall c :: c in s ==> c !in seps
    ensures Split(s, seps) == [s]
  {
    if s != [] {
      assert forall c :: c in s[1..] ==> c in s;
      SplitNone(s[1..], seps);
      assert s == [s[0]] + s[1..];
    }
  }

  /** Splitting at a separator splits each side apart: the parts of the
      text before it, then the parts of the text after it. */
  lemma {:induction false} SplitAtSeparator(a: string, c: char, b: string, seps: set<char>)
    requires c in seps
    ensures Split(a + [c] + b, seps) == Split(a, seps) + Split(b, seps)
  {
    var s := a + [c] + b;
    if a == [] {
      assert s == [c] + b && s[1..] == b;
    } else {
      assert s[0] == a[0] && s[1..] == a[1..] + [c] + b;
      SplitAtSeparator(a[1..], c, b, seps);
    }
  }

  /** Two separator-free texts joined by the separator split back apart. */
  lemma SplitPair(a: string, b: string, sep: char)
    requires sep !in a && sep !in b
    ensures Split(a + [sep] + b, {sep}) == [a, b]
  {
    SplitAtSeparator(a, sep, b, {sep});
    SplitNone(a, {sep});
    SplitNone(b, {sep});
  }

  /** `StringSplitOptions.RemoveEmptyEntries`: the non-empty parts, in
      their order (RemoveEmptyAppend states the order). */
  function RemoveEmpty(parts: seq<string>): (r: seq<string>)
    ensures forall i :: 0 <= i < |r| ==> r[i] != []
    ensures forall p :: p in r <==> p in parts && p != []
    ensures |r| <= |parts|
  {
    if parts == [] then []
    else if parts[0] == [] then RemoveEmpty(parts[1..])
    else [parts[0]] + RemoveEmpty(parts[1..])
  }

  /** Filtering a concatenation filters each side and keeps them in order;
      with RemoveEmptySingle this pins the result down part by part. */
  lemma {:induction false} RemoveEmptyAppend(a: seq<string>, b: seq<string>)
    ensures RemoveEmpty(a + b) == RemoveEmpty(a) + RemoveEmpty(b)
  {
    if a == [] {
      assert a + b == b;
    } else {
      assert (a + b)[0] == a[0];
      assert (a + b)[1..] == a[1..] + b;
      RemoveEmptyAppend(a[1..], b);
    }
  }

  /** The head and tail of a concatenation whose left side is not empty. */
  lemma ConsAppend<T>(a: seq<T>, b: seq<T>)
    requires a != []
    ensures (a + b)[0] == a[0] && (a + b)[1..] == a[1..] + b
  {
  }

  /** The two sides of one element in the middle of a sequence. */
  lemma AroundSeparator<T>(a: seq<T>, x: T, b: seq<T>)
    ensures (a + [x] + b)[..|a|] == a && (a + [x] + b)[|a| + 1..] == b
  {
  }

  /** Two one-element sequences make the pair, and the pair's tail is its second. */
  lemma PairOfSingles<T>(x: T, y: T)
    ensures [x] + [y] == [x, y] && [x, y][1..] == [y]
  {
  }

  /** Appending two elements one at a time appends the pair. */
  lemma AppendPair<T>(s: seq<T>, x: T, y: T)
    ensures s + [x] + [y] == s + [x, y]
  {
  }

  /** One part: dropped when empty, kept otherwise. */
  lemma RemoveEmptySingle(p: string)
    ensures RemoveEmpty([p]) == if p == [] then [] else [p]
  {
    assert [p][1..] == [];
  }

  /** The text before the first `sep` (all of `s` when there is none): `s.Split(sep)[0]`. */
  lemma {:induction false} SplitFirst(s: string, sep: char)
    ensures var k := IndexOf(s, sep);
      Split(s, {sep})[0] == if k.Some? then s[..k.value] else s
  {
    if s != [] && s[0] != sep {
      SplitFirst(s[1..], sep);
      var k := IndexOf(s[1..], sep);
      if k.Some? {
        assert s[..k.value + 1] == [s[0]] + s[1..][..k.value];
      }
    }
  }

  // ---- decimal numbers ----

  predicate IsDigit(c: char)
  {
    '0' <= c <= '9'
  }

  predicate AllDigits(s: string)
  {
    forall i :: 0 <= i < |s| ==> IsDigit(s[i])
  }

  function DigitChar(d: nat): (c: char)
    requires d < 10
    ensures IsDigit(c)
  {
    (('0' as int) + d) as char
  }

  /** The value of a string of decimal digits, most significant first. */
  function DigitsValue(s: string): nat
    requires AllDigits(s)
  {
    if s == [] then 0
    else DigitsValue(s[..|s| - 1]) * 10 + ((s[|s| - 1] as int) - ('0' as int))
  }

  /** `n.ToString()` for a non-negative value. */
  function NatToString(n: nat): (s: string)
    ensures s != [] && AllDigits(s)
    ensures n > 0 ==> s[0] != '0'
  {
    if n < 10 then [DigitChar(n)] else NatToString(n / 10) + [DigitChar(n % 10)]
  }

  /** `Int32.ToString()` and `Int64.ToString()` with the invariant culture's minus sign. */
  function IntToString(x: int): string
  {
    if x < 0 then "-" + NatToString(-x) else NatToString(x)
  }

  lemma {:induction false} NatToStringValue(n: nat)
    ensures DigitsValue(NatToString(n)) == n
  {
    if n >= 10 {
      NatToStringValue(n / 10);
      var s := NatToString(n);
      assert s[..|s| - 1] == NatToString(n / 10);
    }
  }

  /** The decimal number in `s` under `NumberStyles.Integer`: optional
      surrounding white space, an optional sign, then one or more digits. */
  function ParseInteger(s: string): Option<int>
  {
    var t := TrimWith(s, IsNumberWhite);
    if t == [] then None
    else if t[0] == '-' || t[0] == '+' then
      var d := t[1..];
      if d != [] && AllDigits(d) then
        Some(if t[0] == '-' then -(DigitsValue(d) as int) else DigitsValue(d))
      else None
    else if AllDigits(t) then Some(DigitsValue(t))
    else None
  }

  /** `T.TryParse(s, out v)` for an integral type with range `lo..hi`. */
  function TryParse(s: string, lo: int, hi: int): (r: Option<int>)
    ensures r.Some? ==> lo <= r.value <= hi && ParseInteger(s) == r
    ensures r.None? <==> (ParseInteger(s).None? || !(lo <= ParseInteger(s).value <= hi))
  {
    match ParseInteger(s)
    case Some(v) => if lo <= v <= hi then Some(v) else None
    case None => None
  }

  /** A minus sign followed by digits, with no white space, reads as the
      negated digits. */
  lemma NegativeDecimal(d: string)
    requires d != [] && AllDigits(d)
    ensures ParseInteger("-" + d) == Some(-(DigitsValue(d) as int))
  {
    var s := "-" + d;
    assert s[0] == '-' && s[1..] == d && s[|s| - 1] == d[|d| - 1];
    AlreadyTrimmed(s, IsNumberWhite);
  }

  /** The text `ToString` prints reads back as the same number. */
  lemma IntToStringParses(x: int)
    ensures ParseInteger(IntToString(x)) == Some(x)
  {
    var n := if x < 0 then -x else x;
    var digits := NatToString(n);
    NatToStringValue(n);
    var s := IntToString(x);
    assert s[0] == '-' || IsDigit(s[0]);
    assert s[|s| - 1] == digits[|digits| - 1];
    AlreadyTrimmed(s, IsNumberWhite);
    if x < 0 {
      assert s[0] == '-' && s[1..] == digits;
    } else {
      assert s == digits && IsDigit(s[0]);
    }
  }

  /** A text that neither starts nor ends with white space is its own trim. */
  lemma AlreadyTrimmed(s: string, ws: char -> bool)
    requires s != [] && !ws(s[0]) && !ws(s[|s| - 1])
    ensures TrimWith(s, ws) == s
  {
    assert TrimStart(s, ws) == s;
  }

  // ---- hexadecimal numbers ----

  predicate IsHexDigit(c: char)
  {
    ('0' <= c <= '9') || ('a' <= c <= 'f') || ('A' <= c <= 'F')
  }

  predicate AllHexDigits(s: string)
  {
    forall i :: 0 <= i < |s| ==> IsHexDigit(s[i])
  }

  function HexDigitValue(c: char): (v: nat)
    requires IsHexDigit(c)
    ensures v < 16
  {
    if '0' <= c <= '9' then (c as int) - ('0' as int)
    else if 'a' <= c <= 'f' then (c as int) - ('a' as int) + 10
    else (c as int) - ('A' as int) + 10
  }

  function HexValue(s: string): nat
    requires AllHexDigits(s)
  {
    if s == [] then 0 else HexValue(s[..|s| - 1]) * 16 + HexDigitValue(s[|s| - 1])
  }

  /** The hexadecimal digits in `s` under `NumberStyles.HexNumber`: optional
      surrounding white space, one or more hex digits, no sign. */
  function ParseHexDigits(s: string): Option<nat>
  {
    var t := TrimWith(s, IsNumberWhite);
    if t != [] && AllHexDigits(t) then Some(HexValue(t)) else None
  }

  /** Hex digits with no white space around them read as their value. */
  lemma PlainHexDigits(s: string)
    requires s != [] && AllHexDigits(s)
    ensures ParseHexDigits(s) == Some(HexValue(s))
  {
    assert IsHexDigit(s[0]) && IsHexDigit(s[|s| - 1]);
    AlreadyTrimmed(s, IsNumberWhite);
  }

  /** An `n`-byte bit pattern `v` read as the integral type: unchanged when
      unsigned, two's complement when signed. */
  function FromBits(v: nat, n: nat, signed: bool): (r: int)
    requires v < Bytes.Pow256(n)
    ensures signed ==> 0 <= 2 * r + Bytes.Pow256(n) && 2 * r < Bytes.Pow256(n)
    ensures !signed ==> r == v
    ensures r % Bytes.Pow256(n) == v
  {
    var p := Bytes.Pow256(n);
    var r := if signed && 2 * v >= p then v - p else v;
    assert r % p == v by {
      if r < v {
        Bytes.ModUnique(r, p, -1, v);
      } else {
        Bytes.ModUnique(r, p, 0, v);
      }
    }
    r
  }

  /** `T.TryParse(s, NumberStyles.HexNumber, null, out v)` for an integral type
      of `n` bytes: the digits give the bit pattern, which must fit in `n`
      bytes, read as two's complement when `signed`. */
  function TryParseHex(s: string, n: nat, signed: bool): (r: Option<int>)
    ensures r.Some? <==> ParseHexDigits(s).Some? && ParseHexDigits(s).value < Bytes.Pow256(n)
    ensures r.Some? ==> r.value % Bytes.Pow256(n) == ParseHexDigits(s).value
    ensures r.Some? && signed ==> 0 <= 2 * r.value + Bytes.Pow256(n) && 2 * r.value < Bytes.Pow256(n)
    ensures r.Some? && !signed ==> r.value == ParseHexDigits(s).value
  {
    match ParseHexDigits(s)
    case Some(v) => if v < Bytes.Pow256(n) then Some(FromBits(v, n, signed)) else None
    case None => None
  }
}
