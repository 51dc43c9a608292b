/** The formatting both fingerprints use: decimal and hexadecimal words, and joining with a separator. */
module Printing {
  import opened Wire

  // ---- %d ----

  function Digit(n: nat): (c: char)
    requires n < 10
    ensures '0' <= c <= '9'
  {
    '0' + n as char
  }

  function Dec(n: nat): (s: string)
    ensures s != []
    ensures forall c | c in s :: '0' <= c <= '9'
  {
    if n < 10 then [Digit(n)] else Dec(n / 10) + [Digit(n % 10)]
  }

  /** The value of a digit, decimal or hexadecimal. */
  function DigitValue(c: char): nat {
    if '0' <= c <= '9' then c as int - '0' as int else if 'a' <= c <= 'f' then 10 + (c as int - 'a' as int) else 0
  }

  /** Reading a number, most significant digit first. */
  function ReadNumber(s: string, base: nat): nat {
    if s == [] then 0 else base * ReadNumber(s[..|s| - 1], base) + DigitValue(s[|s| - 1])
  }

  lemma ReadSnoc(s: string, c: char, base: nat)
    ensures ReadNumber(s + [c], base) == base * ReadNumber(s, base) + DigitValue(c)
  {
    assert (s + [c])[..|s|] == s;
  }

  lemma ReadOne(c: char, base: nat)
    ensures ReadNumber([c], base) == DigitValue(c)
  {
    assert [] + [c] == [c];
    ReadSnoc([], c, base);
  }

  /** Decimal numbers are printed without leading zeros, and read back. */
  lemma {:induction false} DecReads(n: nat)
    ensures ReadNumber(Dec(n), 10) == n
    ensures Dec(n)[0] == '0' ==> n == 0
  {
    if n < 10 {
      ReadOne(Digit(n), 10);
    } else {
      DecReads(n / 10);
      ReadSnoc(Dec(n / 10), Digit(n % 10), 10);
    }
  }

  predicate AllDigits(s: string) {
    forall c | c in s :: '0' <= c <= '9'
  }

  /** A decimal numeral of `n`: digits, no leading zero, value `n`. */
  predicate IsDecimal(s: string, n: nat) {
    s != [] && AllDigits(s) && (s[0] == '0' ==> |s| == 1) && ReadNumber(s, 10) == n
  }

  lemma {:induction false} DecLeads(n: nat)
    ensures Dec(n)[0] == '0' ==> |Dec(n)| == 1
  {
    if n >= 10 {
      DecLeads(n / 10);
      DecReads(n / 10);
    }
  }

  /** Digits that read as 0 without a leading zero are the one digit 0. */
  lemma {:induction false} ReadsPositive(s: string)
    requires s != [] && AllDigits(s) && s[0] != '0'
    ensures ReadNumber(s, 10) > 0
  {
    if |s| == 1 {
      assert s[0] in s;
    } else {
      var init := s[..|s| - 1];
      assert forall c | c in init :: c in s;
      ReadsPositive(init);
    }
  }

  /** The printed form is the one and only decimal numeral of a number. */
  lemma {:induction false} DecimalExactly(s: string, n: nat)
    ensures s == Dec(n) <==> IsDecimal(s, n)
    decreases |s|
  {
    DecReads(n);
    DecLeads(n);
    if IsDecimal(s, n) {
      OneNumeral(s, n);
    }
  }

  lemma {:induction false} OneNumeral(s: string, n: nat)
    requires IsDecimal(s, n)
    ensures s == Dec(n)
  {
    var init, d := LastDigit(s);
    if init == [] {
      assert s == [Digit(d)];
      ReadOne(Digit(d), 10);
    } else {
      ReadSnoc(init, Digit(d), 10);
      var q := ReadNumber(init, 10);
      assert init[0] == s[0];
      ReadsPositive(init);
      TenTimes(q, d, n);
      OneNumeral(init, q);
    }
  }

  lemma LastDigit(s: string) returns (init: string, d: nat)
    requires s != [] && AllDigits(s)
    ensures d < 10 && s == init + [Digit(d)] && AllDigits(init) && |init| == |s| - 1
  {
    init := s[..|s| - 1];
    var last := s[|s| - 1];
    assert last in s && forall c | c in init :: c in s;
    d := DigitValue(last);
    assert last == Digit(d);
  }

  lemma TenTimes(q: nat, d: nat, n: nat)
    requires n == 10 * q + d && d < 10 && q > 0
    ensures n / 10 == q && n % 10 == d && n >= 10
  {
  }

  function Decs(ws: seq<nat>): (items: seq<string>)
    ensures |items| == |ws|
    ensures forall i | 0 <= i < |ws| :: items[i] == Dec(ws[i])
  {
    seq(|ws|, i requires 0 <= i < |ws| => Dec(ws[i]))
  }

  // ---- %02d of a count capped at 99, and %04x ----

  function Count2(n: nat): (s: string)
    ensures |s| == 2
  {
    var k := if n < 99 then n else 99;
    [Digit(k / 10), Digit(k % 10)]
  }

  /** Two digits whose value is the capped count. */
  predicate IsCount(s: string, n: nat) {
    |s| == 2 && AllDigits(s) && ReadNumber(s, 10) == if n < 99 then n else 99
  }

  /** The printed count is two digits, a zero in front of counts below ten, and reads back as the count capped at 99. */
  lemma Count2Reads(n: nat)
    ensures IsCount(Count2(n), n)
  {
    var k := if n < 99 then n else 99;
    ReadOne(Digit(k / 10), 10);
    ReadSnoc([Digit(k / 10)], Digit(k % 10), 10);
    assert [Digit(k / 10)] + [Digit(k % 10)] == Count2(n);
  }

  /** No other text counts `n`. */
  lemma CountExactly(s: string, n: nat)
    ensures s == Count2(n) <==> IsCount(s, n)
  {
    Count2Reads(n);
    if IsCount(s, n) {
      var k := if n < 99 then n else 99;
      var a, b := TwoDigits(s);
      Quotient(a, b, k);
    }
  }

  lemma TwoDigits(s: string) returns (a: nat, b: nat)
    requires |s| == 2 && AllDigits(s)
    ensures a < 10 && b < 10 && s == [Digit(a), Digit(b)] && ReadNumber(s, 10) == 10 * a + b
  {
    assert s[0] in s && s[1] in s;
    a, b := DigitValue(s[0]), DigitValue(s[1]);
    ReadOne(s[0], 10);
    ReadSnoc([s[0]], s[1], 10);
    assert [s[0]] + [s[1]] == s;
  }

  lemma Quotient(a: nat, b: nat, k: nat)
    requires a < 10 && b < 10 && k == 10 * a + b
    ensures k / 10 == a && k % 10 == b
  {
  }

  predicate IsHexDigit(c: char) {
    '0' <= c <= '9' || 'a' <= c <= 'f'
  }

  function HexDigit(n: nat): (c: char)
    requires n < 16
    ensures DigitValue(c) == n && IsHexDigit(c)
  {
    "0123456789abcdef"[n]
  }

  function Hex4(w: uint16): (s: string)
    ensures |s| == 4
    ensures forall c | c in s :: IsHexDigit(c)
  {
    [HexDigit(w / 4096), HexDigit(w / 256 % 16), HexDigit(w / 16 % 16), HexDigit(w % 16)]
  }

  /** Four lower-case hexadecimal digits of value `w`. */
  predicate IsHex(s: string, w: uint16) {
    |s| == 4 && (forall c | c in s :: IsHexDigit(c)) && ReadNumber(s, 16) == w
  }

  lemma Hex4Reads(w: uint16)
    ensures IsHex(Hex4(w), w)
  {
    var a, b, c, d := HexDigit(w / 4096), HexDigit(w / 256 % 16), HexDigit(w / 16 % 16), HexDigit(w % 16);
    ReadOne(a, 16);
    ReadSnoc([a], b, 16);
    ReadSnoc([a] + [b], c, 16);
    ReadSnoc([a] + [b] + [c], d, 16);
    assert [a] + [b] + [c] + [d] == Hex4(w);
    FourNibbles(w);
  }

  /** No other text is the four hexadecimal digits of `w`. */
  lemma HexExactly(s: string, w: uint16)
    ensures s == Hex4(w) <==> IsHex(s, w)
  {
    Hex4Reads(w);
    if IsHex(s, w) {
      SameHex(s, Hex4(w));
    }
  }

  lemma SameHex(s: string, t: string)
    requires |s| == |t| == 4 && (forall c | c in s || c in t :: IsHexDigit(c)) && ReadNumber(s, 16) == ReadNumber(t, 16)
    ensures s == t
  {
    HexValue(s);
    HexValue(t);
    forall i | 0 <= i < 4
      ensures DigitValue(s[i]) < 16 && DigitValue(t[i]) < 16 && (DigitValue(s[i]) == DigitValue(t[i]) ==> s[i] == t[i])
    {
      assert s[i] in s && t[i] in t;
      SameDigit(s[i], t[i]);
    }
    SameNibbles(DigitValue(s[0]), DigitValue(s[1]), DigitValue(s[2]), DigitValue(s[3]),
                DigitValue(t[0]), DigitValue(t[1]), DigitValue(t[2]), DigitValue(t[3]));
  }

  lemma SameDigit(c: char, d: char)
    requires IsHexDigit(c) && IsHexDigit(d)
    ensures DigitValue(c) < 16 && DigitValue(d) < 16 && (DigitValue(c) == DigitValue(d) ==> c == d)
  {
  }

  lemma SameNibbles(a: nat, b: nat, c: nat, d: nat, e: nat, f: nat, g: nat, h: nat)
    requires a < 16 && b < 16 && c < 16 && d < 16 && e < 16 && f < 16 && g < 16 && h < 16
    requires 16 * (16 * (16 * a + b) + c) + d == 16 * (16 * (16 * e + f) + g) + h
    ensures a == e && b == f && c == g && d == h
  {
  }

  lemma HexValue(s: string)
    requires |s| == 4
    ensures ReadNumber(s, 16)
         == 16 * (16 * (16 * DigitValue(s[0]) + DigitValue(s[1])) + DigitValue(s[2])) + DigitValue(s[3])
  {
    ReadOne(s[0], 16);
    ReadSnoc([s[0]], s[1], 16);
    ReadSnoc([s[0]] + [s[1]], s[2], 16);
    ReadSnoc([s[0]] + [s[1]] + [s[2]], s[3], 16);
    assert [s[0]] + [s[1]] + [s[2]] + [s[3]] == s;
  }

  lemma FourNibbles(v: uint16)
    ensures v == 16 * (16 * (16 * (v / 4096) + v / 256 % 16) + v / 16 % 16) + v % 16
  {
    assert v / 16 == 16 * (v / 256) + v / 16 % 16;
    assert v / 256 == 16 * (v / 4096) + v / 256 % 16;
  }

  function Hexes(ws: seq<uint16>): (items: seq<string>)
    ensures |items| == |ws|
    ensures forall i | 0 <= i < |ws| :: items[i] == Hex4(ws[i])
  {
    seq(|ws|, i requires 0 <= i < |ws| => Hex4(ws[i]))
  }

  // ---- strings.Join ----

  function Join(items: seq<string>, sep: char): string {
    if items == [] then []
    else if |items| == 1 then items[0]
    else items[0] + [sep] + Join(items[1..], sep)
  }

  ghost predicate Printable(items: seq<string>, sep: char) {
    forall i | 0 <= i < |items| :: items[i] != [] && sep !in items[i]
  }

  lemma NotShorter(a: string, b: string, c: string, d: string, sep: char)
    requires sep !in c
    requires a + [sep] + b == c + [sep] + d
    ensures |a| >= |c|
  {
    assert (a + [sep] + b)[|a|] == sep;
    assert forall i | 0 <= i < |c| :: (c + [sep] + d)[i] == c[i];
  }

  /** The text before the first separator is determined by the whole. */
  lemma SplitUnique(a: string, b: string, c: string, d: string, sep: char)
    requires sep !in a && sep !in c
    requires a + [sep] + b == c + [sep] + d
    ensures a == c && b == d
  {
    NotShorter(a, b, c, d, sep);
    NotShorter(c, d, a, b, sep);
    var l, r := a + [sep] + b, c + [sep] + d;
    assert a == l[..|a|] && c == r[..|a|];
    assert b == l[|a| + 1..] && d == r[|a| + 1..];
  }

  lemma {:induction false} JoinAvoids(items: seq<string>, sep: char, x: char)
    requires x != sep && forall i | 0 <= i < |items| :: x !in items[i]
    ensures x !in Join(items, sep)
  {
    if |items| > 1 {
      JoinAvoids(items[1..], sep, x);
    }
  }

  /** `strings.Split`: the text between separators. */
  function Split(s: string, sep: char): (items: seq<string>)
    ensures items != []
  {
    if s == [] then [[]]
    else
      var rest := Split(s[1..], sep);
      if s[0] == sep then [[]] + rest else [[s[0]] + rest[0]] + rest[1..]
  }

  lemma {:induction false} SplitNone(s: string, sep: char)
    requires sep !in s
    ensures Split(s, sep) == [s]
  {
    if s != [] {
      SplitNone(s[1..], sep);
      assert [s[0]] + s[1..] == s;
    }
  }

  lemma {:induction false} SplitFirst(a: string, b: string, sep: char)
    requires sep !in a
    ensures Split(a + [sep] + b, sep) == [a] + Split(b, sep)
  {
    var s := a + [sep] + b;
    if a == [] {
      assert s[1..] == b;
    } else {
      assert s[1..] == a[1..] + [sep] + b;
      SplitFirst(a[1..], b, sep);
      assert [a[0]] + a[1..] == a;
    }
  }

  /** Splitting at the separator undoes the join. */
  lemma {:induction false} JoinSplits(items: seq<string>, sep: char)
    requires items != [] && forall i | 0 <= i < |items| :: sep !in items[i]
    ensures Split(Join(items, sep), sep) == items
  {
    if |items| == 1 {
      SplitNone(items[0], sep);
    } else {
      SplitFirst(items[0], Join(items[1..], sep), sep);
      JoinSplits(items[1..], sep);
      assert [items[0]] + items[1..] == items;
    }
  }

  /** Reading a separated list of numbers; an empty text is the empty list. */
  function ReadList(s: string, sep: char, base: nat): seq<nat> {
    if s == [] then [] else ReadNumbers(Split(s, sep), base)
  }

  function ReadNumbers(items: seq<string>, base: nat): seq<nat> {
    seq(|items|, i requires 0 <= i < |items| => ReadNumber(items[i], base))
  }

  lemma JoinNotEmpty(items: seq<string>, sep: char)
    requires Printable(items, sep) && items != []
    ensures Join(items, sep) != []
  {
  }

  /** Between the separators are the decimal numerals of the list, in order; the text of the empty list is empty. */
  predicate IsDecimalList(s: string, sep: char, ws: seq<nat>) {
    if ws == [] then s == ""
    else
      var items := Split(s, sep);
      |items| == |ws| && forall i | 0 <= i < |ws| :: IsDecimal(items[i], ws[i])
  }

  predicate IsHexList(s: string, ws: seq<uint16>) {
    if ws == [] then s == ""
    else
      var items := Split(s, ',');
      |items| == |ws| && forall i | 0 <= i < |ws| :: IsHex(items[i], ws[i])
  }

  /** A printed list is the list of the numerals, and reads back, the empty list included. */
  lemma DecListReads(ws: seq<nat>)
    ensures ReadList(Join(Decs(ws), '-'), '-', 10) == ws
    ensures IsDecimalList(Join(Decs(ws), '-'), '-', ws)
  {
    if ws != [] {
      JoinNotEmpty(Decs(ws), '-');
      JoinSplits(Decs(ws), '-');
      forall i | 0 <= i < |ws| ensures IsDecimal(Decs(ws)[i], ws[i]) {
        DecimalExactly(Dec(ws[i]), ws[i]);
      }
    }
  }

  lemma HexListReads(ws: seq<uint16>)
    ensures ReadList(Join(Hexes(ws), ','), ',', 16) == ws
    ensures IsHexList(Join(Hexes(ws), ','), ws)
  {
    if ws != [] {
      JoinNotEmpty(Hexes(ws), ',');
      JoinSplits(Hexes(ws), ',');
      forall i | 0 <= i < |ws| ensures IsHex(Hexes(ws)[i], ws[i]) {
        Hex4Reads(ws[i]);
      }
    }
  }

  lemma {:induction false} JoinSnoc(items: seq<string>, last: string, sep: char)
    ensures Join(items + [last], sep) == if items == [] then last else Join(items, sep) + [sep] + last
  {
    if |items| > 0 {
      assert (items + [last])[1..] == items[1..] + [last];
      JoinSnoc(items[1..], last, sep);
    }
  }
}
