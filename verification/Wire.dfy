/** Bytes, big-endian 16-bit words and GREASE values, as both ClientHello parsers read them. */
module Wire {

  type byte = x: int | 0 <= x < 0x100
  type uint16 = x: int | 0 <= x < 0x1_0000

  /** How a parser run ends: a slice expression out of range, `false`, or a result. */
  datatype Outcome<+T> = Panicked | Rejected | Parsed(value: T)

  // ---- GREASE ----

  /** Bitwise conjunction of two naturals. */
  function And(x: nat, y: nat): nat {
    if x == 0 then 0 else 2 * And(x / 2, y / 2) + x % 2 * (y % 2)
  }

  predicate IsGrease(v: uint16) {
    And(v, 0x0f0f) == 0x0a0a
  }

  lemma AndNibble(x: nat, k: nat, b: nat, r: nat)
    requires b <= 1 && r == And(x / 16, k)
    ensures And(x, 16 * k + 15 * b) == 16 * r + x % 16 * b
  {
    var y := 4 * k + 3 * b;
    AndPair(x, y, b);
    AndPair(x / 4, k, b);
    NibblePairs(x);
  }

  lemma NibblePairs(x: nat)
    ensures x / 4 / 4 == x / 16 && 4 * (x / 4 % 4) + x % 4 == x % 16
  {
  }

  lemma AndPair(x: nat, k: nat, b: nat)
    requires b <= 1
    ensures And(x, 4 * k + 3 * b) == 4 * And(x / 4, k) + x % 4 * b
  {
    AndBit(x, 2 * k + b, b);
    AndBit(x / 2, k, b);
    assert x / 2 / 2 == x / 4 && 2 * (x / 2 % 2) + x % 2 == x % 4;
  }

  lemma AndBit(x: nat, k: nat, b: nat)
    requires b <= 1
    ensures And(x, 2 * k + b) == 2 * And(x / 2, k) + x % 2 * b
  {
    assert (2 * k + b) / 2 == k && (2 * k + b) % 2 == b;
  }

  /** The mask keeps the low nibble of each byte, so exactly the values 0x?a?a are filtered. */
  lemma GreaseNibbles(v: uint16)
    ensures IsGrease(v) <==> v % 16 == 10 && v / 256 % 16 == 10
  {
    AndZero(v / 256 / 16);
    AndNibble(v / 256, 0, 1, 0);
    NibblePairs(v);
    assert v / 16 / 16 == v / 256;
    AndNibble(v / 16, 0x0f, 0, v / 256 % 16);
    AndNibble(v, 0xf0, 1, 16 * (v / 256 % 16));
  }

  lemma AndZero(x: nat)
    ensures And(x, 0) == 0
  {
  }

  /** The extension types the parsers look into are not filtered. */
  lemma InterpretedKindsAreNotGrease()
    ensures !IsGrease(0) && !IsGrease(10) && !IsGrease(11) && !IsGrease(13) && !IsGrease(16) && !IsGrease(43)
  {
    SmallNotGrease(0); SmallNotGrease(10); SmallNotGrease(11);
    SmallNotGrease(13); SmallNotGrease(16); SmallNotGrease(43);
  }

  lemma SmallNotGrease(v: uint16)
    requires v < 256
    ensures !IsGrease(v)
  {
    GreaseNibbles(v);
  }

  function NonGrease(ws: seq<uint16>): seq<uint16> {
    if ws == [] then []
    else if IsGrease(ws[0]) then NonGrease(ws[1..])
    else [ws[0]] + NonGrease(ws[1..])
  }

  lemma {:induction false} NonGreaseConcat(a: seq<uint16>, b: seq<uint16>)
    ensures NonGrease(a + b) == NonGrease(a) + NonGrease(b)
  {
    if a == [] {
      assert a + b == b;
    } else {
      assert (a + b)[1..] == a[1..] + b;
      NonGreaseConcat(a[1..], b);
    }
  }

  lemma FilterOne(w: uint16)
    ensures NonGrease([w]) == if w % 16 == 10 && w / 256 % 16 == 10 then [] else [w]
  {
    assert [w][1..] == [];
    GreaseNibbles(w);
  }

  /** Filtering drops exactly the words 0x?a?a and keeps the others in their places. */
  lemma NonGreaseFilters(a: seq<uint16>, w: uint16, b: seq<uint16>)
    ensures NonGrease([]) == []
    ensures NonGrease((a + [w]) + b)
         == (NonGrease(a) + (if w % 16 == 10 && w / 256 % 16 == 10 then [] else [w])) + NonGrease(b)
  {
    NonGreaseConcat(a + [w], b);
    NonGreaseConcat(a, [w]);
    FilterOne(w);
  }

  // ---- big-endian words ----

  function Word(s: seq<byte>): uint16
    requires |s| >= 2
  {
    s[0] as int * 256 + s[1]
  }

  /** The slice expression `s[i:i+2]` repeated for i = 0, 2, ... < len stays in range. */
  predicate ListFits(s: seq<byte>, len: nat) {
    len + len % 2 <= |s|
  }

  /** The words such a loop reads; an odd `len` takes its last byte from beyond the list. */
  function Words(s: seq<byte>, len: nat): seq<uint16> {
    if len == 0 || |s| < 2 then [] else [Word(s)] + Words(s[2..], if len == 1 then 0 else len - 2)
  }

  function Be16(v: uint16): (s: seq<byte>)
    ensures |s| == 2 && Word(s) == v
  {
    [v / 256, v % 256]
  }

  function EncodeWords(ws: seq<uint16>): (s: seq<byte>)
    ensures |s| == 2 * |ws|
  {
    if ws == [] then [] else Be16(ws[0]) + EncodeWords(ws[1..])
  }

  /** Reading back an encoded list gives the list, whatever follows it. */
  lemma {:induction false} WordsRoundTrip(ws: seq<uint16>, tail: seq<byte>)
    ensures Words(EncodeWords(ws) + tail, 2 * |ws|) == ws
  {
    if ws != [] {
      var s := EncodeWords(ws) + tail;
      assert s[2..] == EncodeWords(ws[1..]) + tail;
      assert Word(s) == ws[0];
      WordsRoundTrip(ws[1..], tail);
    }
  }

  /** A list that fits is read without looking past its last pair. */
  lemma {:induction false} WordsLocal(s: seq<byte>, len: nat, tail: seq<byte>)
    requires ListFits(s, len)
    ensures Words(s + tail, len) == Words(s, len)
  {
    if len != 0 {
      assert (s + tail)[2..] == s[2..] + tail;
      WordsLocal(s[2..], if len == 1 then 0 else len - 2, tail);
    }
  }

  /** What is left of a list of `len` bytes after the loop index has reached `i`. */
  function Rest(len: nat, i: nat): nat {
    if i < len then len - i else 0
  }

  lemma WordsStep(mem: seq<byte>, off: nat, len: nat, i: nat)
    requires i < len && off + i + 2 <= |mem|
    ensures Words(mem[off + i..], Rest(len, i))
         == [Word(mem[off + i..])] + Words(mem[off + (i + 2)..], Rest(len, i + 2))
  {
    assert mem[off + i..][2..] == mem[off + (i + 2)..];
  }

  lemma PairsFit(len: nat, k: nat)
    ensures 2 * k < len ==> 2 * k + 2 <= len + len % 2
    ensures len <= 2 * k < len + 2 ==> 2 * k == len + len % 2
  {
  }

  lemma KeepNext(kept: seq<uint16>, w: uint16, next: seq<uint16>)
    ensures kept + NonGrease([w] + next) == (if IsGrease(w) then kept else kept + [w]) + NonGrease(next)
  {
  }

  /** The list loop of both parsers; it stops when a slice leaves the backing array. */
  method ReadWords(mem: seq<byte>, off: nat, len: nat) returns (fits: bool, kept: seq<uint16>, has0304: bool)
    requires off <= |mem|
    ensures fits <==> ListFits(mem[off..], len)
    ensures fits ==> kept == NonGrease(Words(mem[off..], len))
    ensures fits ==> (has0304 <==> 0x0304 in Words(mem[off..], len))
  {
    kept, has0304 := [], false;
    var i := 0;
    ghost var k := 0;
    ghost var all := Words(mem[off..], len);
    ghost var rest := all;
    while i < len
      invariant 0 <= i == 2 * k < len + 2 && off + i <= |mem|
      invariant rest == Words(mem[off + i..], Rest(len, i))
      invariant kept + NonGrease(rest) == NonGrease(all)
      invariant has0304 || 0x0304 in rest <==> 0x0304 in all
    {
      PairsFit(len, k);
      if off + i + 2 > |mem| {
        return false, [], false;
      }
      WordsStep(mem, off, len, i);
      var w := mem[off + i] as int * 256 + mem[off + i + 1];
      ghost var next := Words(mem[off + (i + 2)..], Rest(len, i + 2));
      assert rest == [w] + next;
      KeepNext(kept, w, next);
      if !IsGrease(w) {
        kept := kept + [w];
      }
      if w == 0x0304 {
        has0304 := true;
      }
      i, k, rest := i + 2, k + 1, next;
    }
    PairsFit(len, k);
    fits := true;
  }
}
