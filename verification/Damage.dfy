/** What both parsers make of records that are refused, cut short, or inconsistent in their length fields. */
module Damage {
  import opened Wire
  import opened ClientHello
  import opened Fingerprints
  import JA3
  import JA4
  import T = TrailingBytes

  // ---- exactly which payloads are refused ----

  /** The payload is no handshake record of a ClientHello, is shorter than it declares, or ends before its session id,
      its cipher list or its compression length does; an odd cipher list that ends memory panics instead. */
  predicate Refused(mem: seq<byte>, n: nat)
    requires n <= |mem|
  {
    || n < 45 || mem[0] != 0x16 || mem[1] != 0x03 || mem[5] != 0x01
    || var end, start := 5 + (mem[3] as int * 256 + mem[4]), 44 + mem[43] as int;
       || n < end || end < start + 2
       || var len := mem[start] as int * 256 + mem[start + 1];
          || end < start + 2 + len
          || (end == start + 2 + len && !(len % 2 == 1 && end == |mem|))
  }

  /** Both parsers refuse exactly these payloads. */
  lemma RefusedExactly(mem: seq<byte>, n: nat)
    requires n <= |mem|
    ensures JA3.Fingerprint(mem, n).Rejected? <==> Refused(mem, n)
    ensures JA4.Fingerprint(mem, n).Rejected? <==> Refused(mem, n)
  {
    FramingRefuses(mem, n);
  }

  lemma FramingRefuses(mem: seq<byte>, n: nat)
    requires n <= |mem|
    ensures Framing(mem, n).Rejected? <==> Refused(mem, n)
  {
    if n < 45 || mem[0] != 0x16 || mem[1] != 0x03 {
      FramingRejects(mem, n);
    } else {
      var end, start := 5 + (mem[3] as int * 256 + mem[4]), 44 + mem[43] as int;
      if n < end || mem[5] != 0x01 || start + 2 > end {
        FramingRejects(mem, n);
      } else {
        var version, data := mem[9] as int * 256 + mem[10], mem[start..];
        FramingSkips(mem, n, version, start, end, data);
        CiphersRefuse(mem, version, start, end, data);
      }
    }
  }

  lemma CiphersRefuse(mem: seq<byte>, version: uint16, start: nat, end: nat, data: seq<byte>)
    requires start + 2 <= end <= |mem| && data == mem[start..]
    ensures FromCiphers(version, data, end - start).Rejected?
       <==> var len := mem[start] as int * 256 + mem[start + 1];
            end < start + 2 + len || (end == start + 2 + len && !(len % 2 == 1 && end == |mem|))
  {
    var len := mem[start] as int * 256 + mem[start + 1];
    if start + 2 + len > end {
      ByteAt(mem, start, data, 0);
      ByteAt(mem, start, data, 1);
    } else {
      var list, rest := mem[start + 2..], mem[start + 2 + len..];
      CiphersAt(mem, version, start, end, len, data, list, rest);
      T.FitsUnlessOddAtEdge(list, len);
      CompressionRefuses(version, Words(list, len), rest, end - start - 2 - len);
    }
  }

  lemma CompressionRefuses(version: uint16, ciphers: seq<uint16>, data: seq<byte>, left: nat)
    requires left <= |data|
    ensures FromCompression(version, ciphers, data, left).Rejected? <==> left == 0
    ensures !FromCompression(version, ciphers, data, left).Panicked?
  {
  }

  // ---- cut and inconsistent blocks ----

  /** The bytes after the last whole extension: too few for a header, or a header whose body is not all there. */
  predicate IsCut(cut: seq<byte>) {
    |cut| < 4 || |cut| < 4 + (cut[2] as int * 256 + cut[3])
  }

  /** The type of the extension cut short, if its header is there. */
  function CutKinds(cut: seq<byte>): seq<uint16> {
    if |cut| < 4 then [] else [cut[0] as int * 256 + cut[1]]
  }

  function CutEntries(cut: seq<byte>): seq<Entry> {
    if |cut| < 4 then [] else [Truncated(cut[0] as int * 256 + cut[1])]
  }

  /** From the cipher list on: the block declares `declared` bytes and holds the extensions, `cut` and then `rest`. */
  function CutList(h: Hello, declared: uint16, cut: seq<byte>, rest: seq<byte>): seq<byte>
    requires FieldsFit(h)
  {
    Be16(2 * |h.ciphers|) + (EncodeWords(h.ciphers) + CutCompression(h, declared, cut, rest))
  }

  function CutCompression(h: Hello, declared: uint16, cut: seq<byte>, rest: seq<byte>): seq<byte>
    requires FieldsFit(h)
  {
    [|h.compression|] + h.compression + (Be16(declared) + (EncodeExtensions(h.extensions) + (cut + rest)))
  }

  /** The length of the record from the cipher list on, with `surplus` bytes after the cut. */
  function CutLength(h: Hello, cut: seq<byte>, surplus: nat): nat
    requires FieldsFit(h)
  {
    5 + 2 * |h.ciphers| + |h.compression| + |EncodeExtensions(h.extensions)| + |cut| + surplus
  }

  /** Memory that starts with a record of this hello, `surplus` bytes of `rest` belonging to it. The handshake length is
      anything. */
  function CutMemory(h: Hello, minor: byte, hsLen: uint16, declared: uint16, cut: seq<byte>, surplus: nat,
                     rest: seq<byte>): seq<byte>
    requires FieldsFit(h) && 39 + |h.sessionId| + CutLength(h, cut, surplus) < 0x1_0000
  {
    [0x16, 0x03, minor] + Be16(39 + |h.sessionId| + CutLength(h, cut, surplus)) + [0x01, 0] + Be16(hsLen)
    + (Be16(h.version) + h.random + [|h.sessionId|] + h.sessionId + CutList(h, declared, cut, rest))
  }

  /** The block declares exactly the extensions and the cut, or more than the record still holds. */
  predicate Declares(h: Hello, declared: uint16, cut: seq<byte>, surplus: nat)
    requires FieldsFit(h)
  {
    var held := |EncodeExtensions(h.extensions)| + |cut|;
    declared == held || (declared > held && surplus == 0)
  }

  lemma {:induction false} WalkCut(xs: seq<Extension>, cut: seq<byte>, rest: seq<byte>, data: seq<byte>, end: nat)
    requires AllFit(xs) && IsCut(cut) && data == EncodeExtensions(xs) + (cut + rest)
    requires end == |EncodeExtensions(xs)| + |cut|
    ensures Walk(data, end) == EntriesOf(xs, cut + rest) + CutEntries(cut)
  {
    var after := cut + rest;
    if xs == [] {
      assert data == after;
      WalkEnds(cut, rest, after);
    } else {
      var b, more := Body(xs[0]), EncodeExtensions(xs[1..]);
      var next := more + after;
      EncodeHead(xs, after);
      WalkHead(Kind(xs[0]), b, next, |more| + |cut|, data, b + next);
      WalkCut(xs[1..], cut, rest, next, |more| + |cut|);
      Prepend(EntryAt(xs[0], next), EntriesOf(xs[1..], after), CutEntries(cut));
    }
  }

  lemma Prepend<T>(x: T, a: seq<T>, b: seq<T>)
    ensures [x] + (a + b) == ([x] + a) + b
  {
  }

  lemma WalkEnds(cut: seq<byte>, rest: seq<byte>, data: seq<byte>)
    requires IsCut(cut) && data == cut + rest
    ensures Walk(data, |cut|) == CutEntries(cut)
  {
    if |cut| >= 4 {
      assert data[2..][0] == cut[2] && data[2..][1] == cut[3];
    }
  }

  lemma CutBlock(h: Hello, declared: uint16, cut: seq<byte>, surplus: nat, rest: seq<byte>, block: seq<byte>,
                 body: seq<byte>, left: nat)
    requires FieldsFit(h) && IsCut(cut) && Declares(h, declared, cut, surplus) && surplus <= |rest|
    requires body == EncodeExtensions(h.extensions) + (cut + rest) && block == Be16(declared) + body
    requires left == 2 + |EncodeExtensions(h.extensions)| + |cut| + surplus
    ensures Extensions(block, left) == EntriesOf(h.extensions, cut + rest) + CutEntries(cut)
  {
    BlockBody(declared, block, body);
    ExtensionsFrom(block, left, declared, body);
    WalkCut(h.extensions, cut, rest, body, |EncodeExtensions(h.extensions)| + |cut|);
  }

  lemma BlockBody(declared: uint16, block: seq<byte>, body: seq<byte>)
    requires block == Be16(declared) + body
    ensures Word(block) == declared && body == block[2..]
  {
  }

  /** Cut, overlong and surplus bytes are framed as the hello's own extensions and at most the type of one more. */
  lemma FramingOfCut(h: Hello, minor: byte, hsLen: uint16, declared: uint16, cut: seq<byte>, surplus: nat,
                     rest: seq<byte>, n: nat)
    requires FieldsFit(h) && IsCut(cut) && Declares(h, declared, cut, surplus) && surplus <= |rest|
    requires 39 + |h.sessionId| + CutLength(h, cut, surplus) < 0x1_0000
    requires var mem := CutMemory(h, minor, hsLen, declared, cut, surplus, rest);
             44 + |h.sessionId| + CutLength(h, cut, surplus) <= n <= |mem|
    ensures Framing(CutMemory(h, minor, hsLen, declared, cut, surplus, rest), n)
         == Parsed(Frame(h.version, h.ciphers, EntriesOf(h.extensions, cut + rest) + CutEntries(cut)))
  {
    FramingHead(CutMemory(h, minor, hsLen, declared, cut, surplus, rest), n, h.version, h.random, h.sessionId, minor,
                hsLen, CutList(h, declared, cut, rest), CutLength(h, cut, surplus));
    ListOfCut(h, declared, cut, surplus, rest, CutList(h, declared, cut, rest), CutCompression(h, declared, cut, rest),
              2 + |EncodeExtensions(h.extensions)| + |cut| + surplus, CutLength(h, cut, surplus));
  }

  lemma ListOfCut(h: Hello, declared: uint16, cut: seq<byte>, surplus: nat, rest: seq<byte>, data: seq<byte>,
                  comp: seq<byte>, left: nat, len: nat)
    requires FieldsFit(h) && IsCut(cut) && Declares(h, declared, cut, surplus) && surplus <= |rest|
    requires comp == CutCompression(h, declared, cut, rest)
    requires left == 2 + |EncodeExtensions(h.extensions)| + |cut| + surplus
    requires data == Be16(2 * |h.ciphers|) + (EncodeWords(h.ciphers) + comp)
    requires len == 3 + 2 * |h.ciphers| + |h.compression| + left <= |data|
    ensures FromCiphers(h.version, data, len)
         == Parsed(Frame(h.version, h.ciphers, EntriesOf(h.extensions, cut + rest) + CutEntries(cut)))
  {
    CompressionOfCut(h, declared, cut, surplus, rest, comp, left);
    CiphersOfCut(h, comp, data, 1 + |h.compression| + left, len);
  }

  lemma CiphersOfCut(h: Hello, comp: seq<byte>, data: seq<byte>, left: nat, len: nat)
    requires 2 * |h.ciphers| < 0x1_0000 && left <= |comp| && len == 2 + 2 * |h.ciphers| + left
    requires data == Be16(2 * |h.ciphers|) + (EncodeWords(h.ciphers) + comp) && len <= |data|
    ensures FromCiphers(h.version, data, len) == FromCompression(h.version, h.ciphers, comp, left)
  {
    TailCiphers(h, comp, EncodeWords(h.ciphers) + comp, data, left);
  }

  lemma CompressionOfCut(h: Hello, declared: uint16, cut: seq<byte>, surplus: nat, rest: seq<byte>, comp: seq<byte>,
                         left: nat)
    requires FieldsFit(h) && IsCut(cut) && Declares(h, declared, cut, surplus) && surplus <= |rest|
    requires comp == CutCompression(h, declared, cut, rest)
    requires left == 2 + |EncodeExtensions(h.extensions)| + |cut| + surplus
    ensures 1 + |h.compression| + left <= |comp|
    ensures FromCompression(h.version, h.ciphers, comp, 1 + |h.compression| + left)
         == Parsed(Frame(h.version, h.ciphers, EntriesOf(h.extensions, cut + rest) + CutEntries(cut)))
  {
    var body := EncodeExtensions(h.extensions) + (cut + rest);
    var block := Be16(declared) + body;
    CompressionHead(h.version, h.ciphers, h.compression, block, left);
    CutBlock(h, declared, cut, surplus, rest, block, body, left);
  }

  lemma {:induction false} CollectConcat<T>(a: seq<Entry>, b: seq<Entry>, f: Entry -> seq<T>)
    ensures Collect(a + b, f) == Collect(a, f) + Collect(b, f)
  {
    if a == [] {
      assert a + b == b;
    } else {
      assert (a + b)[1..] == a[1..] + b;
      CollectConcat(a[1..], b, f);
    }
  }

  lemma {:induction false} KindsConcat(a: seq<Entry>, b: seq<Entry>)
    ensures Kinds(a + b) == Kinds(a) + Kinds(b)
  {
    if a == [] {
      assert a + b == b;
    } else {
      assert (a + b)[1..] == a[1..] + b;
      KindsConcat(a[1..], b);
    }
  }

  /** An extension cut short contributes its type and nothing else. */
  lemma CutCollects<T>(es: seq<Entry>, cut: seq<byte>, f: Entry -> seq<T>)
    requires forall kind: uint16 :: f(Truncated(kind)) == []
    ensures Collect(es + CutEntries(cut), f) == Collect(es, f)
  {
    CollectConcat(es, CutEntries(cut), f);
    if |cut| >= 4 {
      assert CutEntries(cut)[1..] == [];
    }
  }

  lemma CutKindsCollect(es: seq<Entry>, cut: seq<byte>)
    ensures Kinds(es + CutEntries(cut)) == Kinds(es) + CutKinds(cut)
  {
    KindsConcat(es, CutEntries(cut));
    if |cut| >= 4 {
      assert CutEntries(cut)[1..] == [];
    }
  }

  function Ja3OfCut(h: Hello, cut: seq<byte>): JA3.Fields {
    Ja3FieldsOf(h).(extensions := NonGrease(KindsOf(h.extensions) + CutKinds(cut)))
  }

  function Ja4OfCut(h: Hello, cut: seq<byte>): JA4.Fields {
    Ja4FieldsOf(h).(extensions := NonGrease(KindsOf(h.extensions) + CutKinds(cut)))
  }

  lemma Ja3Interprets(h: Hello, cut: seq<byte>, rest: seq<byte>)
    requires FieldsFit(h)
    ensures JA3.Interpret(Parsed(Frame(h.version, h.ciphers, EntriesOf(h.extensions, rest) + CutEntries(cut))))
         == Parsed(Ja3OfCut(h, cut))
  {
    var es := EntriesOf(h.extensions, rest);
    AllReadableBack(h.extensions, rest);
    KindsOfEntries(h.extensions, rest);
    CutKindsCollect(es, cut);
    CutCollects(es, cut, JA3.CurvesIn);
    CutCollects(es, cut, JA3.PointsIn);
    Ja3CollectsBack(h.extensions, rest);
  }

  lemma CutFields(xs: seq<Extension>, cut: seq<byte>, rest: seq<byte>, es: seq<Entry>)
    requires AllFit(xs) && es == EntriesOf(xs, rest) + CutEntries(cut)
    ensures Collect(es, JA4.VersionsIn) == Gather(xs, VersionsOf) && Collect(es, JA4.NamesIn) == Gather(xs, NamesOf)
    ensures Collect(es, JA4.AlpnIn) == Gather(xs, AlpnOf) && Collect(es, JA4.SigAlgsIn) == Gather(xs, SigAlgsOf)
  {
    var whole := EntriesOf(xs, rest);
    CutCollects(whole, cut, JA4.VersionsIn);
    CutCollects(whole, cut, JA4.NamesIn);
    CutCollects<char>(whole, cut, JA4.AlpnIn);
    CutCollects(whole, cut, JA4.SigAlgsIn);
    Ja4CollectsBack(xs, rest);
  }

  lemma Ja4Interprets(h: Hello, cut: seq<byte>, rest: seq<byte>)
    requires FieldsFit(h)
    ensures JA4.Interpret(Parsed(Frame(h.version, h.ciphers, EntriesOf(h.extensions, rest) + CutEntries(cut))))
         == Parsed(Ja4OfCut(h, cut))
  {
    var es := EntriesOf(h.extensions, rest);
    AllReadableBack(h.extensions, rest);
    KindsOfEntries(h.extensions, rest);
    CutKindsCollect(es, cut);
    CutFields(h.extensions, cut, rest, es + CutEntries(cut));
  }

  /** A record whose block is cut inside an extension, declares more than the record holds, or is followed by surplus
      bytes gives the fingerprint of its whole extensions, plus the type of the one cut short. The handshake length and
      the bytes after the record do not matter. */
  lemma CutRoundTrip(h: Hello, minor: byte, hsLen: uint16, declared: uint16, cut: seq<byte>, surplus: nat,
                     rest: seq<byte>, n: nat)
    requires FieldsFit(h) && IsCut(cut) && Declares(h, declared, cut, surplus) && surplus <= |rest|
    requires 39 + |h.sessionId| + CutLength(h, cut, surplus) < 0x1_0000
    requires var mem := CutMemory(h, minor, hsLen, declared, cut, surplus, rest);
             44 + |h.sessionId| + CutLength(h, cut, surplus) <= n <= |mem|
    ensures var mem := CutMemory(h, minor, hsLen, declared, cut, surplus, rest);
            JA3.Fingerprint(mem, n) == Parsed(Ja3OfCut(h, cut)) && JA4.Fingerprint(mem, n) == Parsed(Ja4OfCut(h, cut))
  {
    FramingOfCut(h, minor, hsLen, declared, cut, surplus, rest, n);
    Ja3Interprets(h, cut, cut + rest);
    Ja4Interprets(h, cut, cut + rest);
  }

  /** Memory that starts with a record of this hello up to its ciphers, then a compression length and `rest`, `surplus`
      bytes of which belong to the record. */
  function LostMemory(h: Hello, minor: byte, hsLen: uint16, compLen: byte, surplus: nat, rest: seq<byte>): seq<byte>
    requires FieldsFit(h) && 42 + |h.sessionId| + 2 * |h.ciphers| + surplus < 0x1_0000
  {
    [0x16, 0x03, minor] + Be16(39 + |h.sessionId| + (3 + 2 * |h.ciphers| + surplus)) + [0x01, 0] + Be16(hsLen)
    + (Be16(h.version) + h.random + [|h.sessionId|] + h.sessionId
       + (Be16(2 * |h.ciphers|) + (EncodeWords(h.ciphers) + ([compLen] + rest))))
  }

  lemma LostFrame(h: Hello, compLen: byte, surplus: nat, rest: seq<byte>, data: seq<byte>)
    requires FieldsFit(h) && surplus <= |rest| && surplus < compLen + 2
    requires data == Be16(2 * |h.ciphers|) + (EncodeWords(h.ciphers) + ([compLen] + rest))
    ensures 3 + 2 * |h.ciphers| + surplus <= |data|
    ensures FromCiphers(h.version, data, 3 + 2 * |h.ciphers| + surplus) == Parsed(Frame(h.version, h.ciphers, []))
  {
    var comp := [compLen] + rest;
    TailCiphers(h, comp, EncodeWords(h.ciphers) + comp, data, 1 + surplus);
  }

  /** A record that ends within its compression list, or before the length of its extension block, gives the fingerprint
      of a hello without extensions. */
  lemma LostRoundTrip(h: Hello, minor: byte, hsLen: uint16, compLen: byte, surplus: nat, rest: seq<byte>, n: nat)
    requires FieldsFit(h) && h.extensions == [] && surplus <= |rest| && surplus < compLen + 2
    requires 42 + |h.sessionId| + 2 * |h.ciphers| + surplus < 0x1_0000
    requires var mem := LostMemory(h, minor, hsLen, compLen, surplus, rest);
             47 + |h.sessionId| + 2 * |h.ciphers| + surplus <= n <= |mem|
    ensures var mem := LostMemory(h, minor, hsLen, compLen, surplus, rest);
            JA3.Fingerprint(mem, n) == Parsed(Ja3FieldsOf(h)) && JA4.Fingerprint(mem, n) == Parsed(Ja4FieldsOf(h))
  {
    var data := Be16(2 * |h.ciphers|) + (EncodeWords(h.ciphers) + ([compLen] + rest));
    LostFrame(h, compLen, surplus, rest, data);
    FramingHead(LostMemory(h, minor, hsLen, compLen, surplus, rest), n, h.version, h.random, h.sessionId, minor, hsLen,
                data, 3 + 2 * |h.ciphers| + surplus);
  }

  // ---- lists that do not match their bodies ----

  lemma {:induction false} OddWords(ws: seq<uint16>, tail: seq<byte>)
    requires ws != []
    ensures Words(EncodeWords(ws) + tail, 2 * |ws| - 1) == ws
  {
    var data := EncodeWords(ws) + tail;
    var rest := EncodeWords(ws[1..]) + tail;
    assert data == Be16(ws[0]) + rest;
    FirstWord(ws[0], rest, data);
    if |ws| > 1 {
      OddWords(ws[1..], tail);
    }
  }

  lemma FirstWord(w: uint16, rest: seq<byte>, data: seq<byte>)
    requires data == Be16(w) + rest
    ensures Word(data) == w && data[2..] == rest
  {
  }

  /** A list of `len` bytes: these words, the last of which may take its second byte from beyond the list. */
  lemma ListWords(ws: seq<uint16>, len: nat, data: seq<byte>, tail: seq<byte>)
    requires (len == 2 * |ws| || len + 1 == 2 * |ws|) && data == EncodeWords(ws) + tail
    ensures Words(data, len) == ws && ListFits(data, len)
  {
    if len == 2 * |ws| {
      WordsRoundTrip(ws, tail);
    } else {
      OddWords(ws, tail);
    }
  }

  /** A two-byte length and that list. */
  lemma WordList(ws: seq<uint16>, len: uint16, data: seq<byte>, tail: seq<byte>)
    requires (len == 2 * |ws| || len + 1 == 2 * |ws|) && data == Be16(len) + (EncodeWords(ws) + tail)
    ensures Word(data) == len && Words(data[2..], len) == ws && ListFits(data[2..], len)
  {
    assert data[2..] == EncodeWords(ws) + tail;
    ListWords(ws, len, data[2..], tail);
  }

  /** An extension of type `kind` whose body has `len` bytes, of which `data` and what follows it are memory. */
  function EntryOf(kind: uint16, len: nat, data: seq<byte>): Entry
    requires len <= |data|
  {
    Whole(kind, len, data)
  }

  /** Groups and signature algorithms are read when their list fits the body, bytes left over or not, and otherwise not
      at all; no other type of extension contributes any. */
  lemma WordListsRead(kind: uint16, len: nat, ws: seq<uint16>, listLen: uint16, tail: seq<byte>)
    requires listLen == 2 * |ws| || listLen + 1 == 2 * |ws|
    requires len <= 2 + 2 * |ws| + |tail|
    ensures var e, fits := EntryOf(kind, len, Be16(listLen) + (EncodeWords(ws) + tail)), len >= 2 + listLen;
            && JA3.CurvesIn(e) == (if kind == 10 && fits then NonGrease(ws) else [])
            && JA4.SigAlgsIn(e) == (if kind == 13 && fits then NonGrease(ws) else [])
  {
    var data := Be16(listLen) + (EncodeWords(ws) + tail);
    WordList(ws, listLen, data, tail);
    WordListIn(EntryOf(kind, len, data), kind, len, ws, listLen, data);
  }

  lemma WordListIn(e: Entry, kind: uint16, len: nat, ws: seq<uint16>, listLen: uint16, data: seq<byte>)
    requires len <= |data| && e == Whole(kind, len, data)
    requires |data| >= 2 && Word(data) == listLen && Words(data[2..], listLen) == ws
    ensures JA3.CurvesIn(e) == if kind == 10 && len >= 2 + listLen then NonGrease(ws) else []
    ensures JA4.SigAlgsIn(e) == if kind == 13 && len >= 2 + listLen then NonGrease(ws) else []
  {
  }

  /** The same for supported versions, whose length takes one byte. */
  lemma VersionsRead(kind: uint16, len: nat, ws: seq<uint16>, listLen: byte, tail: seq<byte>)
    requires listLen == 2 * |ws| || listLen + 1 == 2 * |ws|
    requires len <= 1 + 2 * |ws| + |tail|
    ensures var e := EntryOf(kind, len, [listLen] + (EncodeWords(ws) + tail));
            JA4.VersionsIn(e) == if kind == 43 && len >= 1 + listLen then ws else []
  {
    var data := [listLen] + (EncodeWords(ws) + tail);
    assert data[1..] == EncodeWords(ws) + tail;
    ListWords(ws, listLen, data[1..], tail);
  }

  /** The same for point formats. */
  lemma PointsRead(kind: uint16, len: nat, formats: seq<byte>, tail: seq<byte>)
    requires |formats| < 0x100 && len <= 1 + |formats| + |tail|
    ensures var e := EntryOf(kind, len, [|formats|] + (formats + tail));
            JA3.PointsIn(e) == if kind == 11 && len >= 1 + |formats| then formats else []
  {
    var data := [|formats|] + (formats + tail);
    assert data[1..1 + |formats|] == formats;
  }

  /** The protocol shown is the first one, when both it and the whole list fit the body and it is not empty. */
  lemma ProtocolRead(kind: uint16, len: nat, listLen: uint16, p: seq<byte>, tail: seq<byte>)
    requires |p| < 0x100 && len <= 3 + |p| + |tail|
    ensures var e := EntryOf(kind, len, Be16(listLen) + ([|p|] + (p + tail)));
            JA4.AlpnIn(e) == if kind == 16 && len >= 2 + listLen && listLen > 1 && len >= 3 + |p| && p != []
                             then [p[0] as char, p[|p| - 1] as char] else []
  {
    var data := Be16(listLen) + ([|p|] + (p + tail));
    assert data[2] == |p| && forall i | 0 <= i < |p| :: data[3 + i] == p[i];
  }

  /** A server name counts whatever its body holds, and a body too short for a length contributes nothing. */
  lemma ShortBodies(kind: uint16, len: nat, data: seq<byte>)
    requires len <= |data|
    ensures var e := EntryOf(kind, len, data);
            && JA4.NamesIn(e) == (if kind == 0 then [0] else [])
            && (len < 2 ==> JA3.CurvesIn(e) == [] && JA4.SigAlgsIn(e) == [] && JA4.AlpnIn(e) == [])
            && (len < 1 ==> JA3.PointsIn(e) == [] && JA4.VersionsIn(e) == [])
  {
  }
}
