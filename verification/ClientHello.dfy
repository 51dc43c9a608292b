/** The TLS ClientHello record: what both parsers see of it, and a serializer for it.

    A Go slice may be re-sliced up to its capacity, so a payload is a backing array `mem` of which
    the first `n` bytes are the payload. Sequences named `data` run to the end of that array. */
module ClientHello {
  import opened Sequences
  import opened Wire

  // ---- what the parsers see ----

  /** An extension of the walk. `data` starts at its body and runs to the end of the backing array.
      A `Truncated` one declares more bytes than its block holds; it ends the walk. */
  datatype RawEntry = Truncated(kind: uint16) | Whole(kind: uint16, len: nat, data: seq<byte>)
  type Entry = e: RawEntry | e.Whole? ==> e.len <= |e.data| witness Truncated(0)

  datatype Frame = Frame(version: uint16, ciphers: seq<uint16>, entries: seq<Entry>)

  function Walk(data: seq<byte>, end: nat): (es: seq<Entry>)
    requires end <= |data|
  {
    if end < 4 then []
    else
      var kind, len := Word(data), Word(data[2..]);
      if 4 + len > end then [Truncated(kind)]
      else [Whole(kind, len, data[4..])] + Walk(data[4 + len..], end - 4 - len)
  }

  predicate HeaderAt(mem: seq<byte>, offset: nat, kind: uint16, len: uint16) {
    && offset + 4 <= |mem|
    && kind == mem[offset] as int * 256 + mem[offset + 1] && len == mem[offset + 2] as int * 256 + mem[offset + 3]
  }

  lemma HeaderWords(mem: seq<byte>, offset: nat, kind: uint16, len: uint16)
    requires HeaderAt(mem, offset, kind, len)
    ensures Word(mem[offset..]) == kind && Word(mem[offset..][2..]) == len
  {
  }

  lemma DropAgain<T>(s: seq<T>, i: nat, j: nat, t: seq<T>, u: seq<T>)
    requires i + j <= |s| && t == s[i..] && u == s[i + j..]
    ensures u == t[j..]
  {
  }

  lemma WalkFrom(data: seq<byte>, end: nat, kind: uint16, len: uint16, body: seq<byte>, rest: seq<byte>)
    requires 4 + len <= end <= |data| && Word(data) == kind && Word(data[2..]) == len
    requires body == data[4..] && rest == data[4 + len..]
    ensures Walk(data, end) == [Whole(kind, len, body)] + Walk(rest, end - 4 - len)
  {
  }

  lemma HeaderParts(mem: seq<byte>, offset: nat, kind: uint16, len: uint16, data: seq<byte>, body: seq<byte>,
                    rest: seq<byte>)
    requires HeaderAt(mem, offset, kind, len) && offset + 4 + len <= |mem|
    requires data == mem[offset..] && body == mem[offset + 4..] && rest == mem[offset + 4 + len..]
    ensures Word(data) == kind && Word(data[2..]) == len && body == data[4..] && rest == data[4 + len..]
  {
    HeaderWords(mem, offset, kind, len);
    DropAgain(mem, offset, 4, data, body);
    DropAgain(mem, offset, 4 + len, data, rest);
  }

  /** One turn of the walk at an absolute offset that leads on to `rest`. */
  lemma WalkGoesOn(mem: seq<byte>, offset: nat, next: nat, end: nat, kind: uint16, len: uint16,
                   data: seq<byte>, body: seq<byte>, rest: seq<byte>)
    requires HeaderAt(mem, offset, kind, len) && next == offset + 4 + len <= end <= |mem|
    requires data == mem[offset..] && body == mem[offset + 4..] && rest == mem[next..]
    ensures Walk(data, end - offset) == [Whole(kind, len, body)] + Walk(rest, end - next)
  {
    HeaderParts(mem, offset, kind, len, data, body, rest);
    WalkFrom(data, end - offset, kind, len, body, rest);
  }

  /** One turn of the walk at an absolute offset that ends it. */
  lemma WalkStops(mem: seq<byte>, offset: nat, end: nat, kind: uint16, len: uint16, data: seq<byte>)
    requires HeaderAt(mem, offset, kind, len) && offset + 4 <= end <= |mem| && offset + 4 + len > end
             && data == mem[offset..]
    ensures Walk(data, end - offset) == [Truncated(kind)] + []
  {
    HeaderWords(mem, offset, kind, len);
  }

  /** One turn of the walk at an absolute offset; `next` is where the extension ends. */
  lemma WalkStep(mem: seq<byte>, offset: nat, next: nat, end: nat, kind: uint16, len: uint16)
    requires offset + 4 <= end <= |mem| && next == offset + 4 + len && HeaderAt(mem, offset, kind, len)
    ensures next > end ==> Walk(mem[offset..], end - offset) == [Truncated(kind)] + []
    ensures next <= end ==>
              Walk(mem[offset..], end - offset) == [Whole(kind, len, mem[offset + 4..])] + Walk(mem[next..], end - next)
  {
    if next > end {
      WalkStops(mem, offset, end, kind, len, mem[offset..]);
    } else {
      WalkGoesOn(mem, offset, next, end, kind, len, mem[offset..], mem[offset + 4..], mem[next..]);
    }
  }

  /** The extension block, absent when fewer than two bytes remain, cut at the end of the record. */
  function Extensions(data: seq<byte>, left: nat): seq<Entry>
    requires left <= |data|
  {
    if left < 2 then []
    else Walk(data[2..], if 2 + Word(data) <= left then Word(data) else left - 2)
  }

  /** From the cipher list on; `left` bytes of the record remain. */
  function FromCiphers(version: uint16, data: seq<byte>, left: nat): Outcome<Frame>
    requires left <= |data|
  {
    if left < 2 || 2 + Word(data) > left then Rejected
    else if !ListFits(data[2..], Word(data)) then Panicked
    else FromCompression(version, Words(data[2..], Word(data)), data[2 + Word(data)..], left - 2 - Word(data))
  }

  function FromCompression(version: uint16, ciphers: seq<uint16>, data: seq<byte>, left: nat): Outcome<Frame>
    requires left <= |data|
  {
    if left < 1 then Rejected
    else if left < 1 + data[0] as int then Parsed(Frame(version, ciphers, []))
    else Parsed(Frame(version, ciphers, Extensions(data[1 + data[0] as int..], left - 1 - data[0])))
  }

  function Framing(mem: seq<byte>, n: nat): Outcome<Frame>
    requires n <= |mem|
  {
    if n < 45 || mem[0] != 0x16 || mem[1] != 0x03 then Rejected
    else
      var end := 5 + (mem[3] as int * 256 + mem[4]);
      if n < end || end < 44 || mem[5] != 0x01 then Rejected
      else if end < 44 + mem[43] as int then Rejected
      else FromCiphers(mem[9] as int * 256 + mem[10], mem[44 + mem[43] as int..], end - 44 - mem[43])
  }

  function Kinds(es: seq<Entry>): seq<uint16> {
    if es == [] then [] else [es[0].kind] + Kinds(es[1..])
  }

  /** What a per-entry reader `f` yields along the walk, in order. */
  function Collect<T>(es: seq<Entry>, f: Entry -> seq<T>): seq<T> {
    if es == [] then [] else f(es[0]) + Collect(es[1..], f)
  }

  lemma Absorb<T>(acc: seq<T>, e: Entry, rest: seq<Entry>, f: Entry -> seq<T>)
    ensures acc + Collect([e] + rest, f) == (acc + f(e)) + Collect(rest, f)
  {
  }

  lemma AbsorbKind(acc: seq<uint16>, e: Entry, rest: seq<Entry>)
    ensures acc + NonGrease(Kinds([e] + rest))
         == (if IsGrease(e.kind) then acc else acc + [e.kind]) + NonGrease(Kinds(rest))
  {
    assert ([e] + rest)[1..] == rest;
    assert Kinds([e] + rest) == [e.kind] + Kinds(rest);
    NonGreaseConcat([e.kind], Kinds(rest));
    assert [e.kind][1..] == [];
    assert NonGrease([e.kind]) == if IsGrease(e.kind) then [] else [e.kind];
  }

  // ---- the prefix: everything before the extensions ----

  /** What the prefix yields: the version, the kept ciphers, and where the extension walk begins and ends. */
  datatype Prefix = Prefix(version: uint16, ciphers: seq<uint16>, start: nat, end: nat)

  ghost predicate Reads(p: Outcome<Prefix>, f: Outcome<Frame>, mem: seq<byte>) {
    match (p, f)
    case (Panicked, Panicked) => true
    case (Rejected, Rejected) => true
    case (Parsed(p), Parsed(f)) =>
      && p.version == f.version && p.ciphers == NonGrease(f.ciphers)
      && p.start <= p.end <= |mem| && f.entries == Walk(mem[p.start..], p.end - p.start)
    case _ => false
  }

  /** The prefix by absolute offsets. */
  function PrefixOf(mem: seq<byte>, n: nat): Outcome<Prefix>
    requires n <= |mem|
  {
    if n < 45 || mem[0] != 0x16 || mem[1] != 0x03 then Rejected
    else
      var end := 5 + (mem[3] as int * 256 + mem[4]);
      if n < end || end < 44 || mem[5] != 0x01 || 46 + mem[43] as int > end then Rejected
      else ListsAt(mem, mem[9] as int * 256 + mem[10], 44 + mem[43] as int, end)
  }

  function ListsAt(mem: seq<byte>, version: uint16, start: nat, end: nat): Outcome<Prefix>
    requires start + 2 <= end <= |mem|
  {
    var len := mem[start] as int * 256 + mem[start + 1];
    if start + 2 + len > end then Rejected
    else if !ListFits(mem[start + 2..], len) then Panicked
    else if start + 3 + len > end then Rejected
    else Parsed(BlockAt(mem, version, NonGrease(Words(mem[start + 2..], len)), start + 2 + len, end))
  }

  function BlockAt(mem: seq<byte>, version: uint16, ciphers: seq<uint16>, start: nat, end: nat): Prefix
    requires start + 1 <= end <= |mem|
  {
    var offset := start + 1 + mem[start];
    if offset + 2 > end then Prefix(version, ciphers, 0, 0)
    else
      var endExt := offset + 2 + (mem[offset] as int * 256 + mem[offset + 1]);
      Prefix(version, ciphers, offset + 2, if endExt > end then end else endExt)
  }

  // ---- absolute offsets read what the framing says ----

  lemma ExtensionsFrom(data: seq<byte>, left: nat, extLen: uint16, body: seq<byte>)
    requires 2 <= left <= |data| && extLen == Word(data) && body == data[2..]
    ensures Extensions(data, left) == Walk(body, if 2 + extLen <= left then extLen else left - 2)
  {
  }

  lemma CompressionSkips(version: uint16, ciphers: seq<uint16>, data: seq<byte>, left: nat, rest: seq<byte>)
    requires 1 <= left <= |data| && 1 + data[0] as int <= left && rest == data[1 + data[0] as int..]
    ensures FromCompression(version, ciphers, data, left)
            == Parsed(Frame(version, ciphers, Extensions(rest, left - 1 - data[0])))
  {
  }

  lemma ByteAt(mem: seq<byte>, start: nat, data: seq<byte>, k: nat)
    requires start + k < |mem| && data == mem[start..]
    ensures data[k] == mem[start + k]
  {
  }

  lemma BlockFrame(mem: seq<byte>, ciphers: seq<uint16>, version: uint16, start: nat, end: nat, offset: nat,
                   extLen: uint16,
                   data: seq<byte>, rest: seq<byte>, body: seq<byte>)
    requires start < end <= |mem| && offset == start + 1 + mem[start] && offset + 2 <= end
    requires extLen == mem[offset] as int * 256 + mem[offset + 1]
    requires data == mem[start..] && rest == mem[offset..] && body == mem[offset + 2..]
    ensures FromCompression(version, ciphers, data, end - start)
         == Parsed(Frame(version, ciphers, Walk(body, if offset + 2 + extLen <= end then extLen else end - offset - 2)))
  {
    ByteAt(mem, start, data, 0);
    ByteAt(mem, offset, rest, 0);
    ByteAt(mem, offset, rest, 1);
    DropAgain(mem, start, 1 + mem[start] as int, data, rest);
    DropAgain(mem, offset, 2, rest, body);
    CompressionSkips(version, ciphers, data, end - start, rest);
    ExtensionsFrom(rest, end - offset, extLen, body);
  }

  lemma NoBlockFrame(version: uint16, ciphers: seq<uint16>, data: seq<byte>, left: nat)
    requires 1 <= left <= |data| && left < 3 + data[0] as int
    ensures FromCompression(version, ciphers, data, left) == Parsed(Frame(version, ciphers, []))
  {
  }

  lemma BlockBounds(mem: seq<byte>, version: uint16, kept: seq<uint16>, start: nat, end: nat, p: Prefix, offset: nat,
                    extLen: uint16)
    requires start < end <= |mem| && p == BlockAt(mem, version, kept, start, end) && offset == start + 1 + mem[start]
    requires offset + 2 <= end && extLen == mem[offset] as int * 256 + mem[offset + 1]
    ensures p.version == version && p.ciphers == kept && p.start == offset + 2 <= p.end <= end
    ensures p.end - p.start == if offset + 2 + extLen <= end then extLen else end - offset - 2
  {
  }

  lemma ReadsFrame(p: Prefix, f: Outcome<Frame>, mem: seq<byte>, ciphers: seq<uint16>, body: seq<byte>, len: nat)
    requires p.start <= p.end <= |mem| && len == p.end - p.start && body == mem[p.start..]
             && p.ciphers == NonGrease(ciphers)
    requires f == Parsed(Frame(p.version, ciphers, Walk(body, len)))
    ensures Reads(Parsed(p), f, mem)
  {
  }

  lemma BlockReads(mem: seq<byte>, version: uint16, ciphers: seq<uint16>, start: nat, end: nat, data: seq<byte>,
                   p: Prefix, f: Outcome<Frame>)
    requires start < end <= |mem| && data == mem[start..]
    requires p == BlockAt(mem, version, NonGrease(ciphers), start, end)
             && f == FromCompression(version, ciphers, data, end - start)
    ensures Reads(Parsed(p), f, mem)
  {
    var offset := start + 1 + mem[start];
    if offset + 2 > end {
      ByteAt(mem, start, data, 0);
      NoBlockFrame(version, ciphers, data, end - start);
      ReadsFrame(p, f, mem, ciphers, mem[0..], 0);
    } else {
      var extLen, body := mem[offset] as int * 256 + mem[offset + 1], mem[offset + 2..];
      BlockBounds(mem, version, NonGrease(ciphers), start, end, p, offset, extLen);
      BlockFrame(mem, ciphers, version, start, end, offset, extLen, data, mem[offset..], body);
      ReadsFrame(p, f, mem, ciphers, body, p.end - p.start);
    }
  }

  lemma CiphersSkip(version: uint16, data: seq<byte>, left: nat, list: seq<byte>, len: uint16, rest: seq<byte>)
    requires 2 + len <= left <= |data| && len == Word(data) && list == data[2..] && rest == data[2 + len..]
    ensures FromCiphers(version, data, left)
         == if ListFits(list, len) then FromCompression(version, Words(list, len), rest, left - 2 - len) else Panicked
  {
  }

  lemma CiphersAt(mem: seq<byte>, version: uint16, start: nat, end: nat, len: uint16, data: seq<byte>,
                  list: seq<byte>, rest: seq<byte>)
    requires start + 2 + len <= end <= |mem| && len == mem[start] as int * 256 + mem[start + 1]
    requires data == mem[start..] && list == mem[start + 2..] && rest == mem[start + 2 + len..]
    ensures FromCiphers(version, data, end - start)
         == if ListFits(list, len)
            then FromCompression(version, Words(list, len), rest, end - start - 2 - len) else Panicked
  {
    ByteAt(mem, start, data, 0);
    ByteAt(mem, start, data, 1);
    DropAgain(mem, start, 2, data, list);
    DropAgain(mem, start, 2 + len, data, rest);
    CiphersSkip(version, data, end - start, list, len, rest);
  }

  lemma ListsRead(mem: seq<byte>, version: uint16, start: nat, end: nat, data: seq<byte>, p: Outcome<Prefix>,
                  f: Outcome<Frame>)
    requires start + 2 <= end <= |mem| && data == mem[start..]
    requires p == ListsAt(mem, version, start, end) && f == FromCiphers(version, data, end - start)
    ensures Reads(p, f, mem)
  {
    var len := mem[start] as int * 256 + mem[start + 1];
    if start + 2 + len > end {
      ByteAt(mem, start, data, 0);
      ByteAt(mem, start, data, 1);
    } else {
      var list, rest := mem[start + 2..], mem[start + 2 + len..];
      CiphersAt(mem, version, start, end, len, data, list, rest);
      if ListFits(list, len) {
        ListsFit(mem, version, start, end, len, list, Words(list, len), rest, p, f);
      }
    }
  }

  lemma ListsParsed(mem: seq<byte>, version: uint16, start: nat, end: nat, len: uint16, next: nat, list: seq<byte>,
                    ciphers: seq<uint16>)
    requires next == start + 2 + len && next + 1 <= end <= |mem| && len == mem[start] as int * 256 + mem[start + 1]
    requires list == mem[start + 2..] && ListFits(list, len) && ciphers == Words(list, len)
    ensures ListsAt(mem, version, start, end) == Parsed(BlockAt(mem, version, NonGrease(ciphers), next, end))
  {
  }

  lemma ListsFit(mem: seq<byte>, version: uint16, start: nat, end: nat, len: uint16, list: seq<byte>,
                 ciphers: seq<uint16>, rest: seq<byte>,
                 p: Outcome<Prefix>, f: Outcome<Frame>)
    requires start + 2 + len <= end <= |mem| && len == mem[start] as int * 256 + mem[start + 1]
    requires list == mem[start + 2..] && ListFits(list, len) && ciphers == Words(list, len)
             && rest == mem[start + 2 + len..]
    requires p == ListsAt(mem, version, start, end)
             && f == FromCompression(version, ciphers, rest, end - (start + 2 + len))
    ensures Reads(p, f, mem)
  {
    var next := start + 2 + len;
    if next + 1 <= end {
      ListsParsed(mem, version, start, end, len, next, list, ciphers);
      BlockReads(mem, version, ciphers, next, end, rest, p.value, f);
    }
  }

  /** A list length that the record cannot hold is rejected without being read. */
  lemma FramingRejects(mem: seq<byte>, n: nat)
    requires n <= |mem|
    requires n >= 45 && mem[0] == 0x16 && mem[1] == 0x03 ==>
               var end := 5 + (mem[3] as int * 256 + mem[4]);
               n < end || end < 44 || mem[5] != 0x01 || 46 + mem[43] as int > end
    ensures Framing(mem, n) == Rejected
  {
  }

  lemma FramingSkips(mem: seq<byte>, n: nat, version: uint16, start: nat, end: nat, data: seq<byte>)
    requires 45 <= n <= |mem| && mem[0] == 0x16 && mem[1] == 0x03 && mem[5] == 0x01
    requires end == 5 + (mem[3] as int * 256 + mem[4]) && start == 44 + mem[43] as int && start + 2 <= end <= n
    requires version == mem[9] as int * 256 + mem[10] && data == mem[start..]
    ensures Framing(mem, n) == FromCiphers(version, data, end - start)
  {
  }

  lemma PrefixSkips(mem: seq<byte>, n: nat, version: uint16, start: nat, end: nat)
    requires 45 <= n <= |mem| && mem[0] == 0x16 && mem[1] == 0x03 && mem[5] == 0x01
    requires end == 5 + (mem[3] as int * 256 + mem[4]) && start == 44 + mem[43] as int && start + 2 <= end <= n
    requires version == mem[9] as int * 256 + mem[10]
    ensures PrefixOf(mem, n) == ListsAt(mem, version, start, end)
  {
  }

  lemma PrefixRejects(mem: seq<byte>, n: nat)
    requires n <= |mem|
    requires n >= 45 && mem[0] == 0x16 && mem[1] == 0x03 ==>
               var end := 5 + (mem[3] as int * 256 + mem[4]);
               n < end || end < 44 || mem[5] != 0x01 || 46 + mem[43] as int > end
    ensures PrefixOf(mem, n) == Rejected
  {
  }

  lemma PrefixReads(mem: seq<byte>, n: nat, p: Outcome<Prefix>, f: Outcome<Frame>)
    requires n <= |mem| && p == PrefixOf(mem, n) && f == Framing(mem, n)
    ensures Reads(p, f, mem)
  {
    if n < 45 || mem[0] != 0x16 || mem[1] != 0x03 {
      PrefixRejects(mem, n);
      FramingRejects(mem, n);
    } else {
      var end, start := 5 + (mem[3] as int * 256 + mem[4]), 44 + mem[43] as int;
      if n < end || mem[5] != 0x01 || start + 2 > end {
        PrefixRejects(mem, n);
        FramingRejects(mem, n);
      } else {
        PrefixAccepts(mem, n, mem[9] as int * 256 + mem[10], start, end, mem[start..], p, f);
      }
    }
  }

  lemma PrefixAccepts(mem: seq<byte>, n: nat, version: uint16, start: nat, end: nat, data: seq<byte>,
                      p: Outcome<Prefix>, f: Outcome<Frame>)
    requires 45 <= n <= |mem| && mem[0] == 0x16 && mem[1] == 0x03 && mem[5] == 0x01
    requires end == 5 + (mem[3] as int * 256 + mem[4]) && start == 44 + mem[43] as int && start + 2 <= end <= n
    requires version == mem[9] as int * 256 + mem[10] && data == mem[start..]
    requires p == PrefixOf(mem, n) && f == Framing(mem, n)
    ensures Reads(p, f, mem)
  {
    PrefixSkips(mem, n, version, start, end);
    FramingSkips(mem, n, version, start, end, data);
    ListsRead(mem, version, start, end, data, p, f);
  }

  // ---- an abstract hello and its bytes ----

  datatype Extension =
    | ServerName(name: seq<byte>)
    | Groups(groups: seq<uint16>)
    | PointFormats(formats: seq<byte>)
    | SignatureAlgorithms(schemes: seq<uint16>)
    | Alpn(protocols: seq<seq<byte>>)
    | SupportedVersions(versions: seq<uint16>)
    | Other(otherKind: uint16, body: seq<byte>)

  datatype Hello = Hello(
    version: uint16,
    random: seq<byte>,
    sessionId: seq<byte>,
    ciphers: seq<uint16>,
    compression: seq<byte>,
    hasExtensions: bool,
    extensions: seq<Extension>)

  function Kind(x: Extension): uint16 {
    match x
    case ServerName(_) => 0
    case Groups(_) => 10
    case PointFormats(_) => 11
    case SignatureAlgorithms(_) => 13
    case Alpn(_) => 16
    case SupportedVersions(_) => 43
    case Other(k, _) => k
  }

  function EncodeProtocols(ps: seq<seq<byte>>): seq<byte>
    requires forall p | p in ps :: |p| < 0x100
  {
    if ps == [] then [] else [|ps[0]|] + ps[0] + EncodeProtocols(ps[1..])
  }

  /** The lists fit their length fields. */
  predicate BodyFits(x: Extension) {
    match x
    case Groups(gs) => 2 * |gs| < 0xfffe
    case PointFormats(ps) => |ps| < 0x100
    case SignatureAlgorithms(ss) => 2 * |ss| < 0xfffe
    case Alpn(ps) => (forall p | p in ps :: |p| < 0x100) && |EncodeProtocols(ps)| < 0xfffe
    case SupportedVersions(vs) => 2 * |vs| < 0x100
    case ServerName(b) => |b| < 0x1_0000
    case Other(k, b) => k !in {0, 10, 11, 13, 16, 43} && |b| < 0x1_0000
  }

  function Body(x: Extension): (s: seq<byte>)
    requires BodyFits(x)
    ensures |s| < 0x1_0000
  {
    match x
    case Groups(gs) => Be16(2 * |gs|) + EncodeWords(gs)
    case PointFormats(ps) => [|ps|] + ps
    case SignatureAlgorithms(ss) => Be16(2 * |ss|) + EncodeWords(ss)
    case Alpn(ps) => Be16(|EncodeProtocols(ps)|) + EncodeProtocols(ps)
    case SupportedVersions(vs) => [2 * |vs|] + EncodeWords(vs)
    case ServerName(b) => b
    case Other(_, b) => b
  }

  predicate AllFit(xs: seq<Extension>) {
    forall x | x in xs :: BodyFits(x)
  }

  function EncodeExtensions(xs: seq<Extension>): seq<byte>
    requires AllFit(xs)
  {
    if xs == [] then []
    else Be16(Kind(xs[0])) + Be16(|Body(xs[0])|) + Body(xs[0]) + EncodeExtensions(xs[1..])
  }

  function EncodeBlock(h: Hello): seq<byte>
    requires AllFit(h.extensions) && |EncodeExtensions(h.extensions)| < 0x1_0000
  {
    if h.hasExtensions then Be16(|EncodeExtensions(h.extensions)|) + EncodeExtensions(h.extensions) else []
  }

  predicate FieldsFit(h: Hello) {
    && |h.random| == 32 && |h.sessionId| < 0x100 && 2 * |h.ciphers| < 0x1_0000 && |h.compression| < 0x100
    && AllFit(h.extensions) && |EncodeExtensions(h.extensions)| < 0x1_0000
    && (!h.hasExtensions ==> h.extensions == [])
  }

  function EncodeTail(h: Hello): seq<byte>
    requires FieldsFit(h)
  {
    Be16(2 * |h.ciphers|) + EncodeWords(h.ciphers) + [|h.compression|] + h.compression + EncodeBlock(h)
  }

  /** The handshake body after the 4-byte handshake header. */
  function EncodeBody(h: Hello): (s: seq<byte>)
    requires FieldsFit(h)
    ensures |s| >= 38
  {
    Be16(h.version) + h.random + [|h.sessionId|] + h.sessionId + EncodeTail(h)
  }

  predicate Fits(h: Hello) {
    FieldsFit(h) && 4 + |EncodeBody(h)| < 0x1_0000
  }

  /** The whole record; `minor` is the low byte of the record-layer version. */
  function Record(h: Hello, minor: byte): (s: seq<byte>)
    requires Fits(h)
    ensures |s| == 9 + |EncodeBody(h)|
  {
    var b := EncodeBody(h);
    [0x16, 0x03, minor] + Be16(4 + |b|) + [0x01, 0] + Be16(|b|) + b
  }

  function EntryAt(x: Extension, tail: seq<byte>): Entry
    requires BodyFits(x)
  {
    Whole(Kind(x), |Body(x)|, Body(x) + tail)
  }

  /** The entries a walk over the encoded extensions sees, with `after` following them in memory. */
  function EntriesOf(xs: seq<Extension>, after: seq<byte>): (es: seq<Entry>)
    requires AllFit(xs)
  {
    if xs == [] then []
    else [EntryAt(xs[0], EncodeExtensions(xs[1..]) + after)] + EntriesOf(xs[1..], after)
  }

  function KindsOf(xs: seq<Extension>): seq<uint16> {
    if xs == [] then [] else [Kind(xs[0])] + KindsOf(xs[1..])
  }

  lemma WalkHead(kind: uint16, body: seq<byte>, rest: seq<byte>, end: nat, data: seq<byte>, tail: seq<byte>)
    requires |body| < 0x1_0000 && end <= |rest| && tail == body + rest && data == Be16(kind) + Be16(|body|) + tail
    ensures Walk(data, 4 + |body| + end) == [Whole(kind, |body|, tail)] + Walk(rest, end)
  {
    assert data[2..] == Be16(|body|) + tail;
    assert data[4..] == tail;
    assert data[4 + |body|..] == rest;
    WalkFrom(data, 4 + |body| + end, kind, |body|, tail, rest);
  }

  lemma EncodeHead(xs: seq<Extension>, after: seq<byte>)
    requires AllFit(xs) && xs != []
    ensures EncodeExtensions(xs) + after
         == Be16(Kind(xs[0])) + Be16(|Body(xs[0])|) + (Body(xs[0]) + (EncodeExtensions(xs[1..]) + after))
  {
    Reassociate(Be16(Kind(xs[0])) + Be16(|Body(xs[0])|), Body(xs[0]), EncodeExtensions(xs[1..]), after);
  }

  lemma {:induction false} WalkRoundTrip(xs: seq<Extension>, after: seq<byte>)
    requires AllFit(xs)
    ensures Walk(EncodeExtensions(xs) + after, |EncodeExtensions(xs)|) == EntriesOf(xs, after)
  {
    if xs == [] {
    } else {
      var k, b, rest := Kind(xs[0]), Body(xs[0]), EncodeExtensions(xs[1..]);
      var data, tail := EncodeExtensions(xs) + after, b + (rest + after);
      EncodeHead(xs, after);
      WalkHead(k, b, rest + after, |rest|, data, tail);
      WalkRoundTrip(xs[1..], after);
    }
  }

  lemma {:induction false} KindsOfEntries(xs: seq<Extension>, after: seq<byte>)
    requires AllFit(xs)
    ensures Kinds(EntriesOf(xs, after)) == KindsOf(xs)
  {
    if xs != [] {
      KindsOfEntries(xs[1..], after);
    }
  }

  lemma CiphersHead(version: uint16, len: uint16, cs: seq<byte>, rest: seq<byte>, left: nat)
    requires |cs| == len && len % 2 == 0 && left <= |rest|
    ensures FromCiphers(version, Be16(len) + (cs + rest), 2 + len + left)
         == FromCompression(version, Words(cs + rest, len), rest, left)
  {
    var data, list := Be16(len) + (cs + rest), cs + rest;
    assert data[2..] == list;
    assert data[2 + len..] == rest;
    assert Word(data) == len;
    CiphersSkip(version, data, 2 + len + left, list, len, rest);
  }

  lemma CompressionHead(version: uint16, ciphers: seq<uint16>, comp: seq<byte>, rest: seq<byte>, left: nat)
    requires |comp| < 0x100 && left <= |rest|
    ensures FromCompression(version, ciphers, [|comp|] + comp + rest, 1 + |comp| + left)
         == Parsed(Frame(version, ciphers, Extensions(rest, left)))
  {
    var data := [|comp|] + comp + rest;
    assert data[1 + |comp|..] == rest;
    CompressionSkips(version, ciphers, data, 1 + |comp| + left, rest);
  }

  lemma BlockRoundTrip(h: Hello, after: seq<byte>)
    requires FieldsFit(h)
    ensures Extensions(EncodeBlock(h) + after, |EncodeBlock(h)|) == EntriesOf(h.extensions, after)
  {
    if h.hasExtensions {
      var xs := EncodeExtensions(h.extensions);
      var data, body := EncodeBlock(h) + after, xs + after;
      assert data == Be16(|xs|) + body;
      assert Word(data) == |xs|;
      assert body == data[2..];
      ExtensionsFrom(data, |EncodeBlock(h)|, |xs|, body);
      WalkRoundTrip(h.extensions, after);
    }
  }

  /** The cipher list, the compression list and the block of a hello, `rest` being what follows the compression list. */
  lemma TailParts(h: Hello, after: seq<byte>, data: seq<byte>, list: seq<byte>, comp: seq<byte>, rest: seq<byte>)
    requires FieldsFit(h) && data == EncodeTail(h) + after && rest == EncodeBlock(h) + after
    requires comp == [|h.compression|] + h.compression + rest && list == EncodeWords(h.ciphers) + comp
    ensures data == Be16(2 * |h.ciphers|) + list
    ensures |EncodeTail(h)| == 3 + 2 * |h.ciphers| + |h.compression| + |EncodeBlock(h)|
  {
    TailAssoc(Be16(2 * |h.ciphers|), EncodeWords(h.ciphers), [|h.compression|], h.compression, EncodeBlock(h), after);
  }

  lemma TailCiphers(h: Hello, comp: seq<byte>, list: seq<byte>, data: seq<byte>, left: nat)
    requires 2 * |h.ciphers| < 0x1_0000 && left <= |comp|
    requires list == EncodeWords(h.ciphers) + comp && data == Be16(2 * |h.ciphers|) + list
    ensures FromCiphers(h.version, data, 2 + 2 * |h.ciphers| + left)
            == FromCompression(h.version, h.ciphers, comp, left)
  {
    CiphersHead(h.version, 2 * |h.ciphers|, EncodeWords(h.ciphers), comp, left);
    WordsRoundTrip(h.ciphers, comp);
  }

  lemma TailRoundTrip(h: Hello, after: seq<byte>, data: seq<byte>)
    requires FieldsFit(h) && data == EncodeTail(h) + after
    ensures FromCiphers(h.version, data, |EncodeTail(h)|)
            == Parsed(Frame(h.version, h.ciphers, EntriesOf(h.extensions, after)))
  {
    var rest := EncodeBlock(h) + after;
    var comp := [|h.compression|] + h.compression + rest;
    var list := EncodeWords(h.ciphers) + comp;
    var left := |EncodeBlock(h)|;
    TailParts(h, after, data, list, comp, rest);
    TailCiphers(h, comp, list, data, 1 + |h.compression| + left);
    TailCompression(h, after, comp, rest, left);
  }

  lemma TailCompression(h: Hello, after: seq<byte>, comp: seq<byte>, rest: seq<byte>, left: nat)
    requires FieldsFit(h) && rest == EncodeBlock(h) + after && left == |EncodeBlock(h)|
    requires comp == [|h.compression|] + h.compression + rest
    ensures FromCompression(h.version, h.ciphers, comp, 1 + |h.compression| + left)
         == Parsed(Frame(h.version, h.ciphers, EntriesOf(h.extensions, after)))
  {
    CompressionHead(h.version, h.ciphers, h.compression, rest, left);
    BlockRoundTrip(h, after);
  }

  lemma TailAssoc(a: seq<byte>, b: seq<byte>, c: seq<byte>, d: seq<byte>, e: seq<byte>, f: seq<byte>)
    ensures a + b + c + d + e + f == a + (b + (c + d + (e + f)))
  {
  }

  lemma FramingHead(mem: seq<byte>, n: nat, version: uint16, random: seq<byte>, sid: seq<byte>, minor: byte,
                    hsLen: uint16, rest: seq<byte>, left: nat)
    requires |random| == 32 && |sid| < 0x100 && left <= |rest| && 39 + |sid| + left < 0x1_0000 && 2 <= left
    requires mem == [0x16, 0x03, minor] + Be16(39 + |sid| + left) + [0x01, 0] + Be16(hsLen)
                    + (Be16(version) + random + [|sid|] + sid + rest)
    requires 44 + |sid| + left <= n <= |mem|
    ensures Framing(mem, n) == FromCiphers(version, rest, left)
  {
    var length: uint16 := 39 + |sid| + left;
    assert mem[3] == Be16(length)[0] && mem[4] == Be16(length)[1];
    assert mem[9] == Be16(version)[0] && mem[10] == Be16(version)[1];
    assert mem[43] == |sid|;
    assert mem[44 + |sid|..] == rest;
    FramingSkips(mem, n, version, 44 + |sid|, 44 + |sid| + left, rest);
  }

  /** Every hello that fits its length fields is framed back, whatever bytes follow the record. */
  lemma FramingRoundTrip(h: Hello, minor: byte, after: seq<byte>, n: nat)
    requires Fits(h) && |Record(h, minor)| <= n <= |Record(h, minor) + after|
    ensures Framing(Record(h, minor) + after, n)
         == Parsed(Frame(h.version, h.ciphers, EntriesOf(h.extensions, after)))
  {
    var b, tail, mem := EncodeBody(h), EncodeTail(h), Record(h, minor) + after;
    assert b + after == Be16(h.version) + h.random + [|h.sessionId|] + h.sessionId + (tail + after);
    assert mem == [0x16, 0x03, minor] + Be16(4 + |b|) + [0x01, 0] + Be16(|b|) + (b + after);
    FramingHead(mem, n, h.version, h.random, h.sessionId, minor, |b|, tail + after, |tail|);
    TailRoundTrip(h, after, EncodeTail(h) + after);
  }
}
