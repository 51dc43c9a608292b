/** `CalculateJA4`: the sorted, hashed JA4 string of a payload. SHA-256 is a parameter. */
module JA4 {
  import opened Wire
  import opened Printing
  import opened Sorting
  import opened ClientHello

  /** A hexadecimal SHA-256 digest. */
  type Digest = s: string | |s| == 64 witness seq(64, _ => '0')
  type Hash = string -> Digest

  /** What the string is made of: the lists still in wire order. */
  datatype Fields = Fields(
    version: string,
    sni: bool,
    ciphers: seq<uint16>,
    extensions: seq<uint16>,
    alpn: string,
    sigAlgs: seq<uint16>)

  // ---- what one extension contributes ----

  function NamesIn(e: Entry): seq<uint16> {
    if e.Whole? && e.kind == 0 then [e.kind] else []
  }

  /** The first and last character of the first protocol, when the list is well formed and it is not empty. */
  function AlpnIn(e: Entry): (s: string)
    ensures |s| in {0, 2}
  {
    if e.Whole? && e.kind == 16 && e.len >= 2 && e.len >= 2 + Word(e.data) && Word(e.data) > 1
       && e.len >= 3 + e.data[2] as int && e.data[2] > 0
    then [e.data[3] as char, e.data[2 + e.data[2] as int] as char]
    else []
  }

  predicate HasVersions(e: Entry) {
    e.Whole? && e.kind == 43 && e.len >= 1 && e.len >= 1 + e.data[0] as int
  }

  function VersionsIn(e: Entry): seq<uint16> {
    if HasVersions(e) then Words(e.data[1..], e.data[0]) else []
  }

  predicate HasSigAlgs(e: Entry) {
    e.Whole? && e.kind == 13 && e.len >= 2 && e.len >= 2 + Word(e.data)
  }

  function SigAlgsIn(e: Entry): seq<uint16> {
    if HasSigAlgs(e) then NonGrease(Words(e.data[2..], Word(e.data))) else []
  }

  /** Neither list loop takes a slice beyond the backing array. */
  predicate Readable(e: Entry) {
    && (HasVersions(e) ==> ListFits(e.data[1..], e.data[0]))
    && (HasSigAlgs(e) ==> ListFits(e.data[2..], Word(e.data)))
  }

  predicate AllReadable(es: seq<Entry>) {
    forall e | e in es :: Readable(e)
  }

  /** The hello's own version field; anything unknown prints as 1.2. */
  function VersionName(version: uint16): string {
    if version == 0x0304 then "13" else if version == 0x0302 then "11" else if version == 0x0301 then "10" else "12"
  }

  /** The four named versions are TLS 1.0 to 1.3, one code apart. */
  lemma VersionNames(minor: nat, other: uint16)
    ensures minor <= 3 ==> VersionName(0x0301 + minor) == "1" + Dec(minor)
    ensures other < 0x0301 || other > 0x0304 ==> VersionName(other) == "12"
  {
  }

  function Last2(s: string): string
    requires |s| >= 2
  {
    s[|s| - 2..]
  }

  function FieldsOf(f: Frame): Fields {
    Fields(
      if 0x0304 in Collect(f.entries, VersionsIn) then "13" else VersionName(f.version),
      Collect(f.entries, NamesIn) != [],
      NonGrease(f.ciphers),
      NonGrease(Kinds(f.entries)),
      Last2("00" + Collect(f.entries, AlpnIn)),
      Collect(f.entries, SigAlgsIn))
  }

  /** The fields of a framed payload; an unreadable list panics. */
  function Interpret(f: Outcome<Frame>): Outcome<Fields> {
    match f
    case Panicked => Panicked
    case Rejected => Rejected
    case Parsed(v) => if AllReadable(v.entries) then Parsed(FieldsOf(v)) else Panicked
  }

  /** The fields of the first `n` bytes of a backing array. */
  function Fingerprint(mem: seq<byte>, n: nat): Outcome<Fields>
    requires n <= |mem|
  {
    Interpret(Framing(mem, n))
  }

  // ---- the printed form ----

  function TruncatedSHA256(sha: Hash, input: string): (s: string)
    ensures |s| == 12
    ensures input == "" ==> s == "000000000000"
    ensures input != "" ==> s <= sha(input)
  {
    if input == "" then "000000000000" else sha(input)[..12]
  }

  function CipherText(ciphers: seq<uint16>): string {
    Join(Hexes(Sorted(ciphers)), ',')
  }

  function ExtensionText(extensions: seq<uint16>, sigAlgs: seq<uint16>): string {
    Join(Hexes(Sorted(extensions)) + (if sigAlgs == [] then [] else ["_" + Join(Hexes(sigAlgs), ',')]), ',')
  }

  function Head(f: Fields): string {
    "t" + f.version + (if f.sni then "d" else "i") + Count2(|f.ciphers|) + Count2(|f.extensions|) + f.alpn
  }

  function Raw(f: Fields, sha: Hash): string {
    Head(f) + "_" + TruncatedSHA256(sha, CipherText(f.ciphers)) + "_"
    + TruncatedSHA256(sha, ExtensionText(f.extensions, f.sigAlgs))
  }

  /** The string of the fields. */
  function Print(r: Outcome<Fields>, sha: Hash): Outcome<string> {
    match r
    case Panicked => Panicked
    case Rejected => Rejected
    case Parsed(f) => Parsed(Raw(f, sha))
  }

  /** Wire order of ciphers and extensions does not show in the string. */
  lemma RawIgnoresOrder(f: Fields, g: Fields, sha: Hash)
    requires g == f.(ciphers := g.ciphers, extensions := g.extensions)
    requires multiset(f.ciphers) == multiset(g.ciphers) && multiset(f.extensions) == multiset(g.extensions)
    ensures Raw(f, sha) == Raw(g, sha)
  {
    SortedDependsOnContentsOnly(f.ciphers, g.ciphers);
    SortedDependsOnContentsOnly(f.extensions, g.extensions);
    assert |f.ciphers| == |multiset(f.ciphers)| && |g.ciphers| == |multiset(g.ciphers)|;
    assert |f.extensions| == |multiset(f.extensions)| && |g.extensions| == |multiset(g.extensions)|;
  }

  lemma HexListAvoids(ws: seq<uint16>)
    ensures '_' !in Join(Hexes(ws), ',')
  {
    JoinAvoids(Hexes(ws), ',', '_');
  }

  /** The hashed cipher text reads back as the sorted list. */
  lemma CipherTextReads(ciphers: seq<uint16>)
    ensures ReadList(CipherText(ciphers), ',', 16) == Sorted(ciphers)
    ensures IsHexList(CipherText(ciphers), Sorted(ciphers))
  {
    HexListReads(Sorted(ciphers));
  }

  /** The hashed cipher text determines the cipher list up to order. */
  lemma CipherTextFaithful(v: seq<uint16>, w: seq<uint16>)
    ensures CipherText(v) == CipherText(w) <==> multiset(v) == multiset(w)
  {
    if CipherText(v) == CipherText(w) {
      CipherTextReads(v);
      CipherTextReads(w);
      SortedSorts(v);
      SortedSorts(w);
    }
    if multiset(v) == multiset(w) {
      SortedDependsOnContentsOnly(v, w);
    }
  }

  lemma ExtensionTextParts(extensions: seq<uint16>, sigAlgs: seq<uint16>) returns (pre: string, post: string)
    ensures pre == if extensions == [] then "" else Join(Hexes(Sorted(extensions)), ',') + ","
    ensures sigAlgs == [] ==> ExtensionText(extensions, sigAlgs) == Join(Hexes(Sorted(extensions)), ',')
    ensures sigAlgs != [] ==>
              ExtensionText(extensions, sigAlgs) == pre + "_" + post && post == Join(Hexes(sigAlgs), ',')
    ensures '_' !in pre
    ensures '_' in ExtensionText(extensions, sigAlgs) <==> sigAlgs != []
  {
    var items := Hexes(Sorted(extensions));
    SortedSorts(extensions);
    assert |Sorted(extensions)| == |multiset(Sorted(extensions))| == |multiset(extensions)| == |extensions|;
    HexListAvoids(Sorted(extensions));
    pre := if extensions == [] then "" else Join(items, ',') + ",";
    post := Join(Hexes(sigAlgs), ',');
    if sigAlgs == [] {
      assert items + [] == items;
    } else {
      JoinSnoc(items, "_" + post, ',');
      assert pre + "_" + post == pre + ("_" + post);
      assert (pre + "_" + post)[|pre|] == '_';
    }
  }

  /** The hashed extension text: the sorted extensions, and after them, if there are any, an underscore and the
      signature algorithms in order. */
  lemma ExtensionTextReads(extensions: seq<uint16>, sigAlgs: seq<uint16>) returns (pre: string, post: string)
    ensures IsHexList(pre, Sorted(extensions)) && IsHexList(post, sigAlgs)
    ensures ExtensionText(extensions, sigAlgs)
         == pre + (if extensions != [] && sigAlgs != [] then "," else "") + (if sigAlgs != [] then "_" else "") + post
  {
    var p, q := ExtensionTextParts(extensions, sigAlgs);
    pre, post := Join(Hexes(Sorted(extensions)), ','), Join(Hexes(sigAlgs), ',');
    HexListReads(Sorted(extensions));
    HexListReads(sigAlgs);
    SortedSorts(extensions);
    assert |Sorted(extensions)| == |multiset(Sorted(extensions))| == |multiset(extensions)| == |extensions|;
  }

  /** The hashed extension text determines the extensions up to order, and the signature algorithms in order. */
  lemma ExtensionTextFaithful(x: seq<uint16>, s: seq<uint16>, y: seq<uint16>, t: seq<uint16>)
    ensures ExtensionText(x, s) == ExtensionText(y, t) <==> multiset(x) == multiset(y) && s == t
  {
    if ExtensionText(x, s) == ExtensionText(y, t) {
      var p, a := ExtensionTextParts(x, s);
      var q, b := ExtensionTextParts(y, t);
      if s != [] {
        SplitUnique(p, a, q, b, '_');
        HexListReads(s);
        HexListReads(t);
        PrefixTextFaithful(x, y);
      } else {
        CipherTextFaithful(x, y);
      }
    }
    if multiset(x) == multiset(y) {
      SortedDependsOnContentsOnly(x, y);
    }
  }

  lemma PrefixTextFaithful(x: seq<uint16>, y: seq<uint16>)
    requires (if x == [] then "" else Join(Hexes(Sorted(x)), ',') + ",")
             == (if y == [] then "" else Join(Hexes(Sorted(y)), ',') + ",")
    ensures multiset(x) == multiset(y)
  {
    if x != [] {
      var jx, jy := Join(Hexes(Sorted(x)), ','), Join(Hexes(Sorted(y)), ',');
      assert |(jx + ",")| == |(jy + ",")|;
      assert jx == (jx + ",")[..|jx|] == (jy + ",")[..|jy|] == jy;
      CipherTextFaithful(x, y);
    }
  }

  /** The two-character parts have two characters, as in every parsed hello. */
  predicate WellFormed(f: Fields) {
    |f.version| == 2 && |f.alpn| == 2
  }

  lemma FieldsWellFormed(f: Frame)
    ensures WellFormed(FieldsOf(f))
  {
  }

  /** The head is ten characters: protocol, version, server name, both counts capped at 99, protocol name. */
  lemma HeadParts(f: Fields)
    requires WellFormed(f)
    ensures var h := Head(f);
            && |h| == 10 && h[0] == 't' && h[1..3] == f.version && h[3] == (if f.sni then 'd' else 'i')
            && h[8..] == f.alpn
            && IsCount(h[4..6], |f.ciphers|) && IsCount(h[6..8], |f.extensions|)
  {
    var h, c, e := Head(f), Count2(|f.ciphers|), Count2(|f.extensions|);
    assert h[1..3] == f.version && h[4..6] == c && h[6..8] == e && h[8..] == f.alpn;
    Count2Reads(|f.ciphers|);
    Count2Reads(|f.extensions|);
  }

  /** A TLS 1.3 hello with a server name, five ciphers, nine extensions and the protocol h2; without the name, with
      more than 99 ciphers and one extension. */
  lemma HeadExample(f: Fields, g: Fields)
    requires f.version == "13" && f.sni && |f.ciphers| == 5 && |f.extensions| == 9 && f.alpn == "h2"
    requires g.version == "12" && !g.sni && |g.ciphers| >= 99 && |g.extensions| == 1 && g.alpn == "00"
    ensures Head(f) == "t13d0509h2" && Head(g) == "t12i990100"
  {
    assert Count2(5) == "05" && Count2(9) == "09" && Count2(|g.ciphers|) == "99" && Count2(1) == "01";
  }

  /** The string is 36 characters, and it shows its three parts at fixed places. */
  lemma RawParts(f: Fields, sha: Hash)
    requires WellFormed(f)
    ensures var r := Raw(f, sha);
            && |r| == 36 && r[10] == r[23] == '_'
            && r[..10] == Head(f)
            && r[11..23] == TruncatedSHA256(sha, CipherText(f.ciphers))
            && r[24..] == TruncatedSHA256(sha, ExtensionText(f.extensions, f.sigAlgs))
  {
    var a, b := Head(f), TruncatedSHA256(sha, CipherText(f.ciphers));
    var c := TruncatedSHA256(sha, ExtensionText(f.extensions, f.sigAlgs));
    var r := a + "_" + b + "_" + c;
    assert r[..10] == a && r[11..23] == b && r[24..] == c;
  }

  /** Equal but for the order of the two lists that are sorted before printing. */
  ghost predicate SameUpToOrder(f: Fields, g: Fields) {
    && f.version == g.version && f.sni == g.sni && f.alpn == g.alpn && f.sigAlgs == g.sigAlgs
    && multiset(f.ciphers) == multiset(g.ciphers) && multiset(f.extensions) == multiset(g.extensions)
  }

  /** Up to collisions of the truncated hash on the texts at hand, two strings are equal exactly when version, server
      name flag and protocol name are, the ciphers and the extensions are up to order, and the signature algorithms
      are in order. */
  lemma RawFaithful(f: Fields, g: Fields, sha: Hash)
    requires WellFormed(f) && WellFormed(g)
    requires TruncatedSHA256(sha, CipherText(f.ciphers)) == TruncatedSHA256(sha, CipherText(g.ciphers))
             ==> CipherText(f.ciphers) == CipherText(g.ciphers)
    requires TruncatedSHA256(sha, ExtensionText(f.extensions, f.sigAlgs))
             == TruncatedSHA256(sha, ExtensionText(g.extensions, g.sigAlgs))
             ==> ExtensionText(f.extensions, f.sigAlgs) == ExtensionText(g.extensions, g.sigAlgs)
    ensures Raw(f, sha) == Raw(g, sha) <==> SameUpToOrder(f, g)
  {
    RawParts(f, sha);
    RawParts(g, sha);
    HeadParts(f);
    HeadParts(g);
    CipherTextFaithful(f.ciphers, g.ciphers);
    ExtensionTextFaithful(f.extensions, f.sigAlgs, g.extensions, g.sigAlgs);
    if SameUpToOrder(f, g) {
      RawIgnoresOrder(f, g, sha);
    }
  }

  lemma InterpretedWellFormed(f: Outcome<Frame>)
    ensures Interpret(f).Parsed? ==> WellFormed(Interpret(f).value)
  {
    if f.Parsed? {
      FieldsWellFormed(f.value);
    }
  }

  /** Two accepted payloads print the same string exactly when their fields agree in this sense. */
  lemma PayloadsFaithful(m1: seq<byte>, n1: nat, m2: seq<byte>, n2: nat, sha: Hash)
    requires n1 <= |m1| && n2 <= |m2| && Fingerprint(m1, n1).Parsed? && Fingerprint(m2, n2).Parsed?
    requires var f, g := Fingerprint(m1, n1).value, Fingerprint(m2, n2).value;
             && (TruncatedSHA256(sha, CipherText(f.ciphers)) == TruncatedSHA256(sha, CipherText(g.ciphers))
                 ==> CipherText(f.ciphers) == CipherText(g.ciphers))
             && (TruncatedSHA256(sha, ExtensionText(f.extensions, f.sigAlgs))
                 == TruncatedSHA256(sha, ExtensionText(g.extensions, g.sigAlgs))
                 ==> ExtensionText(f.extensions, f.sigAlgs) == ExtensionText(g.extensions, g.sigAlgs))
    ensures Print(Fingerprint(m1, n1), sha) == Print(Fingerprint(m2, n2), sha)
       <==> SameUpToOrder(Fingerprint(m1, n1).value, Fingerprint(m2, n2).value)
  {
    InterpretedWellFormed(Framing(m1, n1));
    InterpretedWellFormed(Framing(m2, n2));
    RawFaithful(Fingerprint(m1, n1).value, Fingerprint(m2, n2).value, sha);
  }

  // ---- the extensions ----

  method ReadAlpn(mem: seq<byte>, offset: nat, len: nat, kind: uint16, alpn: string) returns (r: string)
    requires offset + len <= |mem| && |alpn| == 2
    ensures var s := AlpnIn(Whole(kind, len, mem[offset..])); r == if s == [] then alpn else s
  {
    r := alpn;
    if kind == 0x0010 && len >= 2 {
      var alpnListLen := mem[offset] as int * 256 + mem[offset + 1];
      assert alpnListLen == Word(mem[offset..]);
      if len >= 2 + alpnListLen && alpnListLen > 1 {
        var firstStrLen := mem[offset + 2] as int;
        if len >= 3 + firstStrLen && firstStrLen > 0 {
          var alpnVal := mem[offset + 3..offset + 3 + firstStrLen];
          if |alpnVal| >= 2 {
            r := [alpnVal[0] as char] + [alpnVal[|alpnVal| - 1] as char];
          } else if |alpnVal| == 1 {
            r := [alpnVal[0] as char] + [alpnVal[0] as char];
          }
        }
      }
    }
  }

  method ReadVersions(mem: seq<byte>, offset: nat, len: nat, kind: uint16) returns (fits: bool, has13: bool)
    requires offset + len <= |mem|
    ensures var e := Whole(kind, len, mem[offset..]);
            && (fits <==> (HasVersions(e) ==> ListFits(e.data[1..], e.data[0])))
            && (fits ==> (has13 <==> 0x0304 in VersionsIn(e)))
  {
    fits, has13 := true, false;
    if kind == 0x002b && len >= 1 {
      var vLen := mem[offset] as int;
      if len >= 1 + vLen {
        assert mem[offset..][1..] == mem[offset + 1..];
        var kept;
        fits, kept, has13 := ReadWords(mem, offset + 1, vLen);
      }
    }
  }

  method ReadSigAlgs(mem: seq<byte>, offset: nat, len: nat, kind: uint16) returns (fits: bool, sigAlgs: seq<uint16>)
    requires offset + len <= |mem|
    ensures var e := Whole(kind, len, mem[offset..]);
            && (fits <==> (HasSigAlgs(e) ==> ListFits(e.data[2..], Word(e.data))))
            && (fits ==> sigAlgs == SigAlgsIn(e))
  {
    fits, sigAlgs := true, [];
    if kind == 0x000d && len >= 2 {
      var sigLen := mem[offset] as int * 256 + mem[offset + 1];
      assert sigLen == Word(mem[offset..]);
      if len >= 2 + sigLen {
        assert mem[offset..][2..] == mem[offset + 2..];
        var has0304;
        fits, sigAlgs, has0304 := ReadWords(mem, offset + 2, sigLen);
      }
    }
  }

  /** The parser's running variables. */
  datatype Seen = Seen(version: string, sni: bool, extensions: seq<uint16>, alpn: string, sigAlgs: seq<uint16>)

  /** The running variables after an extension whose kind is already counted. */
  function Saw(v: Seen, e: Entry): Seen {
    Seen(if 0x0304 in VersionsIn(e) then "13" else v.version,
         v.sni || NamesIn(e) != [],
         v.extensions,
         if AlpnIn(e) == [] then v.alpn else AlpnIn(e),
         v.sigAlgs + SigAlgsIn(e))
  }

  function Counted(v: Seen, e: Entry): Seen {
    if IsGrease(e.kind) then v else v.(extensions := v.extensions + [e.kind])
  }

  /** The running variables, completed by the entries still to come, are the fields of all entries. */
  ghost predicate Accumulated(all: seq<Entry>, rest: seq<Entry>, name: string, v: Seen) {
    && (AllReadable(all) <==> AllReadable(rest))
    && (if 0x0304 in Collect(all, VersionsIn) then "13" else name)
       == (if 0x0304 in Collect(rest, VersionsIn) then "13" else v.version)
    && (Collect(all, NamesIn) != [] <==> v.sni || Collect(rest, NamesIn) != [])
    && NonGrease(Kinds(all)) == v.extensions + NonGrease(Kinds(rest))
    && |v.alpn| == 2 && Last2("00" + Collect(all, AlpnIn)) == Last2(v.alpn + Collect(rest, AlpnIn))
    && Collect(all, SigAlgsIn) == v.sigAlgs + Collect(rest, SigAlgsIn)
  }

  lemma Accumulate(all: seq<Entry>, pending: seq<Entry>, e: Entry, rest: seq<Entry>, name: string, v: Seen)
    requires pending == [e] + rest && Accumulated(all, pending, name, v)
    ensures !Readable(e) ==> !AllReadable(all)
    ensures Readable(e) ==> Accumulated(all, rest, name, Saw(Counted(v, e), e))
  {
    AbsorbKind(v.extensions, e, rest);
    Absorb(v.sigAlgs, e, rest, SigAlgsIn);
    AccumulateFlags(e, rest);
    Absorb(v.alpn, e, rest, AlpnIn);
    Last2Suffix(v.alpn, AlpnIn(e), Collect(rest, AlpnIn));
    assert e in pending;
    assert forall x | x in pending :: x == e || x in rest;
    assert forall x | x in rest :: x in pending;
  }

  lemma AccumulateFlags(e: Entry, rest: seq<Entry>)
    ensures 0x0304 in Collect([e] + rest, VersionsIn)
            <==> 0x0304 in VersionsIn(e) || 0x0304 in Collect(rest, VersionsIn)
    ensures Collect([e] + rest, NamesIn) != [] <==> NamesIn(e) != [] || Collect(rest, NamesIn) != []
  {
    Absorb([], e, rest, VersionsIn);
    Absorb([], e, rest, NamesIn);
  }

  lemma AccumulateTruncated(all: seq<Entry>, pending: seq<Entry>, kind: uint16, name: string, v: Seen)
    requires pending == [Truncated(kind)] + [] && Accumulated(all, pending, name, v)
    ensures AllReadable(all) && Accumulated(all, [], name, Counted(v, Truncated(kind)))
  {
    var e: Entry := Truncated(kind);
    Accumulate(all, pending, e, [], name, v);
    assert v.sigAlgs + SigAlgsIn(e) == v.sigAlgs;
    assert Saw(Counted(v, e), e) == Counted(v, e);
  }

  lemma Last2Suffix(a: string, b: string, c: string)
    requires |a| == 2 && |b| in {0, 2}
    ensures Last2(a + b + c) == Last2((if b == [] then a else b) + c)
  {
    if b == [] {
      assert a + b + c == a + c;
    } else {
      assert a + b + c == a + (b + c);
    }
  }

  method ReadBody(mem: seq<byte>, offset: nat, len: nat, kind: uint16, v: Seen) returns (fits: bool, r: Seen)
    requires offset + len <= |mem| && |v.alpn| == 2
    ensures var e := Whole(kind, len, mem[offset..]);
            (fits <==> Readable(e)) && (fits ==> r == Saw(v, e))
  {
    var hasSNI := v.sni || kind == 0x0000;
    var alpn := ReadAlpn(mem, offset, len, kind, v.alpn);
    var has13, sigAlgs;
    fits, has13 := ReadVersions(mem, offset, len, kind);
    if !fits {
      return false, v;
    }
    fits, sigAlgs := ReadSigAlgs(mem, offset, len, kind);
    r := Seen(if has13 then "13" else v.version, hasSNI, v.extensions, alpn, v.sigAlgs + sigAlgs);
  }

  /** One turn of the walk: count the kind, then look into the body if the block holds it. */
  method ReadExtension(mem: seq<byte>, offset: nat, end: nat, v: Seen, ghost all: seq<Entry>, ghost name: string)
    returns (fits: bool, stop: bool, next: nat, r: Seen)
    requires offset + 4 <= end <= |mem|
    requires Accumulated(all, Walk(mem[offset..], end - offset), name, v)
    ensures !fits ==> !AllReadable(all)
    ensures fits && stop ==> Accumulated(all, [], name, r)
    ensures fits && !stop ==> offset < next <= end && Accumulated(all, Walk(mem[next..], end - next), name, r)
  {
    var kind := mem[offset] as int * 256 + mem[offset + 1];
    var len := mem[offset + 2] as int * 256 + mem[offset + 3];
    next := offset + 4 + len;
    ghost var pending := Walk(mem[offset..], end - offset);
    WalkStep(mem, offset, next, end, kind, len);
    r := v;
    if !IsGrease(kind) {
      r := r.(extensions := r.extensions + [kind]);
    }
    fits, stop := true, next > end;
    if stop {
      AccumulateTruncated(all, pending, kind, name, v);
    } else {
      ghost var e: Entry := Whole(kind, len, mem[offset + 4..]);
      ghost var counted := r;
      assert counted == Counted(v, e);
      fits, r := ReadBody(mem, offset + 4, len, kind, r);
      Accumulate(all, pending, e, Walk(mem[next..], end - next), name, v);
    }
  }

  method WalkExtensions(mem: seq<byte>, start: nat, end: nat, name: string) returns (fits: bool, v: Seen)
    requires start <= end <= |mem|
    ensures fits <==> AllReadable(Walk(mem[start..], end - start))
    ensures fits ==> Accumulated(Walk(mem[start..], end - start), [], name, v)
  {
    v := Seen(name, false, [], "00", []);
    var offset := start;
    ghost var all := Walk(mem[start..], end - start);
    while offset + 4 <= end
      invariant start <= offset <= end
      invariant Accumulated(all, Walk(mem[offset..], end - offset), name, v)
      decreases end - offset
    {
      var ok, stop, next;
      ok, stop, next, v := ReadExtension(mem, offset, end, v, all, name);
      if !ok {
        return false, v;
      }
      if stop {
        return true, v;
      }
      offset := next;
    }
    fits := true;
  }

  // ---- the prefix ----

  /** What the prefix yields: the version's name, the kept ciphers, and where the extension walk begins and ends. */
  datatype Opened = Opened(name: string, ciphers: seq<uint16>, start: nat, end: nat)

  ghost predicate Opens(r: Outcome<Opened>, f: Outcome<Frame>, mem: seq<byte>) {
    match (r, f)
    case (Panicked, Panicked) => true
    case (Rejected, Rejected) => true
    case (Parsed(o), Parsed(v)) =>
      && o.name == VersionName(v.version) && o.ciphers == NonGrease(v.ciphers)
      && o.start <= o.end <= |mem| && v.entries == Walk(mem[o.start..], o.end - o.start)
    case _ => false
  }

  function Named(p: Outcome<Prefix>): Outcome<Opened> {
    match p
    case Panicked => Panicked
    case Rejected => Rejected
    case Parsed(v) => Parsed(Opened(VersionName(v.version), v.ciphers, v.start, v.end))
  }

  lemma NotOpened(r: Outcome<Opened>, f: Outcome<Frame>, mem: seq<byte>)
    requires Opens(r, f, mem)
    ensures r.Panicked? ==> Interpret(f) == Panicked
    ensures r.Rejected? ==> Interpret(f) == Rejected
  {
  }

  lemma NamedOpens(p: Outcome<Prefix>, f: Outcome<Frame>, mem: seq<byte>)
    requires Reads(p, f, mem)
    ensures Opens(Named(p), f, mem)
  {
  }

  /** From the record header to the extension block. */
  method ReadPrefix(mem: seq<byte>, n: nat) returns (r: Outcome<Opened>)
    requires n <= |mem|
    ensures Opens(r, Framing(mem, n), mem)
  {
    r := ReadHandshake(mem, n);
    PrefixReads(mem, n, PrefixOf(mem, n), Framing(mem, n));
    NamedOpens(PrefixOf(mem, n), Framing(mem, n), mem);
  }

  /** Offsets count from the handshake, which begins at byte 5. */
  method ReadHandshake(mem: seq<byte>, n: nat) returns (r: Outcome<Opened>)
    requires n <= |mem|
    ensures r == Named(PrefixOf(mem, n))
  {
    if n < 45 {
      return Rejected;
    }
    if mem[0] != 0x16 || mem[1] != 0x03 {
      return Rejected;
    }
    var recordLen := mem[3] as int * 256 + mem[4];
    if n < 5 + recordLen {
      return Rejected;
    }
    if recordLen < 38 || mem[5] != 0x01 {
      return Rejected;
    }
    var name := ReadVersion(mem[9] as int * 256 + mem[10]);
    var offset := 38;
    if offset >= recordLen {
      return Rejected;
    }
    offset := offset + 1 + mem[5 + offset];
    if offset + 2 > recordLen {
      return Rejected;
    }
    r := ReadCiphers(mem, name, mem[9] as int * 256 + mem[10], offset, recordLen);
  }

  method ReadVersion(handshakeVersion: uint16) returns (name: string)
    ensures name == VersionName(handshakeVersion)
  {
    name := "12";
    match handshakeVersion
    case 0x0304 => name := "13";
    case 0x0303 => name := "12";
    case 0x0302 => name := "11";
    case 0x0301 => name := "10";
    case _ =>
  }

  method ReadCiphers(mem: seq<byte>, name: string, ghost version: uint16, start: nat, recordLen: nat)
    returns (r: Outcome<Opened>)
    requires start + 2 <= recordLen && 5 + recordLen <= |mem| && name == VersionName(version)
    ensures r == Named(ListsAt(mem, version, 5 + start, 5 + recordLen))
  {
    var offset := start;
    var cipherLen := mem[5 + offset] as int * 256 + mem[6 + offset];
    offset := offset + 2;
    if offset + cipherLen > recordLen {
      return Rejected;
    }
    var fits, rawCiphers, has0304 := ReadWords(mem, 5 + offset, cipherLen);
    if !fits {
      return Panicked;
    }
    offset := offset + cipherLen;
    if offset + 1 > recordLen {
      return Rejected;
    }
    var o := ReadBlock(mem, name, version, rawCiphers, offset, recordLen);
    r := Parsed(o);
  }

  method ReadBlock(mem: seq<byte>, name: string, ghost version: uint16, ciphers: seq<uint16>, start: nat,
                   recordLen: nat)
    returns (o: Opened)
    requires start + 1 <= recordLen && 5 + recordLen <= |mem| && name == VersionName(version)
    ensures Parsed(o) == Named(Parsed(BlockAt(mem, version, ciphers, 5 + start, 5 + recordLen)))
  {
    var compLen := mem[5 + start] as int;
    var offset := start + 1 + compLen;
    if offset + 2 <= recordLen {
      var extLen := mem[5 + offset] as int * 256 + mem[6 + offset];
      offset := offset + 2;
      var endExt := offset + extLen;
      if endExt > recordLen {
        endExt := recordLen;
      }
      return Opened(name, ciphers, 5 + offset, 5 + endExt);
    }
    o := Opened(name, ciphers, 0, 0);
  }

  lemma FieldsFrom(o: Opened, f: Outcome<Frame>, mem: seq<byte>, fits: bool, v: Seen)
    requires Opens(Parsed(o), f, mem)
    requires fits <==> AllReadable(Walk(mem[o.start..], o.end - o.start))
    requires fits ==> Accumulated(Walk(mem[o.start..], o.end - o.start), [], o.name, v)
    ensures Interpret(f)
         == if fits then Parsed(Fields(v.version, v.sni, o.ciphers, v.extensions, v.alpn, v.sigAlgs)) else Panicked
  {
    assert f.value.entries == Walk(mem[o.start..], o.end - o.start);
    if fits {
      assert Last2(v.alpn + []) == v.alpn;
      assert Fields(v.version, v.sni, o.ciphers, v.extensions, v.alpn, v.sigAlgs) == FieldsOf(f.value);
    }
  }

  // ---- the parser ----

  method SortedCopy(ws: seq<uint16>) returns (r: seq<uint16>)
    ensures r == Sorted(ws)
  {
    var a := new uint16[|ws|](i requires 0 <= i < |ws| => ws[i]);
    assert a[..] == ws;
    SortUint16s(a);
    r := a[..];
  }

  method ReadBlockFields(mem: seq<byte>, o: Opened, ghost f: Outcome<Frame>) returns (r: Outcome<Fields>)
    requires Opens(Parsed(o), f, mem)
    ensures r == Interpret(f)
  {
    var fits, v := WalkExtensions(mem, o.start, o.end, o.name);
    FieldsFrom(o, f, mem, fits, v);
    r := if fits then Parsed(Fields(v.version, v.sni, o.ciphers, v.extensions, v.alpn, v.sigAlgs)) else Panicked;
  }

  /** The fields of a payload, `false`, or a slice out of range. */
  method ReadFields(mem: seq<byte>, n: nat) returns (r: Outcome<Fields>)
    requires n <= |mem|
    ensures r == Fingerprint(mem, n)
  {
    var prefix := ReadPrefix(mem, n);
    NotOpened(prefix, Framing(mem, n), mem);
    match prefix
    case Panicked => r := Panicked;
    case Rejected => r := Rejected;
    case Parsed(o) => r := ReadBlockFields(mem, o, Framing(mem, n));
  }

  /** The parser reports the string of the fields, `false`, or a slice out of range. */
  method CalculateJA4(mem: seq<byte>, n: nat, sha: Hash) returns (r: Outcome<string>)
    requires n <= |mem|
    ensures r == Print(Fingerprint(mem, n), sha)
  {
    var fields := ReadFields(mem, n);
    match fields
    case Panicked => r := Panicked;
    case Rejected => r := Rejected;
    case Parsed(f) =>
      var s := Format(f, sha);
      r := Parsed(s);
  }

  /** Sorting, printing and hashing. */
  method Format(f: Fields, sha: Hash) returns (s: string)
    ensures s == Raw(f, sha)
  {
    var sortedCiphers := SortedCopy(f.ciphers);
    var sortedExtensions := SortedCopy(f.extensions);
    var extHex := Hexes(sortedExtensions);
    if |f.sigAlgs| > 0 {
      extHex := extHex + ["_" + Join(Hexes(f.sigAlgs), ',')];
    } else {
      assert extHex == extHex + [];
    }
    s := Head(f) + "_" + TruncatedSHA256(sha, Join(Hexes(sortedCiphers), ',')) + "_"
         + TruncatedSHA256(sha, Join(extHex, ','));
  }
}
