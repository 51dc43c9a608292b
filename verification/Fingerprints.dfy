/** What the two fingerprints promise: they read back every serialized hello, agree with each other,
    ignore order (JA4), GREASE and the bytes after the record. */
module Fingerprints {
  import opened Wire
  import opened Sorting
  import opened ClientHello
  import JA3
  import JA4
  import T = TrailingBytes

  // ---- what an abstract extension contributes ----

  function CurvesOf(x: Extension): seq<uint16> { if x.Groups? then NonGrease(x.groups) else [] }
  function PointsOf(x: Extension): seq<byte> { if x.PointFormats? then x.formats else [] }
  function NamesOf(x: Extension): seq<uint16> { if x.ServerName? then [0] else [] }
  function VersionsOf(x: Extension): seq<uint16> { if x.SupportedVersions? then x.versions else [] }
  function SigAlgsOf(x: Extension): seq<uint16> { if x.SignatureAlgorithms? then NonGrease(x.schemes) else [] }

  /** First and last character of the first protocol name. */
  function AlpnOf(x: Extension): string {
    if x.Alpn? && x.protocols != [] && x.protocols[0] != []
    then var p := x.protocols[0]; [p[0] as char, p[|p| - 1] as char]
    else []
  }

  function Gather<T>(xs: seq<Extension>, g: Extension -> seq<T>): seq<T> {
    if xs == [] then [] else g(xs[0]) + Gather(xs[1..], g)
  }

  /** Reader `f` applied to any encoded extension yields `g` of the abstract one. */
  ghost predicate ReadsBack<T(!new)>(f: Entry -> seq<T>, g: Extension -> seq<T>) {
    forall x: Extension, tail: seq<byte> | BodyFits(x) :: f(EntryAt(x, tail)) == g(x)
  }

  lemma {:induction false} CollectReadsBack<T(!new)>(xs: seq<Extension>, after: seq<byte>, f: Entry -> seq<T>,
                                              g: Extension -> seq<T>)
    requires AllFit(xs) && ReadsBack(f, g)
    ensures Collect(EntriesOf(xs, after), f) == Gather(xs, g)
  {
    if xs != [] {
      var e := EntryAt(xs[0], EncodeExtensions(xs[1..]) + after);
      assert f(e) == g(xs[0]);
      CollectReadsBack(xs[1..], after, f, g);
    }
  }

  lemma BodyHead(a: seq<byte>, b: seq<byte>, tail: seq<byte>)
    ensures (a + b + tail)[|a|..] == b + tail
  {
  }

  lemma GroupsReadBack(x: Extension, tail: seq<byte>)
    requires BodyFits(x)
    ensures JA3.Readable(EntryAt(x, tail)) && JA3.CurvesIn(EntryAt(x, tail)) == CurvesOf(x)
  {
    if x.Groups? {
      WordListBody(x.groups, tail);
    }
  }

  lemma WordListBody(ws: seq<uint16>, tail: seq<byte>)
    requires 2 * |ws| < 0xfffe
    ensures var data := Be16(2 * |ws|) + EncodeWords(ws) + tail;
            && Word(data) == 2 * |ws| && ListFits(data[2..], 2 * |ws|) && Words(data[2..], 2 * |ws|) == ws
  {
    ListHead(2 * |ws|, EncodeWords(ws), tail);
    Even(|ws|);
    WordsRoundTrip(ws, tail);
  }

  lemma Even(k: nat)
    ensures 2 * k % 2 == 0
  {
  }

  lemma ListHead(len: uint16, cs: seq<byte>, tail: seq<byte>)
    requires |cs| == len
    ensures var data := Be16(len) + cs + tail;
            && Word(data) == len && data[2..] == cs + tail
            && (len % 2 == 0 ==> ListFits(data[2..], len))
  {
    BodyHead(Be16(len), cs, tail);
  }

  lemma PointsReadBack(x: Extension, tail: seq<byte>)
    requires BodyFits(x)
    ensures JA3.PointsIn(EntryAt(x, tail)) == PointsOf(x)
  {
    if x.PointFormats? {
      var data := [|x.formats|] + x.formats + tail;
      assert data[1..1 + |x.formats|] == x.formats;
    }
  }

  lemma VersionsReadBack(x: Extension, tail: seq<byte>)
    requires BodyFits(x)
    ensures JA4.HasVersions(EntryAt(x, tail)) ==> ListFits(EntryAt(x, tail).data[1..], EntryAt(x, tail).data[0])
    ensures JA4.VersionsIn(EntryAt(x, tail)) == VersionsOf(x)
  {
    if x.SupportedVersions? {
      BodyHead([2 * |x.versions|], EncodeWords(x.versions), tail);
      WordsRoundTrip(x.versions, tail);
    }
  }

  lemma SigAlgsReadBack(x: Extension, tail: seq<byte>)
    requires BodyFits(x)
    ensures JA4.HasSigAlgs(EntryAt(x, tail)) ==> ListFits(EntryAt(x, tail).data[2..], Word(EntryAt(x, tail).data))
    ensures JA4.SigAlgsIn(EntryAt(x, tail)) == SigAlgsOf(x)
  {
    if x.SignatureAlgorithms? {
      WordListBody(x.schemes, tail);
    }
  }

  lemma AlpnReadBack(x: Extension, tail: seq<byte>)
    requires BodyFits(x)
    ensures JA4.AlpnIn(EntryAt(x, tail)) == AlpnOf(x)
  {
    if x.Alpn? && x.protocols != [] {
      var p, rest := x.protocols[0], EncodeProtocols(x.protocols[1..]);
      var l := EncodeProtocols(x.protocols);
      assert l == [|p|] + p + rest;
      var data := Be16(|l|) + l + tail;
      assert data[2] == |p| && forall i | 0 <= i < |p| :: data[3 + i] == p[i];
    }
  }

  lemma AllReadableBack(xs: seq<Extension>, after: seq<byte>)
    requires AllFit(xs)
    ensures JA3.AllReadable(EntriesOf(xs, after)) && JA4.AllReadable(EntriesOf(xs, after))
  {
    if xs != [] {
      var tail := EncodeExtensions(xs[1..]) + after;
      GroupsReadBack(xs[0], tail);
      VersionsReadBack(xs[0], tail);
      SigAlgsReadBack(xs[0], tail);
      AllReadableBack(xs[1..], after);
    }
  }

  // ---- round trips ----

  function Ja3FieldsOf(h: Hello): JA3.Fields {
    JA3.Fields(h.version, NonGrease(h.ciphers), NonGrease(KindsOf(h.extensions)),
               Gather(h.extensions, CurvesOf), Gather(h.extensions, PointsOf))
  }

  function Ja4FieldsOf(h: Hello): JA4.Fields {
    JA4.Fields(if 0x0304 in Gather(h.extensions, VersionsOf) then "13" else JA4.VersionName(h.version),
               Gather(h.extensions, NamesOf) != [],
               NonGrease(h.ciphers), NonGrease(KindsOf(h.extensions)),
               JA4.Last2("00" + Gather(h.extensions, AlpnOf)), Gather(h.extensions, SigAlgsOf))
  }

  /** JA3 recovers version, ciphers, extensions, groups and point formats, filtered and in order. */
  lemma Ja3RoundTrip(h: Hello, minor: byte, after: seq<byte>, n: nat)
    requires Fits(h) && |Record(h, minor)| <= n <= |Record(h, minor) + after|
    ensures JA3.Fingerprint(Record(h, minor) + after, n) == Parsed(Ja3FieldsOf(h))
  {
    FramingRoundTrip(h, minor, after, n);
    AllReadableBack(h.extensions, after);
    KindsOfEntries(h.extensions, after);
    Ja3CollectsBack(h.extensions, after);
  }

  lemma Ja3CollectsBack(xs: seq<Extension>, after: seq<byte>)
    requires AllFit(xs)
    ensures Collect(EntriesOf(xs, after), JA3.CurvesIn) == Gather(xs, CurvesOf)
    ensures Collect(EntriesOf(xs, after), JA3.PointsIn) == Gather(xs, PointsOf)
  {
    forall x: Extension, tail: seq<byte> | BodyFits(x)
      ensures JA3.CurvesIn(EntryAt(x, tail)) == CurvesOf(x) && JA3.PointsIn(EntryAt(x, tail)) == PointsOf(x)
    {
      GroupsReadBack(x, tail);
      PointsReadBack(x, tail);
    }
    CollectReadsBack(xs, after, JA3.CurvesIn, CurvesOf);
    CollectReadsBack(xs, after, JA3.PointsIn, PointsOf);
  }

  /** JA4 recovers the SNI flag, the ALPN characters, the version, the lists and the signature algorithms. */
  lemma Ja4RoundTrip(h: Hello, minor: byte, after: seq<byte>, n: nat)
    requires Fits(h) && |Record(h, minor)| <= n <= |Record(h, minor) + after|
    ensures JA4.Fingerprint(Record(h, minor) + after, n) == Parsed(Ja4FieldsOf(h))
  {
    FramingRoundTrip(h, minor, after, n);
    AllReadableBack(h.extensions, after);
    KindsOfEntries(h.extensions, after);
    Ja4CollectsBack(h.extensions, after);
  }

  lemma Ja4CollectsBack(xs: seq<Extension>, after: seq<byte>)
    requires AllFit(xs)
    ensures Collect(EntriesOf(xs, after), JA4.VersionsIn) == Gather(xs, VersionsOf)
    ensures Collect(EntriesOf(xs, after), JA4.NamesIn) == Gather(xs, NamesOf)
    ensures Collect(EntriesOf(xs, after), JA4.AlpnIn) == Gather(xs, AlpnOf)
    ensures Collect(EntriesOf(xs, after), JA4.SigAlgsIn) == Gather(xs, SigAlgsOf)
  {
    forall x: Extension, tail: seq<byte> | BodyFits(x)
      ensures JA4.VersionsIn(EntryAt(x, tail)) == VersionsOf(x) && JA4.SigAlgsIn(EntryAt(x, tail)) == SigAlgsOf(x)
      ensures JA4.NamesIn(EntryAt(x, tail)) == NamesOf(x) && JA4.AlpnIn(EntryAt(x, tail)) == AlpnOf(x)
    {
      VersionsReadBack(x, tail);
      SigAlgsReadBack(x, tail);
      AlpnReadBack(x, tail);
    }
    CollectReadsBack(xs, after, JA4.VersionsIn, VersionsOf);
    CollectReadsBack(xs, after, JA4.NamesIn, NamesOf);
    CollectReadsBack<char>(xs, after, JA4.AlpnIn, AlpnOf);
    CollectReadsBack(xs, after, JA4.SigAlgsIn, SigAlgsOf);
  }

  // ---- GREASE and order ----

  /** The extensions whose type is not GREASE. */
  function Real(xs: seq<Extension>): seq<Extension> {
    if xs == [] then [] else (if IsGrease(Kind(xs[0])) then [] else [xs[0]]) + Real(xs[1..])
  }

  /** `g` yields nothing except for extensions of type `k`. */
  ghost predicate OnlyFor<T(!new)>(g: Extension -> seq<T>, k: uint16) {
    forall x | g(x) != [] :: Kind(x) == k
  }

  lemma {:induction false} KindsOfReal(xs: seq<Extension>)
    ensures NonGrease(KindsOf(xs)) == KindsOf(Real(xs))
  {
    if xs != [] {
      KindsOfReal(xs[1..]);
      assert KindsOf(xs)[1..] == KindsOf(xs[1..]);
      if IsGrease(Kind(xs[0])) {
        assert Real(xs) == Real(xs[1..]);
      } else {
        assert Real(xs)[1..] == Real(xs[1..]);
      }
    }
  }

  lemma {:induction false} GatherReal<T(!new)>(xs: seq<Extension>, g: Extension -> seq<T>, k: uint16)
    requires OnlyFor(g, k) && !IsGrease(k)
    ensures Gather(xs, g) == Gather(Real(xs), g)
  {
    if xs != [] {
      GatherReal(xs[1..], g, k);
      if IsGrease(Kind(xs[0])) {
        assert g(xs[0]) == [];
        assert Real(xs) == Real(xs[1..]);
      } else {
        var rest := Real(xs[1..]);
        assert Real(xs) == [xs[0]] + rest;
        assert ([xs[0]] + rest)[1..] == rest;
      }
    }
  }

  lemma SameRealFields(h: Hello, k: Hello)
    requires h.version == k.version
    requires NonGrease(h.ciphers) == NonGrease(k.ciphers) && Real(h.extensions) == Real(k.extensions)
    ensures Ja3FieldsOf(h) == Ja3FieldsOf(k)
  {
    InterpretedKindsAreNotGrease();
    KindsOfReal(h.extensions);
    KindsOfReal(k.extensions);
    GatherReal(h.extensions, CurvesOf, 10);
    GatherReal(k.extensions, CurvesOf, 10);
    GatherReal(h.extensions, PointsOf, 11);
    GatherReal(k.extensions, PointsOf, 11);
  }

  /** JA3 keeps the order but not GREASE: inserting GREASE ciphers or extensions anywhere changes nothing. */
  lemma Ja3IgnoresGrease(h: Hello, k: Hello, m1: byte, m2: byte, a1: seq<byte>, a2: seq<byte>)
    requires Fits(h) && Fits(k) && h.version == k.version
    requires NonGrease(h.ciphers) == NonGrease(k.ciphers) && Real(h.extensions) == Real(k.extensions)
    ensures var r1 := JA3.Fingerprint(Record(h, m1) + a1, |Record(h, m1)|);
            var r2 := JA3.Fingerprint(Record(k, m2) + a2, |Record(k, m2)|);
            r1.Parsed? && r2.Parsed? && JA3.Raw(r1.value) == JA3.Raw(r2.value)
  {
    Ja3RoundTrip(h, m1, a1, |Record(h, m1)|);
    Ja3RoundTrip(k, m2, a2, |Record(k, m2)|);
    SameRealFields(h, k);
  }

  // ---- agreement ----

  /** Every payload is rejected by both parsers or by neither. When both accept it, the lists JA4 prints are the sorted
      permutations of those JA3 prints. */
  lemma ParsersAgree(mem: seq<byte>, n: nat)
    requires n <= |mem|
    ensures JA3.Fingerprint(mem, n).Rejected? <==> JA4.Fingerprint(mem, n).Rejected?
    ensures JA3.Fingerprint(mem, n).Parsed? && JA4.Fingerprint(mem, n).Parsed? ==>
              var f, g := JA3.Fingerprint(mem, n).value, JA4.Fingerprint(mem, n).value;
              && SortedVersion(Sorted(g.ciphers), f.ciphers)
              && SortedVersion(Sorted(g.extensions), f.extensions)
              && (g.version == "13" || g.version == JA4.VersionName(f.version))
  {
    SameDecision(Framing(mem, n));
  }

  lemma SameDecision(f: Outcome<Frame>)
    ensures JA3.Interpret(f).Rejected? <==> JA4.Interpret(f).Rejected?
    ensures JA3.Interpret(f).Parsed? && JA4.Interpret(f).Parsed? ==>
              var a, b := JA3.Interpret(f).value, JA4.Interpret(f).value;
              && SortedVersion(Sorted(b.ciphers), a.ciphers)
              && SortedVersion(Sorted(b.extensions), a.extensions)
              && (b.version == "13" || b.version == JA4.VersionName(a.version))
  {
    if JA4.Interpret(f).Parsed? {
      SortedSorts(JA4.Interpret(f).value.ciphers);
      SortedSorts(JA4.Interpret(f).value.extensions);
    }
  }

  /** The decoder asks both parsers. A payload gets both fingerprints or none, and decoding panics exactly on an odd
      list that ends memory: the ciphers, or in the last extension the groups, the versions or the signature
      algorithms. */
  method FingerprintPayload(mem: seq<byte>, n: nat, sha: JA4.Hash) returns (r: Outcome<(string, string)>)
    requires n <= |mem|
    ensures r.Panicked? <==> T.CiphersAtEdge(mem, n) || T.LastIs(Framing(mem, n), T.CurvesAtEdge)
                             || T.LastIs(Framing(mem, n), T.VersionsOrSigAlgsAtEdge)
    ensures r.Rejected? <==> JA3.Fingerprint(mem, n).Rejected?
    ensures r.Rejected? <==> JA4.Fingerprint(mem, n).Rejected?
    ensures r.Parsed? ==> JA3.Print(JA3.Fingerprint(mem, n)) == Parsed(r.value.0)
    ensures r.Parsed? ==> JA4.Print(JA4.Fingerprint(mem, n), sha) == Parsed(r.value.1)
  {
    T.PanicsApart(mem, n);
    ParsersAgree(mem, n);
    var ja3 := JA3.ParseClientHello(mem, n);
    if ja3.Panicked? {
      return Panicked;
    }
    var ja4 := JA4.CalculateJA4(mem, n, sha);
    if ja4.Panicked? {
      return Panicked;
    }
    r := if ja3.Parsed? && ja4.Parsed? then Parsed((ja3.value, ja4.value)) else Rejected;
  }

  /** The payload of the repository's own parser tests is 52 bytes long but declares a record of 0x32 = 50 bytes,
      which needs 55; both parsers reject it, where the tests expect it to parse. */
  lemma SyntheticTestPayloadRejected(mem: seq<byte>)
    requires |mem| == 52 && mem[3] == 0 && mem[4] == 0x32
    ensures JA3.Fingerprint(mem, |mem|).Rejected? && JA4.Fingerprint(mem, |mem|).Rejected?
  {
  }
}
