/** `ParseClientHello`: the order-preserving JA3 string of a payload. */
module JA3 {
  import opened Wire
  import opened Printing
  import opened ClientHello

  datatype Fields = Fields(
    version: uint16,
    ciphers: seq<uint16>,
    extensions: seq<uint16>,
    curves: seq<uint16>,
    points: seq<byte>)

  // ---- what one extension contributes ----

  predicate HasCurves(e: Entry) {
    e.Whole? && e.kind == 10 && e.len >= 2 && e.len >= 2 + Word(e.data)
  }

  function CurvesIn(e: Entry): seq<uint16> {
    if HasCurves(e) then NonGrease(Words(e.data[2..], Word(e.data))) else []
  }

  function PointsIn(e: Entry): seq<byte> {
    if e.Whole? && e.kind == 11 && e.len >= 1 && e.len >= 1 + e.data[0] as int
    then e.data[1..1 + e.data[0] as int] else []
  }

  /** The curve loop takes no slice beyond the backing array. */
  predicate Readable(e: Entry) {
    HasCurves(e) ==> ListFits(e.data[2..], Word(e.data))
  }

  predicate AllReadable(es: seq<Entry>) {
    forall e | e in es :: Readable(e)
  }

  function FieldsOf(f: Frame): Fields {
    Fields(f.version, NonGrease(f.ciphers), NonGrease(Kinds(f.entries)), Collect(f.entries, CurvesIn),
           Collect(f.entries, PointsIn))
  }

  /** The fields of a framed payload; an unreadable list panics. */
  function Interpret(f: Outcome<Frame>): Outcome<Fields> {
    match f
    case Panicked => Panicked
    case Rejected => Rejected
    case Parsed(v) => if AllReadable(v.entries) then Parsed(FieldsOf(v)) else Panicked
  }

  /** The fingerprint of the first `n` bytes of a backing array. */
  function Fingerprint(mem: seq<byte>, n: nat): Outcome<Fields>
    requires n <= |mem|
  {
    Interpret(Framing(mem, n))
  }

  // ---- the printed form ----

  function Raw(f: Fields): string {
    Dec(f.version) + "," + (Join(Decs(f.ciphers), '-') + "," + (Join(Decs(f.extensions), '-') + ","
      + (Join(Decs(f.curves), '-') + "," + Join(Decs(f.points), '-'))))
  }

  /** The string of the fields. */
  function Print(r: Outcome<Fields>): Outcome<string> {
    match r
    case Panicked => Panicked
    case Rejected => Rejected
    case Parsed(f) => Parsed(Raw(f))
  }

  lemma DecListHasNoComma(ws: seq<nat>)
    ensures ',' !in Join(Decs(ws), '-')
  {
    JoinAvoids(Decs(ws), '-', ',');
  }

  /** Five parts between commas: the decimal numeral of the version, and the dash-joined numerals of each list. */
  predicate IsRaw(s: string, f: Fields) {
    var parts := Split(s, ',');
    && |parts| == 5
    && IsDecimal(parts[0], f.version)
    && IsDecimalList(parts[1], '-', f.ciphers)
    && IsDecimalList(parts[2], '-', f.extensions)
    && IsDecimalList(parts[3], '-', f.curves)
    && IsDecimalList(parts[4], '-', f.points)
  }

  /** The string has five parts between commas, in which version and lists are printed in order and without leading
      zeros, and from which they are read back. */
  lemma RawReads(f: Fields)
    ensures IsRaw(Raw(f), f)
    ensures var parts := Split(Raw(f), ',');
            && |parts| == 5
            && ReadNumber(parts[0], 10) == f.version
            && ReadList(parts[1], '-', 10) == f.ciphers
            && ReadList(parts[2], '-', 10) == f.extensions
            && ReadList(parts[3], '-', 10) == f.curves
            && ReadList(parts[4], '-', 10) == f.points
  {
    var a, b, c := Dec(f.version), Join(Decs(f.ciphers), '-'), Join(Decs(f.extensions), '-');
    var d, e := Join(Decs(f.curves), '-'), Join(Decs(f.points), '-');
    DecListHasNoComma(f.ciphers);
    DecListHasNoComma(f.extensions);
    DecListHasNoComma(f.curves);
    DecListHasNoComma(f.points);
    FiveParts(a, b, c, d, e);
    DecimalExactly(a, f.version);
    DecListReads(f.ciphers);
    DecListReads(f.extensions);
    DecListReads(f.curves);
    DecListReads(f.points);
  }

  lemma FiveParts(a: string, b: string, c: string, d: string, e: string)
    requires ',' !in a && ',' !in b && ',' !in c && ',' !in d && ',' !in e
    ensures Split(a + "," + (b + "," + (c + "," + (d + "," + e))), ',') == [a, b, c, d, e]
  {
    SplitFirst(a, b + "," + (c + "," + (d + "," + e)), ',');
    SplitFirst(b, c + "," + (d + "," + e), ',');
    SplitFirst(c, d + "," + e, ',');
    SplitFirst(d, e, ',');
    SplitNone(e, ',');
  }

  /** The string is faithful: it determines the version and all four lists. */
  lemma RawFaithful(f: Fields, g: Fields)
    ensures Raw(f) == Raw(g) <==> f == g
  {
    RawReads(f);
    RawReads(g);
  }

  /** Every list shows: version 771, ciphers 47 and 53, extensions 0 and 10, group 29, point formats 0 and 1. */
  lemma RawOfLists()
    ensures Raw(Fields(771, [47, 53], [0, 10], [29], [0, 1])) == "771,47-53,0-10,29,0-1"
  {
    PairText(47, 53);
    PairText(0, 10);
    PairText(0, 1);
    PairText(0, 29);
    Numerals();
    Parts("771", "47-53", "0-10", "29", "0-1");
  }

  lemma Numerals()
    ensures Dec(771) == "771" && Dec(47) == "47" && Dec(53) == "53" && Dec(29) == "29" && Dec(10) == "10"
    ensures Dec(0) == "0" && Dec(1) == "1"
  {
    assert Dec(77) == "77";
  }

  lemma Parts(a: string, b: string, c: string, d: string, e: string)
    requires a == "771" && b == "47-53" && c == "0-10" && d == "29" && e == "0-1"
    ensures a + "," + (b + "," + (c + "," + (d + "," + e))) == "771,47-53,0-10,29,0-1"
  {
  }

  lemma PairText(a: nat, b: nat)
    ensures Join(Decs([a, b]), '-') == Dec(a) + "-" + Dec(b) && Join(Decs([b]), '-') == Dec(b)
  {
    assert Decs([a, b])[1..] == [Dec(b)];
  }

  /** The string the repository's test expects of a hello with one cipher and nothing else. */
  lemma RawExample()
    ensures Raw(Fields(771, [47], [], [], [])) == "771,47,,,"
  {
    assert Dec(771) == Dec(77) + [Digit(1)] && Dec(77) == Dec(7) + [Digit(7)] && Dec(47) == Dec(4) + [Digit(7)];
    assert Decs([47]) == [Dec(47)];
  }

  // ---- the extensions ----

  method ReadCurves(mem: seq<byte>, offset: nat, len: nat, kind: uint16) returns (fits: bool, curves: seq<uint16>)
    requires offset + len <= |mem|
    ensures fits <==> Readable(Whole(kind, len, mem[offset..]))
    ensures fits ==> curves == CurvesIn(Whole(kind, len, mem[offset..]))
  {
    fits, curves := true, [];
    if kind == 10 && len >= 2 {
      var curvesLen := mem[offset] as int * 256 + mem[offset + 1];
      assert curvesLen == Word(mem[offset..]);
      if len >= 2 + curvesLen {
        var has0304;
        fits, curves, has0304 := ReadWords(mem, offset + 2, curvesLen);
        assert mem[offset..][2..] == mem[offset + 2..];
      }
    }
  }

  method ReadPoints(mem: seq<byte>, offset: nat, len: nat, kind: uint16) returns (points: seq<byte>)
    requires offset + len <= |mem|
    ensures points == PointsIn(Whole(kind, len, mem[offset..]))
  {
    points := [];
    if kind == 11 && len >= 1 {
      var pLen := mem[offset];
      if len >= 1 + pLen as int {
        var pIdx := 0;
        while pIdx < pLen
          invariant 0 <= pIdx <= pLen
          invariant points == mem[offset + 1..offset + 1 + pIdx]
        {
          points := points + [mem[offset + 1 + pIdx]];
          pIdx := pIdx + 1;
        }
        assert mem[offset..][1..1 + pLen as int] == points;
      }
    }
  }

  method ReadBody(mem: seq<byte>, offset: nat, len: nat, kind: uint16)
    returns (fits: bool, curves: seq<uint16>, points: seq<byte>)
    requires offset + len <= |mem|
    ensures var e := Whole(kind, len, mem[offset..]);
            (fits <==> Readable(e)) && (fits ==> curves == CurvesIn(e) && points == PointsIn(e))
  {
    fits, curves := ReadCurves(mem, offset, len, kind);
    points := ReadPoints(mem, offset, len, kind);
  }

  /** What has been accumulated, completed by the entries still to come, is what all entries yield. */
  ghost predicate Accumulated(all: seq<Entry>, rest: seq<Entry>, extensions: seq<uint16>, curves: seq<uint16>,
                              points: seq<byte>) {
    && (AllReadable(all) <==> AllReadable(rest))
    && NonGrease(Kinds(all)) == extensions + NonGrease(Kinds(rest))
    && Collect(all, CurvesIn) == curves + Collect(rest, CurvesIn)
    && Collect(all, PointsIn) == points + Collect(rest, PointsIn)
  }

  lemma Accumulate(all: seq<Entry>, pending: seq<Entry>, e: Entry, rest: seq<Entry>,
                   extensions: seq<uint16>, curves: seq<uint16>, points: seq<byte>)
    requires pending == [e] + rest && Accumulated(all, pending, extensions, curves, points)
    ensures !Readable(e) ==> !AllReadable(all)
    ensures Readable(e) ==>
              Accumulated(all, rest, if IsGrease(e.kind) then extensions else extensions + [e.kind],
                          curves + CurvesIn(e), points + PointsIn(e))
  {
    AbsorbKind(extensions, e, rest);
    Absorb(curves, e, rest, CurvesIn);
    Absorb(points, e, rest, PointsIn);
    assert e in [e] + rest;
    assert forall x | x in [e] + rest :: x == e || x in rest;
    assert forall x | x in rest :: x in [e] + rest;
  }

  /** One turn of the walk: count the kind, then look into the body if the block holds it. */
  method ReadExtension(mem: seq<byte>, offset: nat, end: nat, extensions: seq<uint16>, curves: seq<uint16>,
                       points: seq<byte>, ghost all: seq<Entry>)
    returns (fits: bool, stop: bool, next: nat, xs: seq<uint16>, cs: seq<uint16>, ps: seq<byte>)
    requires offset + 4 <= end <= |mem|
    requires Accumulated(all, Walk(mem[offset..], end - offset), extensions, curves, points)
    ensures !fits ==> !AllReadable(all)
    ensures fits && stop ==> Accumulated(all, [], xs, cs, ps)
    ensures fits && !stop ==> offset < next <= end && Accumulated(all, Walk(mem[next..], end - next), xs, cs, ps)
  {
    var kind := mem[offset] as int * 256 + mem[offset + 1];
    var len := mem[offset + 2] as int * 256 + mem[offset + 3];
    next := offset + 4 + len;
    xs, cs, ps := extensions, curves, points;
    if !IsGrease(kind) {
      xs := xs + [kind];
    }
    fits, stop := true, next > end;
    if stop {
      TurnStops(mem, offset, end, kind, len, extensions, curves, points, all);
    } else {
      TurnGoesOn(mem, offset, next, end, kind, len, extensions, curves, points, all);
      fits, cs, ps := ReadBody(mem, offset + 4, len, kind);
      cs, ps := curves + cs, points + ps;
    }
  }

  lemma TurnStops(mem: seq<byte>, offset: nat, end: nat, kind: uint16, len: uint16,
                  extensions: seq<uint16>, curves: seq<uint16>, points: seq<byte>, all: seq<Entry>)
    requires HeaderAt(mem, offset, kind, len) && offset + 4 <= end <= |mem| && offset + 4 + len > end
    requires Accumulated(all, Walk(mem[offset..], end - offset), extensions, curves, points)
    ensures Accumulated(all, [], if IsGrease(kind) then extensions else extensions + [kind], curves, points)
  {
    var data := mem[offset..];
    WalkStops(mem, offset, end, kind, len, data);
    CutShort(all, Walk(data, end - offset), Truncated(kind), extensions, curves, points);
  }

  lemma CutShort(all: seq<Entry>, pending: seq<Entry>, e: Entry, extensions: seq<uint16>, curves: seq<uint16>,
                 points: seq<byte>)
    requires e.Truncated? && pending == [e] + [] && Accumulated(all, pending, extensions, curves, points)
    ensures Accumulated(all, [], if IsGrease(e.kind) then extensions else extensions + [e.kind], curves, points)
  {
    Accumulate(all, pending, e, [], extensions, curves, points);
    assert curves + [] == curves && points + [] == points;
  }

  lemma TurnGoesOn(mem: seq<byte>, offset: nat, next: nat, end: nat, kind: uint16, len: uint16,
                   extensions: seq<uint16>, curves: seq<uint16>, points: seq<byte>, all: seq<Entry>)
    requires HeaderAt(mem, offset, kind, len) && next == offset + 4 + len <= end <= |mem|
    requires Accumulated(all, Walk(mem[offset..], end - offset), extensions, curves, points)
    ensures var e := Whole(kind, len, mem[offset + 4..]);
            && (!Readable(e) ==> !AllReadable(all))
            && (Readable(e) ==>
                  Accumulated(all, Walk(mem[next..], end - next),
                              if IsGrease(kind) then extensions else extensions + [kind],
                              curves + CurvesIn(e), points + PointsIn(e)))
  {
    var data, body, rest := mem[offset..], mem[offset + 4..], mem[next..];
    WalkGoesOn(mem, offset, next, end, kind, len, data, body, rest);
    Accumulate(all, Walk(data, end - offset), Whole(kind, len, body), Walk(rest, end - next), extensions, curves,
               points);
  }

  method WalkExtensions(mem: seq<byte>, start: nat, end: nat)
    returns (fits: bool, extensions: seq<uint16>, curves: seq<uint16>, points: seq<byte>)
    requires start <= end <= |mem|
    ensures fits <==> AllReadable(Walk(mem[start..], end - start))
    ensures fits ==> Accumulated(Walk(mem[start..], end - start), [], extensions, curves, points)
  {
    extensions, curves, points := [], [], [];
    var offset := start;
    ghost var all := Walk(mem[start..], end - start);
    while offset + 4 <= end
      invariant start <= offset <= end
      invariant Accumulated(all, Walk(mem[offset..], end - offset), extensions, curves, points)
      decreases end - offset
    {
      var ok, stop, next;
      ok, stop, next, extensions, curves, points := ReadExtension(mem, offset, end, extensions, curves, points, all);
      if !ok {
        return false, [], [], [];
      }
      if stop {
        return true, extensions, curves, points;
      }
      offset := next;
    }
    fits := true;
  }

  lemma FieldsFrom(p: Prefix, f: Outcome<Frame>, mem: seq<byte>, fits: bool, extensions: seq<uint16>,
                   curves: seq<uint16>, points: seq<byte>)
    requires Reads(Parsed(p), f, mem)
    requires fits <==> AllReadable(Walk(mem[p.start..], p.end - p.start))
    requires fits ==> Accumulated(Walk(mem[p.start..], p.end - p.start), [], extensions, curves, points)
    ensures Interpret(f) == if fits then Parsed(Fields(p.version, p.ciphers, extensions, curves, points)) else Panicked
  {
    assert f.value.entries == Walk(mem[p.start..], p.end - p.start);
    if fits {
      assert Fields(p.version, p.ciphers, extensions, curves, points) == FieldsOf(f.value);
    }
  }

  // ---- the prefix ----

  /** From the record header to the extension block. */
  method ReadPrefix(mem: seq<byte>, n: nat) returns (r: Outcome<Prefix>)
    requires n <= |mem|
    ensures Reads(r, Framing(mem, n), mem)
  {
    r := ReadRecord(mem, n);
    PrefixReads(mem, n, r, Framing(mem, n));
  }

  method ReadRecord(mem: seq<byte>, n: nat) returns (r: Outcome<Prefix>)
    requires n <= |mem|
    ensures r == PrefixOf(mem, n)
  {
    if n < 45 {
      return Rejected;
    }
    if mem[0] != 0x16 || mem[1] != 0x03 {
      return Rejected;
    }
    var end := 5 + (mem[3] as int * 256 + mem[4]);
    if n < end {
      return Rejected;
    }
    if end - 5 < 38 || mem[5] != 0x01 {
      return Rejected;
    }
    var version := mem[9] as int * 256 + mem[10];
    var offset := 43;
    if offset >= end {
      return Rejected;
    }
    offset := offset + 1 + mem[offset];
    if offset + 2 > end {
      return Rejected;
    }
    r := ReadLists(mem, version, offset, end);
  }

  method ReadLists(mem: seq<byte>, version: uint16, start: nat, end: nat) returns (r: Outcome<Prefix>)
    requires start + 2 <= end <= |mem|
    ensures r == ListsAt(mem, version, start, end)
  {
    var offset := start;
    var cipherLen := mem[offset] as int * 256 + mem[offset + 1];
    offset := offset + 2;
    if offset + cipherLen > end {
      return Rejected;
    }
    var fits, ciphers, has0304 := ReadWords(mem, offset, cipherLen);
    if !fits {
      return Panicked;
    }
    offset := offset + cipherLen;
    if offset + 1 > end {
      return Rejected;
    }
    var p := ReadBlock(mem, version, ciphers, offset, end);
    r := Parsed(p);
  }

  method ReadBlock(mem: seq<byte>, version: uint16, ciphers: seq<uint16>, start: nat, end: nat) returns (p: Prefix)
    requires start + 1 <= end <= |mem|
    ensures p == BlockAt(mem, version, ciphers, start, end)
  {
    var offset := start + 1 + mem[start];
    if offset + 2 > end {
      return Prefix(version, ciphers, 0, 0);
    }
    var extLen := mem[offset] as int * 256 + mem[offset + 1];
    offset := offset + 2;
    var endExt := offset + extLen;
    if endExt > end {
      endExt := end;
    }
    p := Prefix(version, ciphers, offset, endExt);
  }

  lemma NotRead(p: Outcome<Prefix>, f: Outcome<Frame>, mem: seq<byte>)
    requires Reads(p, f, mem)
    ensures p.Panicked? ==> Interpret(f) == Panicked
    ensures p.Rejected? ==> Interpret(f) == Rejected
  {
  }

  method ReadBlockFields(mem: seq<byte>, p: Prefix, ghost f: Outcome<Frame>) returns (r: Outcome<Fields>)
    requires Reads(Parsed(p), f, mem)
    ensures r == Interpret(f)
  {
    var fits, extensions, curves, points := WalkExtensions(mem, p.start, p.end);
    FieldsFrom(p, f, mem, fits, extensions, curves, points);
    r := if fits then Parsed(Fields(p.version, p.ciphers, extensions, curves, points)) else Panicked;
  }

  /** The fields of a payload, `false`, or a slice out of range. */
  method ReadFields(mem: seq<byte>, n: nat) returns (r: Outcome<Fields>)
    requires n <= |mem|
    ensures r == Fingerprint(mem, n)
  {
    var prefix := ReadPrefix(mem, n);
    NotRead(prefix, Framing(mem, n), mem);
    match prefix
    case Panicked => r := Panicked;
    case Rejected => r := Rejected;
    case Parsed(p) => r := ReadBlockFields(mem, p, Framing(mem, n));
  }

  /** The parser reports the string of the fingerprint, `false`, or a slice out of range. */
  method ParseClientHello(mem: seq<byte>, n: nat) returns (r: Outcome<string>)
    requires n <= |mem|
    ensures r == Print(Fingerprint(mem, n))
  {
    var fields := ReadFields(mem, n);
    match fields
    case Panicked => r := Panicked;
    case Rejected => r := Rejected;
    case Parsed(f) => r := Parsed(Raw(f));
  }
}
