/** What bytes after the record can do: nothing, unless an odd-length list ends exactly where the record ends;
    then reading its last pair needs the next byte, and without one the slice expression panics. */
module TrailingBytes {
  import opened Wire
  import opened ClientHello
  import JA3
  import JA4

  function Extend(e: Entry, after: seq<byte>): Entry {
    match e
    case Truncated(k) => Truncated(k)
    case Whole(k, len, data) => Whole(k, len, data + after)
  }

  function ExtendAll(es: seq<Entry>, after: seq<byte>): seq<Entry> {
    if es == [] then [] else [Extend(es[0], after)] + ExtendAll(es[1..], after)
  }

  lemma {:induction false} WalkExtends(data: seq<byte>, end: nat, after: seq<byte>)
    requires end <= |data|
    ensures Walk(data + after, end) == ExtendAll(Walk(data, end), after)
    decreases end
  {
    if end >= 4 {
      var kind, len := Word(data), Word(data[2..]);
      assert Word(data + after) == kind;
      assert (data + after)[2..] == data[2..] + after;
      if 4 + len <= end {
        assert (data + after)[4..] == data[4..] + after;
        assert (data + after)[4 + len..] == data[4 + len..] + after;
        WalkExtends(data[4 + len..], end - 4 - len, after);
      }
    }
  }

  // ---- no byte needed, no byte used ----

  /** An entry reader that looks past the body only where `readable` fails. */
  ghost predicate Local<T(!new)>(f: Entry -> seq<T>, readable: Entry -> bool) {
    forall e: Entry, after: seq<byte> | readable(e) :: f(Extend(e, after)) == f(e)
  }

  ghost predicate Stable(readable: Entry -> bool) {
    forall e: Entry, after: seq<byte> | readable(e) :: readable(Extend(e, after))
  }

  lemma {:induction false} CollectLocal<T(!new)>(es: seq<Entry>, after: seq<byte>, f: Entry -> seq<T>,
                                          readable: Entry -> bool)
    requires Local(f, readable) && forall e | e in es :: readable(e)
    ensures Collect(ExtendAll(es, after), f) == Collect(es, f)
  {
    if es != [] {
      assert readable(es[0]);
      CollectLocal(es[1..], after, f, readable);
    }
  }

  lemma {:induction false} ExtendAllStable(es: seq<Entry>, after: seq<byte>, readable: Entry -> bool)
    requires Stable(readable) && forall e | e in es :: readable(e)
    ensures forall e | e in ExtendAll(es, after) :: readable(e)
    ensures Kinds(ExtendAll(es, after)) == Kinds(es)
  {
    if es != [] {
      assert readable(Extend(es[0], after));
      ExtendAllStable(es[1..], after, readable);
    }
  }

  lemma ListLocal(data: seq<byte>, skip: nat, len: nat, after: seq<byte>)
    requires skip <= |data| && ListFits(data[skip..], len)
    ensures ListFits((data + after)[skip..], len) && Words((data + after)[skip..], len) == Words(data[skip..], len)
  {
    assert (data + after)[skip..] == data[skip..] + after;
    WordsLocal(data[skip..], len, after);
  }

  lemma SameHead(data: seq<byte>, after: seq<byte>)
    ensures |data| >= 2 ==> Word(data + after) == Word(data)
    ensures |data| >= 1 ==> (data + after)[0] == data[0]
  {
  }

  lemma Ja3Local(e: Entry, after: seq<byte>)
    requires JA3.Readable(e)
    ensures JA3.Readable(Extend(e, after))
    ensures JA3.CurvesIn(Extend(e, after)) == JA3.CurvesIn(e) && JA3.PointsIn(Extend(e, after)) == JA3.PointsIn(e)
  {
    if e.Whole? {
      SameHead(e.data, after);
      if JA3.HasCurves(e) {
        ListLocal(e.data, 2, Word(e.data), after);
      }
    }
  }

  lemma Ja4Local(e: Entry, after: seq<byte>)
    requires JA4.Readable(e)
    ensures JA4.Readable(Extend(e, after))
    ensures JA4.NamesIn(Extend(e, after)) == JA4.NamesIn(e) && JA4.AlpnIn(Extend(e, after)) == JA4.AlpnIn(e)
    ensures JA4.VersionsIn(Extend(e, after)) == JA4.VersionsIn(e) && JA4.SigAlgsIn(Extend(e, after)) == JA4.SigAlgsIn(e)
  {
    if e.Whole? {
      SameHead(e.data, after);
      if JA4.HasVersions(e) {
        ListLocal(e.data, 1, e.data[0], after);
      }
      if JA4.HasSigAlgs(e) {
        ListLocal(e.data, 2, Word(e.data), after);
      }
    }
  }

  /** A complete record: its length field counts exactly the bytes after the header. */
  predicate IsRecord(rec: seq<byte>) {
    |rec| >= 5 && |rec| == 5 + (rec[3] as int * 256 + rec[4])
  }

  ghost predicate Extended(f: Outcome<Frame>, g: Outcome<Frame>, after: seq<byte>) {
    match f
    case Panicked => true
    case Rejected => g == Rejected
    case Parsed(v) => g == Parsed(v.(entries := ExtendAll(v.entries, after)))
  }

  lemma DropOfMore(data: seq<byte>, after: seq<byte>, k: nat, mem: seq<byte>)
    requires k <= |data| && mem == data + after
    ensures mem[k..] == data[k..] + after
  {
  }

  lemma CompressionExtends(version: uint16, ciphers: seq<uint16>, data: seq<byte>, after: seq<byte>, mem: seq<byte>)
    requires mem == data + after
    ensures Extended(FromCompression(version, ciphers, data, |data|), FromCompression(version, ciphers, mem, |data|),
                     after)
  {
    if |data| >= 1 {
      SameHead(data, after);
      var k := 1 + data[0] as int;
      if |data| < k + 2 {
        NoBlockFrame(version, ciphers, data, |data|);
        NoBlockFrame(version, ciphers, mem, |data|);
      } else {
        var ext, more := data[k..], mem[k..];
        DropOfMore(data, after, k, mem);
        CompressionSkips(version, ciphers, data, |data|, ext);
        CompressionSkips(version, ciphers, mem, |data|, more);
        BlockExtends(ext, after, more);
      }
    }
  }

  lemma BlockExtends(ext: seq<byte>, after: seq<byte>, more: seq<byte>)
    requires |ext| >= 2 && more == ext + after
    ensures Extensions(more, |ext|) == ExtendAll(Extensions(ext, |ext|), after)
  {
    SameHead(ext, after);
    DropOfMore(ext, after, 2, more);
    ExtensionsFrom(ext, |ext|, Word(ext), ext[2..]);
    ExtensionsFrom(more, |ext|, Word(ext), more[2..]);
    WalkExtends(ext[2..], if 2 + Word(ext) <= |ext| then Word(ext) else |ext| - 2, after);
  }

  lemma CiphersExtend(version: uint16, data: seq<byte>, after: seq<byte>, mem: seq<byte>)
    requires mem == data + after
    ensures Extended(FromCiphers(version, data, |data|), FromCiphers(version, mem, |data|), after)
  {
    SameHead(data, after);
    if |data| >= 2 && 2 + Word(data) <= |data| {
      var len := Word(data);
      var list, rest, longer, more := data[2..], data[2 + len..], mem[2..], mem[2 + len..];
      DropOfMore(data, after, 2, mem);
      DropOfMore(data, after, 2 + len as int, mem);
      CiphersSkip(version, data, |data|, list, len, rest);
      CiphersSkip(version, mem, |data|, longer, len, more);
      if ListFits(list, len) {
        WordsLocal(list, len, after);
        CompressionExtends(version, Words(list, len), rest, after, more);
      }
    }
  }

  lemma SameBytes(rec: seq<byte>, after: seq<byte>, mem: seq<byte>)
    requires mem == rec + after
    ensures forall i | 0 <= i < |rec| :: mem[i] == rec[i]
  {
  }

  lemma FramingExtends(rec: seq<byte>, after: seq<byte>, n: nat)
    requires IsRecord(rec) && |rec| <= n <= |rec + after|
    ensures Extended(Framing(rec, |rec|), Framing(rec + after, n), after)
  {
    var mem := rec + after;
    SameBytes(rec, after, mem);
    if |rec| < 45 {
      ShortRecordRejected(mem, n);
    } else if rec[0] != 0x16 || rec[1] != 0x03 || rec[5] != 0x01 || |rec| < 46 + rec[43] as int {
      FramingRejects(rec, |rec|);
      FramingRejects(mem, n);
    } else {
      var k: nat, version: uint16 := 44 + rec[43] as int, rec[9] as int * 256 + rec[10];
      DropOfMore(rec, after, k, mem);
      FramingSkips(rec, |rec|, version, k, |rec|, rec[k..]);
      FramingSkips(mem, n, version, k, |rec|, mem[k..]);
      CiphersExtend(version, rec[k..], after, mem[k..]);
    }
  }

  lemma ShortRecordRejected(mem: seq<byte>, n: nat)
    requires 5 <= n <= |mem| && 5 + (mem[3] as int * 256 + mem[4]) < 45
    ensures Framing(mem, n) == Rejected
  {
    FramingRejects(mem, n);
  }

  /** If the record alone can be read without leaving it, nothing after it matters to JA3. */
  lemma Ja3IgnoresTrailingBytes(rec: seq<byte>, after: seq<byte>, n: nat)
    requires IsRecord(rec) && |rec| <= n <= |rec + after|
    requires !JA3.Fingerprint(rec, |rec|).Panicked?
    ensures JA3.Fingerprint(rec + after, n) == JA3.Fingerprint(rec, |rec|)
  {
    FramingExtends(rec, after, n);
    if Framing(rec, |rec|).Parsed? {
      var es := Framing(rec, |rec|).value.entries;
      forall e: Entry, t: seq<byte> | JA3.Readable(e)
        ensures JA3.Readable(Extend(e, t))
        ensures JA3.CurvesIn(Extend(e, t)) == JA3.CurvesIn(e) && JA3.PointsIn(Extend(e, t)) == JA3.PointsIn(e)
      {
        Ja3Local(e, t);
      }
      ExtendAllStable(es, after, JA3.Readable);
      CollectLocal(es, after, JA3.CurvesIn, JA3.Readable);
      CollectLocal(es, after, JA3.PointsIn, JA3.Readable);
    }
  }

  /** The same for JA4. */
  lemma Ja4IgnoresTrailingBytes(rec: seq<byte>, after: seq<byte>, n: nat)
    requires IsRecord(rec) && |rec| <= n <= |rec + after|
    requires !JA4.Fingerprint(rec, |rec|).Panicked?
    ensures JA4.Fingerprint(rec + after, n) == JA4.Fingerprint(rec, |rec|)
  {
    FramingExtends(rec, after, n);
    if Framing(rec, |rec|).Parsed? {
      var es := Framing(rec, |rec|).value.entries;
      forall e: Entry, t: seq<byte> | JA4.Readable(e)
        ensures JA4.Readable(Extend(e, t))
        ensures JA4.NamesIn(Extend(e, t)) == JA4.NamesIn(e) && JA4.AlpnIn(Extend(e, t)) == JA4.AlpnIn(e)
        ensures JA4.VersionsIn(Extend(e, t)) == JA4.VersionsIn(e) && JA4.SigAlgsIn(Extend(e, t)) == JA4.SigAlgsIn(e)
      {
        Ja4Local(e, t);
      }
      ExtendAllStable(es, after, JA4.Readable);
      CollectLocal(es, after, JA4.NamesIn, JA4.Readable);
      CollectLocal<char>(es, after, JA4.AlpnIn, JA4.Readable);
      CollectLocal(es, after, JA4.VersionsIn, JA4.Readable);
      CollectLocal(es, after, JA4.SigAlgsIn, JA4.Readable);
    }
  }

  // ---- when the slices panic ----

  /** A list of odd length that ends memory. */
  predicate OddListAtEdge(data: seq<byte>, len: nat) {
    len % 2 == 1 && |data| == len
  }

  lemma FitsUnlessOddAtEdge(data: seq<byte>, len: nat)
    requires len <= |data|
    ensures ListFits(data, len) <==> !OddListAtEdge(data, len)
  {
  }

  /** Every entry of a walk that stops `spare` bytes before the end of memory has them after its body. */
  lemma {:induction false} WalkLeaves(data: seq<byte>, end: nat, spare: nat)
    requires end + spare <= |data|
    ensures forall e | e in Walk(data, end) && e.Whole? :: e.len + spare <= |e.data|
    decreases end
  {
    if end >= 4 && 4 + Word(data[2..]) <= end {
      var len := Word(data[2..]);
      WalkLeaves(data[4 + len..], end - 4 - len, spare);
    }
  }

  /** No list panics, in either parser. */
  ghost predicate Fine(f: Outcome<Frame>) {
    !f.Panicked? && (f.Parsed? ==> JA3.AllReadable(f.value.entries) && JA4.AllReadable(f.value.entries))
  }

  lemma FineWalk(data: seq<byte>, end: nat)
    requires end < |data|
    ensures JA3.AllReadable(Walk(data, end)) && JA4.AllReadable(Walk(data, end))
  {
    WalkLeaves(data, end, 1);
    forall e | e in Walk(data, end) ensures JA3.Readable(e) && JA4.Readable(e) {
      SpareReadable(e);
    }
  }

  lemma SpareReadable(e: Entry)
    requires e.Whole? ==> e.len < |e.data|
    ensures JA3.Readable(e) && JA4.Readable(e)
  {
    if JA3.HasCurves(e) { FitsUnlessOddAtEdge(e.data[2..], Word(e.data)); }
    if JA4.HasVersions(e) { FitsUnlessOddAtEdge(e.data[1..], e.data[0]); }
    if JA4.HasSigAlgs(e) { FitsUnlessOddAtEdge(e.data[2..], Word(e.data)); }
  }

  lemma FineBlock(version: uint16, ciphers: seq<uint16>, data: seq<byte>, left: nat)
    requires left < |data|
    ensures Fine(FromCompression(version, ciphers, data, left))
  {
    if 1 <= left < 3 + data[0] as int {
      NoBlockFrame(version, ciphers, data, left);
    } else if left >= 1 {
      var ext, l := data[1 + data[0] as int..], left - 1 - data[0];
      CompressionSkips(version, ciphers, data, left, ext);
      ExtensionsFrom(ext, l, Word(ext), ext[2..]);
      FineWalk(ext[2..], if 2 + Word(ext) <= l then Word(ext) else l - 2);
    }
  }

  lemma FineCiphers(version: uint16, data: seq<byte>, left: nat)
    requires left < |data|
    ensures Fine(FromCiphers(version, data, left))
  {
    if left >= 2 && 2 + Word(data) <= left {
      var len := Word(data);
      var list, rest := data[2..], data[2 + len..];
      FitsUnlessOddAtEdge(list, len);
      CiphersSkip(version, data, left, list, len, rest);
      FineBlock(version, Words(list, len), rest, left - 2 - len);
    }
  }

  /** One spare byte of memory after the record is enough: neither parser can panic then. */
  lemma SpareByteNoPanic(mem: seq<byte>, n: nat)
    requires n <= |mem| && |mem| >= 5 && 5 + (mem[3] as int * 256 + mem[4]) < |mem|
    ensures !JA3.Fingerprint(mem, n).Panicked? && !JA4.Fingerprint(mem, n).Panicked?
  {
    var end := 5 + (mem[3] as int * 256 + mem[4]);
    if n < 45 || mem[0] != 0x16 || mem[1] != 0x03 || n < end || mem[5] != 0x01 || 46 + mem[43] as int > end {
      FramingRejects(mem, n);
    } else {
      var k, version := 44 + mem[43] as int, mem[9] as int * 256 + mem[10];
      FramingSkips(mem, n, version, k, end, mem[k..]);
      FineCiphers(version, mem[k..], end - k);
    }
  }

  // ---- exactly which payloads panic ----

  /** Record and memory end together, and the cipher list, of odd length, ends with them. */
  predicate CiphersAtEdge(mem: seq<byte>, n: nat)
    requires n <= |mem|
  {
    && 45 <= n && mem[0] == 0x16 && mem[1] == 0x03 && mem[5] == 0x01
    && n == |mem| == 5 + (mem[3] as int * 256 + mem[4])
    && var start := 44 + mem[43] as int;
    && start + 2 <= n
    && var len := mem[start] as int * 256 + mem[start + 1];
    && len % 2 == 1 && start + 2 + len == n
  }

  /** A list of `len` bytes behind its length field of `field` bytes fills the body, which ends memory, and is odd. */
  predicate FillsOddly(e: Entry, field: nat, len: nat) {
    e.Whole? && e.len == |e.data| == field + len && len % 2 == 1
  }

  /** The group list of the extension has odd length and ends memory. */
  predicate CurvesAtEdge(e: Entry) {
    e.Whole? && e.kind == 10 && |e.data| >= 2 && FillsOddly(e, 2, e.data[0] as int * 256 + e.data[1])
  }

  predicate VersionsAtEdge(e: Entry) {
    e.Whole? && e.kind == 43 && |e.data| >= 1 && FillsOddly(e, 1, e.data[0])
  }

  predicate SigAlgsAtEdge(e: Entry) {
    e.Whole? && e.kind == 13 && |e.data| >= 2 && FillsOddly(e, 2, e.data[0] as int * 256 + e.data[1])
  }

  predicate VersionsOrSigAlgsAtEdge(e: Entry) {
    VersionsAtEdge(e) || SigAlgsAtEdge(e)
  }

  /** The last extension of an accepted record. */
  ghost predicate LastIs(f: Outcome<Frame>, at: Entry -> bool) {
    f.Parsed? && f.value.entries != [] && at(f.value.entries[|f.value.entries| - 1])
  }

  lemma UnreadableAtEdge(e: Entry)
    ensures !JA3.Readable(e) <==> CurvesAtEdge(e)
    ensures !JA4.Readable(e) <==> VersionsOrSigAlgsAtEdge(e)
    ensures CurvesAtEdge(e) || VersionsOrSigAlgsAtEdge(e) ==> e.Whole? && e.len == |e.data|
  {
    if JA3.HasCurves(e) { FitsUnlessOddAtEdge(e.data[2..], Word(e.data)); }
    if JA4.HasVersions(e) { FitsUnlessOddAtEdge(e.data[1..], e.data[0]); }
    if JA4.HasSigAlgs(e) { FitsUnlessOddAtEdge(e.data[2..], Word(e.data)); }
  }

  /** An extension whose body ends memory ends the walk. */
  lemma {:induction false} EdgeEndsWalk(data: seq<byte>, end: nat, e: Entry)
    requires end <= |data| && e in Walk(data, end) && e.Whole? && e.len == |e.data|
    ensures e == Walk(data, end)[|Walk(data, end)| - 1]
    decreases end
  {
    var len := Word(data[2..]);
    if 4 + len <= end {
      var body, rest := data[4..], data[4 + len..];
      WalkFrom(data, end, Word(data), len, body, rest);
      var first, others := Whole(Word(data), len, body), Walk(rest, end - 4 - len);
      assert Walk(data, end) == [first] + others;
      if e in others {
        EdgeEndsWalk(rest, end - 4 - len, e);
      } else {
        assert e == first && others == [];
      }
    }
  }

  lemma FramedWalk(mem: seq<byte>, n: nat) returns (data: seq<byte>, end: nat)
    requires n <= |mem| && Framing(mem, n).Parsed?
    ensures end <= |data| && Framing(mem, n).value.entries == Walk(data, end)
  {
    PrefixReads(mem, n, PrefixOf(mem, n), Framing(mem, n));
    var p := PrefixOf(mem, n).value;
    data, end := mem[p.start..], p.end - p.start;
  }

  /** Either all entries of an accepted record are readable, or the last one alone is not. */
  lemma UnreadableIsLast(mem: seq<byte>, n: nat)
    requires n <= |mem| && Framing(mem, n).Parsed?
    ensures var f := Framing(mem, n);
            && (!JA3.AllReadable(f.value.entries) <==> LastIs(f, CurvesAtEdge))
            && (!JA4.AllReadable(f.value.entries) <==> LastIs(f, VersionsOrSigAlgsAtEdge))
  {
    var data, end := FramedWalk(mem, n);
    var es := Walk(data, end);
    forall e | e in es
      ensures !JA3.Readable(e) <==> CurvesAtEdge(e)
      ensures !JA4.Readable(e) <==> VersionsOrSigAlgsAtEdge(e)
      ensures CurvesAtEdge(e) || VersionsOrSigAlgsAtEdge(e) ==> e == es[|es| - 1]
    {
      UnreadableAtEdge(e);
      if CurvesAtEdge(e) || VersionsOrSigAlgsAtEdge(e) {
        EdgeEndsWalk(data, end, e);
      }
    }
    assert es != [] ==> es[|es| - 1] in es;
  }

  /** The cipher loop leaves memory exactly there. */
  lemma FramingPanicsExactly(mem: seq<byte>, n: nat)
    requires n <= |mem|
    ensures Framing(mem, n).Panicked? <==> CiphersAtEdge(mem, n)
  {
    if n < 45 || mem[0] != 0x16 || mem[1] != 0x03 {
      FramingRejects(mem, n);
    } else {
      var end, start := 5 + (mem[3] as int * 256 + mem[4]), 44 + mem[43] as int;
      if n < end || mem[5] != 0x01 || start + 2 > end {
        FramingRejects(mem, n);
      } else {
        var version, data := mem[9] as int * 256 + mem[10], mem[start..];
        FramingSkips(mem, n, version, start, end, data);
        CiphersPanicExactly(mem, version, start, end, data);
      }
    }
  }

  lemma CiphersPanicExactly(mem: seq<byte>, version: uint16, start: nat, end: nat, data: seq<byte>)
    requires start + 2 <= end <= |mem| && data == mem[start..]
    ensures FromCiphers(version, data, end - start).Panicked?
       <==> var len := mem[start] as int * 256 + mem[start + 1]; len % 2 == 1 && start + 2 + len == end == |mem|
  {
    var len := mem[start] as int * 256 + mem[start + 1];
    if start + 2 + len > end {
      ByteAt(mem, start, data, 0);
      ByteAt(mem, start, data, 1);
    } else {
      var list, rest := mem[start + 2..], mem[start + 2 + len..];
      CiphersAt(mem, version, start, end, len, data, list, rest);
      FitsUnlessOddAtEdge(list, len);
    }
  }

  /** JA3 panics exactly on a payload whose odd cipher list, or whose odd group list in the last extension, ends where
      memory ends. */
  lemma Ja3PanicsExactly(mem: seq<byte>, n: nat)
    requires n <= |mem|
    ensures JA3.Fingerprint(mem, n).Panicked? <==> CiphersAtEdge(mem, n) || LastIs(Framing(mem, n), CurvesAtEdge)
  {
    FramingPanicsExactly(mem, n);
    if Framing(mem, n).Parsed? {
      UnreadableIsLast(mem, n);
    }
  }

  /** JA4 does with an odd cipher list, or an odd list of versions or signature algorithms in the last extension. */
  lemma Ja4PanicsExactly(mem: seq<byte>, n: nat)
    requires n <= |mem|
    ensures JA4.Fingerprint(mem, n).Panicked?
            <==> CiphersAtEdge(mem, n) || LastIs(Framing(mem, n), VersionsOrSigAlgsAtEdge)
  {
    FramingPanicsExactly(mem, n);
    if Framing(mem, n).Parsed? {
      UnreadableIsLast(mem, n);
    }
  }

  /** Both panic exactly on the cipher list, and each alone exactly on its own last extension. */
  lemma PanicsApart(mem: seq<byte>, n: nat)
    requires n <= |mem|
    ensures var p3, p4 := JA3.Fingerprint(mem, n).Panicked?, JA4.Fingerprint(mem, n).Panicked?;
            && (p3 && p4 <==> CiphersAtEdge(mem, n))
            && (p3 && !p4 <==> LastIs(Framing(mem, n), CurvesAtEdge))
            && (!p3 && p4 <==> LastIs(Framing(mem, n), VersionsOrSigAlgsAtEdge))
  {
    Ja3PanicsExactly(mem, n);
    Ja4PanicsExactly(mem, n);
    FramingPanicsExactly(mem, n);
  }

  // ---- exactly when the bytes after a record matter ----

  /** Bytes after a record never matter to JA3 exactly when no odd cipher list, and no odd group list in the last
      extension, ends the record. */
  lemma Ja3TrailingBytesExactly(rec: seq<byte>)
    requires IsRecord(rec)
    ensures (forall after: seq<byte> :: JA3.Fingerprint(rec + after, |rec + after|) == JA3.Fingerprint(rec, |rec|))
       <==> !CiphersAtEdge(rec, |rec|) && !LastIs(Framing(rec, |rec|), CurvesAtEdge)
  {
    Ja3PanicsExactly(rec, |rec|);
    if JA3.Fingerprint(rec, |rec|).Panicked? {
      SpareByteNoPanic(rec + [0], |rec + [0]|);
    } else {
      forall after: seq<byte> ensures JA3.Fingerprint(rec + after, |rec + after|) == JA3.Fingerprint(rec, |rec|) {
        Ja3IgnoresTrailingBytes(rec, after, |rec + after|);
      }
    }
  }

  /** The same for JA4, with the versions and the signature algorithms. */
  lemma Ja4TrailingBytesExactly(rec: seq<byte>)
    requires IsRecord(rec)
    ensures (forall after: seq<byte> :: JA4.Fingerprint(rec + after, |rec + after|) == JA4.Fingerprint(rec, |rec|))
       <==> !CiphersAtEdge(rec, |rec|) && !LastIs(Framing(rec, |rec|), VersionsOrSigAlgsAtEdge)
  {
    Ja4PanicsExactly(rec, |rec|);
    if JA4.Fingerprint(rec, |rec|).Panicked? {
      SpareByteNoPanic(rec + [0], |rec + [0]|);
    } else {
      forall after: seq<byte> ensures JA4.Fingerprint(rec + after, |rec + after|) == JA4.Fingerprint(rec, |rec|) {
        Ja4IgnoresTrailingBytes(rec, after, |rec + after|);
      }
    }
  }

  // ---- two records that panic ----

  /** The header and random of a record with `left` bytes after its version, and an empty session id. */
  function Opening(left: byte): (s: seq<byte>)
    ensures |s| == 44
  {
    [0x16, 0x03, 0x01, 0, left, 0x01, 0, 0, 0, 0x03, 0x03] + seq(32, _ => 0) + [0]
  }

  /** A record whose cipher list is the single byte 0x13. */
  const ONE_BYTE_CIPHER: seq<byte> := Opening(42) + [0, 1, 0x13]

  lemma OneCipherBytes(mem: seq<byte>, tail: seq<byte>)
    requires mem == ONE_BYTE_CIPHER + tail
    ensures |mem| >= 47 && mem[0] == 0x16 && mem[1] == 0x03 && mem[3] == 0 && mem[4] == 42 && mem[5] == 0x01
    ensures mem[43] == 0 && mem[44] == 0 && mem[45] == 1
  {
  }

  lemma OneCipherRejected(mem: seq<byte>)
    requires |mem| > 47 && mem[0] == 0x16 && mem[1] == 0x03 && mem[3] == 0 && mem[4] == 42 && mem[5] == 0x01
    requires mem[43] == 0 && mem[44] == 0 && mem[45] == 1
    ensures Framing(mem, 47) == Rejected
  {
    PrefixReads(mem, 47, PrefixOf(mem, 47), Framing(mem, 47));
  }

  /** A cipher list of one byte at the end makes both parsers panic; with a byte after it both reject. */
  lemma OneByteCipherPanics(y: byte)
    ensures JA3.Fingerprint(ONE_BYTE_CIPHER, 47).Panicked? && JA4.Fingerprint(ONE_BYTE_CIPHER, 47).Panicked?
    ensures JA3.Fingerprint(ONE_BYTE_CIPHER + [y], 47).Rejected? && JA4.Fingerprint(ONE_BYTE_CIPHER + [y], 47).Rejected?
  {
    assert ONE_BYTE_CIPHER + [] == ONE_BYTE_CIPHER;
    OneCipherBytes(ONE_BYTE_CIPHER, []);
    PanicsApart(ONE_BYTE_CIPHER, 47);
    OneCipherBytes(ONE_BYTE_CIPHER + [y], [y]);
    OneCipherRejected(ONE_BYTE_CIPHER + [y]);
  }

  /** A record whose only extension declares a group list of the single byte 0x1d. */
  const ONE_BYTE_GROUP: seq<byte> := Opening(54) + [0, 2, 0, 0x2f, 1, 0, 0, 7, 0, 10, 0, 3, 0, 1, 0x1d]

  lemma OneGroupWalk(block: seq<byte>, body: seq<byte>)
    requires block == [0, 10, 0, 3] + body && |body| >= 3
    ensures Walk(block, 7) == [Whole(10, 3, body)]
  {
    HeaderWords(block, 0, 10, 3);
    assert block[0..] == block && block[4..] == body;
    WalkFrom(block, 7, 10, 3, body, block[7..]);
    assert Walk(block[7..], 0) == [];
  }

  lemma OneGroupBlock(mem: seq<byte>, rest: seq<byte>, block: seq<byte>, body: seq<byte>)
    requires |mem| >= 59 && rest == mem[48..] && block == mem[52..] && block == [0, 10, 0, 3] + body
    requires mem[48] == 1 && mem[50] == 0 && mem[51] == 7
    ensures FromCompression(0x0303, [0x2f], rest, 11) == Parsed(Frame(0x0303, [0x2f], [Whole(10, 3, body)]))
  {
    BlockFrame(mem, [0x2f], 0x0303, 48, 59, 50, 7, rest, mem[50..], block);
    OneGroupWalk(block, body);
  }

  lemma OneGroupCiphers(mem: seq<byte>, data: seq<byte>, rest: seq<byte>)
    requires |mem| >= 59 && data == mem[44..] && rest == mem[48..]
    requires mem[44] == 0 && mem[45] == 2 && mem[46] == 0 && mem[47] == 0x2f
    ensures FromCiphers(0x0303, data, 15) == FromCompression(0x0303, [0x2f], rest, 11)
  {
    var list := mem[46..];
    CiphersAt(mem, 0x0303, 44, 59, 2, data, list, rest);
    OneWord(list);
  }

  predicate OneGroupBytes(mem: seq<byte>) {
    && |mem| >= 59
    && mem[0] == 0x16 && mem[1] == 0x03 && mem[3] == 0 && mem[4] == 54 && mem[5] == 0x01
    && mem[9] == 0x03 && mem[10] == 0x03
    && mem[43] == 0 && mem[44] == 0 && mem[45] == 2 && mem[46] == 0 && mem[47] == 0x2f
    && mem[48] == 1 && mem[50] == 0 && mem[51] == 7
  }

  lemma OneGroupRead(mem: seq<byte>, data: seq<byte>, rest: seq<byte>, block: seq<byte>, body: seq<byte>)
    requires OneGroupBytes(mem) && data == mem[44..] && rest == mem[48..] && block == mem[52..]
             && block == [0, 10, 0, 3] + body
    ensures Framing(mem, 59) == Parsed(Frame(0x0303, [0x2f], [Whole(10, 3, body)]))
  {
    FramingSkips(mem, 59, 0x0303, 44, 59, data);
    OneGroupCiphers(mem, data, rest);
    OneGroupBlock(mem, rest, block, body);
  }

  lemma OneGroupParts(mem: seq<byte>, tail: seq<byte>, body: seq<byte>)
    requires mem == ONE_BYTE_GROUP + tail && body == [0, 1, 0x1d] + tail
    ensures OneGroupBytes(mem) && mem[52..] == [0, 10, 0, 3] + body
  {
  }

  lemma OneGroupFraming(mem: seq<byte>, tail: seq<byte>, body: seq<byte>)
    requires mem == ONE_BYTE_GROUP + tail && body == [0, 1, 0x1d] + tail
    ensures Framing(mem, 59) == Parsed(Frame(0x0303, [0x2f], [Whole(10, 3, body)]))
  {
    OneGroupParts(mem, tail, body);
    OneGroupRead(mem, mem[44..], mem[48..], mem[52..], body);
  }

  lemma OneWord(list: seq<byte>)
    requires |list| >= 2 && list[0] == 0 && list[1] == 0x2f
    ensures Words(list, 2) == [0x2f]
  {
    assert Words(list[2..], 0) == [];
  }

  lemma ByteGroupAtEdge(e: Entry)
    requires e == Whole(10, 3, [0, 1, 0x1d])
    ensures CurvesAtEdge(e)
  {
    assert e.data[2..] == [0x1d];
  }

  lemma LastGroupAtEdge(f: Outcome<Frame>, e: Entry)
    requires e == Whole(10, 3, [0, 1, 0x1d]) && f == Parsed(Frame(0x0303, [0x2f], [e]))
    ensures LastIs(f, CurvesAtEdge)
  {
    ByteGroupAtEdge(e);
  }

  lemma ByteGroupReads(e: Entry, y: byte)
    requires e == Whole(10, 3, [0, 1, 0x1d, y])
    ensures JA3.Readable(e) && JA3.CurvesIn(e) == NonGrease([0x1d00 + y]) && JA3.PointsIn(e) == []
  {
    var list := e.data[2..];
    assert list == [0x1d, y];
    assert Words(list[2..], 0) == [];
    assert Words(list, 1) == [0x1d00 + y];
  }

  lemma CollectOne<T>(e: Entry, f: Entry -> seq<T>)
    ensures Collect([e], f) == f(e)
  {
    assert [e][1..] == [];
  }

  lemma OneGroupFields(e: Entry, y: byte)
    requires e == Whole(10, 3, [0, 1, 0x1d, y])
    ensures JA3.Interpret(Parsed(Frame(0x0303, [0x2f], [e])))
         == Parsed(JA3.Fields(0x0303, [0x2f], [10], NonGrease([0x1d00 + y]), []))
  {
    SmallNotGrease(10);
    SmallNotGrease(0x2f);
    ByteGroupReads(e, y);
    CollectOne(e, JA3.CurvesIn);
    CollectOne(e, JA3.PointsIn);
    assert [e][1..] == [];
    assert Kinds([e]) == [10];
    assert NonGrease([10]) == [10] && NonGrease([0x2f]) == [0x2f];
    assert JA3.FieldsOf(Frame(0x0303, [0x2f], [e])) == JA3.Fields(0x0303, [0x2f], [10], NonGrease([0x1d00 + y]), []);
  }

  /** A group list of one byte at the end makes JA3 alone panic. */
  lemma OneByteGroupPanics()
    ensures JA3.Fingerprint(ONE_BYTE_GROUP, 59).Panicked? && !JA4.Fingerprint(ONE_BYTE_GROUP, 59).Panicked?
  {
    var e: Entry := Whole(10, 3, [0, 1, 0x1d]);
    assert ONE_BYTE_GROUP + [] == ONE_BYTE_GROUP;
    OneGroupFraming(ONE_BYTE_GROUP, [], e.data);
    LastGroupAtEdge(Framing(ONE_BYTE_GROUP, 59), e);
    PanicsApart(ONE_BYTE_GROUP, 59);
  }

  /** With a byte after that record, the byte shows in the fingerprint. */
  lemma NextByteShows(y: byte)
    ensures JA3.Fingerprint(ONE_BYTE_GROUP + [y], 59)
            == Parsed(JA3.Fields(0x0303, [0x2f], [10], NonGrease([0x1d00 + y]), []))
  {
    var e: Entry := Whole(10, 3, [0, 1, 0x1d, y]);
    OneGroupFraming(ONE_BYTE_GROUP + [y], [y], e.data);
    OneGroupFields(e, y);
  }
}
